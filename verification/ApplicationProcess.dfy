/** Building a command line for a POSIX shell, and the shell's reading of it. */
module ApplicationProcess {
  import opened Options
  import opened Text

  const QUOTE := "'"
  const ESCAPED_QUOTE := "'\\''"

  /** The POSIX branch: quote the whole argument, leave the quotes for each quote inside it. */
  function QuoteArg(arg: string): string {
    QUOTE + ReplaceAll(arg, QUOTE, ESCAPED_QUOTE) + QUOTE
  }

  function BuildCommandLine(command: string, args: seq<string>): string {
    var words := [command] + args;
    Join(seq(|words|, i requires 0 <= i < |words| => QuoteArg(words[i])), " ")
  }

  /** Characters that mean something to the shell, or may, when they are not quoted. */
  predicate IsSpecial(c: char) {
    c in "|&;<>()$`\"\n*?[#~=%"
  }

  /** The words of a command line by sections 2.2.1, 2.2.2 and 2.3 of the POSIX.1-2017 Shell Command
      Language, with the word read so far, if one has begun. None when a quotation is unfinished or an
      unquoted special character calls for another rule. */
  function Tokenize(s: string, word: Option<string>): Option<seq<string>>
    decreases |s|
  {
    if s == "" then Some(if word == None then [] else [word.value])
    else if s[0] == ' ' || s[0] == '\t' then
      var rest := Tokenize(s[1..], None);
      if rest == None || word == None then rest else Some([word.value] + rest.value)
    else if s[0] == '\'' then InQuotes(s[1..], Begun(word))
    else if s[0] == '\\' then
      if |s| == 1 then None
      else if s[1] == '\n' then Tokenize(s[2..], word)
      else Tokenize(s[2..], Some(Begun(word) + [s[1]]))
    else if IsSpecial(s[0]) then None
    else Tokenize(s[1..], Some(Begun(word) + [s[0]]))
  }

  function Begun(word: Option<string>): string {
    if word == None then "" else word.value
  }

  /** Between single quotes every character is literal, up to the next single quote. */
  function InQuotes(s: string, word: string): Option<seq<string>>
    decreases |s|
  {
    if s == "" then None
    else if s[0] == '\'' then Tokenize(s[1..], Some(word))
    else InQuotes(s[1..], word + [s[0]])
  }

  /** A quote left, escaped and entered again is one literal quote. */
  lemma EscapedQuoteIsQuote(rest: string, word: string)
    ensures InQuotes(ESCAPED_QUOTE + rest, word) == InQuotes(rest, word + QUOTE)
  {
    var s := ESCAPED_QUOTE + rest;
    var t := s[1..];
    assert s[0] == '\'' && t[0] == '\\' && t[1] == '\'' && t[2..][0] == '\'' && t[2..][1..] == rest;
    calc {
      InQuotes(s, word);
      Tokenize(t, Some(word));
      Tokenize(t[2..], Some(word + ['\'']));
      InQuotes(rest, word + QUOTE);
    }
  }

  lemma {:induction false} QuotedIsLiteral(arg: string, rest: string, word: string)
    ensures InQuotes(ReplaceAll(arg, QUOTE, ESCAPED_QUOTE) + (QUOTE + rest), word) == Tokenize(rest, Some(word + arg))
  {
    if arg == "" {
      assert "" + (QUOTE + rest) == QUOTE + rest && (QUOTE + rest)[1..] == rest && word + arg == word;
    } else {
      var tail := ReplaceAll(arg[1..], QUOTE, ESCAPED_QUOTE) + (QUOTE + rest);
      QuotedIsLiteral(arg[1..], rest, word + [arg[0]]);
      assert word + [arg[0]] + arg[1..] == word + arg;
      if arg[0] == '\'' {
        ReplaceHit(QUOTE, ESCAPED_QUOTE, arg[1..]);
        assert QUOTE + arg[1..] == arg;
        EscapedQuoteIsQuote(tail, word);
        assert ReplaceAll(arg, QUOTE, ESCAPED_QUOTE) + (QUOTE + rest) == ESCAPED_QUOTE + tail;
      } else {
        ReplaceMiss([arg[0]], arg[1..], QUOTE, ESCAPED_QUOTE);
        assert [arg[0]] + arg[1..] == arg;
        var s := [arg[0]] + tail;
        assert ReplaceAll(arg, QUOTE, ESCAPED_QUOTE) + (QUOTE + rest) == s && s[1..] == tail;
      }
    }
  }

  lemma QuotedIsOneWord(arg: string, rest: string)
    ensures Tokenize(QuoteArg(arg) + rest, None) == Tokenize(rest, Some(arg))
  {
    var s := QuoteArg(arg) + rest;
    assert s[1..] == ReplaceAll(arg, QUOTE, ESCAPED_QUOTE) + (QUOTE + rest);
    QuotedIsLiteral(arg, rest, "");
    assert "" + arg == arg;
  }

  lemma {:induction false} JoinedReadsBack(words: seq<string>, quoted: seq<string>)
    requires |quoted| == |words| > 0 && forall i :: 0 <= i < |words| ==> quoted[i] == QuoteArg(words[i])
    ensures Tokenize(Join(quoted, " "), None) == Some(words)
  {
    if |words| == 1 {
      QuotedIsOneWord(words[0], "");
      assert QuoteArg(words[0]) + "" == QuoteArg(words[0]) && [words[0]] == words;
    } else {
      var rest := Join(quoted[1..], " ");
      QuotedIsOneWord(words[0], " " + rest);
      assert Join(quoted, " ") == QuoteArg(words[0]) + (" " + rest);
      assert (" " + rest)[1..] == rest;
      JoinedReadsBack(words[1..], quoted[1..]);
      assert [words[0]] + words[1..] == words;
    }
  }

  /** The shell reads back the command and every argument, whatever characters they hold. */
  lemma CommandLineReadsBack(command: string, args: seq<string>)
    ensures Tokenize(BuildCommandLine(command, args), None) == Some([command] + args)
  {
    var words := [command] + args;
    JoinedReadsBack(words, seq(|words|, i requires 0 <= i < |words| => QuoteArg(words[i])));
  }
}
