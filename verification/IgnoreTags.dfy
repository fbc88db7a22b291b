/** Escaping a text for the translation service and undoing it. */
module IgnoreTags {
  import opened Text

  function Digits(s: string): (n: nat)
    ensures n <= |s|
  {
    if s != "" && '0' <= s[0] <= '9' then 1 + Digits(s[1..]) else 0
  }

  /** The length of a placeholder such as {0} at the start of the text, or 0. */
  function Placeholder(s: string): (n: nat)
    ensures n <= |s|
  {
    if s == "" || s[0] != '{' then 0
    else
      var digits := Digits(s[1..]);
      if digits > 0 && 1 + digits < |s| && s[1 + digits] == '}' then digits + 2 else 0
  }

  function Tag(placeholder: string, rest: string): string {
    "<x>" + placeholder + "</x>" + rest
  }

  /** Every placeholder put between ignore tags. */
  function Wrap(s: string): string {
    if s == "" then ""
    else
      var n := Placeholder(s);
      if n > 0 then Tag(s[..n], Wrap(s[n..])) else [s[0]] + Wrap(s[1..])
  }

  /** The length of a placeholder between ignore tags at the start of the text, or 0. */
  function Tagged(s: string): (n: nat)
    ensures n > 0 ==> n + 7 <= |s|
  {
    if !("<x>" <= s) then 0
    else
      var n := Placeholder(s[3..]);
      if n > 0 && "</x>" <= s[3 + n..] then n else 0
  }

  /** Every tagged placeholder taken out of its tags. */
  function Unwrap(s: string): string {
    if s == "" then ""
    else
      var n := Tagged(s);
      if n > 0 then s[3..3 + n] + Unwrap(s[n + 7..]) else [s[0]] + Unwrap(s[1..])
  }

  function Escape(s: string): string {
    ReplaceAll(ReplaceAll(ReplaceAll(s, "&", "&amp;"), "<", "&lt;"), ">", "&gt;")
  }

  function Unescape(s: string): string {
    ReplaceAll(ReplaceAll(ReplaceAll(s, "&lt;", "<"), "&gt;", ">"), "&amp;", "&")
  }

  function AddIgnoreTags(text: string): string {
    Wrap(Escape(text))
  }

  function RemoveIgnoreTags(text: string): string {
    Unescape(Unwrap(text))
  }

  // ---------------------------------------------------------------- tags

  lemma {:induction false} DigitsEnd(s: string, rest: string)
    requires Digits(s) < |s|
    ensures Digits(s + rest) == Digits(s)
    ensures !('0' <= s[Digits(s)] <= '9')
  {
    assert (s + rest)[0] == s[0] && (s + rest)[1..] == s[1..] + rest;
    if '0' <= s[0] <= '9' { DigitsEnd(s[1..], rest); }
  }

  lemma {:induction false} DigitsOfPrefix(s: string, n: nat)
    requires Digits(s) < n <= |s|
    ensures Digits(s[..n]) == Digits(s)
  {
    if '0' <= s[0] <= '9' {
      assert s[..n][1..] == s[1..][..n - 1];
      DigitsOfPrefix(s[1..], n - 1);
    }
  }

  lemma PlaceholderAlone(s: string, rest: string)
    requires Placeholder(s) > 0
    ensures Placeholder(s[..Placeholder(s)] + rest) == Placeholder(s)
  {
    var n := Placeholder(s);
    DigitsOfPrefix(s[1..], n - 1);
    assert s[1..][..n - 1] == s[..n][1..];
    DigitsEnd(s[..n][1..], rest);
    assert (s[..n] + rest)[1..] == s[..n][1..] + rest;
  }

  lemma TagIsTagged(placeholder: string, rest: string)
    requires Placeholder(placeholder) == |placeholder| > 0
    ensures Tagged(Tag(placeholder, rest)) == |placeholder|
  {
    var n, tail := |placeholder|, "</x>" + rest;
    assert placeholder[..n] == placeholder;
    PlaceholderAlone(placeholder, tail);
    assert Tag(placeholder, rest)[3..] == placeholder + tail;
    assert Tag(placeholder, rest)[3 + n..] == tail;
  }

  lemma UnwrapTagged(w: string, placeholder: string, rest: string)
    requires w == Tag(placeholder, rest) && Placeholder(placeholder) == |placeholder| > 0
    ensures Unwrap(w) == placeholder + Unwrap(rest)
  {
    TagIsTagged(placeholder, rest);
    TagParts(w, placeholder, rest);
  }

  lemma TagParts(w: string, placeholder: string, rest: string)
    requires w == Tag(placeholder, rest)
    ensures w != "" && w[3..3 + |placeholder|] == placeholder && w[|placeholder| + 7..] == rest
  {}

  lemma UnwrapOther(c: char, rest: string)
    requires c != '<'
    ensures Unwrap([c] + rest) == [c] + Unwrap(rest)
  {
    assert "<x>"[0] == '<' && ([c] + rest)[0] == c;
    assert !("<x>" <= [c] + rest);
    assert ([c] + rest)[1..] == rest;
  }

  lemma UnwrapFirst(s: string)
    requires Placeholder(s) > 0
    ensures var n := Placeholder(s);
      Unwrap(Wrap(s)) == s[..n] + Unwrap(Wrap(s[n..]))
  {
    var n := Placeholder(s);
    PlaceholderAlone(s, "");
    assert s[..n] + "" == s[..n];
    UnwrapTagged(Wrap(s), s[..n], Wrap(s[n..]));
  }

  lemma UnwrapPlain(s: string)
    requires s != "" && s[0] != '<' && Placeholder(s) == 0
    ensures Unwrap(Wrap(s)) == s[..1] + Unwrap(Wrap(s[1..]))
  {
    UnwrapOther(s[0], Wrap(s[1..]));
  }

  lemma Rejoined(s: string, n: nat)
    requires n <= |s|
    ensures s[..n] + s[n..] == s
  {}

  /** In a text without '<' the only tags are the ones Wrap puts in. */
  lemma {:induction false} UnwrapUndoesWrap(s: string)
    requires '<' !in s
    ensures Unwrap(Wrap(s)) == s
  {
    if s != "" {
      var n := Placeholder(s);
      if n > 0 {
        UnwrapFirst(s);
        UnwrapUndoesWrap(s[n..]);
        Rejoined(s, n);
      } else {
        UnwrapPlain(s);
        UnwrapUndoesWrap(s[1..]);
        Rejoined(s, 1);
      }
    }
  }

  /** A brace, digits, and a closing brace, from i up to j. */
  predicate PlaceholderAt(w: string, i: nat, j: nat) {
    && i + 3 <= j <= |w| && w[i] == '{' && w[j - 1] == '}'
    && forall k :: i < k < j - 1 ==> '0' <= w[k] <= '9'
  }

  predicate BetweenTags(w: string, i: nat, j: nat) {
    && 3 <= i <= j && j + 4 <= |w|
    && w[i - 3] == '<' && w[i - 2] == 'x' && w[i - 1] == '>'
    && w[j] == '<' && w[j + 1] == '/' && w[j + 2] == 'x' && w[j + 3] == '>'
  }

  lemma {:induction false} DigitsExactly(s: string, n: nat)
    requires n < |s| && !('0' <= s[n] <= '9')
    ensures Digits(s) == n <==> forall k :: 0 <= k < n ==> '0' <= s[k] <= '9'
  {
    if n > 0 {
      DigitsExactly(s[1..], n - 1);
      assert forall k :: 0 < k < n ==> s[k] == s[1..][k - 1];
      assert forall k :: 0 <= k < n - 1 ==> s[1..][k] == s[k + 1];
    }
  }

  /** What Placeholder measures is exactly such a text at the start. */
  lemma PlaceholderExactly(s: string, n: nat)
    ensures PlaceholderAt(s, 0, n) <==> n > 0 && Placeholder(s) == n
  {
    if 3 <= n <= |s| && s[n - 1] == '}' {
      DigitsExactly(s[1..], n - 2);
      assert forall k :: 0 < k < n - 1 ==> s[k] == s[1..][k - 1];
      assert forall k :: 0 <= k < n - 2 ==> s[1..][k] == s[k + 1];
    }
  }

  lemma Shifted(prefix: string, w: string, i: nat, j: nat)
    requires i <= j
    ensures PlaceholderAt(prefix + w, |prefix| + i, |prefix| + j) <==> PlaceholderAt(w, i, j)
    ensures BetweenTags(w, i, j) ==> BetweenTags(prefix + w, |prefix| + i, |prefix| + j)
  {
    var v := prefix + w;
    assert forall k :: 0 <= k < |w| ==> v[|prefix| + k] == w[k];
    if PlaceholderAt(v, |prefix| + i, |prefix| + j) {
      forall k | i < k < j - 1 ensures '0' <= w[k] <= '9' { assert v[|prefix| + k] == w[k]; }
    }
  }

  lemma WrapParts(s: string)
    requires s != ""
    ensures var n := Placeholder(s);
      Wrap(s) == if n > 0 then "<x>" + s[..n] + "</x>" + Wrap(s[n..]) else [s[0]] + Wrap(s[1..])
  {}

  predicate InPlaceholder(c: char) {
    '0' <= c <= '9' || c == '}'
  }

  lemma WrapStartsPlainly(s: string)
    requires Wrap(s) != "" && Wrap(s)[0] != '<'
    ensures s != "" && Placeholder(s) == 0
  {}

  /** Digits and closing braces at the start of a wrapped text stand at the start of the text itself. */
  lemma {:induction false} WrapKeepsStart(s: string, n: nat)
    requires n <= |Wrap(s)| && forall k :: 0 <= k < n ==> InPlaceholder(Wrap(s)[k])
    ensures n <= |s| && forall k :: 0 <= k < n ==> s[k] == Wrap(s)[k]
  {
    if n > 0 {
      assert InPlaceholder(Wrap(s)[0]);
      WrapStartsPlainly(s);
      WrapParts(s);
      var rest := Wrap(s[1..]);
      assert forall k :: 0 <= k < n - 1 ==> rest[k] == Wrap(s)[k + 1];
      WrapKeepsStart(s[1..], n - 1);
      assert forall k :: 0 < k < n ==> s[k] == s[1..][k - 1] && Wrap(s)[k] == rest[k - 1];
    }
  }

  /** A text that does not start with a placeholder is not wrapped into one that does. */
  lemma NoneBare(s: string, j: nat)
    requires s != "" && Placeholder(s) == 0
    ensures !PlaceholderAt(Wrap(s), 0, j)
  {
    if PlaceholderAt(Wrap(s), 0, j) {
      WrapParts(s);
      var rest := Wrap(s[1..]);
      assert forall k :: 0 <= k < j - 1 ==> rest[k] == Wrap(s)[k + 1];
      WrapKeepsStart(s[1..], j - 1);
      assert forall k :: 0 < k < j ==> s[k] == s[1..][k - 1];
      PlaceholderExactly(s, j);
      assert false;
    }
  }

  lemma OnlyOneInTag(t: string, rest: string, i: nat, j: nat)
    requires PlaceholderAt(t, 0, |t|)
    requires i < |t| + 7 && PlaceholderAt("<x>" + t + "</x>" + rest, i, j)
    ensures BetweenTags("<x>" + t + "</x>" + rest, i, j)
  {
    var w := "<x>" + t + "</x>" + rest;
    assert forall k :: 0 <= k < |t| ==> w[3 + k] == t[k];
    assert i == 3;
    assert w[2 + |t|] == '}';
    assert j == 3 + |t|;
  }

  /** In a wrapped text every placeholder stands between ignore tags, wherever it is. */
  lemma {:induction false} PlaceholdersTagged(s: string, i: nat, j: nat)
    requires PlaceholderAt(Wrap(s), i, j)
    ensures BetweenTags(Wrap(s), i, j)
    decreases |s|, 1
  {
    WrapParts(s);
    if Placeholder(s) > 0 { FirstTagged(s, i, j); } else { FirstPlain(s, i, j); }
  }

  lemma InTagged(w: string, t: string, rest: string, i: nat, j: nat)
    requires w == "<x>" + t + "</x>" + rest && PlaceholderAt(t, 0, |t|) && PlaceholderAt(w, i, j)
    requires i >= |t| + 7 && PlaceholderAt(rest, i - |t| - 7, j - |t| - 7) ==>
               BetweenTags(rest, i - |t| - 7, j - |t| - 7)
    ensures BetweenTags(w, i, j)
  {
    if i >= |t| + 7 {
      Shifted("<x>" + t + "</x>", rest, i - |t| - 7, j - |t| - 7);
    } else {
      OnlyOneInTag(t, rest, i, j);
    }
  }

  lemma PlaceholderCut(s: string, n: nat)
    requires n > 0 && Placeholder(s) == n
    ensures PlaceholderAt(s[..n], 0, n)
  {
    PlaceholderExactly(s, n);
  }

  lemma TaggedFirst(s: string) returns (t: string, rest: string)
    requires Placeholder(s) > 0
    ensures t == s[..Placeholder(s)] && rest == s[Placeholder(s)..] && |rest| < |s|
    ensures PlaceholderAt(t, 0, |t|) && Wrap(s) == "<x>" + t + "</x>" + Wrap(rest)
  {
    t, rest := s[..Placeholder(s)], s[Placeholder(s)..];
    WrapParts(s);
    PlaceholderCut(s, Placeholder(s));
  }

  lemma {:induction false} FirstTagged(s: string, i: nat, j: nat)
    requires Placeholder(s) > 0 && PlaceholderAt(Wrap(s), i, j)
    ensures BetweenTags(Wrap(s), i, j)
    decreases |s|, 0
  {
    var t, rest := TaggedFirst(s);
    var n := |t| + 7;
    if i >= n && PlaceholderAt(Wrap(rest), i - n, j - n) { PlaceholdersTagged(rest, i - n, j - n); }
    InTagged(Wrap(s), t, Wrap(rest), i, j);
  }

  lemma {:induction false} FirstPlain(s: string, i: nat, j: nat)
    requires s != "" && Placeholder(s) == 0 && PlaceholderAt(Wrap(s), i, j)
    ensures BetweenTags(Wrap(s), i, j)
    decreases |s|, 0
  {
    WrapParts(s);
    if i > 0 {
      Shifted([s[0]], Wrap(s[1..]), i - 1, j - 1);
      PlaceholdersTagged(s[1..], i - 1, j - 1);
    } else {
      NoneBare(s, j);
      assert false;
    }
  }

  /** So it does in what the service is sent. */
  lemma AddedTags(text: string, i: nat, j: nat)
    requires PlaceholderAt(AddIgnoreTags(text), i, j)
    ensures BetweenTags(AddIgnoreTags(text), i, j)
  {
    PlaceholdersTagged(Escape(text), i, j);
  }

  // ---------------------------------------------------------------- entities

  /** A character with some of the three entities spelled out. */
  function Spelled(c: char, amp: bool, lt: bool, gt: bool): string {
    if c == '&' && amp then "&amp;" else if c == '<' && lt then "&lt;" else if c == '>' && gt then "&gt;" else [c]
  }

  function Spell(s: string, amp: bool, lt: bool, gt: bool): string {
    if s == "" then "" else Spelled(s[0], amp, lt, gt) + Spell(s[1..], amp, lt, gt)
  }

  /** Replacement turns one spelling into the other: the spelling is the pattern, or the pattern cannot
      start inside it. */
  predicate Respells(pattern: string, sub: string, before: string, after: string) {
    && pattern != ""
    && (|| (before == pattern && after == sub)
        || (before == after && pattern[0] !in before)
        || (before == after && |before| > 1 && pattern[0] !in before[1..] && |pattern| > 1 && before[1] != pattern[1]))
  }

  lemma RespellOne(pattern: string, sub: string, before: string, after: string, rest: string)
    requires Respells(pattern, sub, before, after)
    ensures ReplaceAll(before + rest, pattern, sub) == after + ReplaceAll(rest, pattern, sub)
  {
    if before == pattern && after == sub {
      ReplaceHit(pattern, sub, rest);
    } else if pattern[0] !in before {
      ReplaceMiss(before, rest, pattern, sub);
    } else {
      assert (before + rest)[1] == before[1] && (before + rest)[1..] == before[1..] + rest;
      ReplaceMiss(before[1..], rest, pattern, sub);
    }
  }

  lemma {:induction false} RespellAll(s: string, pattern: string, sub: string,
                                      amp: bool, lt: bool, gt: bool, amp': bool, lt': bool, gt': bool)
    requires pattern != ""
    requires forall c :: Respells(pattern, sub, Spelled(c, amp, lt, gt), Spelled(c, amp', lt', gt'))
    ensures ReplaceAll(Spell(s, amp, lt, gt), pattern, sub) == Spell(s, amp', lt', gt')
  {
    if s != "" {
      RespellAll(s[1..], pattern, sub, amp, lt, gt, amp', lt', gt');
      RespellOne(pattern, sub, Spelled(s[0], amp, lt, gt), Spelled(s[0], amp', lt', gt'), Spell(s[1..], amp, lt, gt));
    }
  }

  lemma {:induction false} SpelledOut(s: string)
    ensures Spell(s, false, false, false) == s
    ensures '<' !in Spell(s, true, true, true)
  {
    if s != "" { SpelledOut(s[1..]); }
  }

  lemma EscapeSpells(s: string)
    ensures Escape(s) == Spell(s, true, true, true)
  {
    SpelledOut(s);
    RespellAll(s, "&", "&amp;", false, false, false, true, false, false);
    RespellAll(s, "<", "&lt;", true, false, false, true, true, false);
    RespellAll(s, ">", "&gt;", true, true, false, true, true, true);
  }

  lemma UnescapeUnspells(s: string)
    ensures Unescape(Spell(s, true, true, true)) == s
  {
    SpelledOut(s);
    RespellAll(s, "&lt;", "<", true, true, true, true, false, true);
    RespellAll(s, "&gt;", ">", true, false, true, true, false, false);
    RespellAll(s, "&amp;", "&", true, false, false, false, false, false);
  }

  /** Removing what was added gives back any text, entities, brackets and tags of its own included. */
  lemma RoundTrip(text: string)
    ensures RemoveIgnoreTags(AddIgnoreTags(text)) == text
  {
    EscapeSpells(text);
    SpelledOut(text);
    UnwrapUndoesWrap(Escape(text));
    UnescapeUnspells(text);
  }

  /** The last replacement has to be last: with &amp; undone first, an entity in the text is lost. */
  lemma AmpersandLast()
    ensures ReplaceAll(ReplaceAll(ReplaceAll(Escape("&lt;"), "&amp;", "&"), "&lt;", "<"), "&gt;", ">") != "&lt;"
  {
    EscapeSpells("&lt;");
    assert Spell("&lt;", true, true, true) == "&amp;" + "lt;" by {
      assert Spell("lt;", true, true, true) == "lt;";
    }
    ReplaceHit("&amp;", "&", "lt;");
    ReplaceMiss("lt;", "", "&amp;", "&");
    assert "lt;" + "" == "lt;" && "&" + "lt;" == "&lt;";
    ReplaceHit("&lt;", "<", "");
    assert "&lt;" + "" == "&lt;" && "<" + "" == "<";
    ReplaceMiss("<", "", "&gt;", ">");
  }
}
