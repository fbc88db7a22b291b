/** Sending texts to the translation service in chunks, and putting its answers together. */
module DeeplApi {
  import opened Options
  import opened Text
  import opened Numbers

  /** The service's answer to the i-th chunk, or None where it fails. */
  type Service = (nat, seq<string>) -> Option<seq<string>>

  function CoerceTranslation(text: string): string {
    ReplaceAll(ReplaceAll(ReplaceAll(ReplaceAll(ReplaceAll(ReplaceAll(text,
      "\U{ff08}", "("), "\U{ff09}", ")"), "\U{ff0c}", ","), "\U{ff1a}", ":"), "\U{ff1b}", ";"), "\U{ff1f}", "?")
  }

  function CoerceChar(c: char): char {
    match c
    case '\U{ff08}' => '('
    case '\U{ff09}' => ')'
    case '\U{ff0c}' => ','
    case '\U{ff1a}' => ':'
    case '\U{ff1b}' => ';'
    case '\U{ff1f}' => '?'
    case _ => c
  }

  function Swap(c: char, a: char, b: char): char {
    if c == a then b else c
  }

  lemma {:induction false} ReplaceChar(s: string, a: char, b: char)
    ensures |ReplaceAll(s, [a], [b])| == |s|
    ensures forall i :: 0 <= i < |s| ==> ReplaceAll(s, [a], [b])[i] == Swap(s[i], a, b)
  {
    if s != "" {
      ReplaceChar(s[1..], a, b);
      if [a] <= s { assert s[0] == a; }
      assert s[0] == a ==> [a] <= s;
    }
  }

  /** The six replacements act on each character alone: none undoes or feeds another. */
  lemma CoercesEachCharacter(text: string)
    ensures |CoerceTranslation(text)| == |text|
    ensures forall i :: 0 <= i < |text| ==> CoerceTranslation(text)[i] == CoerceChar(text[i])
  {
    var a := ReplaceAll(text, "\U{ff08}", "(");
    var b := ReplaceAll(a, "\U{ff09}", ")");
    var c := ReplaceAll(b, "\U{ff0c}", ",");
    var d := ReplaceAll(c, "\U{ff1a}", ":");
    var e := ReplaceAll(d, "\U{ff1b}", ";");
    ReplaceChar(text, '\U{ff08}', '(');
    ReplaceChar(a, '\U{ff09}', ')');
    ReplaceChar(b, '\U{ff0c}', ',');
    ReplaceChar(c, '\U{ff1a}', ':');
    ReplaceChar(d, '\U{ff1b}', ';');
    ReplaceChar(e, '\U{ff1f}', '?');
  }

  function CoerceAll(texts: seq<string>): seq<string> {
    seq(|texts|, i requires 0 <= i < |texts| => CoerceTranslation(texts[i]))
  }

  function Flatten(parts: seq<seq<string>>): seq<string> {
    if parts == [] then [] else Flatten(parts[..|parts| - 1]) + parts[|parts| - 1]
  }

  /** The j-th chunk: at most 50 texts go into one request. */
  function Chunk(text: seq<string>, j: nat): seq<string>
    requires 50 * j <= |text|
  {
    text[50 * j..Min(50 * j + 50, |text|)]
  }

  function Chunks(text: seq<string>): nat {
    (|text| + 50 - 1) / 50
  }

  ghost predicate Chunked(text: seq<string>, chunks: seq<seq<string>>) {
    |chunks| == Chunks(text) && forall j :: 0 <= j < |chunks| ==> 50 * j < |text| && chunks[j] == Chunk(text, j)
  }

  /** Every chunk is answered with one text for each of its own. */
  ghost predicate Answers(service: Service, text: seq<string>, n: nat)
    requires n <= Chunks(text)
  {
    forall j: nat :: j < n ==> Answered(service, text, j)
  }

  ghost predicate Answered(service: Service, text: seq<string>, j: nat)
    requires j < Chunks(text)
  {
    service(j, Chunk(text, j)).Some? && |service(j, Chunk(text, j)).value| == |Chunk(text, j)|
  }

  lemma ChunkCount(text: seq<string>, n: nat)
    requires n == 0 || 50 * (n - 1) < |text|
    requires |text| <= 50 * n
    ensures n == Chunks(text)
  {}

  lemma Slices(text: seq<string>, a: nat, n: nat)
    requires a + n <= |text|
    ensures text[a..][..n] == text[a..a + n] && text[a..][n..] == text[a + n..]
  {}

  lemma FlattenMore(chunks: seq<seq<string>>, rest: seq<string>, n: nat)
    requires n <= |rest|
    ensures Flatten(chunks + [rest[..n]]) + rest[n..] == Flatten(chunks) + rest
  {
    assert (chunks + [rest[..n]])[..|chunks|] == chunks;
    assert rest[..n] + rest[n..] == rest;
  }

  /** The chunks so far, and what is left to split. */
  ghost predicate Splitting(text: seq<string>, chunks: seq<seq<string>>, rest: seq<string>) {
    && rest == text[Min(50 * |chunks|, |text|)..]
    && (chunks == [] || 50 * (|chunks| - 1) < |text|)
    && (forall j: nat :: j < |chunks| ==> IsChunk(text, chunks[j], j))
    && Flatten(chunks) + rest == text
  }

  ghost predicate IsChunk(text: seq<string>, chunk: seq<string>, j: nat) {
    50 * j < |text| && chunk == Chunk(text, j)
  }

  lemma ChunkTaken(text: seq<string>, chunks: seq<seq<string>>, rest: seq<string>)
    requires Splitting(text, chunks, rest) && rest != []
    ensures var n := Min(50, |rest|);
      Splitting(text, chunks + [rest[..n]], rest[n..])
  {
    var n := Min(50, |rest|);
    Slices(text, 50 * |chunks|, n);
    FlattenMore(chunks, rest, n);
    assert rest[..n] == Chunk(text, |chunks|);
  }

  method Split(text: seq<string>) returns (chunks: seq<seq<string>>)
    ensures Chunked(text, chunks)
    ensures Flatten(chunks) == text
    ensures forall j :: 0 <= j < |chunks| ==> 0 < |chunks[j]| <= 50
  {
    chunks := [];
    var textArray := text;
    SplitStarts(text);
    while |textArray| > 0
      invariant Splitting(text, chunks, textArray)
      decreases |textArray|
    {
      ChunkTaken(text, chunks, textArray);
      var n := Min(50, |textArray|);
      chunks, textArray := chunks + [textArray[..n]], textArray[n..];
    }
    SplitEnds(text, chunks, textArray);
  }

  lemma SplitStarts(text: seq<string>)
    ensures Splitting(text, [], text)
  {
    assert text[0..] == text && Flatten([]) + text == text;
  }

  lemma SplitEnds(text: seq<string>, chunks: seq<seq<string>>, rest: seq<string>)
    requires Splitting(text, chunks, rest) && |rest| == 0
    ensures Chunked(text, chunks) && Flatten(chunks) == text
    ensures forall j :: 0 <= j < |chunks| ==> 0 < |chunks[j]| <= 50
  {
    assert Flatten(chunks) + rest == Flatten(chunks);
    forall j: nat | j < |chunks| ensures IsChunk(text, chunks[j], j) && 0 < |chunks[j]| <= 50 {}
    ChunkCount(text, |chunks|);
  }

  /** The answers to the first n chunks, if none fails. */
  function Responses(service: Service, text: seq<string>, n: nat): (r: Option<seq<seq<string>>>)
    requires n <= Chunks(text)
    ensures r.Some? ==> |r.value| == n
  {
    if n == 0 then Some([])
    else
      var before, last := Responses(service, text, n - 1), service(n - 1, Chunk(text, n - 1));
      if before.Some? && last.Some? then Some(before.value + [last.value]) else None
  }

  function Translations(service: Service, text: seq<string>): Option<seq<string>> {
    var responses := Responses(service, text, Chunks(text));
    if responses == None then None else Some(CoerceAll(Flatten(responses.value)))
  }

  /** Sends the chunks one after another and joins the answers; a failing chunk fails the call. */
  method Deepl(service: Service, text: seq<string>) returns (translations: Option<seq<string>>)
    ensures translations == Translations(service, text)
    ensures translations.Some? <==> forall j: nat :: j < Chunks(text) ==> service(j, Chunk(text, j)).Some?
  {
    AllAnswered(service, text, Chunks(text));
    var textChunks := Split(text);
    var responses: seq<seq<string>> := [];
    for i := 0 to |textChunks|
      invariant Responses(service, text, i) == Some(responses)
    {
      var response := service(i, textChunks[i]);
      if response == None { return None; }
      responses := responses + [response.value];
    }
    var merged: seq<string> := [];
    for i := 0 to |responses|
      invariant merged == Flatten(responses[..i])
    {
      assert responses[..i + 1][..i] == responses[..i];
      merged := merged + responses[i];
    }
    assert responses[..|responses|] == responses;
    translations := Some(CoerceAll(merged));
  }

  lemma {:induction false} AllAnswered(service: Service, text: seq<string>, n: nat)
    requires n <= Chunks(text)
    ensures Responses(service, text, n).Some? <==> forall j: nat :: j < n ==> service(j, Chunk(text, j)).Some?
  {
    if n > 0 { AllAnswered(service, text, n - 1); }
  }

  lemma {:induction false} ResponseAt(service: Service, text: seq<string>, n: nat, j: nat)
    requires j < n <= Chunks(text) && Responses(service, text, n).Some?
    ensures service(j, Chunk(text, j)) == Some(Responses(service, text, n).value[j])
  {
    if j < n - 1 { ResponseAt(service, text, n - 1, j); }
  }

  /** Where every chunk is answered text for text, the translations are one for each text: text i is answered
      in chunk i / 50 at place i % 50. */
  lemma TranslatedInPlace(service: Service, text: seq<string>)
    requires Answers(service, text, Chunks(text))
    ensures var translations := Translations(service, text);
      && translations.Some? && |translations.value| == |text|
      && forall i :: 0 <= i < |text| ==> translations.value[i] == CoerceTranslation(AnswerTo(service, text, i))
  {
    forall j: nat | j < Chunks(text) ensures service(j, Chunk(text, j)).Some? { assert Answered(service, text, j); }
    AllAnswered(service, text, Chunks(text));
    var responses := Responses(service, text, Chunks(text)).value;
    forall j: nat | j < |responses| ensures service(j, Chunk(text, j)) == Some(responses[j]) {
      ResponseAt(service, text, Chunks(text), j);
    }
    assert responses[..|responses|] == responses;
    Merged(service, text, responses, |responses|);
  }

  ghost function AnswerTo(service: Service, text: seq<string>, i: nat): string
    requires i < |text| && Answers(service, text, Chunks(text))
  {
    ChunkOf(text, i);
    var j := i / 50;
    assert Answered(service, text, j);
    service(j, Chunk(text, j)).value[i % 50]
  }

  lemma ChunkOf(text: seq<string>, i: nat)
    requires i < |text|
    ensures i / 50 < Chunks(text) && 50 * (i / 50) <= |text|
    ensures i % 50 < |Chunk(text, i / 50)|
  {}

  lemma {:induction false} Merged(service: Service, text: seq<string>, responses: seq<seq<string>>, n: nat)
    requires n <= |responses| == Chunks(text) && Answers(service, text, Chunks(text))
    requires forall j: nat :: j < |responses| ==> service(j, Chunk(text, j)) == Some(responses[j])
    ensures |Flatten(responses[..n])| == Min(50 * n, |text|)
    ensures forall i: nat :: i < |Flatten(responses[..n])| ==> Flatten(responses[..n])[i] == AnswerTo(service, text, i)
  {
    if n > 0 {
      Merged(service, text, responses, n - 1);
      assert responses[..n][..n - 1] == responses[..n - 1];
      assert Answered(service, text, n - 1);
      var before, all := Flatten(responses[..n - 1]), Flatten(responses[..n]);
      forall i: nat | |before| <= i < |all| ensures all[i] == AnswerTo(service, text, i) {
        assert i / 50 == n - 1 && i % 50 == i - |before|;
      }
    }
  }
}
