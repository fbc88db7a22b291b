/** Global replacement of a literal pattern, left to right and without overlap, and joining. */
module Text {
  function ReplaceAll(s: string, pattern: string, sub: string): string
    requires pattern != ""
  {
    if s == "" then ""
    else if pattern <= s then sub + ReplaceAll(s[|pattern|..], pattern, sub)
    else [s[0]] + ReplaceAll(s[1..], pattern, sub)
  }

  function Join(parts: seq<string>, separator: string): string {
    if parts == [] then "" else if |parts| == 1 then parts[0] else parts[0] + separator + Join(parts[1..], separator)
  }

  lemma ReplaceHit(pattern: string, sub: string, rest: string)
    requires pattern != ""
    ensures ReplaceAll(pattern + rest, pattern, sub) == sub + ReplaceAll(rest, pattern, sub)
  {
    assert pattern <= pattern + rest && (pattern + rest)[|pattern|..] == rest;
  }

  lemma {:induction false} ReplaceMiss(s: string, rest: string, pattern: string, sub: string)
    requires pattern != "" && pattern[0] !in s
    ensures ReplaceAll(s + rest, pattern, sub) == s + ReplaceAll(rest, pattern, sub)
  {
    if s == "" {
      assert s + rest == rest;
    } else {
      assert (s + rest)[0] == s[0] && (s + rest)[1..] == s[1..] + rest;
      ReplaceMiss(s[1..], rest, pattern, sub);
    }
  }
}
