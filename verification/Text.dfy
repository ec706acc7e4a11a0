/** Character classes and string helpers shared by the parsers and the widgets. */
module Text {
  predicate IsDigit(c: char) {
    '0' <= c <= '9'
  }

  predicate AllDigits(s: string) {
    forall i :: 0 <= i < |s| ==> IsDigit(s[i])
  }

  /** The digits of a string, in order: every other character removed. */
  function DigitsOf(s: string): (r: string)
    ensures AllDigits(r)
  {
    if s == "" then "" else (if IsDigit(s[0]) then [s[0]] else "") + DigitsOf(s[1..])
  }

  function Join(parts: seq<string>): string {
    if parts == [] then "" else parts[0] + Join(parts[1..])
  }

  function ToLower(c: char): char {
    if 'A' <= c <= 'Z' then (c as int + 32) as char else c
  }

  predicate EqIgnoreAsciiCase(a: string, b: string) {
    |a| == |b| && forall i :: 0 <= i < |a| ==> ToLower(a[i]) == ToLower(b[i])
  }

  /** Lower-casing moves the upper-case letters by 32 and nothing else, so the casings of a letter agree. */
  lemma {:induction false} CaseIsIgnored(a: char, b: char)
    ensures ToLower(a) as int == if 65 <= a as int <= 90 then a as int + 32 else a as int
    ensures EqIgnoreAsciiCase([a], [b])
            <==> a == b || (65 <= a as int <= 90 && b as int == a as int + 32) || (65 <= b as int <= 90 && a as int == b as int + 32)
  {
    assert EqIgnoreAsciiCase([a], [b]) <==> ToLower([a][0]) == ToLower([b][0]);
    assert ToLower(a) == ToLower(b) <==> ToLower(a) as int == ToLower(b) as int;
    assert a == b <==> a as int == b as int;
  }

  /** Everything before the first `c`, or all of it. */
  function BeforeChar(s: string, c: char): (r: string)
    ensures r <= s && c !in r
    ensures |r| < |s| ==> s[|r|] == c
  {
    if s == "" || s[0] == c then "" else [s[0]] + BeforeChar(s[1..], c)
  }

  /** The pieces between occurrences of `c`. */
  function Split(s: string, c: char): (r: seq<string>)
    ensures r != []
    decreases |s|
  {
    var head := BeforeChar(s, c);
    if |head| == |s| then [head] else [head] + Split(s[|head| + 1..], c)
  }

  lemma {:induction false} BeforeCharStops(s: string, c: char, tail: string)
    requires c !in s && (tail == "" || tail[0] == c)
    ensures BeforeChar(s + tail, c) == s
  {
    if s != "" {
      BeforeCharStops(s[1..], c, tail);
      assert (s + tail)[1..] == s[1..] + tail;
    }
  }

  lemma {:induction false} SplitWord(word: string, c: char)
    requires c !in word
    ensures Split(word, c) == [word]
  {
    BeforeCharStops(word, c, "");
    assert word + "" == word;
  }

  lemma {:induction false} SplitFirst(word: string, rest: string, c: char)
    requires c !in word
    ensures Split(word + [c] + rest, c) == [word] + Split(rest, c)
  {
    BeforeCharStops(word, c, [c] + rest);
    assert word + [c] + rest == word + ([c] + rest);
    assert (word + [c] + rest)[|word| + 1..] == rest;
  }
}
