/** String helpers shared by the language-understanding and flight-formatting
    modules: ASCII case mapping, Python's substring test `w in s`,
    `sep.join(l)`, `s.replace(old, new)` and the decimal rendering of `%i`. */
module Text {

  predicate IsUpperAscii(c: char) { 'A' <= c <= 'Z' }

  predicate IsLowerAscii(c: char) { 'a' <= c <= 'z' }

  predicate IsDigit(c: char) { '0' <= c <= '9' }

  function LowerChar(c: char): char {
    if IsUpperAscii(c) then (c as int + 32) as char else c
  }

  function UpperChar(c: char): char {
    if IsLowerAscii(c) then (c as int - 32) as char else c
  }

  /** `s.lower()`, restricted to the ASCII letters. */
  function Lower(s: string): (r: string)
    ensures |r| == |s|
    ensures forall i :: 0 <= i < |s| ==> r[i] == LowerChar(s[i])
  {
    seq(|s|, i requires 0 <= i < |s| => LowerChar(s[i]))
  }

  /** `s.upper()`, restricted to the ASCII letters. */
  function Upper(s: string): (r: string)
    ensures |r| == |s|
    ensures forall i :: 0 <= i < |s| ==> r[i] == UpperChar(s[i])
  {
    seq(|s|, i requires 0 <= i < |s| => UpperChar(s[i]))
  }

  predicate OccursAt(word: string, text: string, i: int) {
    0 <= i && i + |word| <= |text| && text[i..i + |word|] == word
  }

  /** Python's `word in text` for strings. */
  predicate Occurs(word: string, text: string) {
    exists i | 0 <= i <= |text| :: OccursAt(word, text, i)
  }

  lemma LowerAppend(a: string, b: string)
    ensures Lower(a + b) == Lower(a) + Lower(b)
  {
    assert forall i :: 0 <= i < |a + b| ==> Lower(a + b)[i] == (Lower(a) + Lower(b))[i];
  }

  lemma UpperAppend(a: string, b: string)
    ensures Upper(a + b) == Upper(a) + Upper(b)
  {
    assert forall i :: 0 <= i < |a + b| ==> Upper(a + b)[i] == (Upper(a) + Upper(b))[i];
  }

  /** A substring of `text` is still a substring once text is added on either side. */
  lemma OccursInContext(word: string, prefix: string, text: string, suffix: string)
    requires Occurs(word, text)
    ensures Occurs(word, prefix + text + suffix)
  {
    var i :| 0 <= i <= |text| && OccursAt(word, text, i);
    assert i + |word| <= |text| && text[i..i + |word|] == word;
    var whole := prefix + text + suffix;
    assert whole[|prefix| + i..|prefix| + i + |word|] == text[i..i + |word|];
    assert OccursAt(word, whole, |prefix| + i);
  }

  /** `sep.join(l)`. */
  function Join(sep: string, l: seq<string>): string {
    if |l| == 0 then ""
    else if |l| == 1 then l[0]
    else l[0] + sep + Join(sep, l[1..])
  }

  /** `s.replace(pattern, replacement)`: every non-overlapping occurrence, scanning from the left. */
  function ReplaceAll(s: string, pattern: string, replacement: string): string
    requires |pattern| > 0
    decreases |s|
  {
    if |s| < |pattern| then s
    else if s[..|pattern|] == pattern then replacement + ReplaceAll(s[|pattern|..], pattern, replacement)
    else [s[0]] + ReplaceAll(s[1..], pattern, replacement)
  }

  /** Replacing a single character by a single character keeps the length
      and changes exactly the occurrences of that character. */
  lemma {:induction false} ReplaceChar(s: string, c: char, d: char)
    ensures |ReplaceAll(s, [c], [d])| == |s|
    ensures forall i :: 0 <= i < |s| ==> ReplaceAll(s, [c], [d])[i] == if s[i] == c then d else s[i]
    decreases |s|
  {
    if |s| > 0 {
      ReplaceChar(s[1..], c, d);
      var rest := ReplaceAll(s[1..], [c], [d]);
      var head := if s[0] == c then [d] else [s[0]];
      assert ReplaceAll(s, [c], [d]) == head + rest;
      forall i | 0 < i < |s| ensures (head + rest)[i] == if s[i] == c then d else s[i] {
        assert (head + rest)[i] == rest[i - 1] && s[1..][i - 1] == s[i];
      }
    }
  }

  /** Text in which the pattern's first character never occurs is left as it is. */
  lemma {:induction false} ReplaceAbsent(s: string, pattern: string, replacement: string)
    requires |pattern| > 0
    requires forall i :: 0 <= i < |s| ==> s[i] != pattern[0]
    ensures ReplaceAll(s, pattern, replacement) == s
    decreases |s|
  {
    if |s| >= |pattern| {
      assert s[..|pattern|][0] == s[0] != pattern[0];
      ReplaceAbsent(s[1..], pattern, replacement);
      assert [s[0]] + s[1..] == s;
    }
  }

  function DigitChar(d: nat): char
    requires d < 10
  {
    ('0' as int + d) as char
  }

  predicate AllDigits(s: string) {
    forall i :: 0 <= i < |s| ==> IsDigit(s[i])
  }

  function DigitValue(c: char): nat
    requires IsDigit(c)
  {
    c as int - '0' as int
  }

  /** The number a string of decimal digits spells, most significant digit first. */
  function NumberValue(s: string): nat
    requires AllDigits(s)
  {
    if |s| == 0 then 0 else 10 * NumberValue(s[..|s| - 1]) + DigitValue(s[|s| - 1])
  }

  /** `"%i" % n` for a natural number: the decimal digits that spell n, with
      no leading zero unless n is zero. */
  function NatToString(n: nat): (r: string)
    ensures |r| > 0 && AllDigits(r)
    ensures NumberValue(r) == n
    ensures r[0] == '0' ==> n == 0
    decreases n
  {
    if n < 10 then
      var r := [DigitChar(n)];
      assert r[..0] == [];
      r
    else
      var prefix := NatToString(n / 10);
      var r := prefix + [DigitChar(n % 10)];
      assert r[..|r| - 1] == prefix && r[0] == prefix[0];
      r
  }

  /** Python slicing `s[..n]`, which clamps at the end of the string. */
  function Take(s: string, n: nat): string {
    if n <= |s| then s[..n] else s
  }

  /** Python slicing `s[n:]`, which is empty past the end of the string. */
  function Drop(s: string, n: nat): string {
    if n <= |s| then s[n..] else ""
  }
}
