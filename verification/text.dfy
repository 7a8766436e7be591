/** The string operations the Python code relies on (`str.lower`, `in` on
    strings, `str.strip`, `str.replace`, `" ".join`, `int`/`str` on decimal
    numbers, string ordering), restricted to ASCII case and whitespace. */
module Text {

  // ----- case -----

  predicate IsUpper(c: char) {
    'A' <= c <= 'Z'
  }

  /** Lowercase one character (ASCII letters only). */
  function LowerChar(c: char): (r: char)
    ensures !IsUpper(r)
    ensures IsUpper(c) ==> r as int == c as int + 32
    ensures !IsUpper(c) ==> r == c
  {
    if IsUpper(c) then (c as int + 32) as char else c
  }

  /** `s.lower()`. */
  function Lower(s: string): (r: string)
    ensures |r| == |s|
    ensures forall i :: 0 <= i < |s| ==> r[i] == LowerChar(s[i])
  {
    seq(|s|, i requires 0 <= i < |s| => LowerChar(s[i]))
  }

  predicate NoUpper(s: string) {
    forall i :: 0 <= i < |s| ==> !IsUpper(s[i])
  }

  /** Lowercasing removes every upper-case letter, and a string without one
      is left as it is; hence lowercasing twice is lowercasing once. */
  lemma LowerFacts(s: string)
    ensures NoUpper(Lower(s))
    ensures NoUpper(s) ==> Lower(s) == s
    ensures Lower(Lower(s)) == Lower(s)
  {
  }

  // ----- substrings -----

  /** `p` occurs in `s` starting at index `i`. */
  predicate OccursAt(s: string, p: string, i: int) {
    0 <= i && i + |p| <= |s| && s[i..i + |p|] == p
  }

  /** Python's `p in s` on strings. */
  function Contains(s: string, p: string): (b: bool)
    ensures b <==> exists i :: OccursAt(s, p, i)
    decreases |s|
  {
    if |p| > |s| then false
    else if s[..|p|] == p then assert OccursAt(s, p, 0); true
    else
      var rest := Contains(s[1..], p);
      if rest then
        var i :| OccursAt(s[1..], p, i);
        assert OccursAt(s, p, i + 1) by {
          assert s[1..][i..i + |p|] == s[i + 1..i + 1 + |p|];
        }
        true
      else
        assert !OccursAt(s, p, 0) by {
          assert s[0..|p|] == s[..|p|];
        }
        assert forall i :: OccursAt(s, p, i) ==> OccursAt(s[1..], p, i - 1) by {
          forall i | OccursAt(s, p, i)
            ensures OccursAt(s[1..], p, i - 1)
          {
            assert s[1..][i - 1..i - 1 + |p|] == s[i..i + |p|];
          }
        }
        false
  }

  /** A string contained in `s` is contained in anything built around `s`. */
  lemma ContainsWithin(a: string, s: string, b: string, p: string)
    requires Contains(s, p)
    ensures Contains(a + s + b, p)
  {
    var i :| OccursAt(s, p, i);
    assert (a + s + b)[|a| + i..|a| + i + |p|] == s[i..i + |p|];
    assert OccursAt(a + s + b, p, |a| + i);
  }

  /** Text that ends in a quote, then `m`, then text that starts with one,
      holds `m` quoted. */
  lemma QuotedWithin(a: string, m: string, b: string)
    requires |a| > 0 && a[|a| - 1] == '\''
    requires |b| > 0 && b[0] == '\''
    ensures Contains(a + m + b, "'" + m + "'")
  {
    var s := a + m + b;
    assert s[|a| - 1..|a| + |m| + 1] == "'" + m + "'";
    assert OccursAt(s, "'" + m + "'", |a| - 1);
  }

  // ----- character classes and runs -----

  predicate IsDigit(c: char) {
    '0' <= c <= '9'
  }

  /** Python's `\w` on ASCII text: letters, digits and the underscore. */
  predicate IsWordChar(c: char) {
    IsDigit(c) || 'a' <= c <= 'z' || 'A' <= c <= 'Z' || c == '_'
  }

  datatype CharClass = Digits | WordChars

  predicate InClass(c: char, cls: CharClass) {
    match cls
    case Digits => IsDigit(c)
    case WordChars => IsWordChar(c)
  }

  /** End of the longest run of `cls` characters starting at `i` (the end of
      a greedy `\d+` or `\w+`). */
  function RunEnd(s: string, i: nat, cls: CharClass): (j: nat)
    requires i <= |s|
    ensures i <= j <= |s|
    ensures forall k :: i <= k < j ==> InClass(s[k], cls)
    ensures j == |s| || !InClass(s[j], cls)
    decreases |s| - i
  {
    if i == |s| || !InClass(s[i], cls) then i else RunEnd(s, i + 1, cls)
  }

  /** A run that is all `cls` and is followed by a non-`cls` character (or the
      end of the string) ends exactly there. */
  lemma RunEndExact(s: string, i: nat, j: nat, cls: CharClass)
    requires i <= j <= |s|
    requires forall k :: i <= k < j ==> InClass(s[k], cls)
    requires j == |s| || !InClass(s[j], cls)
    ensures RunEnd(s, i, cls) == j
  {
  }

  // ----- decimal numbers -----

  predicate AllDigits(s: string) {
    forall k :: 0 <= k < |s| ==> IsDigit(s[k])
  }

  /** `int(s)` for a string of ASCII digits. */
  function DigitsValue(s: string): nat
    requires AllDigits(s)
  {
    if s == [] then 0
    else DigitsValue(s[..|s| - 1]) * 10 + (s[|s| - 1] as int - '0' as int)
  }

  /** `str(n)` for a natural number: decimal digits without leading zeros. */
  function NatToDigits(n: nat): (r: string)
    ensures |r| >= 1 && AllDigits(r)
    ensures |r| > 1 ==> r[0] != '0'
  {
    var d := ('0' as int + n % 10) as char;
    if n < 10 then [d] else NatToDigits(n / 10) + [d]
  }

  /** Printing a number and reading it back gives the number. */
  lemma {:induction false} DigitsRoundTrip(n: nat)
    ensures DigitsValue(NatToDigits(n)) == n
  {
    var s := NatToDigits(n);
    if n >= 10 {
      DigitsRoundTrip(n / 10);
      assert s[..|s| - 1] == NatToDigits(n / 10);
    }
  }

  /** `str(i)` for any integer. */
  function IntToText(i: int): (r: string)
    ensures |r| >= 1
    ensures i >= 0 ==> AllDigits(r) && DigitsValue(r) == i
    ensures i < 0 ==> r[0] == '-' && AllDigits(r[1..]) && DigitsValue(r[1..]) == -i
  {
    if i < 0 then
      var ds := NatToDigits(-i);
      DigitsRoundTrip(-i);
      assert ("-" + ds)[1..] == ds;
      "-" + ds
    else
      DigitsRoundTrip(i);
      NatToDigits(i)
  }

  // ----- whitespace -----

  /** The characters `str.strip()` removes, restricted to the ASCII range plus
      U+0085 and U+00A0. */
  predicate IsSpace(c: char) {
    c == ' ' || '\t' <= c <= '\r' || '\U{1C}' <= c <= '\U{1F}' || c == '\U{85}' || c == '\U{A0}'
  }

  /** First index at or after `i` that is not whitespace. */
  function SkipSpaces(s: string, i: nat): (j: nat)
    requires i <= |s|
    ensures i <= j <= |s|
    ensures forall k :: i <= k < j ==> IsSpace(s[k])
    ensures j < |s| ==> !IsSpace(s[j])
    decreases |s| - i
  {
    if i == |s| || !IsSpace(s[i]) then i else SkipSpaces(s, i + 1)
  }

  /** Largest `j` in `[lo, hi]` such that `s[lo..j]` does not end in
      whitespace; everything from `j` to `hi` is whitespace. */
  function SkipSpacesBack(s: string, lo: nat, hi: nat): (j: nat)
    requires lo <= hi <= |s|
    ensures lo <= j <= hi
    ensures forall k :: j <= k < hi ==> IsSpace(s[k])
    ensures j > lo ==> !IsSpace(s[j - 1])
    decreases hi - lo
  {
    if hi == lo || !IsSpace(s[hi - 1]) then hi else SkipSpacesBack(s, lo, hi - 1)
  }

  /** `s.strip()`. */
  function Strip(s: string): (r: string)
    ensures |r| <= |s|
    ensures r == [] || (!IsSpace(r[0]) && !IsSpace(r[|r| - 1]))
    ensures s == [] || (!IsSpace(s[0]) && !IsSpace(s[|s| - 1])) ==> r == s
    ensures exists a, b ::
              && 0 <= a <= b <= |s| && r == s[a..b]
              && (forall k :: 0 <= k < a ==> IsSpace(s[k]))
              && (forall k :: b <= k < |s| ==> IsSpace(s[k]))
  {
    var a := SkipSpaces(s, 0);
    var b := SkipSpacesBack(s, a, |s|);
    s[a..b]
  }

  /** `s.replace(" ", "_")`. */
  function SpacesToUnderscores(s: string): (r: string)
    ensures |r| == |s|
    ensures forall i :: 0 <= i < |s| ==> r[i] == (if s[i] == ' ' then '_' else s[i])
  {
    seq(|s|, i requires 0 <= i < |s| => if s[i] == ' ' then '_' else s[i])
  }

  // ----- joining and ordering -----

  /** `sep.join(xs)`. */
  function Join(sep: string, xs: seq<string>): string {
    if xs == [] then ""
    else if |xs| == 1 then xs[0]
    else xs[0] + sep + Join(sep, xs[1..])
  }

  /** Python's `a < b` on strings: lexicographic by code point. */
  predicate StrLess(a: string, b: string)
    decreases |a|
  {
    if a == [] then b != []
    else if b == [] then false
    else if a[0] != b[0] then a[0] < b[0]
    else StrLess(a[1..], b[1..])
  }
}
