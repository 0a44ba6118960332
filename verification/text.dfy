/**
  String operations the pages rely on: ASCII case mapping (`toLowerCase`,
  `toUpperCase`), substring search (`String.prototype.includes`), the ordinal
  three-way comparison standing in for `localeCompare`, and the decimal
  rendering of a clock reading (`Number.prototype.toString`).
 */
module Text {

  predicate IsUpperAscii(c: char) { 'A' <= c <= 'Z' }

  predicate IsLowerAscii(c: char) { 'a' <= c <= 'z' }

  function LowerChar(c: char): char
  {
    if IsUpperAscii(c) then (c as int + 32) as char else c
  }

  function UpperChar(c: char): char
  {
    if IsLowerAscii(c) then (c as int - 32) as char else c
  }

  /** `toLowerCase` on ASCII letters: upper-case letters become their
      lower-case counterpart, every other character is kept. */
  function Lower(s: string): (r: string)
    ensures |r| == |s|
    ensures forall i :: 0 <= i < |r| ==> !IsUpperAscii(r[i])
    ensures forall i :: 0 <= i < |s| && !IsUpperAscii(s[i]) ==> r[i] == s[i]
    ensures forall i :: 0 <= i < |s| && IsUpperAscii(s[i]) ==> r[i] as int == s[i] as int + 32
  {
    seq(|s|, i requires 0 <= i < |s| => LowerChar(s[i]))
  }

  /** `toUpperCase` on ASCII letters. */
  function Upper(s: string): (r: string)
    ensures |r| == |s|
    ensures forall i :: 0 <= i < |r| ==> !IsLowerAscii(r[i])
    ensures forall i :: 0 <= i < |s| && !IsLowerAscii(s[i]) ==> r[i] == s[i]
    ensures forall i :: 0 <= i < |s| && IsLowerAscii(s[i]) ==> r[i] as int == s[i] as int - 32
  {
    seq(|s|, i requires 0 <= i < |s| => UpperChar(s[i]))
  }

  /** Lower-casing forgets an earlier upper-casing: both spellings of a
      symbol search alike. */
  lemma LowerOfUpper(s: string)
    ensures Lower(Upper(s)) == Lower(s)
  {
    forall i | 0 <= i < |s|
      ensures Lower(Upper(s))[i] == Lower(s)[i]
    {
      var c := s[i];
      if IsLowerAscii(c) {
        assert Upper(s)[i] as int == c as int - 32;
        assert IsUpperAscii(Upper(s)[i]);
      }
    }
  }

  /** `n` occurs in `h` starting at position `i`. */
  predicate OccursAt(h: string, n: string, i: int)
  {
    0 <= i && i + |n| <= |h| && h[i..i + |n|] == n
  }

  /** `h.includes(n)`: `n` occurs in `h` as a contiguous block. */
  predicate Includes(h: string, n: string)
  {
    exists i :: 0 <= i <= |h| && OccursAt(h, n, i)
  }

  /** The empty search term is found in every string, and every string
      contains itself. */
  lemma IncludesTrivial(h: string)
    ensures Includes(h, "")
    ensures Includes(h, h)
  {
    assert OccursAt(h, "", 0);
    assert OccursAt(h, h, 0);
  }

  /** Three-way comparison by Unicode code point: negative, zero or positive
      as `a` sorts before, equal to or after `b`. */
  function Compare(a: string, b: string): (c: int)
    ensures -1 <= c <= 1
    decreases |a|
  {
    if |a| == 0 then (if |b| == 0 then 0 else -1)
    else if |b| == 0 then 1
    else if a[0] < b[0] then -1
    else if a[0] > b[0] then 1
    else Compare(a[1..], b[1..])
  }

  /** `a` sorts no later than `b`. */
  predicate LessEq(a: string, b: string)
  {
    Compare(a, b) <= 0
  }

  /** Comparison reports a tie exactly for equal strings. */
  lemma {:induction false} CompareZeroIff(a: string, b: string)
    ensures Compare(a, b) == 0 <==> a == b
    decreases |a|
  {
    if |a| > 0 && |b| > 0 && a[0] == b[0] {
      CompareZeroIff(a[1..], b[1..]);
      assert a == [a[0]] + a[1..];
      assert b == [b[0]] + b[1..];
    }
  }

  /** Swapping the arguments flips the sign. */
  lemma {:induction false} CompareAntisymmetric(a: string, b: string)
    ensures Compare(b, a) == -Compare(a, b)
    decreases |a|
  {
    if |a| > 0 && |b| > 0 && a[0] == b[0] {
      CompareAntisymmetric(a[1..], b[1..]);
    }
  }

  /** `LessEq` is transitive. */
  lemma {:induction false} CompareTransitive(a: string, b: string, c: string)
    requires LessEq(a, b) && LessEq(b, c)
    ensures LessEq(a, c)
    decreases |a|
  {
    if |a| > 0 && |b| > 0 && |c| > 0 && a[0] == b[0] && b[0] == c[0] {
      CompareTransitive(a[1..], b[1..], c[1..]);
    }
  }

  function DigitChar(d: nat): (c: char)
    requires d < 10
  {
    ('0' as int + d) as char
  }

  function DigitValue(c: char): (d: nat)
    requires '0' <= c <= '9'
  {
    c as int - '0' as int
  }

  predicate IsDigits(s: string)
  {
    forall i :: 0 <= i < |s| ==> '0' <= s[i] <= '9'
  }

  /** The shortest decimal numeral of `n` (`n.toString()` for a whole number). */
  function Decimal(n: nat): (r: string)
    ensures 1 <= |r|
    ensures IsDigits(r)
    ensures r[0] == '0' ==> n == 0
    decreases n
  {
    if n < 10 then [DigitChar(n)] else Decimal(n / 10) + [DigitChar(n % 10)]
  }

  /** Reads a numeral back into the number it denotes. */
  function ParseDecimal(s: string): nat
    requires IsDigits(s)
    decreases |s|
  {
    if |s| == 0 then 0
    else ParseDecimal(s[..|s| - 1]) * 10 + DigitValue(s[|s| - 1])
  }

  /** Rendering then reading a numeral gives back the number. */
  lemma {:induction false} DecimalRoundTrip(n: nat)
    ensures ParseDecimal(Decimal(n)) == n
    decreases n
  {
    var r := Decimal(n);
    if n < 10 {
      assert r[..0] == [];
    } else {
      DecimalRoundTrip(n / 10);
      assert r[..|r| - 1] == Decimal(n / 10);
    }
  }

  /** Different numbers have different numerals. */
  lemma DecimalInjective(m: nat, n: nat)
    requires m != n
    ensures Decimal(m) != Decimal(n)
  {
    DecimalRoundTrip(m);
    DecimalRoundTrip(n);
  }
}
