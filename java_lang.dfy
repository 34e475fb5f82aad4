/**
 * The few java.lang behaviours the core relies on: Integer.toString for positive
 * counters, String.lastIndexOf, String.length and String.hashCode over UTF-16
 * code units with 32-bit wrap-around, the
 * String.trim based blank test of @NotBlank, and ASCII case mapping for
 * String.equalsIgnoreCase.
 */
module JavaLang {

  // ---------------------------------------------------------------------------
  // Integer.toString
  // ---------------------------------------------------------------------------

  function DigitChar(d: nat): (c: char)
    requires d < 10
    ensures '0' <= c <= '9'
  {
    (48 + d) as char
  }

  /** Decimal rendering of a natural number, as Integer.toString gives it for n >= 0. */
  function NatToString(n: nat): (s: string)
    ensures 1 <= |s|
    ensures forall i :: 0 <= i < |s| ==> '0' <= s[i] <= '9'
    ensures n < 10 <==> |s| == 1
  {
    if n < 10 then [DigitChar(n)] else NatToString(n / 10) + [DigitChar(n % 10)]
  }

  /** Distinct numbers have distinct decimal renderings. */
  lemma {:induction false} NatToStringInjective(a: nat, b: nat)
    requires NatToString(a) == NatToString(b)
    ensures a == b
  {
    if a >= 10 && b >= 10 {
      var sa, sb := NatToString(a), NatToString(b);
      assert sa[..|sa| - 1] == NatToString(a / 10);
      assert sb[..|sb| - 1] == NatToString(b / 10);
      NatToStringInjective(a / 10, b / 10);
      assert DigitChar(a % 10) == sa[|sa| - 1] == sb[|sb| - 1] == DigitChar(b % 10);
    }
  }

  // ---------------------------------------------------------------------------
  // String.lastIndexOf(char)
  // ---------------------------------------------------------------------------

  /** Index of the last occurrence of c in s, or -1 when c does not occur. */
  function LastIndexOf(s: string, c: char): (r: int)
    ensures -1 <= r < |s|
    ensures r >= 0 ==> s[r] == c
    ensures forall i :: r < i < |s| ==> s[i] != c
  {
    if |s| == 0 then -1
    else if s[|s| - 1] == c then |s| - 1
    else LastIndexOf(s[..|s| - 1], c)
  }

  // ---------------------------------------------------------------------------
  // UTF-16: Java strings are sequences of 16-bit code units
  // ---------------------------------------------------------------------------

  /** Whether c lies outside the Basic Multilingual Plane, where UTF-16 needs a surrogate pair. */
  predicate IsSupplementary(c: char) {
    c as int >= 0x1_0000
  }

  /** The UTF-16 code units of one char: itself, or its high and low surrogate. */
  function CodeUnits(c: char): (u: seq<int>)
    ensures |u| == (if IsSupplementary(c) then 2 else 1)
    ensures forall k :: 0 <= k < |u| ==> 0 <= u[k] < 0x1_0000
    ensures IsSupplementary(c) ==> 0xD800 <= u[0] < 0xDC00 <= u[1] < 0xE000
    ensures !IsSupplementary(c) ==> u == [c as int]
  {
    if IsSupplementary(c) then
      var v := c as int - 0x1_0000;
      [0xD800 + v / 0x400, 0xDC00 + v % 0x400]
    else [c as int]
  }

  /** The UTF-16 encoding of s: the code units Java's String holds. */
  function Utf16(s: string): (u: seq<int>)
    ensures forall k :: 0 <= k < |u| ==> 0 <= u[k] < 0x1_0000
  {
    if |s| == 0 then [] else Utf16(s[..|s| - 1]) + CodeUnits(s[|s| - 1])
  }

  /** String.length: the number of UTF-16 code units, two for each supplementary char. */
  function Utf16Length(s: string): (n: nat)
    ensures |s| <= n <= 2 * |s|
  {
    if |s| == 0 then 0 else Utf16Length(s[..|s| - 1]) + (if IsSupplementary(s[|s| - 1]) then 2 else 1)
  }

  /** String.length is the length of the UTF-16 encoding. */
  lemma {:induction false} Utf16LengthIsEncodingLength(s: string)
    ensures Utf16Length(s) == |Utf16(s)|
  {
    if |s| > 0 {
      Utf16LengthIsEncodingLength(s[..|s| - 1]);
    }
  }

  /** A string of Basic Multilingual Plane chars is its own UTF-16 encoding, so Java's length is |s|. */
  lemma {:induction false} BmpIsOwnUtf16(s: string)
    requires forall i :: 0 <= i < |s| ==> !IsSupplementary(s[i])
    ensures Utf16Length(s) == |s|
    ensures Utf16(s) == seq(|s|, i requires 0 <= i < |s| => s[i] as int)
  {
    if |s| > 0 {
      BmpIsOwnUtf16(s[..|s| - 1]);
    }
  }

  /** A string of supplementary chars has twice as many code units as chars. */
  lemma {:induction false} SupplementaryIsTwiceAsLong(s: string)
    requires forall i :: 0 <= i < |s| ==> IsSupplementary(s[i])
    ensures Utf16Length(s) == 2 * |s|
  {
    if |s| > 0 {
      SupplementaryIsTwiceAsLong(s[..|s| - 1]);
    }
  }

  /** A supplementary char counts twice: |s| chars may be more than 255 code units. */
  lemma SupplementaryCountsTwice(c: char)
    requires IsSupplementary(c)
    ensures Utf16Length([c]) == 2
  {
    assert [c][..0] == [];
  }

  // ---------------------------------------------------------------------------
  // String.hashCode and 32-bit int arithmetic
  // ---------------------------------------------------------------------------

  const INT_MIN: int := -0x8000_0000
  const INT_MAX: int := 0x7fff_ffff

  predicate IsInt32(x: int) {
    INT_MIN <= x <= INT_MAX
  }

  /** Two's-complement wrap-around of Java int arithmetic. */
  function Wrap32(x: int): (r: int)
    ensures IsInt32(r)
    ensures (r - x) % 0x1_0000_0000 == 0
    ensures IsInt32(x) ==> r == x
  {
    (x - INT_MIN) % 0x1_0000_0000 + INT_MIN
  }

  /** The exact polynomial u[0]*31^(n-1) + ... + u[n-1], without wrap-around. */
  function Poly31(u: seq<int>): int {
    if |u| == 0 then 0 else 31 * Poly31(u[..|u| - 1]) + u[|u| - 1]
  }

  /** One Horner step keeps the running value congruent to the exact polynomial modulo 2^32. */
  lemma HornerStepCongruent(prev: int, exact: int, unit: int, h: int)
    requires (prev - exact) % 0x1_0000_0000 == 0
    requires (h - (31 * prev + unit)) % 0x1_0000_0000 == 0
    ensures (h - (31 * exact + unit)) % 0x1_0000_0000 == 0
  {
    var q := (prev - exact) / 0x1_0000_0000;
    var q' := (h - (31 * prev + unit)) / 0x1_0000_0000;
    assert prev - exact == q * 0x1_0000_0000;
    assert h - (31 * prev + unit) == q' * 0x1_0000_0000;
    assert h - (31 * exact + unit) == (q' + 31 * q) * 0x1_0000_0000;
  }

  /** Horner evaluation of Poly31 in Java int arithmetic: the hashCode loop over code units. */
  function HashUnits(u: seq<int>): (h: int)
    ensures IsInt32(h)
    ensures (h - Poly31(u)) % 0x1_0000_0000 == 0
  {
    if |u| == 0 then 0
    else
      var prev := HashUnits(u[..|u| - 1]);
      var h := Wrap32(31 * prev + u[|u| - 1]);
      HornerStepCongruent(prev, Poly31(u[..|u| - 1]), u[|u| - 1], h);
      h
  }

  /** String.hashCode: Poly31 over the string's UTF-16 code units, reduced to a Java int. */
  function StringHashCode(s: string): (h: int)
    ensures IsInt32(h)
    ensures (h - Poly31(Utf16(s))) % 0x1_0000_0000 == 0
  {
    HashUnits(Utf16(s))
  }

  // ---------------------------------------------------------------------------
  // @NotBlank and String.equalsIgnoreCase
  // ---------------------------------------------------------------------------

  /** String.trim removes every char <= ' ' at both ends; @NotBlank fails when nothing is left. */
  predicate IsBlank(s: string) {
    forall i :: 0 <= i < |s| ==> s[i] <= ' '
  }

  function ToUpper(c: char): char {
    if 'a' <= c <= 'z' then (c as int - 32) as char else c
  }

  function ToLower(c: char): char {
    if 'A' <= c <= 'Z' then (c as int + 32) as char else c
  }

  /** The per-character test of String.regionMatches(ignoreCase = true). */
  predicate CharEqualsIgnoreCase(a: char, b: char) {
    a == b || ToUpper(a) == ToUpper(b) || ToLower(ToUpper(a)) == ToLower(ToUpper(b))
  }

  predicate EqualsIgnoreCase(a: string, b: string) {
    |a| == |b| && forall i :: 0 <= i < |a| ==> CharEqualsIgnoreCase(a[i], b[i])
  }

}
