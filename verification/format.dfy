/** The small part of Go's `fmt` verbs the decoders use to build messages:
    `%d`, `%03d`, `%02x` on integers. Text is a Dafny `string`. */
module Format {

  /** The digit character for `d` in bases up to 16 (lower-case hex, as `%x`). */
  function DigitChar(d: nat): (c: char)
    requires d < 16
  {
    if d < 10 then ('0' as int + d) as char else ('a' as int + d - 10) as char
  }

  /** The value of `c` as a digit in `base`, or -1 when it is not one. */
  function DigitValue(c: char, base: nat): (v: int)
    requires 2 <= base <= 16
    ensures -1 <= v < base
  {
    if '0' <= c <= '9' && c as int - '0' as int < base then c as int - '0' as int
    else if 'a' <= c <= 'f' && c as int - 'a' as int + 10 < base then c as int - 'a' as int + 10
    else -1
  }

  lemma DigitCharValue(d: nat, base: nat)
    requires 2 <= base <= 16 && d < base
    ensures DigitValue(DigitChar(d), base) == d
    ensures DigitChar(d) != '-'
  {
  }

  /** No digit is a minus sign. */
  lemma DigitIsNotMinus(c: char, base: nat)
    requires 2 <= base <= 16
    requires DigitValue(c, base) >= 0
    ensures c != '-'
  {
  }

  predicate IsDigits(s: string, base: nat)
    requires 2 <= base <= 16
  {
    forall i :: 0 <= i < |s| ==> DigitValue(s[i], base) >= 0
  }

  /** Euclidean division by a base: the quotient is smaller and the remainder a digit. */
  lemma DivideByBase(n: nat, base: nat)
    requires 2 <= base <= 16
    ensures n == (n / base) * base + n % base
    ensures 0 <= n % base < base
    ensures n >= base ==> 1 <= n / base < n
  {
    var q, r := n / base, n % base;
    if n >= base {
      assert q != 0;
      assert q * 2 <= q * base;
    }
  }

  /** The shortest digit string of `n` in `base` ("0" for zero), as Go prints it. */
  function Digits(n: nat, base: nat): (s: string)
    requires 2 <= base <= 16
    ensures 1 <= |s|
    ensures IsDigits(s, base)
    ensures s[0] == '0' <==> n == 0
    ensures n == 0 ==> s == "0"
    decreases n
  {
    DivideByBase(n, base);
    DigitCharValue(n % base, base);
    if n < base then [DigitChar(n)] else Digits(n / base, base) + [DigitChar(n % base)]
  }

  /** Reads a digit string most significant digit first. */
  function ParseDigits(s: string, base: nat): (n: nat)
    requires 2 <= base <= 16
    requires IsDigits(s, base)
    decreases |s|
  {
    if s == [] then 0 else ParseDigits(s[..|s| - 1], base) * base + DigitValue(s[|s| - 1], base)
  }

  /** Pads `s` on the left with '0' up to `width` characters (the `0` flag of a Go verb). */
  function ZeroPad(s: string, width: nat): (r: string)
    ensures |r| == if |s| < width then width else |s|
    ensures r[|r| - |s|..] == s
    ensures forall i :: 0 <= i < |r| - |s| ==> r[i] == '0'
  {
    var zeros := if |s| < width then width - |s| else 0;
    seq(zeros, _ => '0') + s
  }

  /** Go's `%0<width>d` / `%0<width>x` of a non-negative value. */
  function FormatUnsigned(n: nat, base: nat, width: nat): (s: string)
    requires 2 <= base <= 16
    ensures 1 <= |s|
    ensures IsDigits(s, base)
    ensures ParseDigits(s, base) == n
    ensures s[0] != '-'
    ensures width <= 1 ==> (s[0] == '0' <==> n == 0) && (n == 0 ==> s == "0")
  {
    PaddedDigits(n, base, width);
    ZeroPad(Digits(n, base), width)
  }

  /** A value with at most `width` digits prints in exactly `width` columns. */
  lemma FormatUnsignedWidth(n: nat, base: nat, width: nat)
    requires 2 <= base <= 16
    requires |Digits(n, base)| <= width
    ensures |FormatUnsigned(n, base, width)| == width
  {
  }

  lemma PaddedDigits(n: nat, base: nat, width: nat)
    requires 2 <= base <= 16
    ensures IsDigits(ZeroPad(Digits(n, base), width), base)
    ensures ParseDigits(ZeroPad(Digits(n, base), width), base) == n
    ensures ZeroPad(Digits(n, base), width)[0] != '-'
  {
    var d := Digits(n, base);
    var s := ZeroPad(d, width);
    DigitsRoundTrip(n, base);
    LeadingZerosIgnored(s, d, base);
    DigitIsNotMinus(s[0], base);
  }

  /** Go's `%0<width>x` of a possibly negative value: the sign takes one of the
      `width` columns and the digits are padded to the rest. */
  function FormatSigned(n: int, base: nat, width: nat): (s: string)
    requires 2 <= base <= 16
    ensures 1 <= |s|
    ensures s[0] == '-' <==> n < 0
  {
    if n < 0 then "-" + FormatUnsigned(-n, base, if width == 0 then 0 else width - 1)
    else FormatUnsigned(n, base, width)
  }

  /** Parsing the printed digits gives the number back. */
  lemma {:induction false} DigitsRoundTrip(n: nat, base: nat)
    requires 2 <= base <= 16
    ensures ParseDigits(Digits(n, base), base) == n
    decreases n
  {
    DivideByBase(n, base);
    DigitCharValue(n % base, base);
    if n >= base {
      var s := Digits(n, base);
      assert s[..|s| - 1] == Digits(n / base, base);
      DigitsRoundTrip(n / base, base);
    }
  }

  /** Zeros in front of a digit string do not change its value. */
  lemma {:induction false} LeadingZerosIgnored(r: string, s: string, base: nat)
    requires 2 <= base <= 16
    requires IsDigits(s, base)
    requires |s| <= |r| && r[|r| - |s|..] == s
    requires forall i :: 0 <= i < |r| - |s| ==> r[i] == '0'
    ensures IsDigits(r, base)
    ensures ParseDigits(r, base) == ParseDigits(s, base)
    decreases |r|
  {
    assert IsDigits(r, base) by {
      forall i | 0 <= i < |r|
        ensures DigitValue(r[i], base) >= 0
      {
        if i >= |r| - |s| {
          assert r[i] == s[i - (|r| - |s|)];
        }
      }
    }
    if s == [] {
      if r != [] {
        assert r[..|r| - 1] + [r[|r| - 1]] == r;
        LeadingZerosIgnored(r[..|r| - 1], s, base);
      }
    } else {
      assert r[|r| - 1] == s[|s| - 1];
      LeadingZerosIgnored(r[..|r| - 1], s[..|s| - 1], base);
    }
  }

  /** A value below 1000 needs at most three decimal digits. */
  lemma DecimalDigitsBelow1000(n: nat)
    requires n < 1000
    ensures |Digits(n, 10)| <= 3
  {
    if n >= 10 {
      var q := n / 10;
      assert q < 100;
      if q >= 10 {
        assert q / 10 < 10;
        assert |Digits(q, 10)| == |Digits(q / 10, 10)| + 1;
      }
      assert |Digits(n, 10)| == |Digits(q, 10)| + 1;
    }
  }

  /** Distinct numbers print differently, whatever the width. */
  lemma FormatUnsignedInjective(a: nat, b: nat, base: nat, width: nat)
    requires 2 <= base <= 16
    requires FormatUnsigned(a, base, width) == FormatUnsigned(b, base, width)
    ensures a == b
  {
  }

  /** Distinct integers print differently, whatever the width and sign. */
  lemma FormatSignedInjective(a: int, b: int, base: nat, width: nat)
    requires 2 <= base <= 16
    requires FormatSigned(a, base, width) == FormatSigned(b, base, width)
    ensures a == b
  {
    if a < 0 && b < 0 {
      var w := if width == 0 then 0 else width - 1;
      assert FormatUnsigned(-a, base, w) == FormatSigned(a, base, width)[1..];
      assert FormatUnsigned(-b, base, w) == FormatSigned(b, base, width)[1..];
    }
  }

  /** Two strings built from the same prefix and suffix are equal only when
      their middles are. */
  lemma SameFrameSameMiddle(p: string, x: string, y: string, q: string)
    requires p + x + q == p + y + q
    ensures x == y
  {
    assert |x| == |y|;
    assert x == (p + x + q)[|p|..|p| + |x|];
    assert y == (p + y + q)[|p|..|p| + |y|];
  }
}
