/**
 * The values an argument can carry (src/value.rs): a 64-bit signed number or
 * a string, the `AsValue` conversions into them, and their `Display` form.
 */
module Values {

  newtype i32 = x: int | -0x8000_0000 <= x < 0x8000_0000
  newtype u32 = x: int | 0 <= x < 0x1_0000_0000
  newtype i64 = x: int | -0x8000_0000_0000_0000 <= x < 0x8000_0000_0000_0000
  newtype u64 = x: int | 0 <= x < 0x1_0000_0000_0000_0000
  /** `usize` on a 64-bit target. */
  newtype usize = x: int | 0 <= x < 0x1_0000_0000_0000_0000

  const TWO_TO_THE_64: int := 0x1_0000_0000_0000_0000

  /** `Value`: equality is the datatype's structural equality, as `derive(PartialEq)` gives. */
  datatype Value = Number(n: i64) | Str(s: string)

  function FromI32(x: i32): (v: Value)
    ensures v.Number? && v.n as int == x as int
  {
    Number(x as int as i64)
  }

  function FromU32(x: u32): (v: Value)
    ensures v.Number? && v.n as int == x as int
  {
    Number(x as int as i64)
  }

  function FromI64(x: i64): (v: Value)
    ensures v.Number? && v.n == x
  {
    Number(x)
  }

  /**
   * Rust's `x as i64` on a 64-bit unsigned integer: the same bit pattern read
   * as two's complement.
   */
  function WrapToI64(x: int): (r: i64)
    requires 0 <= x < TWO_TO_THE_64
    ensures (x - r as int) % TWO_TO_THE_64 == 0
  {
    if x < 0x8000_0000_0000_0000 then x as i64 else (x - TWO_TO_THE_64) as i64
  }

  /** The only `i64` congruent to `x` modulo 2^64 is the one `WrapToI64` picks. */
  lemma WrapToI64Unique(x: int, r: i64)
    requires 0 <= x < TWO_TO_THE_64
    requires (x - r as int) % TWO_TO_THE_64 == 0
    ensures r == WrapToI64(x)
  {
    var w := WrapToI64(x);
    var d := w as int - r as int;
    assert d % TWO_TO_THE_64 == 0 by {
      assert d == (x - r as int) - (x - w as int);
    }
    assert -TWO_TO_THE_64 < d < TWO_TO_THE_64;
  }

  /** Values up to 2^63 - 1 keep their value; larger ones become negative. */
  function FromU64(x: u64): (v: Value)
    ensures v.Number? && (x as int - v.n as int) % TWO_TO_THE_64 == 0
    ensures x as int < 0x8000_0000_0000_0000 <==> v.n as int == x as int
    ensures x as int >= 0x8000_0000_0000_0000 <==> v.n < 0
  {
    Number(WrapToI64(x as int))
  }

  function FromUsize(x: usize): (v: Value)
    ensures v.Number? && (x as int - v.n as int) % TWO_TO_THE_64 == 0
    ensures x as int < 0x8000_0000_0000_0000 <==> v.n as int == x as int
    ensures x as int >= 0x8000_0000_0000_0000 <==> v.n < 0
  {
    Number(WrapToI64(x as int))
  }

  function FromStr(s: string): (v: Value)
    ensures v.Str? && v.s == s
  {
    Str(s)
  }

  // ---------------------------------------------------------------------------
  // Decimal rendering of integers (what `i64`'s `Display` writes)

  predicate IsDigit(c: char) {
    '0' <= c <= '9'
  }

  function DigitChar(d: int): (c: char)
    requires 0 <= d < 10
    ensures IsDigit(c) && c as int - '0' as int == d
  {
    ('0' as int + d) as char
  }

  /** A non-empty run of digits that starts with `0` only when it is exactly "0". */
  predicate CanonicalDigits(s: string) {
    && |s| >= 1
    && (forall i :: 0 <= i < |s| ==> IsDigit(s[i]))
    && (s[0] == '0' ==> |s| == 1)
  }

  /**
   * The shape of `i64`'s `Display` output: an optional `-`, then canonical
   * digits, and never "-0".
   */
  predicate CanonicalDecimal(s: string) {
    if |s| > 0 && s[0] == '-' then CanonicalDigits(s[1..]) && s[1..] != "0"
    else CanonicalDigits(s)
  }

  /** The decimal digits of `n`, most significant first, without leading zeros. */
  function NatDigits(n: nat): (s: string)
    ensures CanonicalDigits(s)
    ensures s[0] == '0' <==> n == 0
    decreases n
  {
    if n < 10 then [DigitChar(n)] else NatDigits(n / 10) + [DigitChar(n % 10)]
  }

  /** Decimal form of an integer: a `-` sign for negative numbers, then the digits. */
  function DecimalString(n: int): string {
    if n < 0 then "-" + NatDigits(-n) else NatDigits(n)
  }

  /** Reads a string of digits back as a number (the reference for the round trip). */
  function ParseNat(s: string): int {
    if s == [] then 0 else ParseNat(s[..|s| - 1]) * 10 + (s[|s| - 1] as int - '0' as int)
  }

  function ParseDecimal(s: string): int {
    if |s| > 0 && s[0] == '-' then -ParseNat(s[1..]) else ParseNat(s)
  }

  lemma {:induction false} NatDigitsRoundTrip(n: nat)
    ensures ParseNat(NatDigits(n)) == n
    decreases n
  {
    if n >= 10 {
      var s := NatDigits(n);
      NatDigitsRoundTrip(n / 10);
      assert s[..|s| - 1] == NatDigits(n / 10);
    }
  }

  /** Reading the decimal form back yields the number. */
  lemma DecimalRoundTrip(n: int)
    ensures ParseDecimal(DecimalString(n)) == n
  {
    if n < 0 {
      NatDigitsRoundTrip(-n);
      assert DecimalString(n)[1..] == NatDigits(-n);
    } else {
      NatDigitsRoundTrip(n);
    }
  }

  lemma DecimalStringCanonical(n: int)
    ensures CanonicalDecimal(DecimalString(n))
  {
    if n < 0 {
      assert DecimalString(n)[1..] == NatDigits(-n);
    }
  }

  /** The digits of a canonical run are exactly the decimal form of the number they read as. */
  lemma {:induction false} CanonicalDigitsUnique(s: string)
    requires CanonicalDigits(s)
    ensures ParseNat(s) >= 0
    ensures NatDigits(ParseNat(s)) == s
    decreases |s|
  {
    var p, c := s[..|s| - 1], s[|s| - 1];
    var d := c as int - '0' as int;
    assert IsDigit(c);
    if |s| == 1 {
      assert p == [];
      assert DigitChar(d) == c;
      assert [c] == s;
    } else {
      assert CanonicalDigits(p) by {
        assert p[0] == s[0];
        forall i | 0 <= i < |p| ensures IsDigit(p[i]) {
          assert p[i] == s[i];
        }
      }
      CanonicalDigitsUnique(p);
      var m := ParseNat(p);
      assert m >= 1 by {
        assert p[0] != '0';
      }
      var n := ParseNat(s);
      assert n == m * 10 + d;
      assert n / 10 == m && n % 10 == d;
      assert DigitChar(d) == c;
      assert NatDigits(n) == NatDigits(m) + [c];
      assert s == p + [c];
    }
  }

  /**
   * A canonical decimal string is the only one that reads back as its
   * number: together with the read-back, canonical form fixes the text.
   */
  lemma CanonicalDecimalUnique(s: string, n: int)
    requires CanonicalDecimal(s) && ParseDecimal(s) == n
    ensures s == DecimalString(n)
  {
    if |s| > 0 && s[0] == '-' {
      var digits := s[1..];
      CanonicalDigitsUnique(digits);
      assert ParseNat(digits) != 0 by {
        assert NatDigits(0) == "0";
      }
      assert s == "-" + digits;
    } else {
      CanonicalDigitsUnique(s);
    }
  }

  /**
   * `Display` of a value: a number in decimal, a string unchanged. The
   * decimal form is a sign (only for negative numbers) followed by digits
   * without leading zeros, and it reads back as the number; by
   * `CanonicalDecimalUnique` no other string has both properties.
   */
  function Display(v: Value): (s: string)
    ensures v.Str? ==> s == v.s
    ensures v.Number? ==> CanonicalDecimal(s)
    ensures v.Number? ==> ParseDecimal(s) == v.n as int
    ensures v.Number? ==> (v.n < 0 <==> |s| > 0 && s[0] == '-')
  {
    match v
    case Number(n) =>
      DecimalRoundTrip(n as int);
      DecimalStringCanonical(n as int);
      DecimalString(n as int)
    case Str(s) => s
  }

  /** Two different numbers never display the same. */
  lemma DisplayNumberInjective(a: i64, b: i64)
    requires Display(Number(a)) == Display(Number(b))
    ensures a == b
  {
  }

  /** Integers always become `Number`, strings always `Str`: none of the conversions fails. */
  lemma ConversionExamples()
    ensures FromI32(-7) == Number(-7) && FromU32(7) == Number(7)
    ensures FromU64(0xFFFF_FFFF_FFFF_FFFF) == Number(-1)
    ensures FromUsize(0x8000_0000_0000_0000) == Number(-0x8000_0000_0000_0000)
    ensures Display(Number(3)) == "3" && Display(Number(-42)) == "-42"
    ensures Display(FromStr("John")) == "John"
  {
    assert NatDigits(42) == NatDigits(4) + [DigitChar(2)];
  }
}
