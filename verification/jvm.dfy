/** JVM value types the model needs: the 64-bit `Long` with its
    two's-complement wrap-around, and the decimal text Kotlin's string
    templates produce for integers. */
module Jvm {

  const LongMin: int := -0x8000_0000_0000_0000
  const LongMax: int := 0x7FFF_FFFF_FFFF_FFFF
  const LongModulus: int := 0x1_0000_0000_0000_0000

  type Long = x: int | LongMin <= x <= LongMax

  /** Reduces a mathematical integer to the `Long` the JVM would hold. */
  function WrapLong(x: int): (r: Long)
    ensures LongMin <= x <= LongMax ==> r == x
    ensures x == LongMax + 1 ==> r == LongMin
  {
    (x - LongMin) % LongModulus + LongMin
  }

  /** `v + 1` on a `Long`: the successor, except that `Long.MAX_VALUE` wraps
      to `Long.MIN_VALUE`. Either way the result differs from `v`. */
  function IncLong(v: Long): (r: Long)
    ensures v < LongMax ==> r == v + 1
    ensures v == LongMax ==> r == LongMin
    ensures r != v
  {
    WrapLong(v + 1)
  }

  predicate IsDigit(c: char) {
    '0' <= c <= '9'
  }

  predicate AllDigits(s: string) {
    forall i | 0 <= i < |s| :: IsDigit(s[i])
  }

  function DigitChar(d: nat): (c: char)
    requires d < 10
    ensures IsDigit(c)
    ensures DigitValue(c) == d
  {
    (('0' as int) + d) as char
  }

  function DigitValue(c: char): nat
    requires IsDigit(c)
  {
    (c as int) - ('0' as int)
  }

  /** Decimal digits in canonical form: at least one digit, and no leading
      zero unless the text is "0" itself. */
  predicate Canonical(s: string) {
    |s| >= 1 && AllDigits(s) && (s[0] == '0' ==> |s| == 1)
  }

  /** Decimal text of a natural number, without leading zeros. */
  function Dec(n: nat): (s: string)
    ensures Canonical(s)
    ensures s[0] == '0' <==> n == 0
    decreases n
  {
    if n < 10 then [DigitChar(n)] else Dec(n / 10) + [DigitChar(n % 10)]
  }

  /** Reads a string of decimal digits back as a number; the inverse of `Dec`. */
  function ParseDec(s: string): nat
    requires AllDigits(s)
    decreases |s|
  {
    if |s| == 0 then 0 else ParseDec(s[..|s| - 1]) * 10 + DigitValue(s[|s| - 1])
  }

  lemma {:induction false} ParseDecOfDec(n: nat)
    ensures ParseDec(Dec(n)) == n
    decreases n
  {
    if n >= 10 {
      var s := Dec(n);
      assert s[..|s| - 1] == Dec(n / 10);
      ParseDecOfDec(n / 10);
    }
  }

  /** Every canonical digit string is the text of the number it reads as, so
      `Dec` and `ParseDec` are inverse bijections on canonical texts. */
  lemma {:induction false} DecOfParseDec(s: string)
    requires Canonical(s)
    ensures Dec(ParseDec(s)) == s
    decreases |s|
  {
    var last := s[|s| - 1];
    assert DigitChar(DigitValue(last)) == last;
    if |s| > 1 {
      var init := s[..|s| - 1];
      assert init[0] == s[0];
      DecOfParseDec(init);
      var n := ParseDec(s);
      assert n / 10 == ParseDec(init) && n % 10 == DigitValue(last);
      assert s == init + [last];
    }
  }

  /** `Dec` never maps two numbers to the same text. */
  lemma DecInjective(m: nat, n: nat)
    ensures Dec(m) == Dec(n) <==> m == n
  {
    if Dec(m) == Dec(n) {
      ParseDecOfDec(m);
      ParseDecOfDec(n);
    }
  }

  /** `Long.toString()`: an optional minus sign followed by the digits. */
  function LongToString(v: Long): (s: string)
    ensures |s| >= 2 || (|s| == 1 && v >= 0)
    ensures (s[0] == '-') <==> v < 0
    ensures v >= 0 ==> Canonical(s) && ParseDec(s) == v
    ensures v < 0 ==> Canonical(s[1..]) && ParseDec(s[1..]) == -(v as int)
  {
    var magnitude: nat := if v < 0 then -(v as int) else v as int;
    ParseDecOfDec(magnitude);
    if v < 0 then "-" + Dec(magnitude) else Dec(magnitude)
  }

  /** The contract of `LongToString` fixes the text: any string with the same
      sign, canonical digits and value is that text. */
  lemma LongToStringIsUnique(v: Long, s: string)
    requires |s| >= 1 && ((s[0] == '-') <==> v < 0)
    requires v >= 0 ==> Canonical(s) && ParseDec(s) == v
    requires v < 0 ==> Canonical(s[1..]) && ParseDec(s[1..]) == -(v as int)
    ensures s == LongToString(v)
  {
    if v < 0 {
      DecOfParseDec(s[1..]);
      assert s == "-" + s[1..];
    } else {
      DecOfParseDec(s);
    }
  }
}
