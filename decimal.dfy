/**
 * Decimal text for unsigned integers: what printf's "%u" produces and the
 * digit-reading part of strtoul that reads it back.
 */
module Decimal {
  import opened CTypes

  predicate IsDigit(c: char) { '0' <= c <= '9' }

  predicate AllDigits(s: string) { forall i | 0 <= i < |s| :: IsDigit(s[i]) }

  function DigitChar(d: nat): (c: char)
    requires d < 10
    ensures IsDigit(c) && c as int - '0' as int == d
  {
    ('0' as int + d) as char
  }

  function Pow10(k: nat): (r: nat)
    ensures r >= 1
  {
    if k == 0 then 1 else 10 * Pow10(k - 1)
  }

  /** The "%u" rendering of v: decimal digits, most significant first, no leading zeros. */
  function Digits(v: nat): (s: string)
    ensures |s| >= 1 && AllDigits(s)
    decreases v
  {
    if v < 10 then [DigitChar(v)] else Digits(v / 10) + [DigitChar(v % 10)]
  }

  /** The number a string of decimal digits denotes. */
  function ValueOf(s: string): nat
    requires AllDigits(s)
  {
    if s == [] then 0 else ValueOf(s[..|s| - 1]) * 10 + (s[|s| - 1] as int - '0' as int)
  }

  /** Reading the digits back gives the number that was printed. */
  lemma {:induction false} ValueOfDigits(v: nat)
    ensures ValueOf(Digits(v)) == v
    decreases v
  {
    if v >= 10 {
      ValueOfDigits(v / 10);
      var s := Digits(v);
      assert s[..|s| - 1] == Digits(v / 10);
    }
  }

  /** A number below 10^k prints in at most k digits. */
  lemma {:induction false} DigitsBound(v: nat, k: nat)
    requires 1 <= k && v < Pow10(k)
    ensures |Digits(v)| <= k
    decreases k
  {
    if v >= 10 {
      assert k >= 2;
      assert v / 10 < Pow10(k - 1);
      DigitsBound(v / 10, k - 1);
    }
  }

  /** Every uint32 prints in at most 10 digits, so "%u" fits U32_MAX_LEN (12) with its NUL. */
  lemma U32DigitsAtMostTen(v: u32)
    ensures |Digits(v as nat)| <= 10
  {
    assert Pow10(10) == 10000000000;
    DigitsBound(v as nat, 10);
  }

  /**
   * The rendering starts with '0' only for zero itself, so strtoul with
   * base 0 never takes it for an octal literal.
   */
  lemma {:induction false} NoLeadingZero(v: nat)
    ensures Digits(v)[0] == '0' <==> v == 0
    decreases v
  {
    if v >= 10 {
      NoLeadingZero(v / 10);
      assert Digits(v)[0] == Digits(v / 10)[0];
    }
  }

  /** Length of the longest all-digit prefix of s. */
  function DigitRun(s: string): (n: nat)
    ensures n <= |s| && AllDigits(s[..n]) && (n < |s| ==> !IsDigit(s[n]))
  {
    if s == [] || !IsDigit(s[0]) then 0
    else
      var n := 1 + DigitRun(s[1..]);
      assert s[..n] == [s[0]] + s[1..][..n - 1];
      n
  }

  lemma {:induction false} DigitRunOfDigits(d: string, rest: string)
    requires AllDigits(d) && (rest == [] || !IsDigit(rest[0]))
    ensures DigitRun(d + rest) == |d|
  {
    if d == [] {
      assert d + rest == rest;
    } else {
      assert (d + rest)[1..] == d[1..] + rest;
      DigitRunOfDigits(d[1..], rest);
    }
  }

  /**
   * The base-10 case of strtoul: the value of the leading digits, or
   * ULONG_MAX with ERANGE when it does not fit an unsigned long. Leading
   * blanks, signs and the 0x / 0 prefixes of base 0 are not covered.
   */
  function DecimalStrtoul(s: string): Parsed
  {
    var v := ValueOf(s[..DigitRun(s)]);
    if v <= ULONG_MAX as int then Parsed(v as u64, 0) else Parsed(ULONG_MAX, ERANGE)
  }

  /** strtoul reads back what "%u" printed, whatever non-digit follows. */
  lemma DecimalReadsBack(v: u32, rest: string)
    requires rest == [] || !IsDigit(rest[0])
    ensures DecimalStrtoul(Digits(v as nat) + rest) == Parsed(v as int as u64, 0)
  {
    var d := Digits(v as nat);
    DigitRunOfDigits(d, rest);
    assert (d + rest)[..|d|] == d;
    ValueOfDigits(v as nat);
  }
}
