/** Decimal text: `to_string`, `format!("{:02}")` and `str::parse` for integers. */
module Decimal {
  import opened Wrappers

  predicate IsDigit(c: char) {
    '0' <= c <= '9'
  }

  predicate AllDigits(s: string) {
    forall i :: 0 <= i < |s| ==> IsDigit(s[i])
  }

  function DigitChar(d: int): char
    requires 0 <= d < 10
  {
    (d + 48) as char
  }

  function DigitValue(c: char): nat
    requires IsDigit(c)
  {
    c as int - 48
  }

  /** The digits of `n`, without leading zeros. */
  function NatText(n: nat): string {
    if n < 10 then [DigitChar(n)] else NatText(n / 10) + [DigitChar(n % 10)]
  }

  /** The number a digit string denotes. */
  function DigitsValue(s: string): nat
    requires AllDigits(s)
  {
    if s == "" then 0
    else 10 * DigitsValue(s[..|s| - 1]) + DigitValue(s[|s| - 1])
  }

  function IntText(n: int): string {
    if n < 0 then "-" + NatText(-n) else NatText(n)
  }

  /** `parse::<uN>()`: an optional plus sign, then digits only. */
  function ParseNat(s: string): Option<nat> {
    var body := if s != "" && s[0] == '+' then s[1..] else s;
    if body != "" && AllDigits(body) then Some(DigitsValue(body)) else None
  }

  /** `parse::<iN>()`: an optional sign, then digits only. */
  function ParseInt(s: string): Option<int> {
    if s != "" && s[0] == '-' then
      var body := s[1..];
      if body != "" && AllDigits(body) then
        var v: int := DigitsValue(body);
        Some(-v)
      else None
    else
      match ParseNat(s)
      case Some(n) => Some(n)
      case None => None
  }

  /** `format!("{:0w$}", n)`: zero-padded to at least `w` characters. */
  function Padded(n: nat, w: nat): string {
    var t := NatText(n);
    seq(if |t| < w then w - |t| else 0, _ => '0') + t
  }

  lemma {:induction false} NatTextDigits(n: nat)
    ensures NatText(n) != "" && AllDigits(NatText(n)) && DigitsValue(NatText(n)) == n
  {
    if n < 10 {
      assert NatText(n)[..0] == "";
    } else {
      NatTextDigits(n / 10);
      var t := NatText(n);
      assert t[..|t| - 1] == NatText(n / 10);
      assert t[|t| - 1] == DigitChar(n % 10);
    }
  }

  /** Parsing printed text gives the number back. */
  lemma {:induction false} NatTextRoundTrip(n: nat)
    ensures ParseNat(NatText(n)) == Some(n)
  {
    NatTextDigits(n);
    assert IsDigit(NatText(n)[0]);
  }

  lemma {:induction false} IntTextRoundTrip(n: int)
    ensures ParseInt(IntText(n)) == Some(n)
  {
    if n < 0 {
      NatTextDigits(-n);
      var t := NatText(-n);
      assert IntText(n) == "-" + t && ("-" + t)[0] == '-' && ("-" + t)[1..] == t;
    } else {
      NatTextRoundTrip(n);
      NatTextDigits(n);
      assert IsDigit(NatText(n)[0]);
    }
  }

  lemma {:induction false} NatTextLength(n: nat, w: nat, bound: nat)
    requires w > 0 && n < bound && bound == Pow10(w)
    ensures |NatText(n)| <= w
  {
    if n >= 10 {
      NatTextLength(n / 10, w - 1, Pow10(w - 1));
    }
  }

  function Pow10(k: nat): nat {
    if k == 0 then 1 else 10 * Pow10(k - 1)
  }

  lemma {:induction false} LeadingZeros(k: nat, t: string)
    requires AllDigits(t)
    ensures AllDigits(seq(k, _ => '0') + t)
    ensures DigitsValue(seq(k, _ => '0') + t) == DigitsValue(t)
    decreases |t|, k
  {
    var z := seq(k, _ => '0');
    if t == "" {
      assert z + t == z;
      if k > 0 {
        var y := seq(k - 1, _ => '0');
        assert z[..k - 1] == y;
        LeadingZeros(k - 1, "");
        assert y + "" == y;
      }
    } else {
      var u := t[..|t| - 1];
      LeadingZeros(k, u);
      assert (z + t)[..|z + t| - 1] == z + u;
    }
  }

  /** Padding keeps the value and fixes the width. */
  lemma {:induction false} PaddedDigits(n: nat, w: nat)
    requires w > 0 && n < Pow10(w)
    ensures |Padded(n, w)| == w && AllDigits(Padded(n, w)) && DigitsValue(Padded(n, w)) == n
  {
    NatTextDigits(n);
    NatTextLength(n, w, Pow10(w));
    LeadingZeros(if |NatText(n)| < w then w - |NatText(n)| else 0, NatText(n));
  }

  // ---- padded numbers digit by digit -----------------------------------------------------------

  lemma {:induction false} TwoDigits(n: nat)
    requires n < 100
    ensures Padded(n, 2) == [DigitChar(n / 10), DigitChar(n % 10)]
  {
    if n < 10 {
      assert NatText(n) == [DigitChar(n)];
      assert seq(1, _ => '0') == [DigitChar(0)];
    } else {
      assert NatText(n / 10) == [DigitChar(n / 10)];
      assert NatText(n) == [DigitChar(n / 10), DigitChar(n % 10)];
      assert seq(0, _ => '0') == "";
    }
  }

  lemma {:induction false} PaddedTail(n: nat, w: nat)
    requires w > 0
    ensures Padded(n, w + 1) == Padded(n / 10, w) + [DigitChar(n % 10)]
  {
    if n < 10 {
      assert NatText(n) == [DigitChar(n)] && NatText(0) == [DigitChar(0)];
      assert seq(w, _ => '0') == seq(w - 1, _ => '0') + [DigitChar(0)];
    } else {
      assert NatText(n) == NatText(n / 10) + [DigitChar(n % 10)];
    }
  }

  lemma {:induction false} FourDigits(n: nat)
    requires n < 10000
    ensures Padded(n, 4) == [DigitChar(n / 1000), DigitChar(n / 100 % 10), DigitChar(n / 10 % 10), DigitChar(n % 10)]
  {
    PaddedTail(n, 3);
    PaddedTail(n / 10, 2);
    TwoDigits(n / 100);
    assert n / 10 / 10 == n / 100 && n / 100 / 10 == n / 1000;
  }

  /** A plus sign in front of a number does not count. */
  lemma {:induction false} PlusSign(n: nat)
    ensures ParseInt("+" + NatText(n)) == Some(n) && ParseNat("+" + NatText(n)) == Some(n)
  {
    NatTextDigits(n);
    assert ("+" + NatText(n))[1..] == NatText(n);
  }
}
