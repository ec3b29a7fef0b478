/** Decimal text of integers, as Python's `str` and zero-padded formatting produce it. */
module Decimal {

  predicate IsDigit(c: char) { '0' <= c <= '9' }

  predicate AllDigits(s: string) { forall i :: 0 <= i < |s| ==> IsDigit(s[i]) }

  function DigitChar(d: nat): (c: char)
    requires d < 10
    ensures IsDigit(c) && c as int - '0' as int == d
  {
    '0' + d as char
  }

  /** `str(n)` for n >= 0. */
  function NatText(n: nat): (s: string)
    ensures s != "" && AllDigits(s)
    ensures s[0] == '0' ==> s == "0"
  {
    if n < 10 then [DigitChar(n)] else NatText(n / 10) + [DigitChar(n % 10)]
  }

  /** `str(n)`. */
  function IntText(n: int): (s: string)
    ensures s != "" && (s[0] == '-' <==> n < 0)
    ensures AllDigits(if n < 0 then s[1..] else s)
  {
    if n < 0 then "-" + NatText(-n) else NatText(n)
  }

  /** `n` in exactly `width` digits, high digits dropped when they do not fit. */
  function Padded(n: nat, width: nat): (s: string)
    ensures |s| == width && AllDigits(s)
  {
    if width == 0 then "" else Padded(n / 10, width - 1) + [DigitChar(n % 10)]
  }

  function ReadNat(s: string): nat
    requires AllDigits(s)
  {
    if s == "" then 0
    else ReadNat(s[..|s| - 1]) * 10 + (s[|s| - 1] as int - '0' as int)
  }

  function PowerOfTen(w: nat): nat { if w == 0 then 1 else 10 * PowerOfTen(w - 1) }

  lemma {:induction false} ReadNatText(n: nat)
    ensures ReadNat(NatText(n)) == n
  {
    if n < 10 {
      assert NatText(n)[..0] == "";
    } else {
      ReadNatText(n / 10);
      assert NatText(n)[..|NatText(n)| - 1] == NatText(n / 10);
    }
  }

  lemma {:induction false} ReadPadded(n: nat, w: nat)
    requires n < PowerOfTen(w)
    ensures ReadNat(Padded(n, w)) == n
  {
    if w > 0 {
      ReadPadded(n / 10, w - 1);
      assert Padded(n, w)[..w - 1] == Padded(n / 10, w - 1);
    }
  }

  lemma NatTextInjective(a: nat, b: nat)
    requires NatText(a) == NatText(b)
    ensures a == b
  {
    ReadNatText(a);
    ReadNatText(b);
  }

  lemma IntTextInjective(a: int, b: int)
    requires IntText(a) == IntText(b)
    ensures a == b
  {
    assert a < 0 <==> b < 0;
    if a < 0 {
      assert IntText(a)[1..] == NatText(-a) && IntText(b)[1..] == NatText(-b);
      NatTextInjective(-a, -b);
    } else {
      NatTextInjective(a, b);
    }
  }
}
