/** Decimal printing and reading of integers, as `strconv.Itoa`, the `%d` verb and the JSON
    number reader use them. */
module Decimal {

  predicate IsDigit(c: char) {
    '0' <= c <= '9'
  }

  predicate AllDigits(s: string) {
    forall i :: 0 <= i < |s| ==> IsDigit(s[i])
  }

  function DigitValue(c: char): nat
    requires IsDigit(c)
  {
    c as int - '0' as int
  }

  function DigitChar(d: nat): char
    requires d < 10
  {
    (d + '0' as int) as char
  }

  /** The decimal digits of a natural number, most significant first, without leading zeros. */
  function Digits(n: nat): (s: string)
    ensures 1 <= |s| && AllDigits(s)
    ensures s[0] == '0' ==> n == 0
    ensures n == 0 ==> s == "0"
  {
    if n < 10 then [DigitChar(n)] else Digits(n / 10) + [DigitChar(n % 10)]
  }

  /** `strconv.Itoa`. */
  function Itoa(n: int): string {
    if n < 0 then "-" + Digits(-n) else Digits(n)
  }

  /** The number a run of digits denotes; leading zeros are allowed. */
  function NatOf(s: string): nat
    requires AllDigits(s)
  {
    if s == [] then 0 else NatOf(s[..|s| - 1]) * 10 + DigitValue(s[|s| - 1])
  }

  lemma {:induction false} NatOfDigits(n: nat)
    ensures NatOf(Digits(n)) == n
  {
    if n >= 10 {
      NatOfDigits(n / 10);
      assert Digits(n)[..|Digits(n)| - 1] == Digits(n / 10);
    }
  }

  lemma DigitsInjective(m: nat, n: nat)
    requires Digits(m) == Digits(n)
    ensures m == n
  {
    NatOfDigits(m);
    NatOfDigits(n);
  }

  lemma ItoaInjective(m: int, n: int)
    requires Itoa(m) == Itoa(n)
    ensures m == n
  {
    assert IsDigit(Digits(if m < 0 then -m else m)[0]) && IsDigit(Digits(if n < 0 then -n else n)[0]);
    if m < 0 && n < 0 {
      assert Itoa(m)[1..] == Digits(-m) && Itoa(n)[1..] == Digits(-n);
      DigitsInjective(-m, -n);
    } else if m >= 0 && n >= 0 {
      DigitsInjective(m, n);
    }
  }

  function Zeros(k: nat): string {
    seq(k, _ => '0')
  }

  lemma {:induction false} NatOfZeros(k: nat, d: string)
    requires AllDigits(d)
    ensures AllDigits(Zeros(k) + d) && NatOf(Zeros(k) + d) == NatOf(d)
    decreases |d| + k
  {
    var s := Zeros(k) + d;
    if d == "" {
      if k > 0 {
        assert s[..|s| - 1] == Zeros(k - 1) + "";
        NatOfZeros(k - 1, "");
      }
    } else {
      assert s[..|s| - 1] == Zeros(k) + d[..|d| - 1];
      NatOfZeros(k, d[..|d| - 1]);
    }
  }

  /** Every run of digits is the decimal text of its number behind some zeros. */
  lemma {:induction false} DigitsOfNat(d: string)
    requires AllDigits(d) && d != ""
    ensures |Digits(NatOf(d))| <= |d| && d == Zeros(|d| - |Digits(NatOf(d))|) + Digits(NatOf(d))
  {
    var rest, c := d[..|d| - 1], d[|d| - 1];
    assert d == rest + [c];
    assert [DigitChar(DigitValue(c))] == [c];
    if rest == "" {
      assert NatOf(rest) == 0;
      assert d == Zeros(0) + [c];
    } else {
      DigitsOfNat(rest);
      if NatOf(rest) == 0 {
        assert rest == Zeros(|rest|);
        assert d == Zeros(|rest|) + [c];
      } else {
        assert Digits(NatOf(d)) == Digits(NatOf(rest)) + [c];
      }
    }
  }
}
