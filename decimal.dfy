/** Decimal text of unsigned integers: the `Display` of `u64` and Rust's
    `str::parse::<u64>`, which the scan-id and block-height parsers use. */
module Decimal {
  import opened Errors

  const MaxU64: int := 0xFFFF_FFFF_FFFF_FFFF

  type U64 = n: int | 0 <= n <= MaxU64

  predicate IsDigit(c: char) { '0' <= c <= '9' }

  predicate AllDigits(s: string) { forall i :: 0 <= i < |s| ==> IsDigit(s[i]) }

  function DigitValue(c: char): (d: nat)
    requires IsDigit(c)
    ensures d < 10
  {
    c as int - '0' as int
  }

  function DigitChar(d: nat): (c: char)
    requires d < 10
    ensures IsDigit(c) && DigitValue(c) == d
  {
    ('0' as int + d) as char
  }

  /** The number an ASCII digit string denotes (leading zeros allowed). */
  function Value(ds: string): nat
    requires AllDigits(ds)
  {
    if |ds| == 0 then 0 else 10 * Value(ds[..|ds| - 1]) + DigitValue(ds[|ds| - 1])
  }

  /** Decimal rendering of a natural number, without leading zeros. */
  function Show(n: nat): (s: string)
    ensures |s| > 0 && AllDigits(s)
    ensures s[0] == '0' ==> n == 0
  {
    if n < 10 then [DigitChar(n)] else Show(n / 10) + [DigitChar(n % 10)]
  }

  /** Decimal rendering of an integer: a minus sign, then the magnitude. */
  function IntText(n: int): (s: string)
    ensures |s| > 0 && (IsDigit(s[0]) || s[0] == '-')
  {
    if n < 0 then "-" + Show(-n) else Show(n)
  }

  /** `str::parse::<u64>`: an optional leading `+`, then one or more ASCII
      digits whose value fits in 64 bits. */
  function ParseU64(s: string): (r: Option<U64>)
    ensures r.Some? ==> |s| > 0 && forall i :: 0 <= i < |s| ==> IsDigit(s[i]) || (i == 0 && s[i] == '+')
  {
    var ds := if |s| > 0 && s[0] == '+' then s[1..] else s;
    if |ds| == 0 || !AllDigits(ds) then None
    else if Value(ds) > MaxU64 then None
    else Some(Value(ds))
  }

  /** Reading back a rendered number gives the number. */
  lemma {:induction false} ValueOfShow(n: nat)
    ensures Value(Show(n)) == n
  {
    if n >= 10 {
      var s := Show(n);
      assert s[..|s| - 1] == Show(n / 10);
      ValueOfShow(n / 10);
    }
  }

  function Zeros(k: nat): (z: string)
    ensures |z| == k && AllDigits(z)
  {
    if k == 0 then "" else Zeros(k - 1) + "0"
  }

  lemma {:induction false} ValueOfZeros(k: nat)
    ensures Value(Zeros(k)) == 0
  {
    if k > 0 {
      assert Zeros(k)[..k - 1] == Zeros(k - 1);
      ValueOfZeros(k - 1);
    }
  }

  /** Leading zeros do not change the value of a digit string. */
  lemma {:induction false} ValueIgnoresLeadingZeros(k: nat, ds: string)
    requires AllDigits(ds)
    ensures AllDigits(Zeros(k) + ds) && Value(Zeros(k) + ds) == Value(ds)
  {
    var s := Zeros(k) + ds;
    assert AllDigits(s) by {
      forall i | 0 <= i < |s| ensures IsDigit(s[i]) {
        if i >= k { assert s[i] == ds[i - k]; }
      }
    }
    if |ds| == 0 {
      assert s == Zeros(k);
      ValueOfZeros(k);
    } else {
      assert s[..|s| - 1] == Zeros(k) + ds[..|ds| - 1];
      ValueIgnoresLeadingZeros(k, ds[..|ds| - 1]);
    }
  }

  lemma {:induction false} ValueAtLeastOne(ds: string)
    requires AllDigits(ds) && |ds| > 0 && ds[0] != '0'
    ensures Value(ds) >= 1
  {
    if |ds| > 1 {
      ValueAtLeastOne(ds[..|ds| - 1]);
    } else {
      assert DigitValue(ds[0]) >= 1;
    }
  }
}
