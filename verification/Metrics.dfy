/** The choice of unit for a byte count, in 64-bit arithmetic. */
module Metrics {

  newtype uint64 = x: int | 0 <= x < 0x1_0000_0000_0000_0000

  const UNIT: uint64 := 1024
  const SUFFIXES := "KMGTPE"

  function Power(k: nat): nat {
    if k == 0 then 1 else 1024 * Power(k - 1)
  }

  /** The powers of 1024 that fit in 64 bits. */
  lemma {:induction false} PowersThatFit(k: nat)
    ensures Power(k) < 0x1_0000_0000_0000_0000 <==> k <= 6
  {
    if k > 7 {
      PowersThatFit(k - 1);
    } else {
      assert Power(2) == 0x10_0000 && Power(4) == 0x100_0000_0000;
      assert Power(6) == 0x1000_0000_0000_0000;
    }
  }

  lemma Scale(d: nat, a: nat, b: nat)
    requires a <= b
    ensures d * a <= d * b
  {
    assert d * b == d * a + d * (b - a);
  }

  /** v is the quotient of n by d. */
  predicate Divides(n: nat, d: nat, v: nat) {
    d * v <= n < d * (v + 1)
  }

  lemma DivideOnceMore(n: nat, d: nat, v: nat)
    requires Divides(n, d, v)
    ensures Divides(n, d * 1024, v / 1024)
  {
    Scale(d, 1024 * (v / 1024), v);
    Scale(d, v + 1, 1024 * (v / 1024 + 1));
    assert d * (1024 * (v / 1024)) == d * 1024 * (v / 1024);
    assert d * (1024 * (v / 1024 + 1)) == d * 1024 * (v / 1024 + 1);
  }

  /** For every 64-bit count the loop ends without overflow on the one power of 1024 with
      div <= n < 1024 * div, and there is a suffix for it. */
  method UnitOf(n: uint64) returns (div: uint64, exp: nat)
    requires n >= UNIT
    ensures div as int == Power(exp + 1) && exp < |SUFFIXES|
    ensures div as int <= n as int < 1024 * div as int
  {
    div, exp := UNIT, 0;
    var v := n / UNIT;
    while v >= UNIT
      invariant v >= 1 && div as int == Power(exp + 1) && Divides(n as int, div as int, v as int)
      decreases v
    {
      DivideOnceMore(n as int, div as int, v as int);
      Scale(div as int * 1024, 1, v as int / 1024);
      div := div * UNIT;
      exp := exp + 1;
      v := v / UNIT;
    }
    Scale(div as int, 1, v as int);
    Scale(div as int, v as int + 1, 1024);
    PowersThatFit(exp + 1);
  }

  /** The number printed with one decimal, in tenths: the nearest one, and the even one
      of two that are equally near. */
  function Tenths(n: nat, d: nat): nat
    requires d > 0
  {
    var q, r := 10 * n / d, 10 * n % d;
    if 2 * r > d || (2 * r == d && q % 2 == 1) then q + 1 else q
  }

  /** No number of tenths is nearer. */
  lemma TenthsIsNearest(n: nat, d: nat)
    requires d > 0
    ensures var t := Tenths(n, d); 2 * (10 * n - d * t) <= d && 2 * (d * t - 10 * n) <= d
    ensures var t := Tenths(n, d); 2 * (10 * n - d * t) == d || 2 * (d * t - 10 * n) == d ==> t % 2 == 0
  {
    var q, r := 10 * n / d, 10 * n % d;
    assert 10 * n == d * q + r;
    assert d * (q + 1) == d * q + d;
  }

  lemma AtLeastExactly(m: nat, d: nat, q: nat, r: nat, k: nat)
    requires d > 0 && m == d * q + r && r < d
    ensures q >= k <==> m >= d * k
  {
    if q >= k {
      Scale(d, k, q);
    } else {
      Scale(d, q + 1, k);
      assert d * (q + 1) == d * q + d;
    }
  }

  /** The printed number stays under 1024.0 of its unit except when the quotient is
      1023.95 or more. */
  lemma PrintsFullUnitExactly(n: nat, d: nat)
    requires d > 0
    ensures Tenths(n, d) >= 10240 <==> 20 * n >= 20479 * d
  {
    var q, r := 10 * n / d, 10 * n % d;
    assert 10 * n == d * q + r;
    AtLeastExactly(10 * n, d, q, r, 10240);
    AtLeastExactly(10 * n, d, q, r, 10239);
    if q == 10239 {
      assert 20 * n == 20478 * d + 2 * r;
    }
  }

  /** Such a count exists: this one is printed as 1024.0 KiB. */
  lemma FullUnitPrinted()
    ensures 1024 <= 1048525 < 1024 * 1024 && Tenths(1048525, 1024) == 10240
  {
  }
}
