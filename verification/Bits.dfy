/** C's bitwise operators on non-negative integers, bit by bit, and what the masks used in
    the sources compute in terms of division. */
module Bits {

  /** a & b */
  function And(a: nat, b: nat): nat
    decreases a
  {
    if a == 0 || b == 0 then 0
    else 2 * And(a / 2, b / 2) + if a % 2 == 1 && b % 2 == 1 then 1 else 0
  }

  /** a | b */
  function Or(a: nat, b: nat): nat
    decreases a
  {
    if a == 0 then b
    else if b == 0 then a
    else 2 * Or(a / 2, b / 2) + if a % 2 == 1 || b % 2 == 1 then 1 else 0
  }

  function Pow2(k: nat): (p: nat)
    ensures p > 0
  {
    if k == 0 then 1 else 2 * Pow2(k - 1)
  }

  /** The size test of vchiu_queue_init. */
  predicate IsPow2(i: nat) {
    i != 0 && And(i, i - 1) == 0
  }

  lemma {:induction false} AndSelf(a: nat)
    ensures And(a, a) == a
  {
    if a != 0 { AndSelf(a / 2); }
  }

  lemma {:induction false} HalfMod(x: nat, p: nat)
    requires p > 0
    ensures x % (2 * p) == 2 * (x / 2 % p) + x % 2
  {
    var q, r := x / 2 / p, x / 2 % p;
    assert x / 2 == q * p + r;
    assert x == (2 * p) * q + (2 * r + x % 2);
    ModUnique(x, 2 * p, q, 2 * r + x % 2);
  }

  lemma ModUnique(x: int, d: int, q: int, r: int)
    requires d > 0 && 0 <= r < d && x == d * q + r
    ensures x / d == q && x % d == r
  {
    var q' := x / d;
    if q' > q { MulMonotone(d, q + 1, q'); }
    if q' < q { MulMonotone(d, q' + 1, q); }
  }

  lemma MulMonotone(d: nat, a: int, b: int)
    requires a <= b
    ensures d * a <= d * b
  {
  }

  /** Masking with a power of two less one is reduction modulo the power. */
  lemma {:induction false} AndMask(x: nat, k: nat)
    ensures And(x, Pow2(k) - 1) == x % Pow2(k)
  {
    if k > 0 {
      var p, r := Pow2(k - 1), x / 2 % Pow2(k - 1);
      assert And(x / 2, p - 1) == r by { AndMask(x / 2, k - 1); }
      assert And(x, 2 * p - 1) == 2 * r + x % 2 by { AndHalves(x, p); }
      assert x % (2 * p) == 2 * r + x % 2 by { HalfMod(x, p); }
    }
  }

  lemma AndHalves(x: nat, p: nat)
    requires p > 0
    ensures And(x, 2 * p - 1) == 2 * And(x / 2, p - 1) + x % 2
  {
    assert (2 * p - 1) / 2 == p - 1 && (2 * p - 1) % 2 == 1;
  }

  /** Or-ing an index into cleared low bits adds it. */
  lemma {:induction false} OrLow(a: nat, k: nat, i: nat)
    requires i < Pow2(k)
    ensures Or(a * Pow2(k), i) == a * Pow2(k) + i
  {
    if k > 0 && a > 0 && i > 0 {
      OrLow(a, k - 1, i / 2);
      var m := a * Pow2(k - 1);
      assert a * Pow2(k) == 2 * m && m > 0 by { Double(Pow2(k - 1), a); }
      OrHalves(m, i);
    }
  }

  lemma OrHalves(m: nat, i: nat)
    requires m > 0 && i > 0
    ensures Or(2 * m, i) == 2 * Or(m, i / 2) + i % 2
  {
  }

  /** m shifted left by k bits */
  function Shifted(k: nat, m: nat): nat {
    if k == 0 then m else 2 * Shifted(k - 1, m)
  }

  lemma {:induction false} ShiftedScales(k: nat, m: nat)
    ensures Shifted(k, m) == m * Pow2(k)
  {
    if k > 0 {
      ShiftedScales(k - 1, m);
      Double(Pow2(k - 1), m);
    }
  }

  /** Masking with all of the k + n low bits but the lowest k rounds down to a multiple of 2^k. */
  lemma {:induction false} AndClear(x: nat, k: nat, n: nat)
    requires x < Pow2(k + n)
    ensures And(x, Shifted(k, Pow2(n) - 1)) == x - x % Pow2(k)
  {
    if k == 0 {
      AndMask(x, n);
      ModUnique(x, Pow2(n), 0, x);
    } else {
      AndClear(x / 2, k - 1, n);
      HalfMod(x, Pow2(k - 1));
    }
  }

  lemma Double(h: nat, m: nat)
    ensures (2 * h) * m == 2 * (h * m)
    ensures h > 0 && m > 0 ==> h * m > 0
  {
  }

  /** The test accepts exactly the powers of two. */
  lemma {:induction false} IsPow2Exactly(i: nat)
    ensures IsPow2(i) <==> exists k: nat :: i == Pow2(k)
  {
    if IsPow2(i) { var k := LogOf(i); }
    forall k: nat | i == Pow2(k) ensures IsPow2(i) { Pow2Passes(k); }
  }

  lemma {:induction false} LogOf(i: nat) returns (k: nat)
    requires IsPow2(i)
    ensures i == Pow2(k)
  {
    if i == 1 {
      k := 0;
    } else {
      if i % 2 == 1 {
        assert (i - 1) / 2 == i / 2;
        AndSelf(i / 2);
      }
      assert i % 2 == 0 && (i - 1) / 2 == i / 2 - 1;
      k := LogOf(i / 2);
      k := k + 1;
    }
  }

  lemma {:induction false} Pow2Passes(k: nat)
    ensures IsPow2(Pow2(k))
  {
    if k > 0 {
      Pow2Passes(k - 1);
      assert (Pow2(k) - 1) / 2 == Pow2(k - 1) - 1;
    }
  }

  /** Two numbers with the same top bit share it. */
  lemma {:induction false} AndTop(a: nat, b: nat, k: nat)
    requires Pow2(k) <= a < Pow2(k + 1) && Pow2(k) <= b < Pow2(k + 1)
    ensures And(a, b) >= Pow2(k)
  {
    if k > 0 { AndTop(a / 2, b / 2, k - 1); }
  }

  /** A smaller power of two divides a larger one. */
  lemma {:induction false} Pow2Divides(j: nat, k: nat)
    requires j <= k
    ensures Pow2(k) % Pow2(j) == 0 && Pow2(j) <= Pow2(k)
    decreases k - j
  {
    if j < k {
      Pow2Divides(j, k - 1);
      var q := Pow2(k - 1) / Pow2(j);
      assert Pow2(k) == Pow2(j) * (2 * q);
      ModUnique(Pow2(k), Pow2(j), 2 * q, 0);
    } else {
      ModUnique(Pow2(k), Pow2(j), 1, 0);
    }
  }

  lemma Pow2Values()
    ensures Pow2(5) == 32 && Pow2(30) == 0x4000_0000 && Pow2(31) == 0x8000_0000 && Pow2(32) == 0x1_0000_0000
    ensures Pow2(59) == 0x0800_0000_0000_0000 && Pow2(64) == 0x1_0000_0000_0000_0000
  {
    Pow2Sum(16, 14);
    Pow2Sum(32, 27);
    Pow2Sum(32, 32);
    assert Pow2(8) == 256 && Pow2(16) == 0x1_0000;
    Pow2Sum(16, 16);
    Pow2Sum(27, 5);
  }

  lemma {:induction false} Pow2Sum(a: nat, b: nat)
    ensures Pow2(a + b) == Pow2(a) * Pow2(b)
  {
    if b > 0 { Pow2Sum(a, b - 1); Double(Pow2(b - 1), Pow2(a)); }
  }
}
