/** Bitwise operations on naturals, as far as the modelled code uses them:
    masks, shifts, disjoint `|` and the clear-lowest-set-bit loop. */
module Bits {

  function Pow2(k: nat): (p: nat)
    ensures p >= 1
  {
    if k == 0 then 1 else 2 * Pow2(k - 1)
  }

  /** `a & b` */
  function And(a: nat, b: nat): nat
    decreases a
  {
    if a == 0 then 0
    else 2 * And(a / 2, b / 2) + (if a % 2 == 1 && b % 2 == 1 then 1 else 0)
  }

  /** `a | b` */
  function Or(a: nat, b: nat): nat
    decreases a + b
  {
    if a == 0 && b == 0 then 0
    else 2 * Or(a / 2, b / 2) + (if a % 2 == 1 || b % 2 == 1 then 1 else 0)
  }

  /** `x >> k` */
  function Shr(x: nat, k: nat): nat {
    if k == 0 then x else Shr(x / 2, k - 1)
  }

  function PopCount(x: nat): nat {
    if x == 0 then 0 else x % 2 + PopCount(x / 2)
  }

  predicate IsPow2(n: nat) {
    n == 1 || (n > 1 && n % 2 == 0 && IsPow2(n / 2))
  }

  lemma DivModUnique(x: int, n: int, q: int, r: int)
    requires n > 0 && 0 <= r < n && x == q * n + r
    ensures x / n == q && x % n == r
  {
    var d := x / n - q;
    assert d * n == r - x % n by {
      assert x == (x / n) * n + x % n;
    }
    MulBound(d, n);
  }

  lemma MulBound(d: int, n: int)
    requires n > 0
    ensures d >= 1 ==> d * n >= n
    ensures d <= -1 ==> d * n <= -n
  {
  }

  lemma MulDistributes(a: int, b: int, k: int)
    ensures (a + b) * k == a * k + b * k
  {
  }

  lemma MulNonNegative(a: nat, k: nat)
    ensures a * k >= 0
  {
  }

  /** Rows of k elements: a later one begins after an earlier one ends. */
  lemma RowsApart(k: nat, i: nat, j: nat)
    requires i < j
    ensures i * k + k <= j * k
  {
    MulDistributes(i + 1, j - i - 1, k);
    MulDistributes(i, 1, k);
    MulNonNegative(j - i - 1, k);
  }

  /** One lap around a power-of-two ring. */
  lemma MaskWrapsOnce(x: nat, n: nat)
    requires IsPow2(n) && x < 2 * n
    ensures And(x, n - 1) == if x < n then x else x - n
  {
    MaskIsMod(x, n);
    if x < n {
      DivModUnique(x, n, 0, x);
    } else {
      DivModUnique(x, n, 1, x - n);
    }
  }

  lemma ModDouble(x: nat, m: nat)
    requires m > 0
    ensures x % (2 * m) == 2 * ((x / 2) % m) + x % 2
  {
    var q, s := (x / 2) / m, (x / 2) % m;
    assert x == q * (2 * m) + (2 * s + x % 2);
    DivModUnique(x, 2 * m, q, 2 * s + x % 2);
  }

  /** Masking with a power of two minus one is reduction modulo that power. */
  lemma {:induction false} MaskIsMod(x: nat, n: nat)
    requires IsPow2(n)
    ensures And(x, n - 1) == x % n
  {
    if n == 1 {
      AndZero(x);
    } else if x == 0 {
    } else {
      MaskIsMod(x / 2, n / 2);
      ModDouble(x, n / 2);
      assert (n - 1) / 2 == n / 2 - 1;
    }
  }

  lemma {:induction false} AndZero(x: nat)
    ensures And(x, 0) == 0
  {
    if x > 0 {
      AndZero(x / 2);
    }
  }

  lemma {:induction false} OrZero(b: nat)
    ensures Or(0, b) == b
  {
    if b > 0 {
      OrZero(b / 2);
    }
  }

  lemma Pow2IsPow2(k: nat)
    ensures IsPow2(Pow2(k))
  {
    if k > 0 {
      Pow2IsPow2(k - 1);
    }
  }

  lemma {:induction false} Pow2Add(j: nat, k: nat)
    ensures Pow2(j + k) == Pow2(j) * Pow2(k)
  {
    if j > 0 {
      Pow2Add(j - 1, k);
      assert Pow2(j) * Pow2(k) == 2 * (Pow2(j - 1) * Pow2(k));
    }
  }

  /** `(a << k) | b` is a sum when b fits below the shift. */
  lemma {:induction false} OrDisjoint(a: nat, b: nat, k: nat)
    requires b < Pow2(k)
    ensures Or(a * Pow2(k), b) == a * Pow2(k) + b
  {
    if k == 0 {
      OrZero(a);
      OrSymmetric(a, 0);
    } else {
      var p := Pow2(k - 1);
      assert a * Pow2(k) == 2 * (a * p);
      OrDisjoint(a, b / 2, k - 1);
    }
  }

  lemma {:induction false} OrSymmetric(a: nat, b: nat)
    ensures Or(a, b) == Or(b, a)
    decreases a + b
  {
    if a + b > 0 {
      OrSymmetric(a / 2, b / 2);
    }
  }

  /** `x &= x - 1` removes exactly one set bit. */
  lemma {:induction false} ClearLowestBit(x: nat)
    requires x > 0
    ensures PopCount(And(x, x - 1)) == PopCount(x) - 1
    ensures And(x, x - 1) < x
  {
    var y := And(x, x - 1);
    if x % 2 == 1 {
      assert (x - 1) / 2 == x / 2 && (x - 1) % 2 == 0;
      AndSelf(x / 2);
      assert y == 2 * (x / 2);
    } else {
      assert (x - 1) / 2 == x / 2 - 1;
      ClearLowestBit(x / 2);
      var z := And(x / 2, x / 2 - 1);
      assert y == 2 * z;
      assert y / 2 == z && y % 2 == 0;
    }
  }

  lemma {:induction false} AndSelf(x: nat)
    ensures And(x, x) == x
  {
    if x > 0 {
      AndSelf(x / 2);
    }
  }
}
