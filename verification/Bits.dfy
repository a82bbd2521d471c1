/** Bitwise operations on natural numbers, and what they compute on masks of consecutive bits. */
module Bits {

  /** The number of values of `size_t`. */
  const SIZE_T: nat := 0x1_0000_0000_0000_0000

  function Pow2(k: nat): (r: nat)
    ensures r > 0
  {
    if k == 0 then 1 else 2 * Pow2(k - 1)
  }

  function And(x: nat, y: nat): nat
    decreases x
  {
    if x == 0 || y == 0 then 0 else (if x % 2 == 1 && y % 2 == 1 then 1 else 0) + 2 * And(x / 2, y / 2)
  }

  function Or(x: nat, y: nat): nat
    decreases x + y
  {
    if x == 0 && y == 0 then 0 else (if x % 2 == 1 || y % 2 == 1 then 1 else 0) + 2 * Or(x / 2, y / 2)
  }

  lemma MulAtLeast(d: nat, n: nat)
    requires n > 0
    ensures d * n >= d
  {
    assert d * n == d * (n - 1) + d;
  }

  /** Division with remainder is unique. */
  lemma ModUnique(x: int, d: nat, q: int, r: int)
    requires d > 0 && x == d * q + r && 0 <= r < d
    ensures x % d == r && x / d == q
  {
    var q', r' := x / d, x % d;
    assert x == d * q' + r' && 0 <= r' < d;
    assert d * (q - q') == d * q - d * q' && d * (q' - q) == d * q' - d * q;
    if q > q' {
      MulAtLeast(d, q - q');
    } else if q < q' {
      MulAtLeast(d, q' - q);
    }
  }

  lemma ModDouble(x: nat, m: nat)
    requires m > 0
    ensures x % (2 * m) == x % 2 + 2 * ((x / 2) % m)
  {
    var q, b := (x / 2) / m, (x / 2) % m;
    assert x / 2 == m * q + b;
    assert x == (2 * m) * q + (2 * b + x % 2) by {
      assert x == 2 * (x / 2) + x % 2;
      assert 2 * (m * q) == (2 * m) * q;
    }
    ModUnique(x, 2 * m, q, 2 * b + x % 2);
  }

  lemma {:induction false} Pow2Add(j: nat, k: nat)
    ensures Pow2(j + k) == Pow2(j) * Pow2(k)
  {
    if j > 0 {
      Pow2Add(j - 1, k);
    }
  }

  lemma {:induction false} Pow2Mono(j: nat, k: nat)
    ensures Pow2(j) <= Pow2(k) <==> j <= k
    decreases j + k
  {
    if j > 0 && k > 0 {
      Pow2Mono(j - 1, k - 1);
    }
  }

  /** The low `k` bits of `x`. */
  function Low(x: nat, k: nat): nat
    decreases k
  {
    if k == 0 then 0 else x % 2 + 2 * Low(x / 2, k - 1)
  }

  lemma {:induction false} LowIsMod(x: nat, k: nat)
    ensures Low(x, k) == x % Pow2(k)
    decreases k
  {
    if k > 0 {
      LowIsMod(x / 2, k - 1);
      ModDouble(x, Pow2(k - 1));
    }
  }

  lemma {:induction false} AndMid(x: nat, k: nat, w: nat)
    requires k <= w
    ensures Pow2(k) <= Pow2(w)
    ensures And(x, Pow2(w) - Pow2(k)) == Low(x, w) - Low(x, k)
    decreases w
  {
    if k > 0 {
      AndMid(x / 2, k - 1, w - 1);
      AndDouble(x, Pow2(w - 1) - Pow2(k - 1));
    } else if w > 0 {
      AndMid(x / 2, 0, w - 1);
      assert (Pow2(w) - 1) / 2 == Pow2(w - 1) - 1;
    }
  }

  lemma AndDouble(x: nat, y: nat)
    ensures And(x, 2 * y) == 2 * And(x / 2, y)
  {
    assert (2 * y) / 2 == y && (2 * y) % 2 == 0;
  }

  /** A mask of bits `k` up to `w` drops the low `k` bits of the remainder. */
  lemma AndMidMask(x: nat, k: nat, w: nat)
    requires k <= w
    ensures Pow2(k) <= Pow2(w)
    ensures And(x, Pow2(w) - Pow2(k)) == x % Pow2(w) - x % Pow2(k)
  {
    AndMid(x, k, w);
    LowIsMod(x, k);
    LowIsMod(x, w);
  }

  /** A mask of the low `k` bits takes the remainder. */
  lemma AndLowMask(x: nat, k: nat)
    ensures And(x, Pow2(k) - 1) == x % Pow2(k)
  {
    AndMid(x, 0, k);
    LowIsMod(x, k);
  }

  /** Numbers that share no bit are added. */
  lemma {:induction false} OrDisjoint(a: nat, b: nat, k: nat)
    requires b < Pow2(k)
    ensures Or(a * Pow2(k), b) == a * Pow2(k) + b
    decreases k
  {
    if k == 0 {
      OrZero(a);
    } else {
      OrDisjoint(a, b / 2, k - 1);
      var high := a * Pow2(k - 1);
      assert a * Pow2(k) == 2 * high;
      OrDouble(high, b);
    }
  }

  lemma OrDouble(x: nat, y: nat)
    ensures Or(2 * x, y) == y % 2 + 2 * Or(x, y / 2)
  {
    assert (2 * x) / 2 == x && (2 * x) % 2 == 0;
  }

  lemma {:induction false} OrZero(a: nat)
    ensures Or(a, 0) == a
  {
    if a > 0 {
      OrZero(a / 2);
    }
  }

  ghost predicate IsPow2(x: nat) {
    exists k: nat :: x == Pow2(k)
  }

  /** `x & (x - 1)` is zero exactly for the powers of two. */
  lemma {:induction false} PowerOfTwoTest(x: nat)
    requires x > 0
    ensures And(x, x - 1) == 0 <==> IsPow2(x)
  {
    if x == 1 {
      assert x == Pow2(0);
    } else if x % 2 == 1 {
      assert And(x / 2, (x - 1) / 2) == And(x / 2, x / 2);
      AndSelf(x / 2);
      forall k: nat
        ensures Pow2(k) != x
      {
        assert k > 0 ==> Pow2(k) % 2 == 0;
      }
    } else {
      PowerOfTwoTest(x / 2);
      assert (x - 1) / 2 == x / 2 - 1;
      if IsPow2(x / 2) {
        var k: nat :| x / 2 == Pow2(k);
        assert x == Pow2(k + 1);
      }
      if IsPow2(x) {
        var k: nat :| x == Pow2(k);
        assert x / 2 == Pow2(k - 1);
      }
    }
  }

  lemma {:induction false} AndSelf(x: nat)
    ensures And(x, x) == x
  {
    if x > 0 {
      AndSelf(x / 2);
    }
  }
}
