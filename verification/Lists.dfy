/** Sequences without repetition, and sums over sequences. */
module Lists {

  predicate NoDuplicates(xs: seq<nat>) {
    forall i, j :: 0 <= i < j < |xs| ==> xs[i] != xs[j]
  }

  ghost function Elements(xs: seq<nat>): set<nat> {
    set x | x in xs
  }

  lemma {:induction false} ElementCount(xs: seq<nat>)
    requires NoDuplicates(xs)
    ensures |Elements(xs)| == |xs|
  {
    if xs != [] {
      var ys, x := xs[..|xs| - 1], xs[|xs| - 1];
      ElementCount(ys);
      assert xs == ys + [x];
      assert Elements(xs) == Elements(ys) + {x};
      assert x !in Elements(ys);
    }
  }

  /** The numbers below `n` in ascending order. */
  function Below(n: nat): (r: seq<nat>)
    ensures |r| == n && forall i :: 0 <= i < n ==> r[i] == i
  {
    seq(n, i requires 0 <= i < n => i)
  }

  /** Distinct numbers below `n` are at most `n` many. */
  lemma BoundedLength(xs: seq<nat>, n: nat)
    requires NoDuplicates(xs) && forall i :: 0 <= i < |xs| ==> xs[i] < n
    ensures |xs| <= n
  {
    ElementCount(xs);
    ElementCount(Below(n));
    forall x | x in Elements(xs)
      ensures x in Elements(Below(n))
    {
      assert Below(n)[x] == x;
    }
    Contained(Elements(xs), Elements(Below(n)));
  }

  lemma Contained(a: set<nat>, b: set<nat>)
    requires a <= b
    ensures |a| <= |b|
  {
    assert |b| == |a| + |b - a| by { assert b == a + (b - a); }
  }

  function Sum<T>(xs: seq<T>, weight: T -> int): int {
    if xs == [] then 0 else weight(xs[0]) + Sum(xs[1..], weight)
  }

  lemma {:induction false} SumUpdate<T>(xs: seq<T>, t: nat, x: T, weight: T -> int)
    requires t < |xs|
    ensures Sum(xs[t := x], weight) == Sum(xs, weight) - weight(xs[t]) + weight(x)
  {
    if t == 0 {
      assert xs[t := x][1..] == xs[1..];
    } else {
      SumUpdate(xs[1..], t - 1, x, weight);
      assert xs[t := x][1..] == xs[1..][t - 1 := x];
    }
  }

  lemma {:induction false} SumZero<T>(xs: seq<T>, weight: T -> int)
    requires forall t :: 0 <= t < |xs| ==> weight(xs[t]) == 0
    ensures Sum(xs, weight) == 0
  {
    if xs != [] {
      SumZero(xs[1..], weight);
    }
  }

  function Iterate<S>(f: S -> S, s: S, n: nat): S
    decreases n
  {
    if n == 0 then s else Iterate(f, f(s), n - 1)
  }

  lemma {:induction false} IterateSplit<S>(f: S -> S, s: S, m: nat, n: nat)
    ensures Iterate(f, s, m + n) == Iterate(f, Iterate(f, s, m), n)
    decreases m
  {
    if m > 0 {
      IterateSplit(f, f(s), m - 1, n);
    }
  }

  /** A state that comes back after `n` steps comes back after every multiple of `n`. */
  lemma {:induction false} IterateCycle<S>(f: S -> S, s: S, n: nat, rounds: nat)
    requires Iterate(f, s, n) == s
    ensures Iterate(f, s, rounds * n) == s
    decreases rounds
  {
    if rounds > 0 {
      IterateCycle(f, s, n, rounds - 1);
      IterateSplit(f, s, n, (rounds - 1) * n);
      assert rounds * n == n + (rounds - 1) * n;
    }
  }
}
