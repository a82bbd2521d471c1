/** Whole runs of calls by one thread: which handles stay accepted, and for how long. */
module SequentialPoolRuns {
  import opened TaggedHandles
  import opened HandleCodec
  import opened SlotWords
  import opened SequentialPool

  datatype Call = Alloc(spurious: nat) | Release(word: nat, spurious: nat) | Get(word: nat)

  /** Callers may pass any word at all in strict mode, and otherwise any word not pointing inside a slot. */
  predicate Permitted(g: Geometry, strict: bool, c: Call)
    requires g.Valid()
  {
    c.Alloc? || strict || OnBoundary(g, c.word)
  }

  /** The call is an accepted release of slot `x`. */
  predicate Retires(g: Geometry, strict: bool, inc: seq<nat>, c: Call, x: nat)
    requires g.Valid() && |inc| == g.count
  {
    c.Release? && Accepts(g, strict, inc, c.word) && SlotOf(g, c.word) == x
  }

  /** The incarnation numbers after one call. */
  function After(g: Geometry, strict: bool, inc: seq<nat>, c: Call): (r: seq<nat>)
    requires g.Valid() && |inc| == g.count
    ensures |r| == |inc|
    ensures forall x :: 0 <= x < |inc| ==> r[x] == inc[x] + (if Retires(g, strict, inc, c, x) then 1 else 0)
  {
    if c.Release? && Accepts(g, strict, inc, c.word) then
      Reborn(inc, SlotOf(g, c.word))
    else inc
  }

  function AfterAll(g: Geometry, strict: bool, inc: seq<nat>, cs: seq<Call>): (r: seq<nat>)
    requires g.Valid() && |inc| == g.count
    ensures |r| == |inc|
  {
    if cs == [] then inc
    else After(g, strict, AfterAll(g, strict, inc, cs[..|cs| - 1]), cs[|cs| - 1])
  }

  /** The accepted releases of slot `x` among the calls. */
  function Retirements(g: Geometry, strict: bool, inc: seq<nat>, cs: seq<Call>, x: nat): (n: nat)
    requires g.Valid() && |inc| == g.count
  {
    if cs == [] then 0
    else
      var last := |cs| - 1;
      Retirements(g, strict, inc, cs[..last], x) +
      if Retires(g, strict, AfterAll(g, strict, inc, cs[..last]), cs[last], x) then 1 else 0
  }

  lemma {:induction false} IncarnationsCount(g: Geometry, strict: bool, inc: seq<nat>, cs: seq<Call>, x: nat)
    requires g.Valid() && |inc| == g.count && x < g.count
    ensures AfterAll(g, strict, inc, cs)[x] == inc[x] + Retirements(g, strict, inc, cs, x)
  {
    if cs != [] {
      IncarnationsCount(g, strict, inc, cs[..|cs| - 1], x);
    }
  }

  lemma GenShift(k: nat, n: nat)
    ensures Gen(k + n) == Gen(k) <==> n % GENERATIONS == 0
  {
    assert k + n == (k / GENERATIONS) * GENERATIONS + (Gen(k) + n);
    assert Gen(k + n) == (Gen(k) + n % GENERATIONS) % GENERATIONS;
  }

  /**
   The exact stale window: after any calls whatever, a handle issued for slot `x` is
   accepted if and only if the number of accepted releases of `x` since is a multiple of
   65536.
   */
  lemma StaleWindow(g: Geometry, strict: bool, inc: seq<nat>, cs: seq<Call>, x: nat)
    requires g.Valid() && |inc| == g.count && x < g.count
    ensures Accepts(g, strict, AfterAll(g, strict, inc, cs), LiveWord(g, inc, x)) <==>
            Retirements(g, strict, inc, cs, x) % GENERATIONS == 0
  {
    var word, now := LiveWord(g, inc, x), AfterAll(g, strict, inc, cs);
    LiveWordAccepted(g, strict, inc, x);
    IncarnationsCount(g, strict, inc, cs, x);
    GenShift(inc[x], Retirements(g, strict, inc, cs, x));
    assert DecodeGen(word) == Gen(inc[x]);
  }

  /** A released handle is rejected throughout the next 65535 incarnations of its slot. */
  lemma ReleasedHandleRejected(g: Geometry, strict: bool, inc: seq<nat>, cs: seq<Call>, x: nat)
    requires g.Valid() && |inc| == g.count && x < g.count
    requires 0 < Retirements(g, strict, inc, cs, x) < GENERATIONS
    ensures !Accepts(g, strict, AfterAll(g, strict, inc, cs), LiveWord(g, inc, x))
  {
    StaleWindow(g, strict, inc, cs, x);
  }

  /** Until it is released, a handle is accepted, whatever else is called. */
  lemma UnreleasedHandleAccepted(g: Geometry, strict: bool, inc: seq<nat>, cs: seq<Call>, x: nat)
    requires g.Valid() && |inc| == g.count && x < g.count
    requires forall k :: 0 <= k < |cs| ==> !Retires(g, strict, AfterAll(g, strict, inc, cs[..k]), cs[k], x)
    ensures Accepts(g, strict, AfterAll(g, strict, inc, cs), LiveWord(g, inc, x))
  {
    NoRetirements(g, strict, inc, cs, x);
    StaleWindow(g, strict, inc, cs, x);
  }

  lemma {:induction false} NoRetirements(g: Geometry, strict: bool, inc: seq<nat>, cs: seq<Call>, x: nat)
    requires g.Valid() && |inc| == g.count && x < g.count
    requires forall k :: 0 <= k < |cs| ==> !Retires(g, strict, AfterAll(g, strict, inc, cs[..k]), cs[k], x)
    ensures Retirements(g, strict, inc, cs, x) == 0
  {
    if cs != [] {
      var front := cs[..|cs| - 1];
      forall k | 0 <= k < |front|
        ensures !Retires(g, strict, AfterAll(g, strict, inc, front[..k]), front[k], x)
      {
        assert front[..k] == cs[..k];
      }
      NoRetirements(g, strict, inc, front, x);
    }
  }

  /** The pool's methods run the calls as specified, and each answer tells whether the word was accepted then. */
  method Execute(pool: Pool, cs: seq<Call>) returns (answers: seq<bool>)
    requires pool.Sound() && forall k :: 0 <= k < |cs| ==> Permitted(pool.g, pool.strict, cs[k])
    modifies pool, pool.next, pool.gen
    ensures pool.Sound() && pool.inc == AfterAll(pool.g, pool.strict, old(pool.inc), cs)
    ensures |answers| == |cs|
    ensures forall k :: 0 <= k < |cs| && !cs[k].Alloc? ==>
              (answers[k] <==> Accepts(pool.g, pool.strict, AfterAll(pool.g, pool.strict, old(pool.inc), cs[..k]), cs[k].word))
  {
    answers := [];
    while |answers| < |cs|
      invariant |answers| <= |cs| && pool.Sound()
      invariant pool.inc == AfterAll(pool.g, pool.strict, old(pool.inc), cs[..|answers|])
      invariant forall k :: 0 <= k < |answers| && !cs[k].Alloc? ==>
                  (answers[k] <==> Accepts(pool.g, pool.strict, AfterAll(pool.g, pool.strict, old(pool.inc), cs[..k]), cs[k].word))
    {
      var n := |answers|;
      assert cs[..n + 1][..n] == cs[..n];
      var answer := Perform(pool, cs[n]);
      answers := answers + [answer];
    }
    assert cs[..|cs|] == cs;
  }

  method Perform(pool: Pool, c: Call) returns (answer: bool)
    requires pool.Sound() && Permitted(pool.g, pool.strict, c)
    modifies pool, pool.next, pool.gen
    ensures pool.Sound() && pool.inc == After(pool.g, pool.strict, old(pool.inc), c)
    ensures !c.Alloc? ==> (answer <==> Accepts(pool.g, pool.strict, old(pool.inc), c.word))
  {
    match c {
      case Alloc(spurious) =>
        var word := pool.Alloc(spurious);
        answer := word != NULL_WORD;
      case Release(word, spurious) =>
        answer := pool.Release(word, spurious);
      case Get(word) =>
        var address := pool.Get(word);
        if Accepts(pool.g, pool.strict, pool.inc, word) {
          assert address == DecodeAddr(word) >= pool.g.base;
        }
        answer := address != 0;
    }
  }
}
