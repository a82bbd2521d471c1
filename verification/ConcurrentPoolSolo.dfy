/**
 A thread that runs alone comes to its answer in a bounded number of steps, and the answer is
 the right one. The other threads may stand anywhere.
 */
module ConcurrentPoolSolo {
  import opened TaggedHandles
  import opened ConcurrentPool
  import opened ConcurrentPoolRuns

  /** Running alone without spurious failures, thread `t` comes from `s` to `e` in at most `k` steps. */
  ghost predicate Within(s: State, t: nat, k: nat, e: State) {
    t < |s.pcs| && exists n: nat :: n <= k && Steps(s, t, n) == e
  }

  lemma Here(s: State, t: nat)
    requires t < |s.pcs|
    ensures Within(s, t, 0, s)
  {
    assert Steps(s, t, 0) == s;
  }

  lemma {:induction false} StepsSplit(s: State, t: nat, m: nat, n: nat)
    requires t < |s.pcs|
    ensures t < |Steps(s, t, m).pcs| && Steps(s, t, m + n) == Steps(Steps(s, t, m), t, n)
    decreases m
  {
    if m > 0 {
      StepsSplit(Step(s, t, false), t, m - 1, n);
    }
  }

  /** One more step. */
  lemma On(s: State, t: nat, k: nat, m: State, e: State)
    requires Within(s, t, k, m) && t < |m.pcs| && e == Step(m, t, false)
    ensures Within(s, t, k + 1, e)
  {
    var n: nat :| n <= k && Steps(s, t, n) == m;
    StepsSplit(s, t, n, 1);
    assert Steps(m, t, 1) == e;
  }

  lemma Join(s: State, t: nat, i: nat, m: State, j: nat, e: State)
    requires Within(s, t, i, m) && Within(m, t, j, e)
    ensures Within(s, t, i + j, e)
  {
    var p: nat :| p <= i && Steps(s, t, p) == m;
    var q: nat :| q <= j && Steps(m, t, q) == e;
    StepsSplit(s, t, p, q);
  }

  /** Nothing that the other threads need for their own answers has changed shape. */
  predicate SameShape(s: State, e: State) {
    |e.pcs| == |s.pcs| && |e.next| == |s.next| && |e.inc| == |s.inc| && |e.owner| == |s.owner|
  }

  // -------------------------------------------------------------- allocation

  lemma TakeTop(s: State, t: nat) returns (e: State)
    requires Shape(s) && IsList(s.stack, s.inc, s.next, s.freeHead) && s.stack != []
    requires t < |s.pcs| && s.pcs[t] == AllocLoadHead
    ensures Within(s, t, 3, e) && SameShape(s, e) && e.inc == s.inc && e.pcs[t] == AllocLoadGen(s.stack[0])
  {
    var h := s.freeHead;
    var s1 := Goto(s, t, AllocLoadNext(h));
    assert Step(s, t, false) == s1;
    var s2 := Goto(s1, t, AllocCas(h, s.next[h.slot]));
    assert Step(s1, t, false) == s2;
    e := Step(s2, t, false);
    Here(s, t);
    On(s, t, 0, s, s1);
    On(s, t, 1, s1, s2);
    On(s, t, 2, s2, e);
  }

  lemma FinishAlloc(s: State, t: nat, x: nat) returns (e: State)
    requires Shape(s) && x < |s.inc| && t < |s.pcs| && s.pcs[t] == AllocLoadGen(x)
    ensures Within(s, t, 4, e) && SameShape(s, e) && e.inc == s.inc && e.pcs[t] == AllocDone(Handle(x, s.inc[x], true))
  {
    var k := s.inc[x];
    var s1 := Step(s, t, false);
    assert s1.pcs[t] == AllocClearNext(x, k);
    var s2 := Step(s1, t, false);
    assert s2.pcs[t] == AllocSubFree(x, k);
    var s3 := Step(s2, t, false);
    e := Step(s3, t, false);
    Here(s, t);
    On(s, t, 0, s, s1);
    On(s, t, 1, s1, s2);
    On(s, t, 2, s2, s3);
    On(s, t, 3, s3, e);
  }

  /** An allocation that runs alone answers null exactly if no slot is free, and otherwise the top of the list. */
  lemma AllocAlone(s: State, t: nat) returns (e: State)
    requires Shape(s) && IsList(s.stack, s.inc, s.next, s.freeHead) && t < |s.pcs| && s.pcs[t] == AllocLoadHead
    ensures Within(s, t, 7, e) && SameShape(s, e) && e.inc == s.inc
    ensures e.pcs[t] == AllocDone(if s.stack == [] then Null else Handle(s.stack[0], s.inc[s.stack[0]], true))
  {
    if s.stack == [] {
      e := Step(s, t, false);
      Here(s, t);
      On(s, t, 0, s, e);
    } else {
      var m := TakeTop(s, t);
      e := FinishAlloc(m, t, s.stack[0]);
      Join(s, t, 3, m, 4, e);
    }
  }

  // ------------------------------------------------------------------ release

  /** `anam_get` accepts exactly the words of current handles: right slot, LIVE bits, true generation. */
  lemma GetAcceptsExactly(s: State, h: Handle)
    requires Shape(s)
    ensures GetAccepts(s, h) <==> exists x: nat :: x < |s.inc| && SameWord(h, Handle(x, s.inc[x], true))
  {
    if GetAccepts(s, h) {
      assert SameWord(h, Handle(h.slot, s.inc[h.slot], true));
    }
  }

  lemma FinishRelease(s: State, t: nat, x: nat, k: nat) returns (e: State)
    requires Shape(s) && x < |s.inc| && t < |s.pcs| && s.pcs[t] == ReleaseLoadHead(x, k)
    ensures Within(s, t, 5, e) && SameShape(s, e) && e.inc == s.inc && e.pcs[t] == ReleaseDone(true)
  {
    var s1 := Goto(s, t, ReleaseStoreNext(x, k, s.freeHead));
    assert Step(s, t, false) == s1;
    var s2 := Goto(s, t, ReleaseCas(x, k, s.freeHead)).(next := s.next[x := s.freeHead]);
    assert Step(s1, t, false) == s2;
    var s3 := Step(s2, t, false);
    assert s3.pcs[t] == ReleaseAddFree;
    var s4 := Step(s3, t, false);
    e := Step(s4, t, false);
    Here(s, t);
    On(s, t, 0, s, s1);
    On(s, t, 1, s1, s2);
    On(s, t, 2, s2, s3);
    On(s, t, 3, s3, s4);
    On(s, t, 4, s4, e);
  }

  lemma CheckAlone(s: State, t: nat, h: Handle) returns (e: State)
    requires Shape(s) && t < |s.pcs| && s.pcs[t] == ReleaseCheck(h) && InRange(s, h) && h.live
    ensures Within(s, t, 7, e) && SameShape(s, e) && e.pcs[t] == ReleaseDone(GetAccepts(s, h))
  {
    var s1 := Step(s, t, false);
    Here(s, t);
    On(s, t, 0, s, s1);
    if GetAccepts(s, h) {
      var k := s.inc[h.slot];
      assert s1 == Goto(s, t, ReleaseStoreGen(h.slot, k));
      var s2 := Step(s1, t, false);
      On(s, t, 1, s1, s2);
      e := FinishRelease(s2, t, h.slot, k + 1);
      Join(s, t, 2, s2, 5, e);
    } else {
      e := s1;
    }
  }

  /** A release that runs alone answers true exactly if `anam_get` accepts the handle, whatever word it is given. */
  lemma ReleaseAlone(s: State, t: nat, h: Handle) returns (e: State)
    requires Shape(s) && t < |s.pcs| && s.pcs[t] == Idle
    ensures Within(Apply(s, CallRelease(t, h)), t, 7, e) && t < |e.pcs| && e.pcs[t] == ReleaseDone(GetAccepts(s, h))
    ensures GetAccepts(s, h) <==> exists x: nat :: x < |s.inc| && SameWord(h, Handle(x, s.inc[x], true))
  {
    var s' := Apply(s, CallRelease(t, h));
    GetAcceptsExactly(s, h);
    if s'.pcs[t].ReleaseCheck? {
      e := CheckAlone(s', t, h);
    } else {
      e := s';
      Here(s', t);
    }
  }

  // ------------------------------------------------------- from any point

  /** How many steps alone the call is from its answer, at most. */
  function Distance(s: State, pc: Pc): nat {
    match pc
    case AllocLoadHead => 7
    case AllocLoadNext(h) => if SameWord(s.freeHead, h) then 6 else 9
    case AllocCas(h, _) => if SameWord(s.freeHead, h) then 5 else 8
    case AllocLoadGen(_) => 4
    case AllocClearNext(_, _) => 3
    case AllocSubFree(_, _) => 2
    case AllocAddCount(_, _) => 1
    case ReleaseCheck(_) => 7
    case ReleaseStoreGen(_, _) => 6
    case ReleaseLoadHead(_, _) => 5
    case ReleaseStoreNext(_, _, h) => if SameWord(s.freeHead, h) then 4 else 7
    case ReleaseCas(_, _, h) => if SameWord(s.freeHead, h) then 3 else 6
    case ReleaseAddFree => 2
    case ReleaseAddCount => 1
    case _ => 0
  }

  predicate Finished(pc: Pc) {
    pc.AllocDone? || pc.ReleaseDone?
  }

  lemma DistanceDrops(s: State, t: nat)
    requires Inv(s) && t < |s.pcs| && s.pcs[t] != Idle && !Finished(s.pcs[t])
    ensures var s' := Step(s, t, false);
            |s'.pcs| == |s.pcs| && s'.pcs[t] != Idle && Distance(s', s'.pcs[t]) < Distance(s, s.pcs[t])
  {
    assert ThreadInv(s, t, s.pcs[t]);
    TopInRange(s);
    if IsRelease(s.pcs[t]) {
      ReleaseDrops(s, t);
    } else {
      AllocDrops(s, t);
    }
  }

  lemma TopInRange(s: State)
    requires Shape(s) && IsList(s.stack, s.inc, s.next, s.freeHead)
    ensures s.freeHead.Handle? ==> InRange(s, s.freeHead) && s.freeHead.inc == s.inc[s.freeHead.slot]
  {
  }

  lemma AllocDrops(s: State, t: nat)
    requires Shape(s) && t < |s.pcs| && ThreadInv(s, t, s.pcs[t]) && s.pcs[t] != Idle
    requires !Finished(s.pcs[t]) && !IsRelease(s.pcs[t])
    ensures var s' := Step(s, t, false);
            |s'.pcs| == |s.pcs| && s'.pcs[t] != Idle && Distance(s', s'.pcs[t]) < Distance(s, s.pcs[t])
  {
  }

  lemma ReleaseDrops(s: State, t: nat)
    requires Shape(s) && t < |s.pcs| && ThreadInv(s, t, s.pcs[t]) && IsRelease(s.pcs[t]) && !Finished(s.pcs[t])
    ensures var s' := Step(s, t, false);
            |s'.pcs| == |s.pcs| && s'.pcs[t] != Idle && Distance(s', s'.pcs[t]) < Distance(s, s.pcs[t])
  {
  }

  predicate OwnWindows(s: State, t: nat) {
    t < |s.pcs| && AllocWindow(s, s.pcs[t]) && ReleaseWindow(s, s.pcs[t])
  }

  lemma OwnWindowsStay(s: State, t: nat)
    requires Inv(s) && OwnWindows(s, t)
    ensures OwnWindows(Step(s, t, false), t)
  {
    TopInRange(s);
  }

  /**
   Every call finishes from any point of it: in every state of the invariant, a thread
   inside an allocation or a release, whatever stale words it holds, that runs alone comes
   to its answer within nine steps.
   */
  lemma {:induction false} Finishes(s: State, t: nat) returns (e: State)
    requires Inv(s) && OwnWindows(s, t) && s.pcs[t] != Idle
    ensures Within(s, t, Distance(s, s.pcs[t]), e) && t < |e.pcs| && Finished(e.pcs[t])
    ensures Distance(s, s.pcs[t]) <= 9
    decreases Distance(s, s.pcs[t])
  {
    if Finished(s.pcs[t]) {
      e := s;
      Here(s, t);
    } else {
      var s' := Step(s, t, false);
      DistanceDrops(s, t);
      OwnWindowsStay(s, t);
      assert Inv(s') by { ApplyInv(s, Run(t, false)); }
      e := Finishes(s', t);
      Here(s, t);
      On(s, t, 0, s, s');
      Join(s, t, 1, s', Distance(s', s'.pcs[t]), e);
      Longer(s, t, 1 + Distance(s', s'.pcs[t]), Distance(s, s.pcs[t]), e);
    }
  }

  lemma Longer(s: State, t: nat, i: nat, j: nat, e: State)
    requires Within(s, t, i, e) && i <= j
    ensures Within(s, t, j, e)
  {
    var n: nat :| n <= i && Steps(s, t, n) == e;
    assert n <= j;
  }
}
