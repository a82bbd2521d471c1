/** What every run of the concurrent pool keeps. */
module ConcurrentPoolRuns {
  import opened Lists
  import opened TaggedHandles
  import opened ConcurrentPool

  // ------------------------------------------------------------------- runs

  ghost predicate ThreadsOf(s: State, run: seq<Action>) {
    forall i :: 0 <= i < |run| ==> run[i].tid < |s.pcs|
  }

  ghost function Exec(s: State, run: seq<Action>): State
    requires ThreadsOf(s, run)
    decreases |run|
  {
    if run == [] then s else Exec(Apply(s, run[0]), run[1..])
  }

  /** A run under the stated hypotheses on callers and on the generation window. */
  ghost predicate LegalRun(s: State, run: seq<Action>)
    requires ThreadsOf(s, run)
    decreases |run|
  {
    Windows(s) && (run != [] ==> Legal(s, run[0]) && LegalRun(Apply(s, run[0]), run[1..]))
  }

  /** Thread `t` takes `n` steps without a spurious failure. */
  function Steps(s: State, t: nat, n: nat): State
    requires t < |s.pcs|
    decreases n
  {
    if n == 0 then s else Steps(Step(s, t, false), t, n - 1)
  }

  /** The first step of a run, and the rest of it. */
  lemma Unfold(s: State, run: seq<Action>, s': State)
    requires ThreadsOf(s, run) && run != [] && s' == Apply(s, run[0])
    ensures |s'.pcs| == |s.pcs| && ThreadsOf(s', run[1..]) && Exec(s, run) == Exec(s', run[1..])
    ensures LegalRun(s, run) ==> Windows(s) && Legal(s, run[0]) && LegalRun(s', run[1..])
  {
  }

  lemma {:induction false} RunInv(s: State, run: seq<Action>)
    requires Inv(s) && ThreadsOf(s, run) && LegalRun(s, run)
    ensures Inv(Exec(s, run))
    decreases |run|
  {
    if run != [] {
      ApplyInv(s, run[0]);
      RunInv(Apply(s, run[0]), run[1..]);
    }
  }

  // ------------------------------------------------------------- partition

  ghost predicate OnFreeList(s: State, x: nat) {
    x in s.stack
  }

  ghost predicate BeingAllocated(s: State, x: nat) {
    exists t :: 0 <= t < |s.pcs| && AllocatesSlot(s.pcs[t], x)
  }

  ghost predicate BeingReleased(s: State, x: nat) {
    exists t :: 0 <= t < |s.pcs| && PushesSlot(s.pcs[t], x)
  }

  /** The handle of the slot's current incarnation is in a caller's hands. */
  ghost predicate InUse(s: State, x: nat) {
    x < |s.inc| && Handle(x, s.inc[x], true) in s.issued
  }

  ghost predicate ExactlyOne(a: bool, b: bool, c: bool, d: bool) {
    (a || b || c || d) && !(a && b) && !(a && c) && !(a && d) && !(b && c) && !(b && d) && !(c && d)
  }

  lemma SlotPartition(s: State, x: nat)
    requires Inv(s) && x < |s.inc|
    ensures OnFreeList(s, x) <==> s.owner[x] == Free
    ensures BeingAllocated(s, x) <==> s.owner[x].Allocating?
    ensures BeingReleased(s, x) <==> s.owner[x].Releasing?
    ensures InUse(s, x) <==> s.owner[x] == Live
  {
    forall t | 0 <= t < |s.pcs|
      ensures AllocatesSlot(s.pcs[t], x) ==> s.owner[x] == Allocating(t)
      ensures PushesSlot(s.pcs[t], x) ==> s.owner[x] == Releasing(t)
    {
      assert ThreadInv(s, t, s.pcs[t]);
    }
    assert OwnerActive(s, x, s.owner[x]);
    if InUse(s, x) {
      assert Issued(s, Handle(x, s.inc[x], true));
    }
  }

  /**
   In every state of every legal run each slot is on the free list, being allocated, being
   released or in a caller's hands, and never two of these; and the words in memory spell
   out a duplicate-free list tagged with true generations.
   */
  lemma Partition(s: State, run: seq<Action>, x: nat)
    requires Init(s) && ThreadsOf(s, run) && LegalRun(s, run) && x < |s.inc|
    ensures var e := Exec(s, run);
            && |e.inc| == |s.inc|
            && ExactlyOne(OnFreeList(e, x), BeingAllocated(e, x), BeingReleased(e, x), InUse(e, x))
            && IsList(e.stack, e.inc, e.next, e.freeHead)
  {
    InitInv(s);
    RunInv(s, run);
    RunLength(s, run);
    SlotPartition(Exec(s, run), x);
  }

  lemma {:induction false} RunLength(s: State, run: seq<Action>)
    requires ThreadsOf(s, run)
    ensures |Exec(s, run).inc| == |s.inc| && |Exec(s, run).pcs| == |s.pcs|
    decreases |run|
  {
    if run != [] {
      RunLength(Apply(s, run[0]), run[1..]);
    }
  }

  // -------------------------------------------------- exclusive ownership

  /** The step at which a release of slot `x` takes effect. */
  predicate AcceptsRelease(s: State, a: Action, x: nat) {
    a.Run? && a.tid < |s.pcs| && s.pcs[a.tid].ReleaseStoreGen? && s.pcs[a.tid].slot == x
  }

  predicate ReturnsSlot(s: State, a: Action, x: nat) {
    a.Return? && a.tid < |s.pcs| && s.pcs[a.tid].AllocDone? && s.pcs[a.tid].result.Handle? && s.pcs[a.tid].result.slot == x
  }

  ghost function AcceptedReleases(s: State, run: seq<Action>, x: nat): nat
    requires ThreadsOf(s, run)
    decreases |run|
  {
    if run == [] then 0
    else (if AcceptsRelease(s, run[0], x) then 1 else 0) + AcceptedReleases(Apply(s, run[0]), run[1..], x)
  }

  ghost predicate AllocReturns(s: State, run: seq<Action>, x: nat)
    requires ThreadsOf(s, run)
    decreases |run|
  {
    run != [] && (ReturnsSlot(s, run[0], x) || AllocReturns(Apply(s, run[0]), run[1..], x))
  }

  lemma StepOwnership(s: State, a: Action, x: nat)
    requires Inv(s) && Legal(s, a) && x < |s.inc|
    ensures |Apply(s, a).inc| == |s.inc| && |Apply(s, a).owner| == |s.owner|
    ensures Apply(s, a).inc[x] == s.inc[x] + (if AcceptsRelease(s, a, x) then 1 else 0)
    ensures s.owner[x] == Live && !AcceptsRelease(s, a, x) ==> Apply(s, a).owner[x] == Live && !ReturnsSlot(s, a, x)
  {
    assert ThreadInv(s, a.tid, s.pcs[a.tid]);
    if a.Run? && s.pcs[a.tid].AllocCas? && SameWord(s.freeHead, s.pcs[a.tid].oldHead) {
      assert s.stack[0] in s.stack;
    }
  }

  /** A slot's true generation counts the accepted releases. */
  lemma {:induction false} IncarnationsCount(s: State, run: seq<Action>, x: nat)
    requires Inv(s) && ThreadsOf(s, run) && LegalRun(s, run) && x < |s.inc|
    ensures |Exec(s, run).inc| == |s.inc|
    ensures Exec(s, run).inc[x] == s.inc[x] + AcceptedReleases(s, run, x)
    decreases |run|
  {
    if run != [] {
      ApplyInv(s, run[0]);
      StepOwnership(s, run[0], x);
      IncarnationsCount(Apply(s, run[0]), run[1..], x);
    }
  }

  /** A handle that `anam_alloc` returns is in use, with its slot's true generation. */
  lemma ReturnedHandleInUse(s: State, t: nat)
    requires Inv(s) && t < |s.pcs| && s.pcs[t].AllocDone? && s.pcs[t].result.Handle?
    ensures var h := s.pcs[t].result; var s' := Apply(s, Return(t));
            h.slot < |s.inc| && s'.inc == s.inc && h == Handle(h.slot, s.inc[h.slot], true) && InUse(s', h.slot)
  {
    var h := s.pcs[t].result;
    assert ThreadInv(s, t, s.pcs[t]);
    ReturnInv(s, t);
    SlotPartition(Apply(s, Return(t)), h.slot);
  }

  /**
   From the moment a handle is in use until a release of it is accepted, no allocation
   returns its slot, the slot stays in use and `anam_get` accepts the handle.
   */
  lemma {:induction false} ExclusiveOwnership(s: State, run: seq<Action>, x: nat)
    requires Inv(s) && ThreadsOf(s, run) && LegalRun(s, run) && x < |s.inc|
    requires InUse(s, x) && AcceptedReleases(s, run, x) == 0
    ensures !AllocReturns(s, run, x)
    ensures |Exec(s, run).inc| == |s.inc|
    ensures InUse(Exec(s, run), x) && Exec(s, run).inc[x] == s.inc[x]
    ensures GetAccepts(Exec(s, run), Handle(x, s.inc[x], true))
    decreases |run|
  {
    SlotPartition(s, x);
    if run != [] {
      ApplyInv(s, run[0]);
      StepOwnership(s, run[0], x);
      SlotPartition(Apply(s, run[0]), x);
      ExclusiveOwnership(Apply(s, run[0]), run[1..], x);
    }
  }

  /** A handle in use at `s` is accepted later exactly when the accepted releases since are a multiple of 65536. */
  lemma StaleWindow(s: State, run: seq<Action>, x: nat)
    requires Inv(s) && ThreadsOf(s, run) && LegalRun(s, run) && x < |s.inc|
    requires InUse(s, x)
    ensures GetAccepts(Exec(s, run), Handle(x, s.inc[x], true)) <==> AcceptedReleases(s, run, x) % GENERATIONS == 0
  {
    var e, d := Exec(s, run), AcceptedReleases(s, run, x);
    assert Shape(e) by { RunInv(s, run); }
    IncarnationsCount(s, run, x);
    AcceptedWhen(e, x, s.inc[x], d);
  }

  lemma AcceptedWhen(e: State, x: nat, k: nat, d: nat)
    requires Shape(e) && x < |e.inc| && e.inc[x] == k + d
    ensures GetAccepts(e, Handle(x, k, true)) <==> d % GENERATIONS == 0
  {
    if Gen(k + d) == Gen(k) {
      assert d == (k + d) - k;
    }
  }

  /**
   In every legal run: whenever the exchange of an allocation can succeed, the head is the
   very incarnation that was loaded, and the link read since then is still its successor.
   */
  lemma AbaFreeInEveryRun(s: State, run: seq<Action>, t: nat)
    requires Init(s) && ThreadsOf(s, run) && LegalRun(s, run) && t < |Exec(s, run).pcs|
    requires Exec(s, run).pcs[t].AllocCas? && SameWord(Exec(s, run).freeHead, Exec(s, run).pcs[t].oldHead)
    ensures var e := Exec(s, run); var pc := e.pcs[t];
            && e.freeHead == pc.oldHead && pc.oldHead.Handle?
            && |e.stack| > 0 && e.stack[0] == pc.oldHead.slot < |e.next|
            && pc.newHead == e.next[pc.oldHead.slot]
  {
    var e := Exec(s, run);
    assert Inv(e) by {
      InitInv(s);
      RunInv(s, run);
    }
    assert AllocWindow(e, e.pcs[t]) by { RunWindows(s, run); }
    AbaFree(e, t);
  }

  lemma {:induction false} RunWindows(s: State, run: seq<Action>)
    requires ThreadsOf(s, run) && LegalRun(s, run)
    ensures Windows(Exec(s, run))
    decreases |run|
  {
    if run != [] {
      RunWindows(Apply(s, run[0]), run[1..]);
    }
  }

  // ------------------------------------------------------- linearization

  /**
   Against the abstract stack: the compare-exchange of an allocation pops the top, that of
   a release pushes its slot, no other step touches the stack, and an allocation that finds
   the pool exhausted did so at a moment when the stack was empty.
   */
  lemma StackSteps(s: State, a: Action)
    requires Inv(s) && Windows(s) && Legal(s, a)
    ensures var s' := Apply(s, a); var pc, pc' := s.pcs[a.tid], s'.pcs[a.tid];
            if a.Run? && pc.AllocCas? && pc'.AllocLoadGen? then s.stack == [pc'.slot] + s'.stack
            else if a.Run? && pc.ReleaseCas? && pc'.ReleaseAddFree? then s'.stack == [pc.slot] + s.stack
            else s'.stack == s.stack && (pc' == AllocDone(Null) && pc != pc' ==> s.stack == [])
  {
    assert ThreadInv(s, a.tid, s.pcs[a.tid]);
    assert AllocWindow(s, s.pcs[a.tid]);
    if a.Run? && s.pcs[a.tid].AllocCas? && SameWord(s.freeHead, s.pcs[a.tid].oldHead) {
      AllocCasFreeList(s, a.tid);
    }
  }

  // ------------------------------------------------------------ counters

  /** +1 for a slot popped but not yet subtracted from `slots_free`, -1 for one pushed but not yet added. */
  function FreeDebt(pc: Pc): int {
    if pc.AllocLoadGen? || pc.AllocClearNext? || pc.AllocSubFree? then 1
    else if pc.ReleaseAddFree? then -1
    else 0
  }

  /** +1 for a slot popped but not yet in `alloc_count`, -1 for one pushed but not yet in `release_count`. */
  function CountDebt(pc: Pc): int {
    if pc.AllocAddCount? then 1
    else if pc.ReleaseAddCount? then -1
    else FreeDebt(pc)
  }

  ghost predicate CountersInv(s: State) {
    && s.slotsFree == |s.stack| + Sum(s.pcs, FreeDebt)
    && s.allocCount - s.releaseCount + Sum(s.pcs, CountDebt) == |s.inc| - |s.stack|
  }

  /** What a step adds to a counter, its debt and the length of the list give up. */
  lemma DebtSteps(s: State, a: Action)
    requires Inv(s) && Windows(s) && Legal(s, a)
    ensures var s' := Apply(s, a); var pc, pc' := s.pcs[a.tid], s'.pcs[a.tid];
            && s'.pcs == s.pcs[a.tid := pc'] && |s'.inc| == |s.inc|
            && s'.slotsFree - s.slotsFree == |s'.stack| - |s.stack| + FreeDebt(pc') - FreeDebt(pc)
            && (s'.allocCount - s'.releaseCount) - (s.allocCount - s.releaseCount)
               == |s.stack| - |s'.stack| - CountDebt(pc') + CountDebt(pc)
  {
    StackSteps(s, a);
    assert ThreadInv(s, a.tid, s.pcs[a.tid]);
  }

  /**
   At every step `slots_free` is the length of the free list plus the slots popped but not
   yet subtracted minus those pushed but not yet added, and `alloc_count - release_count`
   is the number of slots off the list up to the same two corrections.
   */
  lemma CountersStep(s: State, a: Action)
    requires Inv(s) && Windows(s) && Legal(s, a) && CountersInv(s)
    ensures CountersInv(Apply(s, a))
  {
    DebtSteps(s, a);
    var pc' := Apply(s, a).pcs[a.tid];
    SumUpdate(s.pcs, a.tid, pc', FreeDebt);
    SumUpdate(s.pcs, a.tid, pc', CountDebt);
  }

  lemma {:induction false} RunCounters(s: State, run: seq<Action>)
    requires Inv(s) && CountersInv(s) && ThreadsOf(s, run) && LegalRun(s, run)
    ensures CountersInv(Exec(s, run))
    decreases |run|
  {
    if run != [] {
      ApplyInv(s, run[0]);
      CountersStep(s, run[0]);
      RunCounters(Apply(s, run[0]), run[1..]);
    }
  }

  ghost function SlotsInUse(s: State): set<nat> {
    set x: nat | x < |s.inc| && InUse(s, x)
  }

  /** When every call has returned, the counters are exact. */
  lemma QuiescentCounters(s: State, run: seq<Action>)
    requires Init(s) && ThreadsOf(s, run) && LegalRun(s, run)
    requires forall t :: 0 <= t < |Exec(s, run).pcs| ==> Exec(s, run).pcs[t] == Idle
    ensures Exec(s, run).slotsFree + |SlotsInUse(Exec(s, run))| == |s.inc|
    ensures Exec(s, run).allocCount - Exec(s, run).releaseCount == |SlotsInUse(Exec(s, run))|
  {
    var e := Exec(s, run);
    assert Inv(s) by { InitInv(s); }
    assert CountersInv(s) by {
      SumZero(s.pcs, FreeDebt);
      SumZero(s.pcs, CountDebt);
    }
    assert CountersInv(e) by { RunCounters(s, run); }
    assert Inv(e) by { RunInv(s, run); }
    assert |e.inc| == |s.inc| by { RunLength(s, run); }
    SettledCounters(e);
    QuiescentSlots(e);
  }

  lemma SettledCounters(e: State)
    requires CountersInv(e) && forall t :: 0 <= t < |e.pcs| ==> e.pcs[t] == Idle
    ensures e.slotsFree == |e.stack| && e.allocCount - e.releaseCount == |e.inc| - |e.stack|
  {
    SumZero(e.pcs, FreeDebt);
    SumZero(e.pcs, CountDebt);
  }

  lemma QuiescentSlots(e: State)
    requires Inv(e) && forall t :: 0 <= t < |e.pcs| ==> e.pcs[t] == Idle
    ensures |e.stack| + |SlotsInUse(e)| == |e.inc|
  {
    var ids := Below(|e.inc|);
    var all, free := Elements(ids), Elements(e.stack);
    forall x: nat | x < |e.inc|
      ensures x in all && (x in SlotsInUse(e) <==> x !in free)
    {
      assert ids[x] == x;
      SlotPartition(e, x);
      assert OwnerActive(e, x, e.owner[x]);
    }
    assert forall x :: x in free ==> x in all;
    assert all == free + SlotsInUse(e);
    ElementCount(e.stack);
    ElementCount(ids);
  }
}
