/**
 Runs that show the two generation windows to be exact. With 65536 releases inside one
 load-to-exchange window, a delayed allocation succeeds on a stale link and the pool hands
 out a live slot a second time. With a handle released again exactly 65536 incarnations
 later, the release is accepted and the slot is on the free list twice.
 */
module ConcurrentPoolWindow {
  import opened TaggedHandles
  import opened ConcurrentPool
  import opened ConcurrentPoolRuns
  import opened ConcurrentPoolWitnesses

  // -------------------------------------------------------------- the states

  /** A pool of two slots and two threads. */
  function TwoSlots(): State {
    State(Handle(0, 0, false), [Handle(1, 0, false), Null], [0, 0], 2, 0, 0, [Idle, Idle], [0, 1], [Free, Free], {})
  }

  /** A thread that has read the head and its link and is about to exchange. */
  const Delayed: Pc := AllocCas(Handle(0, 0, false), Handle(1, 0, false))

  /** What thread 0 does meanwhile: nothing, or wait before its exchange. */
  predicate Bystander(pc: Pc) {
    pc == Idle || pc == Delayed
  }

  function Waiting(pc: Pc): State {
    TwoSlots().(pcs := [pc, Idle])
  }

  function FirstTaken(pc: Pc): State {
    State(Handle(1, 0, false), [Null, Null], [0, 0], 1, 1, 0, [pc, Idle], [1], [Live, Free], {Handle(0, 0, true)})
  }

  /** Both slots are live; slot 0 in its incarnation `k`. */
  function BothLive(pc: Pc, k: nat, issued: set<Handle>): State {
    State(Null, [Null, Null], [k, 0], 0, k + 2, k, [pc, Idle], [], [Live, Live], issued)
  }

  /** Slot 1 is live; slot 0 has been released `k` times and is free. */
  function OneFree(pc: Pc, k: nat, issued: set<Handle>): State {
    State(Handle(0, k, false), [Null, Null], [k, 0], 1, k + 1, k, [pc, Idle], [0], [Free, Live], issued)
  }

  /** Thread 0 does not stand in the way of the window at incarnation `k`. */
  predicate Early(pc: Pc, k: nat) {
    Bystander(pc) && (pc == Idle || k < GENERATIONS)
  }

  // --------------------------------------------------------------- one call

  /** From `s`, thread 1 calls, runs `n` steps and returns, and arrives at `e`. */
  predicate Arrives(s: State, a: Action, n: nat, e: State) {
    && |s.pcs| == 2 && a.tid == 1
    && var m := Steps(Apply(s, a), 1, n); |m.pcs| == 2 && Apply(m, Return(1)) == e
  }

  ghost predicate Performs(s: State, a: Action, e: State) {
    exists n: nat :: Arrives(s, a, n, e)
  }

  /** The same, with the windows holding all the way. */
  ghost predicate Lawfully(s: State, a: Action, e: State) {
    Windows(e) && exists n: nat :: Arrives(s, a, n, e) && Watched(Apply(s, a), 1, n)
  }

  lemma Join(s: State, a: Action, i: nat, m: State, j: nat, d: State, e: State)
    requires |s.pcs| == 2 && a.tid == 1 && |m.pcs| == 2 && |d.pcs| == 2
    requires Steps(Apply(s, a), 1, i) == m && Steps(m, 1, j) == d && Apply(d, Return(1)) == e
    ensures Performs(s, a, e)
    ensures Watched(Apply(s, a), 1, i) && Watched(m, 1, j) && Windows(e) ==> Lawfully(s, a, e)
  {
    Split(Apply(s, a), 1, i, j);
    assert Arrives(s, a, i + j, e);
  }

  /** The windows hold when thread 1 has loaded nothing it will compare. */
  lemma Calm(s: State, pc: Pc, q: Pc, k: nat)
    requires s.pcs == [pc, q] && !q.AllocLoadNext? && !q.AllocCas? && !q.ReleaseCheck?
    requires Early(pc, k) && s.inc == [k, 0]
    ensures Windows(s)
  {
    forall t | 0 <= t < |s.pcs|
      ensures AllocWindow(s, s.pcs[t]) && ReleaseWindow(s, s.pcs[t])
    {
      assert t == 0 || t == 1;
    }
  }

  /** `s'` is the next state of thread 1. */
  predicate Then(s: State, s': State) {
    |s.pcs| == 2 && Step(s, 1, false) == s'
  }

  lemma Two(s: State, s1: State, s2: State)
    requires Then(s, s1) && Then(s1, s2)
    ensures Steps(s, 1, 2) == s2 && (Windows(s) && Windows(s1) && Windows(s2) ==> Watched(s, 1, 2))
  {
    assert Steps(s1, 1, 1) == s2;
  }

  lemma Three(s: State, s1: State, s2: State, s3: State)
    requires Then(s, s1) && Then(s1, s2) && Then(s2, s3)
    ensures Steps(s, 1, 3) == s3 && (Windows(s) && Windows(s1) && Windows(s2) && Windows(s3) ==> Watched(s, 1, 3))
  {
    Two(s1, s2, s3);
  }

  lemma Four(s: State, s1: State, s2: State, s3: State, s4: State)
    requires Then(s, s1) && Then(s1, s2) && Then(s2, s3) && Then(s3, s4)
    ensures Steps(s, 1, 4) == s4
    ensures Windows(s) && Windows(s1) && Windows(s2) && Windows(s3) && Windows(s4) ==> Watched(s, 1, 4)
  {
    Three(s1, s2, s3, s4);
  }

  // The first two allocations.

  function FirstMid(pc: Pc): State {
    State(Handle(1, 0, false), [Handle(1, 0, false), Null], [0, 0], 2, 0, 0, [pc, AllocClearNext(0, 0)],
          [1], [Allocating(1), Free], {})
  }

  function SecondMid(pc: Pc): State {
    State(Null, [Null, Null], [0, 0], 1, 1, 0, [pc, AllocClearNext(1, 0)], [], [Live, Allocating(1)], {Handle(0, 0, true)})
  }

  lemma EvalFirstMid(pc: Pc)
    requires Bystander(pc)
    ensures var s := Apply(Waiting(pc), CallAlloc(1)); Steps(s, 1, 4) == FirstMid(pc) && Watched(s, 1, 4)
  {
    var s := Apply(Waiting(pc), CallAlloc(1));
    var s1 := Step(s, 1, false);
    var s2 := Step(s1, 1, false);
    var s3 := Step(s2, 1, false);
    assert Step(s3, 1, false) == FirstMid(pc);
    Four(s, s1, s2, s3, FirstMid(pc));
  }

  lemma EvalSecondMid(pc: Pc)
    requires Bystander(pc)
    ensures var s := Apply(FirstTaken(pc), CallAlloc(1)); Steps(s, 1, 4) == SecondMid(pc) && Watched(s, 1, 4)
  {
    var s := Apply(FirstTaken(pc), CallAlloc(1));
    var s1 := Step(s, 1, false);
    var s2 := Step(s1, 1, false);
    var s3 := Step(s2, 1, false);
    assert Step(s3, 1, false) == SecondMid(pc);
    Four(s, s1, s2, s3, SecondMid(pc));
  }

  const BothIssued: set<Handle> := {Handle(0, 0, true), Handle(1, 0, true)}

  function FirstOver(pc: Pc): State {
    FirstTaken(pc).(pcs := [pc, AllocDone(Handle(0, 0, true))], owner := [Allocating(1), Free], issued := {})
  }

  lemma EvalFirstOver(pc: Pc)
    requires Bystander(pc)
    ensures Steps(FirstMid(pc), 1, 3) == FirstOver(pc) && Watched(FirstMid(pc), 1, 3)
    ensures Apply(FirstOver(pc), Return(1)) == FirstTaken(pc)
  {
    var m1 := Step(FirstMid(pc), 1, false);
    assert m1 == FirstMid(pc).(next := [Null, Null], pcs := [pc, AllocSubFree(0, 0)]);
    var m2 := Step(m1, 1, false);
    assert Step(m2, 1, false) == FirstOver(pc);
    Three(FirstMid(pc), m1, m2, FirstOver(pc));
  }

  lemma EvalFirst(pc: Pc)
    requires Bystander(pc)
    ensures Performs(Waiting(pc), CallAlloc(1), FirstTaken(pc)) && Lawfully(Waiting(pc), CallAlloc(1), FirstTaken(pc))
  {
    EvalFirstMid(pc);
    EvalFirstOver(pc);
    Join(Waiting(pc), CallAlloc(1), 4, FirstMid(pc), 3, FirstOver(pc), FirstTaken(pc));
  }

  function SecondOver(pc: Pc): State {
    BothLive(pc, 0, {Handle(0, 0, true)}).(pcs := [pc, AllocDone(Handle(1, 0, true))], owner := [Live, Allocating(1)])
  }

  lemma EvalSecondOver(pc: Pc)
    requires Bystander(pc)
    ensures Steps(SecondMid(pc), 1, 3) == SecondOver(pc) && Watched(SecondMid(pc), 1, 3)
    ensures Apply(SecondOver(pc), Return(1)) == BothLive(pc, 0, BothIssued)
  {
    var m1 := Step(SecondMid(pc), 1, false);
    assert m1 == SecondMid(pc).(pcs := [pc, AllocSubFree(1, 0)]);
    var m2 := Step(m1, 1, false);
    assert Step(m2, 1, false) == SecondOver(pc);
    Three(SecondMid(pc), m1, m2, SecondOver(pc));
  }

  lemma EvalSecond(pc: Pc)
    requires Bystander(pc)
    ensures Performs(FirstTaken(pc), CallAlloc(1), BothLive(pc, 0, BothIssued))
    ensures Lawfully(FirstTaken(pc), CallAlloc(1), BothLive(pc, 0, BothIssued))
  {
    EvalSecondMid(pc);
    EvalSecondOver(pc);
    Join(FirstTaken(pc), CallAlloc(1), 4, SecondMid(pc), 3, SecondOver(pc), BothLive(pc, 0, BothIssued));
  }

  // A release of slot 0 in incarnation `k`.

  function ReleaseMid(pc: Pc, k: nat, issued: set<Handle>): State {
    State(Null, [Null, Null], [k + 1, 0], 0, k + 2, k, [pc, ReleaseCas(0, k + 1, Null)], [], [Releasing(1), Live], issued)
  }

  lemma EvalReleaseMid(pc: Pc, k: nat, issued: set<Handle>)
    requires Bystander(pc)
    ensures var s := Apply(BothLive(pc, k, issued), CallRelease(1, Handle(0, k, true)));
            Steps(s, 1, 4) == ReleaseMid(pc, k, issued) && (Early(pc, k + 1) ==> Watched(s, 1, 4))
  {
    var s := Apply(BothLive(pc, k, issued), CallRelease(1, Handle(0, k, true)));
    var s1 := Step(s, 1, false);
    assert s1 == BothLive(pc, k, issued).(pcs := [pc, ReleaseStoreGen(0, k)]);
    var s2 := Step(s1, 1, false);
    var s3 := Step(s2, 1, false);
    assert Step(s3, 1, false) == ReleaseMid(pc, k, issued);
    Four(s, s1, s2, s3, ReleaseMid(pc, k, issued));
  }

  function ReleaseOver(pc: Pc, k: nat, issued: set<Handle>): State {
    OneFree(pc, k + 1, issued).(pcs := [pc, ReleaseDone(true)])
  }

  lemma EvalReleaseOver(pc: Pc, k: nat, issued: set<Handle>)
    requires Bystander(pc)
    ensures Steps(ReleaseMid(pc, k, issued), 1, 3) == ReleaseOver(pc, k, issued) && (Early(pc, k + 1) ==> Watched(ReleaseMid(pc, k, issued), 1, 3))
    ensures Apply(ReleaseOver(pc, k, issued), Return(1)) == OneFree(pc, k + 1, issued)
  {
    var m1 := Step(ReleaseMid(pc, k, issued), 1, false);
    assert m1 == OneFree(pc, k + 1, issued).(slotsFree := 0, releaseCount := k, pcs := [pc, ReleaseAddFree]);
    var m2 := Step(m1, 1, false);
    assert m2 == OneFree(pc, k + 1, issued).(releaseCount := k, pcs := [pc, ReleaseAddCount]);
    assert Step(m2, 1, false) == ReleaseOver(pc, k, issued);
    if Early(pc, k + 1) {
      Calm(ReleaseMid(pc, k, issued), pc, ReleaseCas(0, k + 1, Null), k + 1);
      Calm(m1, pc, ReleaseAddFree, k + 1);
      Calm(m2, pc, ReleaseAddCount, k + 1);
      Calm(ReleaseOver(pc, k, issued), pc, ReleaseDone(true), k + 1);
    }
    Three(ReleaseMid(pc, k, issued), m1, m2, ReleaseOver(pc, k, issued));
  }

  lemma EvalRelease(pc: Pc, k: nat, issued: set<Handle>)
    requires Bystander(pc)
    ensures var s, a, e := BothLive(pc, k, issued), CallRelease(1, Handle(0, k, true)), OneFree(pc, k + 1, issued);
            Performs(s, a, e) && (Early(pc, k + 1) ==> Lawfully(s, a, e))
  {
    EvalReleaseMid(pc, k, issued);
    EvalReleaseOver(pc, k, issued);
    Join(BothLive(pc, k, issued), CallRelease(1, Handle(0, k, true)), 4, ReleaseMid(pc, k, issued),
         3, ReleaseOver(pc, k, issued), OneFree(pc, k + 1, issued));
  }

  // An allocation of slot 0 in incarnation `k`.

  function AllocMid(pc: Pc, k: nat, issued: set<Handle>): State {
    State(Null, [Null, Null], [k, 0], 1, k + 1, k, [pc, AllocClearNext(0, k)], [], [Allocating(1), Live], issued)
  }

  lemma EvalAllocMid(pc: Pc, k: nat, issued: set<Handle>)
    requires Early(pc, k)
    ensures var s := Apply(OneFree(pc, k, issued), CallAlloc(1));
            Steps(s, 1, 4) == AllocMid(pc, k, issued) && Watched(s, 1, 4)
  {
    var s := Apply(OneFree(pc, k, issued), CallAlloc(1));
    var s1 := Step(s, 1, false);
    var s2 := Step(s1, 1, false);
    var s3 := Step(s2, 1, false);
    assert Step(s3, 1, false) == AllocMid(pc, k, issued);
    Four(s, s1, s2, s3, AllocMid(pc, k, issued));
  }

  function AllocOver(pc: Pc, k: nat, issued: set<Handle>): State {
    BothLive(pc, k, issued).(pcs := [pc, AllocDone(Handle(0, k, true))], owner := [Allocating(1), Live])
  }

  lemma EvalAllocOver(pc: Pc, k: nat, issued: set<Handle>)
    requires Early(pc, k)
    ensures Steps(AllocMid(pc, k, issued), 1, 3) == AllocOver(pc, k, issued) && Watched(AllocMid(pc, k, issued), 1, 3)
    ensures Apply(AllocOver(pc, k, issued), Return(1)) == BothLive(pc, k, issued + {Handle(0, k, true)})
  {
    var m1 := Step(AllocMid(pc, k, issued), 1, false);
    assert m1 == AllocMid(pc, k, issued).(pcs := [pc, AllocSubFree(0, k)]);
    var m2 := Step(m1, 1, false);
    assert Step(m2, 1, false) == AllocOver(pc, k, issued);
    Three(AllocMid(pc, k, issued), m1, m2, AllocOver(pc, k, issued));
  }

  lemma EvalSlotAgain(pc: Pc, k: nat, issued: set<Handle>)
    requires Early(pc, k)
    ensures var s, a, e := OneFree(pc, k, issued), CallAlloc(1), BothLive(pc, k, issued + {Handle(0, k, true)});
            Performs(s, a, e) && Lawfully(s, a, e)
  {
    EvalAllocMid(pc, k, issued);
    EvalAllocOver(pc, k, issued);
    Join(OneFree(pc, k, issued), CallAlloc(1), 4, AllocMid(pc, k, issued), 3, AllocOver(pc, k, issued),
         BothLive(pc, k, issued + {Handle(0, k, true)}));
  }

  // ----------------------------------------------------------------- the runs

  /** Callers keep to the rules: issued handles only, and no overlapping releases of one handle. */
  ghost predicate Honest(s: State, run: seq<Action>)
    requires ThreadsOf(s, run)
    decreases |run|
  {
    run != [] ==> Legal(s, run[0]) && Honest(Apply(s, run[0]), run[1..])
  }

  ghost predicate HonestlyReaches(s: State, e: State) {
    exists run :: ThreadsOf(s, run) && Honest(s, run) && Exec(s, run) == e
  }

  lemma {:induction false} LegalIsHonest(s: State, run: seq<Action>)
    requires ThreadsOf(s, run) && LegalRun(s, run)
    ensures Honest(s, run)
    decreases |run|
  {
    if run != [] {
      LegalIsHonest(Apply(s, run[0]), run[1..]);
    }
  }

  lemma LegallyIsHonestly(s: State, e: State)
    requires LegallyReaches(s, e)
    ensures HonestlyReaches(s, e)
  {
    var run :| ThreadsOf(s, run) && LegalRun(s, run) && Exec(s, run) == e;
    LegalIsHonest(s, run);
  }

  lemma {:induction false} HonestSnoc(s: State, run: seq<Action>, a: Action)
    requires ThreadsOf(s, run) && ThreadsOf(s, run + [a]) && Honest(s, run) && Legal(Exec(s, run), a)
    ensures Honest(s, run + [a])
    decreases |run|
  {
    if run == [] {
      assert (run + [a])[1..] == [];
    } else {
      assert (run + [a])[1..] == run[1..] + [a];
      HonestSnoc(Apply(s, run[0]), run[1..], a);
    }
  }

  lemma GoHonestly(s: State, m: State, a: Action)
    requires HonestlyReaches(s, m) && |s.pcs| == |m.pcs| && Legal(m, a)
    ensures HonestlyReaches(s, Apply(m, a))
  {
    var run :| ThreadsOf(s, run) && Honest(s, run) && Exec(s, run) == m;
    ExecSnoc(s, run, a);
    HonestSnoc(s, run, a);
  }

  lemma {:induction false} GoStepsHonestly(s: State, m: State, t: nat, n: nat)
    requires HonestlyReaches(s, m) && t < |s.pcs| == |m.pcs|
    ensures HonestlyReaches(s, Steps(m, t, n))
    decreases n
  {
    if n > 0 {
      GoHonestly(s, m, Run(t, false));
      GoStepsHonestly(s, Step(m, t, false), t, n - 1);
    }
  }

  lemma CallHonestly(o: State, s: State, a: Action, e: State)
    requires HonestlyReaches(o, s) && |o.pcs| == 2 && Legal(s, a) && Performs(s, a, e)
    ensures HonestlyReaches(o, e)
  {
    var n: nat :| Arrives(s, a, n, e);
    GoHonestly(o, s, a);
    GoStepsHonestly(o, Apply(s, a), 1, n);
    GoHonestly(o, Steps(Apply(s, a), 1, n), Return(1));
  }

  lemma CallLegally(o: State, s: State, a: Action, e: State)
    requires LegallyReaches(o, s) && |o.pcs| == 2 && Legal(s, a) && Lawfully(s, a, e)
    ensures LegallyReaches(o, e)
  {
    var n: nat :| Arrives(s, a, n, e) && Watched(Apply(s, a), 1, n);
    assert Windows(Apply(s, a));
    GoLegally(o, s, a);
    GoStepsLegally(o, Apply(s, a), 1, n);
    GoLegally(o, Steps(Apply(s, a), 1, n), Return(1));
  }

  lemma WaitingReached(pc: Pc)
    requires Bystander(pc)
    ensures Init(TwoSlots()) && LegallyReaches(TwoSlots(), Waiting(pc))
  {
    Stay(TwoSlots());
    if pc == Delayed {
      DelayedReached();
    } else {
      assert Waiting(Idle) == TwoSlots();
    }
  }

  lemma DelayedReached()
    ensures LegallyReaches(TwoSlots(), Waiting(Delayed))
  {
    var o := TwoSlots();
    var s1, s2 := Waiting(AllocLoadHead), Waiting(AllocLoadNext(Handle(0, 0, false)));
    Stay(o);
    assert Apply(o, CallAlloc(0)) == s1;
    GoLegally(o, o, CallAlloc(0));
    assert Step(s1, 0, false) == s2;
    GoLegally(o, s1, Run(0, false));
    assert Step(s2, 0, false) == Waiting(Delayed);
    GoLegally(o, s2, Run(0, false));
  }

  ghost predicate Holds(issued: set<Handle>, k: nat) {
    Handle(0, 0, true) in issued && Handle(0, k, true) in issued && Handle(1, 0, true) in issued
  }

  ghost predicate ReachesBothLive(pc: Pc, k: nat) {
    exists issued: set<Handle> :: Holds(issued, k) && LegallyReaches(TwoSlots(), BothLive(pc, k, issued))
  }

  lemma StartReached(pc: Pc)
    requires Bystander(pc)
    ensures ReachesBothLive(pc, 0)
  {
    WaitingReached(pc);
    EvalFirst(pc);
    CallLegally(TwoSlots(), Waiting(pc), CallAlloc(1), FirstTaken(pc));
    EvalSecond(pc);
    CallLegally(TwoSlots(), FirstTaken(pc), CallAlloc(1), BothLive(pc, 0, BothIssued));
    assert Holds(BothIssued, 0);
  }

  /** One more release of slot 0 by thread 1, and a new allocation of it. */
  lemma CycleReached(pc: Pc, k: nat)
    requires Early(pc, k + 1) && ReachesBothLive(pc, k)
    ensures ReachesBothLive(pc, k + 1)
  {
    var o := TwoSlots();
    var issued :| Holds(issued, k) && LegallyReaches(o, BothLive(pc, k, issued));
    EvalRelease(pc, k, issued);
    CallLegally(o, BothLive(pc, k, issued), CallRelease(1, Handle(0, k, true)), OneFree(pc, k + 1, issued));
    EvalSlotAgain(pc, k + 1, issued);
    var more := issued + {Handle(0, k + 1, true)};
    CallLegally(o, OneFree(pc, k + 1, issued), CallAlloc(1), BothLive(pc, k + 1, more));
    assert Holds(more, k + 1);
  }

  lemma {:induction false} CyclesReached(pc: Pc, k: nat)
    requires Early(pc, k)
    ensures ReachesBothLive(pc, k)
  {
    if k == 0 {
      StartReached(pc);
    } else {
      CyclesReached(pc, k - 1);
      CycleReached(pc, k - 1);
    }
  }

  // ------------------------------------------------- a delayed allocation

  /** The delayed exchange succeeds: the free list now starts at slot 1, which is live. */
  function Broken(issued: set<Handle>): State {
    OneFree(Delayed, GENERATIONS, issued).(
      freeHead := Handle(1, 0, false), pcs := [AllocLoadGen(0), Idle], stack := [], owner := [Allocating(0), Live])
  }

  /** The second allocation of slot 1. */
  function GivenTwice(issued: set<Handle>): State {
    Broken(issued).(
      freeHead := Null, slotsFree := 0, allocCount := GENERATIONS + 2,
      pcs := [AllocLoadGen(0), AllocDone(Handle(1, 0, true))], owner := [Allocating(0), Allocating(1)])
  }

  lemma StaleExchange(issued: set<Handle>)
    ensures !Windows(OneFree(Delayed, GENERATIONS, issued))
    ensures Step(OneFree(Delayed, GENERATIONS, issued), 0, false) == Broken(issued)
  {
    var s := OneFree(Delayed, GENERATIONS, issued);
    assert SameWord(s.freeHead, Handle(0, 0, false));
    assert !AllocWindow(s, s.pcs[0]);
  }

  lemma EvalSecondGift(issued: set<Handle>)
    ensures Steps(Apply(Broken(issued), CallAlloc(1)), 1, 7) == GivenTwice(issued)
  {
    var s0 := Apply(Broken(issued), CallAlloc(1));
    var s1 := Step(s0, 1, false);
    var s2 := Step(s1, 1, false);
    var s3 := Step(s2, 1, false);
    var s4 := Step(s3, 1, false);
    var s5 := Step(s4, 1, false);
    var s6 := Step(s5, 1, false);
    assert Step(s6, 1, false) == GivenTwice(issued);
    Four(s0, s1, s2, s3, s4);
    Three(s4, s5, s6, GivenTwice(issued));
    Split(s0, 1, 4, 3);
  }

  /**
   After exactly 65536 releases of the slot inside one window, lawful in all else, the
   exchange succeeds although the link it installs is stale: a handle that was issued and
   never released is returned by a second allocation.
   */
  lemma WindowIsExact() returns (issued: set<Handle>)
    ensures Init(TwoSlots()) && LegallyReaches(TwoSlots(), BothLive(Delayed, GENERATIONS - 1, issued))
    ensures Performs(BothLive(Delayed, GENERATIONS - 1, issued), CallRelease(1, Handle(0, GENERATIONS - 1, true)),
                     OneFree(Delayed, GENERATIONS, issued))
    ensures !Windows(OneFree(Delayed, GENERATIONS, issued))
    ensures Step(OneFree(Delayed, GENERATIONS, issued), 0, false) == Broken(issued)
    ensures Handle(1, 0, true) in issued && HonestlyReaches(TwoSlots(), GivenTwice(issued))
  {
    var o, k := TwoSlots(), GENERATIONS - 1;
    WaitingReached(Delayed);
    CyclesReached(Delayed, k);
    issued :| Holds(issued, k) && LegallyReaches(o, BothLive(Delayed, k, issued));
    EvalRelease(Delayed, k, issued);
    StaleExchange(issued);
    LegallyIsHonestly(o, BothLive(Delayed, k, issued));
    CallHonestly(o, BothLive(Delayed, k, issued), CallRelease(1, Handle(0, k, true)), OneFree(Delayed, k + 1, issued));
    GoHonestly(o, OneFree(Delayed, GENERATIONS, issued), Run(0, false));
    GoHonestly(o, Broken(issued), CallAlloc(1));
    GoStepsHonestly(o, Apply(Broken(issued), CallAlloc(1)), 1, 7);
    EvalSecondGift(issued);
  }

  // ----------------------------------------------------- a stale release

  /** The release of an incarnation 65536 old has pushed a slot that was already on the list. */
  function PushedTwice(issued: set<Handle>): State {
    State(Handle(0, GENERATIONS + 1, false), [Handle(0, GENERATIONS, false), Null], [GENERATIONS + 1, 0], 2,
          GENERATIONS + 1, GENERATIONS + 1, [Idle, ReleaseDone(true)], [0, 0], [Free, Live], issued)
  }

  function StaleMid(issued: set<Handle>): State {
    State(Handle(0, GENERATIONS, false), [Handle(0, GENERATIONS, false), Null], [GENERATIONS + 1, 0], 1,
          GENERATIONS + 1, GENERATIONS, [Idle, ReleaseCas(0, GENERATIONS + 1, Handle(0, GENERATIONS, false))],
          [0], [Releasing(1), Live], issued)
  }

  lemma EvalStaleMid(issued: set<Handle>)
    ensures var s := Apply(OneFree(Idle, GENERATIONS, issued), CallRelease(1, Handle(0, 0, true)));
            Steps(s, 1, 4) == StaleMid(issued) && !Windows(s)
  {
    var s := Apply(OneFree(Idle, GENERATIONS, issued), CallRelease(1, Handle(0, 0, true)));
    assert !ReleaseWindow(s, s.pcs[1]);
    var s1 := Step(s, 1, false);
    var s2 := Step(s1, 1, false);
    var s3 := Step(s2, 1, false);
    assert Step(s3, 1, false) == StaleMid(issued);
    Four(s, s1, s2, s3, StaleMid(issued));
  }

  lemma EvalStaleRelease(issued: set<Handle>)
    ensures Steps(Apply(OneFree(Idle, GENERATIONS, issued), CallRelease(1, Handle(0, 0, true))), 1, 7) == PushedTwice(issued)
  {
    EvalStaleMid(issued);
    var m1 := Step(StaleMid(issued), 1, false);
    var m2 := Step(m1, 1, false);
    assert Step(m2, 1, false) == PushedTwice(issued);
    Three(StaleMid(issued), m1, m2, PushedTwice(issued));
    Split(Apply(OneFree(Idle, GENERATIONS, issued), CallRelease(1, Handle(0, 0, true))), 1, 4, 3);
  }

  /**
   In a run lawful up to there, a handle is released, its slot goes through 65535 more
   incarnations, and the handle is released again: the second release answers true, and the
   slot is on the free list twice and links to itself.
   */
  lemma ReleaseWindowIsExact() returns (issued: set<Handle>)
    ensures Init(TwoSlots()) && LegallyReaches(TwoSlots(), OneFree(Idle, GENERATIONS, issued))
    ensures Legal(OneFree(Idle, GENERATIONS, issued), CallRelease(1, Handle(0, 0, true)))
    ensures !Windows(Apply(OneFree(Idle, GENERATIONS, issued), CallRelease(1, Handle(0, 0, true))))
    ensures HonestlyReaches(TwoSlots(), PushedTwice(issued)) && PushedTwice(issued).pcs[1] == ReleaseDone(true)
    ensures PushedTwice(issued).freeHead.slot == 0 == PushedTwice(issued).next[0].slot
  {
    var o := TwoSlots();
    WaitingReached(Idle);
    issued := FreedOften();
    var s := OneFree(Idle, GENERATIONS, issued);
    LegallyIsHonestly(o, s);
    GoHonestly(o, s, CallRelease(1, Handle(0, 0, true)));
    EvalStaleMid(issued);
    EvalStaleRelease(issued);
    GoStepsHonestly(o, Apply(s, CallRelease(1, Handle(0, 0, true))), 1, 7);
  }

  lemma FreedOften() returns (issued: set<Handle>)
    ensures LegallyReaches(TwoSlots(), OneFree(Idle, GENERATIONS, issued)) && Handle(0, 0, true) in issued
  {
    var o, k := TwoSlots(), GENERATIONS - 1;
    CyclesReached(Idle, k);
    issued :| Holds(issued, k) && LegallyReaches(o, BothLive(Idle, k, issued));
    EvalRelease(Idle, k, issued);
    CallLegally(o, BothLive(Idle, k, issued), CallRelease(1, Handle(0, k, true)), OneFree(Idle, k + 1, issued));
  }
}
