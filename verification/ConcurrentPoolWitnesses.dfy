/** Runs of the concurrent pool that show why the hypothesis on overlapping releases is needed. */
module ConcurrentPoolWitnesses {
  import opened TaggedHandles
  import opened ConcurrentPool
  import opened ConcurrentPoolRuns

  ghost predicate Reaches(s: State, e: State) {
    exists run :: ThreadsOf(s, run) && Exec(s, run) == e
  }

  ghost predicate LegallyReaches(s: State, e: State) {
    exists run :: ThreadsOf(s, run) && LegalRun(s, run) && Exec(s, run) == e
  }

  lemma {:induction false} ExecSnoc(s: State, run: seq<Action>, a: Action)
    requires ThreadsOf(s, run) && a.tid < |s.pcs|
    ensures ThreadsOf(s, run + [a]) && a.tid < |Exec(s, run).pcs|
    ensures Exec(s, run + [a]) == Apply(Exec(s, run), a)
    decreases |run|
  {
    if run == [] {
      assert (run + [a])[1..] == [];
    } else {
      ExecSnoc(Apply(s, run[0]), run[1..], a);
      assert (run + [a])[1..] == run[1..] + [a];
    }
  }

  lemma {:induction false} LegalSnoc(s: State, run: seq<Action>, a: Action)
    requires ThreadsOf(s, run) && ThreadsOf(s, run + [a]) && LegalRun(s, run)
    requires Legal(Exec(s, run), a) && Windows(Apply(Exec(s, run), a))
    ensures LegalRun(s, run + [a])
    decreases |run|
  {
    if run == [] {
      assert (run + [a])[1..] == [];
    } else {
      assert (run + [a])[1..] == run[1..] + [a];
      LegalSnoc(Apply(s, run[0]), run[1..], a);
    }
  }

  lemma Go(s: State, m: State, a: Action)
    requires Reaches(s, m) && a.tid < |s.pcs| == |m.pcs|
    ensures Reaches(s, Apply(m, a))
  {
    var run :| ThreadsOf(s, run) && Exec(s, run) == m;
    ExecSnoc(s, run, a);
  }

  lemma GoLegally(s: State, m: State, a: Action)
    requires LegallyReaches(s, m) && a.tid < |s.pcs| == |m.pcs|
    requires Legal(m, a) && Windows(Apply(m, a))
    ensures LegallyReaches(s, Apply(m, a))
  {
    var run :| ThreadsOf(s, run) && LegalRun(s, run) && Exec(s, run) == m;
    ExecSnoc(s, run, a);
    LegalSnoc(s, run, a);
  }

  lemma Stay(s: State)
    requires Windows(s)
    ensures Reaches(s, s) && LegallyReaches(s, s)
  {
    assert ThreadsOf(s, []) && Exec(s, []) == s && LegalRun(s, []);
  }

  /** The windows hold along those steps. */
  predicate Watched(s: State, t: nat, n: nat)
    requires t < |s.pcs|
    decreases n
  {
    Windows(s) && (n > 0 ==> Watched(Step(s, t, false), t, n - 1))
  }

  lemma {:induction false} GoSteps(s: State, m: State, t: nat, n: nat)
    requires Reaches(s, m) && t < |s.pcs| == |m.pcs|
    ensures Reaches(s, Steps(m, t, n))
    decreases n
  {
    if n > 0 {
      Go(s, m, Run(t, false));
      GoSteps(s, Step(m, t, false), t, n - 1);
    }
  }

  lemma {:induction false} GoStepsLegally(s: State, m: State, t: nat, n: nat)
    requires LegallyReaches(s, m) && t < |s.pcs| == |m.pcs|
    requires Watched(m, t, n)
    ensures LegallyReaches(s, Steps(m, t, n))
    decreases n
  {
    if n > 0 {
      GoLegally(s, m, Run(t, false));
      GoStepsLegally(s, Step(m, t, false), t, n - 1);
    }
  }

  /** A pool of one slot and two threads. */
  function OneSlot(): State {
    State(Handle(0, 0, false), [Null], [0], 1, 0, 0, [Idle, Idle], [0], [Free], {})
  }

  const H0: Handle := Handle(0, 0, true)

  /** The slot has been allocated and nothing is running. */
  function Allocated(): State {
    State(Null, [Null], [0], 0, 1, 0, [Idle, Idle], [], [Live], {H0})
  }

  function AllocDone0(): State {
    State(Null, [Null], [0], 0, 1, 0, [AllocDone(H0), Idle], [], [Allocating(0)], {})
  }

  lemma Split(s: State, t: nat, m: nat, n: nat)
    requires t < |s.pcs|
    ensures t < |Steps(s, t, m).pcs|
    ensures Steps(s, t, m + n) == Steps(Steps(s, t, m), t, n)
    ensures Watched(s, t, m) && Watched(Steps(s, t, m), t, n) ==> Watched(s, t, m + n)
    decreases m
  {
    if m > 0 {
      Split(Step(s, t, false), t, m - 1, n);
    }
  }

  function SlotPopped(): State {
    State(Null, [Null], [0], 1, 0, 0, [AllocLoadGen(0), Idle], [], [Allocating(0)], {})
  }

  lemma EvalPopped()
    ensures var s := Apply(OneSlot(), CallAlloc(0));
            Steps(s, 0, 3) == SlotPopped() && Watched(s, 0, 3)
  {
    var s := Apply(OneSlot(), CallAlloc(0));
    var s1 := Step(s, 0, false);
    var s2 := Step(s1, 0, false);
    assert Step(s2, 0, false) == SlotPopped();
  }

  lemma EvalTaken()
    ensures Steps(SlotPopped(), 0, 4) == AllocDone0() && Watched(SlotPopped(), 0, 4)
  {
    var s1 := Step(SlotPopped(), 0, false);
    var s2 := Step(s1, 0, false);
    var s3 := Step(s2, 0, false);
    assert Step(s3, 0, false) == AllocDone0();
    assert Steps(s2, 0, 2) == AllocDone0() && Watched(s2, 0, 2);
  }

  lemma EvalAlloc()
    ensures var s := Apply(OneSlot(), CallAlloc(0));
            Steps(s, 0, 7) == AllocDone0() && Watched(s, 0, 7)
  {
    EvalPopped();
    EvalTaken();
    Split(Apply(OneSlot(), CallAlloc(0)), 0, 3, 4);
  }

  lemma AllocatedReached()
    ensures Init(OneSlot()) && LegallyReaches(OneSlot(), Allocated())
  {
    var o := OneSlot();
    var s := Apply(o, CallAlloc(0));
    assert LegallyReaches(o, s) by {
      Stay(o);
      GoLegally(o, o, CallAlloc(0));
    }
    assert LegallyReaches(o, AllocDone0()) by {
      EvalAlloc();
      GoStepsLegally(o, s, 0, 7);
    }
    GoLegally(o, AllocDone0(), Return(0));
    assert Apply(AllocDone0(), Return(0)) == Allocated();
  }

  // --------------------------------------------- two overlapping releases

  function BothChecked(): State {
    Allocated().(pcs := [ReleaseStoreGen(0, 0), ReleaseStoreGen(0, 0)])
  }

  function OneReleased(): State {
    State(Handle(0, 1, false), [Null], [1], 1, 1, 1, [ReleaseDone(true), ReleaseStoreGen(0, 0)], [0], [Free], {H0})
  }

  function BothReleased(): State {
    State(Handle(0, 1, false), [Handle(0, 1, false)], [1], 2, 1, 2,
          [ReleaseDone(true), ReleaseDone(true)], [0, 0], [Free], {H0})
  }

  function BothCalled(): State {
    Allocated().(pcs := [ReleaseCheck(H0), ReleaseCheck(H0)])
  }

  lemma BothCalledReached()
    ensures Reaches(Allocated(), BothCalled())
  {
    var s := Allocated();
    Stay(s);
    var s1 := Apply(s, CallRelease(0, H0));
    Go(s, s, CallRelease(0, H0));
    Go(s, s1, CallRelease(1, H0));
    assert Apply(s1, CallRelease(1, H0)) == BothCalled();
  }

  lemma BothCheckedReached()
    ensures Reaches(Allocated(), BothChecked())
  {
    BothCalledReached();
    var s1 := Step(BothCalled(), 0, false);
    Go(Allocated(), BothCalled(), Run(0, false));
    Go(Allocated(), s1, Run(1, false));
    assert Step(s1, 1, false) == BothChecked();
  }

  lemma EvalFirstRelease()
    ensures Steps(BothChecked(), 0, 6) == OneReleased()
  {
    var s1 := Step(BothChecked(), 0, false);
    var s2 := Step(s1, 0, false);
    var s3 := Step(s2, 0, false);
    assert s3 == State(Null, [Null], [1], 0, 1, 0, [ReleaseCas(0, 1, Null), ReleaseStoreGen(0, 0)], [], [Releasing(0)], {H0});
    var s4 := Step(s3, 0, false);
    var s5 := Step(s4, 0, false);
    assert Step(s5, 0, false) == OneReleased();
    assert Steps(s3, 0, 3) == OneReleased();
    Split(BothChecked(), 0, 3, 3);
  }

  lemma EvalSecondRelease()
    ensures Steps(OneReleased(), 1, 6) == BothReleased()
  {
    var s1 := Step(OneReleased(), 1, false);
    var s2 := Step(s1, 1, false);
    var s3 := Step(s2, 1, false);
    assert s3.pcs == [ReleaseDone(true), ReleaseCas(0, 1, Handle(0, 1, false))];
    var s4 := Step(s3, 1, false);
    var s5 := Step(s4, 1, false);
    assert Step(s5, 1, false) == BothReleased();
    assert Steps(s3, 1, 3) == BothReleased();
    Split(OneReleased(), 1, 3, 3);
  }

  /**
   Two overlapping releases of one handle both return true: the second check comes before
   the first store of the new generation. The slot is then pushed twice and its free-list
   link points to itself.
   */
  lemma OverlappingReleases()
    ensures Reaches(Allocated(), BothReleased())
    ensures BothReleased().pcs == [ReleaseDone(true), ReleaseDone(true)]
    ensures BothReleased().freeHead.slot == 0 && BothReleased().next[0] == BothReleased().freeHead
  {
    BothCheckedReached();
    EvalFirstRelease();
    GoSteps(Allocated(), BothChecked(), 0, 6);
    EvalSecondRelease();
    GoSteps(Allocated(), OneReleased(), 1, 6);
  }

  // -------------------------------------------- a free count below zero

  function Pushed(): State {
    State(Handle(0, 1, false), [Null], [1], 0, 1, 0, [ReleaseAddFree, Idle], [0], [Free], {H0})
  }

  function Overdrawn(): State {
    State(Null, [Null], [1], -1, 1, 0, [ReleaseAddFree, AllocAddCount(0, 1)], [], [Allocating(1)], {H0})
  }

  lemma EvalPush()
    ensures var s := Apply(Allocated(), CallRelease(0, H0));
            Steps(s, 0, 5) == Pushed() && Watched(s, 0, 5)
  {
    var s := Apply(Allocated(), CallRelease(0, H0));
    var s1 := Step(s, 0, false);
    var s2 := Step(s1, 0, false);
    var s3 := Step(s2, 0, false);
    var s4 := Step(s3, 0, false);
    assert Step(s4, 0, false) == Pushed();
    assert Steps(s2, 0, 3) == Pushed() && Watched(s2, 0, 3);
    Split(s, 0, 2, 3);
  }

  lemma EvalPop()
    ensures var s := Apply(Pushed(), CallAlloc(1));
            Steps(s, 1, 6) == Overdrawn() && Watched(s, 1, 6)
  {
    var s := Apply(Pushed(), CallAlloc(1));
    var s1 := Step(s, 1, false);
    var s2 := Step(s1, 1, false);
    var s3 := Step(s2, 1, false);
    var s4 := Step(s3, 1, false);
    var s5 := Step(s4, 1, false);
    assert Step(s5, 1, false) == Overdrawn();
    assert Steps(s3, 1, 3) == Overdrawn() && Watched(s3, 1, 3);
    assert Watched(s, 1, 3);
    Split(s, 1, 3, 3);
  }

  /**
   In a legal run `slots_free` can pass below zero: a release has pushed its slot but not
   yet counted it when another thread pops and counts it. The program then reads 2^64 - 1.
   */
  lemma FreeCountBelowZero()
    ensures LegallyReaches(Allocated(), Overdrawn())
    ensures Overdrawn().slotsFree == -1
  {
    var s := Allocated();
    assert LegallyReaches(s, Pushed()) by {
      Stay(s);
      GoLegally(s, s, CallRelease(0, H0));
      EvalPush();
      GoStepsLegally(s, Apply(s, CallRelease(0, H0)), 0, 5);
    }
    GoLegally(s, Pushed(), CallAlloc(1));
    EvalPop();
    GoStepsLegally(s, Apply(Pushed(), CallAlloc(1)), 1, 6);
  }
}
