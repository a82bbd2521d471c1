/**
 A run with two overlapping pushes, which the theorems about the queue exclude. The first
 push reloads `tail` after the second has finished and swings it back to its own node; a
 pop that had loaded the later tail then unlinks and releases that node. `tail` is left on
 a released slot, and from then on no push links and no pop returns.
 */
module ConcurrentQueueWitness {
  import opened Lists
  import opened TaggedHandles
  import opened ConcurrentQueue
  import opened ConcurrentQueueRuns
  import P = ConcurrentPool

  ghost predicate Reaches(s: State, e: State) {
    exists run :: ThreadsOf(s, run) && Exec(s, run) == e
  }

  lemma Stay(s: State)
    ensures Reaches(s, s)
  {
    assert ThreadsOf(s, []) && Exec(s, []) == s;
  }

  lemma Go(s: State, m: State, a: Action)
    requires Reaches(s, m) && HasThread(s, a.tid) && HasThread(m, a.tid)
    ensures Reaches(s, Apply(m, a))
  {
    var run :| ThreadsOf(s, run) && Exec(s, run) == m;
    assert ThreadsOf(s, run + [a]);
    ExecSnoc(s, run, a);
  }

  lemma {:induction false} GoSteps(s: State, m: State, t: nat, n: nat)
    requires Reaches(s, m) && HasThread(s, t) && HasThread(m, t)
    ensures Reaches(s, Steps(m, t, n))
    decreases n
  {
    if n > 0 {
      Go(s, m, Run(t, false));
      SameThreads(m, Run(t, false));
      GoSteps(s, Next(m, t), t, n - 1);
    }
  }

  // ------------------------------------------------------------ spinning

  /** A push that finds a rejected tail reloads it, again and again. */
  lemma PushSpins(s: State, t: nat)
    requires HasThread(s, t) && s.pcs[t].PushLoadTail? && !Get(s.mem, s.mem.tail)
    ensures Steps(s, t, 2) == s
  {
    var s1 := Apply(s, Run(t, false));
    assert s1 == Goto(s, t, PushGetTail(s.pcs[t].data, s.pcs[t].node, s.mem.tail), s.mem);
    assert Apply(s1, Run(t, false)).pcs == s.pcs;
    assert Steps(s1, t, 1) == Apply(s1, Run(t, false));
  }

  ghost predicate FalselyBusy(m: Memory) {
    Get(m, m.head) && Ok(m, m.head) && m.next[m.head.slot].Null? && !SameWord(m.head, m.tail)
  }

  lemma PopLooks(s: State, t: nat)
    requires HasThread(s, t) && s.pcs[t].PopLoadHead? && FalselyBusy(s.mem)
    ensures Steps(s, t, 3) == Goto(s, t, PopLoadNext(s.mem.head, s.mem.tail), s.mem)
  {
    var s1 := Apply(s, Run(t, false));
    var s2 := Apply(s1, Run(t, false));
    assert Steps(s2, t, 1) == Apply(s2, Run(t, false));
  }

  lemma PopGivesUp(s: State, t: nat)
    requires HasThread(s, t) && s.pcs[t] == PopLoadNext(s.mem.head, s.mem.tail) && FalselyBusy(s.mem)
    ensures Steps(s, t, 3) == Goto(s, t, PopLoadHead, s.mem)
  {
    var s1 := Apply(s, Run(t, false));
    var s2 := Apply(s1, Run(t, false));
    assert Steps(s2, t, 1) == Apply(s2, Run(t, false));
  }

  /** A pop on an empty queue whose tail is elsewhere starts over, again and again. */
  lemma PopSpins(s: State, t: nat)
    requires HasThread(s, t) && s.pcs[t].PopLoadHead? && FalselyBusy(s.mem)
    ensures Steps(s, t, 6) == s
  {
    PopLooks(s, t);
    PopGivesUp(Goto(s, t, PopLoadNext(s.mem.head, s.mem.tail), s.mem), t);
    IterateSplit(x => Next(x, t), s, 3, 3);
  }

  // -------------------------------------------------------------- the run

  const D: Handle := Handle(0, 0, true)
  const A: Handle := Handle(1, 0, true)
  const B: Handle := Handle(2, 0, true)

  /** A queue of capacity two, just created; threads 0 and 1 will push, threads 2 and 3 will pop. */
  function Start(): State {
    State(Memory(P.State(Handle(1, 0, false), [Null, Handle(2, 0, false), Null], [0, 0, 0], 2, 1, 0,
                         [P.Idle, P.Idle, P.Idle, P.Idle], [1, 2], [P.Live, P.Free, P.Free], {D}),
                 D, D, [Null, Null, Null], [0, 0, 0], [0], [Chained, Pooled, Pooled]),
          0, [Idle, Idle, Idle, Idle], Nobody)
  }

  /** Thread 0 has popped slot 1 off the free list. */
  function SlotOnePopped(): State {
    Goto(Start(), 0, PushAlloc(10),
         Start().mem.(pool := Start().mem.pool.(
           freeHead := Handle(2, 0, false), stack := [2], owner := [P.Live, P.Allocating(0), P.Free],
           pcs := [P.AllocClearNext(1, 0), P.Idle, P.Idle, P.Idle])))
  }

  function NodeAAllocated(): State {
    Goto(SlotOnePopped(), 0, PushGet(10, A),
         SlotOnePopped().mem.(
           pool := P.State(Handle(2, 0, false), [Null, Null, Null], [0, 0, 0], 1, 2, 0,
                           [P.Idle, P.Idle, P.Idle, P.Idle], [2], [P.Live, P.Live, P.Free], {D, A}),
           role := [Chained, Private(0), Pooled]))
  }

  function NodeAReady(): State {
    Goto(NodeAAllocated(), 0, PushEnter(10, A), NodeAAllocated().mem.(item := [0, 10, 0]))
  }

  /** The first push has linked its node and not yet reloaded `tail`. */
  function NodeALinked(): State {
    Goto(NodeAReady(), 0, PushReloadTail(A),
         NodeAReady().mem.(next := [A, Null, Null], chain := [0, 1], role := [Chained, Chained, Pooled])).(turn := Thread(0))
  }

  function SlotTwoPopped(): State {
    Goto(NodeALinked(), 1, PushAlloc(20),
         NodeALinked().mem.(pool := NodeALinked().mem.pool.(
           freeHead := Null, stack := [], owner := [P.Live, P.Live, P.Allocating(1)],
           pcs := [P.Idle, P.AllocClearNext(2, 0), P.Idle, P.Idle])))
  }

  function NodeBAllocated(): State {
    Goto(SlotTwoPopped(), 1, PushGet(20, B),
         SlotTwoPopped().mem.(
           pool := P.State(Null, [Null, Null, Null], [0, 0, 0], 0, 3, 0,
                           [P.Idle, P.Idle, P.Idle, P.Idle], [], [P.Live, P.Live, P.Live], {D, A, B}),
           role := [Chained, Chained, Private(1)]))
  }

  function NodeBReady(): State {
    Goto(NodeBAllocated(), 1, PushEnter(20, B), NodeBAllocated().mem.(item := [0, 10, 20]))
  }

  /** The second push, overlapping the first, has helped `tail` on to the first push's node. */
  function TailHelped(): State {
    Goto(NodeBReady(), 1, PushLoadTail(20, B), NodeBReady().mem.(tail := A)).(turn := Thread(1))
  }

  function NodeBLinked(): State {
    Goto(TailHelped(), 1, PushReloadTail(B),
         TailHelped().mem.(next := [A, B, Null], chain := [0, 1, 2], role := [Chained, Chained, Chained]))
  }

  function SecondPushSwung(): State {
    Goto(NodeBLinked(), 1, PushAddLength(B), NodeBLinked().mem.(tail := B)).(turn := Nobody)
  }

  /** The first push has loaded the tail that the second one set. */
  function FirstPushReloaded(): State {
    Goto(SecondPushSwung(), 0, PushSwing(A, B), SecondPushSwung().mem)
  }

  function FirstPopLoaded(): State {
    Goto(FirstPushReloaded(), 2, PopLoadNext(D, B), FirstPushReloaded().mem)
  }

  function FirstPopChecked(): State {
    Goto(FirstPushReloaded(), 2, PopRecheck(D, B, A, false), FirstPushReloaded().mem)
  }

  function FirstPopTook(): State {
    Goto(FirstPopChecked(), 2, PopCallRelease(D, 10),
         FirstPopChecked().mem.(head := A, chain := [1, 2], role := [Retired(2), Chained, Chained]))
  }

  function SecondPopLoaded(): State {
    Goto(FirstPopTook(), 3, PopGetHead(A, B), FirstPopTook().mem)
  }

  /** The first push swings `tail` back from the second node to its own. */
  function TailMovedBack(): State {
    Goto(SecondPopLoaded(), 0, PushAddLength(A), SecondPopLoaded().mem.(tail := A))
  }

  function SecondPopChecked(): State {
    Goto(TailMovedBack(), 3, PopGetNext(A, B), TailMovedBack().mem)
  }

  function SecondPopTook(): State {
    Goto(TailMovedBack(), 3, PopCallRelease(A, 20),
         TailMovedBack().mem.(head := B, chain := [2], role := [Retired(2), Retired(3), Chained]))
  }

  function ReleaseChecked(): State {
    Goto(SecondPopTook(), 3, PopRelease(A, 20),
         SecondPopTook().mem.(
           pool := SecondPopTook().mem.pool.(pcs := [P.Idle, P.Idle, P.Idle, P.ReleaseStoreGen(1, 0)])))
  }

  /** The node `tail` points to has been released. */
  function TailReleased(): State {
    Goto(SecondPopTook(), 3, PopRelease(A, 20),
         SecondPopTook().mem.(
           pool := SecondPopTook().mem.pool.(
             inc := [0, 1, 0], owner := [P.Live, P.Releasing(3), P.Live],
             pcs := [P.Idle, P.Idle, P.Idle, P.ReleaseLoadHead(1, 1)]),
           role := [Retired(2), Pooled, Chained]))
  }

  lemma ToSlotOnePopped()
    ensures Steps(Apply(Start(), CallPush(0, 10)), 0, 4) == SlotOnePopped()
  {
    var s0 := Apply(Start(), CallPush(0, 10));
    var s1 := Next(s0, 0);
    var s2 := Next(s1, 0);
    var s3 := Next(s2, 0);
    var s4 := Next(s3, 0);
    assert s4 == SlotOnePopped();
    assert Steps(s1, 0, 3) == s4;
    assert Steps(s0, 0, 1) == s1;
    IterateSplit(x => Next(x, 0), s0, 1, 3);
  }

  lemma ToNodeAAllocated()
    ensures Steps(SlotOnePopped(), 0, 4) == NodeAAllocated()
  {
    var s0 := SlotOnePopped();
    var s1 := Next(s0, 0);
    var s2 := Next(s1, 0);
    var s3 := Next(s2, 0);
    var s4 := Next(s3, 0);
    assert s4 == NodeAAllocated();
    assert Steps(s1, 0, 3) == s4;
    assert Steps(s0, 0, 1) == s1;
    IterateSplit(x => Next(x, 0), s0, 1, 3);
  }

  lemma ToNodeAReady()
    ensures Steps(NodeAAllocated(), 0, 3) == NodeAReady()
  {
    var s0 := NodeAAllocated();
    var s1 := Next(s0, 0);
    var s2 := Next(s1, 0);
    var s3 := Next(s2, 0);
    assert s3 == NodeAReady();
  }

  lemma ToNodeALinked()
    ensures Steps(NodeAReady(), 0, 6) == NodeALinked()
  {
    var s0 := NodeAReady();
    var s1 := Next(s0, 0);
    var s2 := Next(s1, 0);
    var s3 := Next(s2, 0);
    var s4 := Next(s3, 0);
    var s5 := Next(s4, 0);
    var s6 := Next(s5, 0);
    assert s6 == NodeALinked();
    assert Steps(s3, 0, 3) == s6;
    assert Steps(s0, 0, 3) == s3;
    IterateSplit(x => Next(x, 0), s0, 3, 3);
  }

  lemma ToSlotTwoPopped()
    ensures Steps(Apply(NodeALinked(), CallPush(1, 20)), 1, 4) == SlotTwoPopped()
  {
    var s0 := Apply(NodeALinked(), CallPush(1, 20));
    var s1 := Next(s0, 1);
    var s2 := Next(s1, 1);
    var s3 := Next(s2, 1);
    var s4 := Next(s3, 1);
    assert s4 == SlotTwoPopped();
    assert Steps(s1, 1, 3) == s4;
    assert Steps(s0, 1, 1) == s1;
    IterateSplit(x => Next(x, 1), s0, 1, 3);
  }

  lemma ToNodeBAllocated()
    ensures Steps(SlotTwoPopped(), 1, 4) == NodeBAllocated()
  {
    var s0 := SlotTwoPopped();
    var s1 := Next(s0, 1);
    var s2 := Next(s1, 1);
    var s3 := Next(s2, 1);
    var s4 := Next(s3, 1);
    assert s4 == NodeBAllocated();
    assert Steps(s1, 1, 3) == s4;
    assert Steps(s0, 1, 1) == s1;
    IterateSplit(x => Next(x, 1), s0, 1, 3);
  }

  lemma ToNodeBReady()
    ensures Steps(NodeBAllocated(), 1, 3) == NodeBReady()
  {
    var s0 := NodeBAllocated();
    var s1 := Next(s0, 1);
    var s2 := Next(s1, 1);
    var s3 := Next(s2, 1);
    assert s3 == NodeBReady();
  }

  lemma ToTailHelped()
    ensures Steps(NodeBReady(), 1, 6) == TailHelped()
  {
    var s0 := NodeBReady();
    var s1 := Next(s0, 1);
    var s2 := Next(s1, 1);
    var s3 := Next(s2, 1);
    var s4 := Next(s3, 1);
    var s5 := Next(s4, 1);
    var s6 := Next(s5, 1);
    assert s6 == TailHelped();
    assert Steps(s3, 1, 3) == s6;
    assert Steps(s0, 1, 3) == s3;
    IterateSplit(x => Next(x, 1), s0, 3, 3);
  }

  lemma ToNodeBLinked()
    ensures Steps(TailHelped(), 1, 5) == NodeBLinked()
  {
    var s0 := TailHelped();
    var s1 := Next(s0, 1);
    var s2 := Next(s1, 1);
    var s3 := Next(s2, 1);
    var s4 := Next(s3, 1);
    var s5 := Next(s4, 1);
    assert s5 == NodeBLinked();
    assert Steps(s2, 1, 3) == s5;
    assert Steps(s0, 1, 2) == s2;
    IterateSplit(x => Next(x, 1), s0, 2, 3);
  }

  lemma ToSecondPushSwung()
    ensures Steps(NodeBLinked(), 1, 2) == SecondPushSwung()
  {
    var s0 := NodeBLinked();
    var s1 := Next(s0, 1);
    var s2 := Next(s1, 1);
    assert s2 == SecondPushSwung();
  }

  lemma ToFirstPushReloaded()
    ensures Steps(SecondPushSwung(), 0, 1) == FirstPushReloaded()
  {
    var s0 := SecondPushSwung();
    var s1 := Next(s0, 0);
    assert s1 == FirstPushReloaded();
  }

  lemma ToFirstPopLoaded()
    ensures Steps(Apply(FirstPushReloaded(), CallPop(2)), 2, 3) == FirstPopLoaded()
  {
    var s0 := Apply(FirstPushReloaded(), CallPop(2));
    var s1 := Next(s0, 2);
    var s2 := Next(s1, 2);
    var s3 := Next(s2, 2);
    assert s3 == FirstPopLoaded();
  }

  lemma ToFirstPopChecked()
    ensures Steps(FirstPopLoaded(), 2, 1) == FirstPopChecked()
  {
    assert Next(FirstPopLoaded(), 2) == FirstPopChecked();
  }

  lemma ToFirstPopTook()
    ensures Steps(FirstPopChecked(), 2, 4) == FirstPopTook()
  {
    var s0 := FirstPopChecked();
    var s1 := Next(s0, 2);
    var s2 := Next(s1, 2);
    var s3 := Next(s2, 2);
    var s4 := Next(s3, 2);
    assert s4 == FirstPopTook();
    assert Steps(s1, 2, 3) == s4;
    assert Steps(s0, 2, 1) == s1;
    IterateSplit(x => Next(x, 2), s0, 1, 3);
  }

  lemma ToSecondPopLoaded()
    ensures Steps(Apply(FirstPopTook(), CallPop(3)), 3, 2) == SecondPopLoaded()
  {
    var s0 := Apply(FirstPopTook(), CallPop(3));
    var s1 := Next(s0, 3);
    var s2 := Next(s1, 3);
    assert s2 == SecondPopLoaded();
  }

  lemma ToTailMovedBack()
    ensures Steps(SecondPopLoaded(), 0, 1) == TailMovedBack()
  {
    var s0 := SecondPopLoaded();
    var s1 := Next(s0, 0);
    assert s1 == TailMovedBack();
  }

  lemma ToSecondPopChecked()
    ensures Steps(TailMovedBack(), 3, 3) == SecondPopChecked()
  {
    var s0 := TailMovedBack();
    var s1 := Next(s0, 3);
    var s2 := Next(s1, 3);
    var s3 := Next(s2, 3);
    assert s3 == SecondPopChecked();
  }

  lemma ToSecondPopTook()
    ensures Steps(SecondPopChecked(), 3, 3) == SecondPopTook()
  {
    var s0 := SecondPopChecked();
    var s1 := Next(s0, 3);
    var s2 := Next(s1, 3);
    var s3 := Next(s2, 3);
    assert s3 == SecondPopTook();
  }

  lemma ToReleaseChecked()
    ensures Steps(SecondPopTook(), 3, 2) == ReleaseChecked()
  {
    var s0 := SecondPopTook();
    var s1 := Next(s0, 3);
    var s2 := Next(s1, 3);
    assert s2 == ReleaseChecked();
  }

  lemma ToTailReleased()
    ensures Steps(ReleaseChecked(), 3, 1) == TailReleased()
  {
    assert Next(ReleaseChecked(), 3) == TailReleased();
  }

  lemma FirstHalf()
    ensures Reaches(Start(), NodeALinked())
  {
    var o := Start();
    Stay(o);
    Go(o, o, CallPush(0, 10));
    ToSlotOnePopped();
    GoSteps(o, Apply(o, CallPush(0, 10)), 0, 4);
    ToNodeAAllocated();
    GoSteps(o, SlotOnePopped(), 0, 4);
    ToNodeAReady();
    GoSteps(o, NodeAAllocated(), 0, 3);
    ToNodeALinked();
    GoSteps(o, NodeAReady(), 0, 6);
  }

  lemma SecondPush()
    ensures Reaches(Start(), NodeBReady())
  {
    var o := Start();
    FirstHalf();
    Go(o, NodeALinked(), CallPush(1, 20));
    ToSlotTwoPopped();
    GoSteps(o, Apply(NodeALinked(), CallPush(1, 20)), 1, 4);
    ToNodeBAllocated();
    GoSteps(o, SlotTwoPopped(), 1, 4);
    ToNodeBReady();
    GoSteps(o, NodeBAllocated(), 1, 3);
  }

  lemma Overlap()
    ensures Reaches(Start(), FirstPushReloaded())
  {
    var o := Start();
    SecondPush();
    ToTailHelped();
    GoSteps(o, NodeBReady(), 1, 6);
    ToNodeBLinked();
    GoSteps(o, TailHelped(), 1, 5);
    ToSecondPushSwung();
    GoSteps(o, NodeBLinked(), 1, 2);
    ToFirstPushReloaded();
    GoSteps(o, SecondPushSwung(), 0, 1);
  }

  lemma FirstPop()
    ensures Reaches(Start(), FirstPopTook())
  {
    var o := Start();
    Overlap();
    Go(o, FirstPushReloaded(), CallPop(2));
    ToFirstPopLoaded();
    GoSteps(o, Apply(FirstPushReloaded(), CallPop(2)), 2, 3);
    ToFirstPopChecked();
    GoSteps(o, FirstPopLoaded(), 2, 1);
    ToFirstPopTook();
    GoSteps(o, FirstPopChecked(), 2, 4);
  }

  lemma SecondPop()
    ensures Reaches(Start(), TailReleased())
  {
    var o := Start();
    FirstPop();
    Go(o, FirstPopTook(), CallPop(3));
    ToSecondPopLoaded();
    GoSteps(o, Apply(FirstPopTook(), CallPop(3)), 3, 2);
    ToTailMovedBack();
    GoSteps(o, SecondPopLoaded(), 0, 1);
    ToSecondPopChecked();
    GoSteps(o, TailMovedBack(), 3, 3);
    ToSecondPopTook();
    GoSteps(o, SecondPopChecked(), 3, 3);
    ToReleaseChecked();
    GoSteps(o, SecondPopTook(), 3, 2);
    ToTailReleased();
    GoSteps(o, ReleaseChecked(), 3, 1);
  }

  /**
   Without the hypothesis on overlapping pushes, a freshly created queue reaches a state in
   which the queue is empty and `tail` is a handle that `anam_get` rejects.
   */
  lemma OverlappingPushes()
    ensures Init(Start()) && Reaches(Start(), TailReleased())
    ensures Items(TailReleased().mem) == [] && !Get(TailReleased().mem, TailReleased().mem.tail)
    ensures FalselyBusy(TailReleased().mem)
  {
    SecondPop();
    StartIsFresh();
    TailRejected();
  }

  lemma StartIsFresh()
    ensures Init(Start())
  {
  }

  lemma TailRejected()
    ensures Items(TailReleased().mem) == [] && !Get(TailReleased().mem, TailReleased().mem.tail)
    ensures FalselyBusy(TailReleased().mem)
  {
  }

  /** In such a memory a push in its loop, or a pop, that runs alone comes back to where it was, for ever. */
  lemma SpinsAlone(s: State, t: nat, rounds: nat)
    requires HasThread(s, t) && FalselyBusy(s.mem) && !Get(s.mem, s.mem.tail)
    ensures s.pcs[t].PushLoadTail? ==> Steps(s, t, rounds * 2) == s
    ensures s.pcs[t].PopLoadHead? ==> Steps(s, t, rounds * 6) == s
  {
    if s.pcs[t].PushLoadTail? {
      PushSpins(s, t);
      IterateCycle(x => Next(x, t), s, 2, rounds);
    }
    if s.pcs[t].PopLoadHead? {
      PopSpins(s, t);
      IterateCycle(x => Next(x, t), s, 6, rounds);
    }
  }
}
