/**
 What the run with overlapping pushes leads to, in every interleaving: from a state in which
 the queue is empty, `tail` is a handle the pool rejects and no call stands past its test of
 `tail`, no push links a node and no pop returns, ever again.
 */
module ConcurrentQueueStuck {
  import opened TaggedHandles
  import opened ConcurrentQueue
  import opened ConcurrentQueueRuns
  import opened ConcurrentQueueHistories
  import W = ConcurrentQueueWitness
  import P = ConcurrentPool

  /** The queue is empty, `tail` is elsewhere, and the generation of its slot is not that of `tail`. */
  predicate DeadMemory(m: Memory) {
    && m.head.Handle? && m.head.slot < |m.next| && m.next[m.head.slot].Null?
    && m.tail.Handle? && m.tail.slot < |m.pool.inc| && Gen(m.tail.inc) != Gen(m.pool.inc[m.tail.slot])
    && !SameWord(m.head, m.tail)
  }

  /** A push that has not passed its test of `tail`, or has linked before. */
  predicate StuckPush(m: Memory, pc: Pc) {
    match pc
    case PushGetTail(_, _, tl) => tl == m.tail
    case PushLoadNext(_, _, _) => false
    case PushRecheck(_, _, _, _) => false
    case PushLink(_, _, _) => false
    case PushHelp(_, _, _, _) => false
    case PushReloadTail(_) => false
    case PushSwing(_, _) => false
    case _ => true
  }

  /** A pop that has seen the empty queue, or has taken its item before. */
  predicate StuckPop(m: Memory, pc: Pc) {
    match pc
    case PopLoadTail(hd) => hd == m.head
    case PopGetHead(hd, tl) => hd == m.head && tl == m.tail
    case PopLoadNext(hd, tl) => hd == m.head && tl == m.tail
    case PopRecheck(hd, tl, n, _) => hd == m.head && tl == m.tail && n.Null?
    case PopHelp(_, _, _) => false
    case PopGetNext(_, n) => n.Null?
    case PopReadItem(_, _) => false
    case PopCas(_, _, _) => false
    case PopCallRelease(hd, _) => hd.Handle? && m.tail.Handle? && hd.slot != m.tail.slot
    case _ => true
  }

  /** The pool call of the thread will not change the generation of slot `x`. */
  predicate Spares(pc: P.Pc, x: nat) {
    match pc
    case ReleaseCheck(h) => h.Handle? ==> h.slot != x
    case ReleaseStoreGen(y, _) => y != x
    case _ => true
  }

  predicate StuckThread(m: Memory, pc: Pc, q: P.Pc) {
    m.tail.Handle? && StuckPush(m, pc) && StuckPop(m, pc) && Spares(q, m.tail.slot)
  }

  ghost predicate Stuck(s: State) {
    && |s.pcs| == |s.mem.pool.pcs| && DeadMemory(s.mem)
    && (forall t :: 0 <= t < |s.pcs| ==> StuckThread(s.mem, s.pcs[t], s.mem.pool.pcs[t]))
  }

  /** A step of thread `t` leaves the memory dead, and the thread where it can do no good. */
  predicate NoProgress(s: State, s': State, t: nat) {
    && |s'.pcs| == |s.pcs| && |s'.mem.pool.pcs| == |s.mem.pool.pcs| && t < |s.pcs| && t < |s.mem.pool.pcs|
    && s'.mem.head == s.mem.head && s'.mem.tail == s.mem.tail && s'.mem.chain == s.mem.chain
    && DeadMemory(s'.mem) && StuckThread(s'.mem, s'.pcs[t], s'.mem.pool.pcs[t])
  }

  lemma StuckPushStep(s: State, t: nat, spurious: bool)
    requires HasThread(s, t) && IsPush(s.pcs[t]) && DeadMemory(s.mem) && StuckThread(s.mem, s.pcs[t], s.mem.pool.pcs[t])
    ensures NoProgress(s, PushStep(s, t, spurious), t)
  {
  }

  lemma StuckPopStep(s: State, t: nat, spurious: bool)
    requires HasThread(s, t) && !IsPush(s.pcs[t]) && DeadMemory(s.mem) && StuckThread(s.mem, s.pcs[t], s.mem.pool.pcs[t])
    ensures NoProgress(s, PopStep(s, t, spurious), t)
  {
    if s.pcs[t].PopCallRelease? {
      StuckCallStep(s, t, spurious);
    } else if s.pcs[t].PopRelease? {
      StuckReleaseStep(s, t, spurious);
    } else {
      StuckLoopStep(s, t, spurious);
    }
  }

  lemma StuckLoopStep(s: State, t: nat, spurious: bool)
    requires HasThread(s, t) && !IsPush(s.pcs[t]) && !s.pcs[t].PopCallRelease? && !s.pcs[t].PopRelease?
    requires DeadMemory(s.mem) && StuckThread(s.mem, s.pcs[t], s.mem.pool.pcs[t])
    ensures NoProgress(s, PopStep(s, t, spurious), t)
  {
  }

  lemma StuckCallStep(s: State, t: nat, spurious: bool)
    requires HasThread(s, t) && s.pcs[t].PopCallRelease?
    requires DeadMemory(s.mem) && StuckThread(s.mem, s.pcs[t], s.mem.pool.pcs[t])
    ensures NoProgress(s, PopStep(s, t, spurious), t)
  {
  }

  lemma PoolSpares(p: P.State, a: P.Action, x: nat)
    requires a.tid < |p.pcs| && !a.CallRelease? && Spares(p.pcs[a.tid], x) && x < |p.inc|
    ensures var q := P.Apply(p, a);
            |q.pcs| == |p.pcs| && |q.inc| == |p.inc| && q.inc[x] == p.inc[x] && Spares(q.pcs[a.tid], x)
  {
  }

  lemma StuckReleaseStep(s: State, t: nat, spurious: bool)
    requires HasThread(s, t) && s.pcs[t].PopRelease?
    requires DeadMemory(s.mem) && StuckThread(s.mem, s.pcs[t], s.mem.pool.pcs[t])
    ensures NoProgress(s, PopStep(s, t, spurious), t)
  {
    PoolSpares(s.mem.pool, P.Return(t), s.mem.tail.slot);
    PoolSpares(s.mem.pool, P.Run(t, spurious), s.mem.tail.slot);
    ReleaseOnlyMovesPool(s, t, spurious);
  }

  lemma ReleaseOnlyMovesPool(s: State, t: nat, spurious: bool)
    requires HasThread(s, t) && s.pcs[t].PopRelease?
    ensures var s' := PopStep(s, t, spurious);
            && |s'.pcs| == |s.pcs| && (s'.pcs[t].PopRelease? || s'.pcs[t].PopSubLength?)
            && s'.mem.head == s.mem.head && s'.mem.tail == s.mem.tail && s'.mem.chain == s.mem.chain
            && s'.mem.next == s.mem.next
            && (s'.mem.pool == P.Apply(s.mem.pool, P.Return(t)) || s'.mem.pool == P.Apply(s.mem.pool, P.Run(t, spurious)))
  {
  }

  lemma StuckStep(s: State, a: Action)
    requires Stuck(s) && HasThread(s, a.tid)
    ensures NoProgress(s, Apply(s, a), a.tid) && Stuck(Apply(s, a))
  {
    assert StuckThread(s.mem, s.pcs[a.tid], s.mem.pool.pcs[a.tid]);
    if a.Run? && IsPush(s.pcs[a.tid]) {
      StuckPushStep(s, a.tid, a.spurious);
    } else if a.Run? {
      StuckPopStep(s, a.tid, a.spurious);
    }
    var s' := Apply(s, a);
    forall u | 0 <= u < |s'.pcs|
      ensures StuckThread(s'.mem, s'.pcs[u], s'.mem.pool.pcs[u])
    {
      if u != a.tid {
        OthersKeepThread(s, a, u);
        assert StuckThread(s.mem, s.pcs[u], s.mem.pool.pcs[u]);
      }
    }
  }

  /** The thread has linked nothing and taken nothing in the call it is in. */
  predicate Dry(pc: Pc) {
    && !pc.PushReloadTail? && !pc.PushSwing? && !pc.PushAddLength? && (pc.PushDone? ==> pc.pushed.Null?)
    && !pc.PopCallRelease? && !pc.PopRelease? && !pc.PopSubLength? && !pc.PopDone?
  }

  lemma DryStep(s: State, a: Action, t: nat)
    requires Stuck(s) && HasThread(s, a.tid) && HasThread(s, t) && Dry(s.pcs[t])
    ensures HasThread(Apply(s, a), t) && Dry(Apply(s, a).pcs[t])
  {
    assert StuckThread(s.mem, s.pcs[t], s.mem.pool.pcs[t]);
    if a.tid != t {
      OthersKeepThread(s, a, t);
    } else if a.Run? && IsPush(s.pcs[t]) {
      DryPush(s, t, a.spurious);
    } else if a.Run? {
      DryPop(s, t, a.spurious);
    }
  }

  lemma DryPush(s: State, t: nat, spurious: bool)
    requires HasThread(s, t) && IsPush(s.pcs[t]) && Dry(s.pcs[t]) && StuckPush(s.mem, s.pcs[t])
    ensures HasThread(PushStep(s, t, spurious), t) && Dry(PushStep(s, t, spurious).pcs[t])
  {
  }

  lemma DryPop(s: State, t: nat, spurious: bool)
    requires HasThread(s, t) && !IsPush(s.pcs[t]) && Dry(s.pcs[t]) && StuckPop(s.mem, s.pcs[t]) && DeadMemory(s.mem)
    ensures HasThread(PopStep(s, t, spurious), t) && Dry(PopStep(s, t, spurious).pcs[t])
  {
  }

  // ------------------------------------------------------------------- runs

  lemma StuckRun(s: State, run: seq<Action>, j: nat)
    requires Stuck(s) && ThreadsOf(s, run) && j <= |run|
    ensures Stuck(StateAt(s, run, j))
  {
    assert run[..0] == [];
    forall n | 0 <= n < j && Stuck(StateAt(s, run, n))
      ensures Stuck(StateAt(s, run, n + 1))
    {
      StateNext(s, run, n);
      StuckStep(StateAt(s, run, n), run[n]);
    }
    Persists(s, run, 0, j, (x: State) => Stuck(x));
  }

  lemma DryRun(s: State, run: seq<Action>, t: nat, i: nat, j: nat)
    requires Stuck(s) && ThreadsOf(s, run) && HasThread(s, t) && i <= j <= |run|
    requires HasThread(StateAt(s, run, i), t) && Dry(StateAt(s, run, i).pcs[t])
    ensures HasThread(StateAt(s, run, j), t) && Dry(StateAt(s, run, j).pcs[t])
  {
    forall n | i <= n < j && HasThread(StateAt(s, run, n), t) && Dry(StateAt(s, run, n).pcs[t])
      ensures HasThread(StateAt(s, run, n + 1), t) && Dry(StateAt(s, run, n + 1).pcs[t])
    {
      StuckRun(s, run, n);
      StateNext(s, run, n);
      DryStep(StateAt(s, run, n), run[n], t);
    }
    Persists(s, run, i, j, (x: State) => HasThread(x, t) && Dry(x.pcs[t]));
  }

  /** In every run from a stuck state no exchange of a link or of the head succeeds. */
  lemma NothingMoves(s: State, run: seq<Action>, i: nat)
    requires Stuck(s) && ThreadsOf(s, run) && i < |run|
    ensures HasThread(StateAt(s, run, i), run[i].tid)
    ensures !Links(StateAt(s, run, i), run[i]) && !Takes(StateAt(s, run, i), run[i])
  {
    var m := StateAt(s, run, i);
    StuckRun(s, run, i);
    StateNext(s, run, i);
    assert StuckThread(m.mem, m.pcs[run[i].tid], m.mem.pool.pcs[run[i].tid]);
  }

  /**
   In every run from a stuck state, whatever is called and however it interleaves: a call
   that begins after step `i` never returns, unless it is a push and answers null.
   */
  lemma NothingReturns(s: State, run: seq<Action>, t: nat, i: nat, j: nat)
    requires Stuck(s) && ThreadsOf(s, run) && HasThread(s, t) && i <= j <= |run|
    requires t < |StateAt(s, run, i).pcs| && StateAt(s, run, i).pcs[t] == Idle
    ensures t < |StateAt(s, run, j).pcs|
    ensures !StateAt(s, run, j).pcs[t].PopDone?
    ensures StateAt(s, run, j).pcs[t].PushDone? ==> StateAt(s, run, j).pcs[t].pushed.Null?
  {
    StuckRun(s, run, i);
    DryRun(s, run, t, i, j);
  }

  /** The run with overlapping pushes ends in such a state. */
  lemma OverlapLeavesStuck()
    ensures Init(W.Start()) && W.Reaches(W.Start(), W.TailReleased()) && Stuck(W.TailReleased())
    ensures Items(W.TailReleased().mem) == []
  {
    W.OverlappingPushes();
    TailReleasedIsStuck();
  }

  lemma TailReleasedIsStuck()
    ensures Stuck(W.TailReleased())
  {
    TailReleasedShape();
    ShapeIsStuck(W.TailReleased());
  }

  predicate Shaped(s: State) {
    && s.pcs == [PushAddLength(W.A), PushAddLength(W.B), PopCallRelease(W.D, 10), PopRelease(W.A, 20)]
    && s.mem.pool.pcs == [P.Idle, P.Idle, P.Idle, P.ReleaseLoadHead(1, 1)]
    && s.mem.head == W.B && s.mem.tail == W.A && s.mem.next == [W.A, W.B, Null] && s.mem.pool.inc == [0, 1, 0]
  }

  lemma TailReleasedShape()
    ensures Shaped(W.TailReleased())
  {
  }

  lemma ShapeIsStuck(s: State)
    requires Shaped(s)
    ensures Stuck(s)
  {
  }
}
