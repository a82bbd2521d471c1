/** Every push and pop finishes from any point of it when it runs alone. */
module ConcurrentQueueProgress {
  import opened TaggedHandles
  import opened ConcurrentQueue
  import opened ConcurrentQueueSteps
  import opened ConcurrentQueueInvariant
  import opened ConcurrentQueueRuns
  import opened ConcurrentQueueSolo
  import P = ConcurrentPool
  import S = ConcurrentPoolSolo

  /** The hypotheses as far as they concern thread `t`: its windows, and no other push in its section. */
  predicate Unhindered(s: State, t: nat) {
    && HasThread(s, t) && HeadWindow(s.mem, s.pcs[t]) && P.AllocWindow(s.mem.pool, s.mem.pool.pcs[t])
    && (s.turn == Nobody || s.turn == Thread(t))
  }

  predicate Done(pc: Pc) {
    pc.PushDone? || pc.PopDone?
  }

  // ------------------------------------------------------------ the distance

  /** How far a push is from its answer. */
  function PushDistance(p: P.State, q: P.Pc, pc: Pc): nat {
    match pc
    case PushAlloc(_) => 13 + S.Distance(p, q)
    case PushGet(_, _) => 12
    case PushStoreNext(_, _) => 11
    case PushStoreItem(_, _) => 10
    case PushEnter(_, _) => 9
    case PushLoadTail(_, _) => 8
    case PushGetTail(_, _, _) => 7
    case PushLoadNext(_, _, _) => 6
    case PushRecheck(_, _, _, _) => 5
    case PushLink(_, _, _) => 4
    case PushReloadTail(_) => 3
    case PushSwing(_, _) => 2
    case PushAddLength(_) => 1
    case _ => 0
  }

  /** Everything the pop has loaded is still what memory holds. */
  predicate Fresh(m: Memory, pc: Pc) {
    match pc
    case PopLoadTail(hd) => hd == m.head
    case PopGetHead(hd, tl) => hd == m.head && tl == m.tail
    case PopLoadNext(hd, tl) => hd == m.head && tl == m.tail
    case PopRecheck(hd, tl, n, _) => hd == m.head && tl == m.tail && Ok(m, hd) && n == m.next[hd.slot]
    case PopHelp(hd, tl, n) => hd == m.head && tl == m.tail && Ok(m, hd) && n == m.next[hd.slot] && n.Handle?
    case PopGetNext(hd, n) => hd == m.head && !SameWord(hd, m.tail) && Ok(m, hd) && n == m.next[hd.slot]
    case PopReadItem(hd, n) => hd == m.head
    case PopCas(hd, _, _) => hd == m.head
    case _ => true
  }

  predicate TailOnHead(m: Memory) {
    SameWord(m.head, m.tail) && Ok(m, m.head) && m.next[m.head.slot].Handle?
  }

  /** A whole round of the loop, with a first round of helping if the tail lags on the head. */
  function Round(m: Memory): nat {
    if TailOnHead(m) then 24 else 18
  }

  /** How far a pop is from its answer: what it has loaded may be stale, and then it must start over. */
  function PopDistance(m: Memory, q: P.Pc, pc: Pc): nat {
    match pc
    case PopLoadHead => Round(m)
    case PopLoadTail(_) => if Fresh(m, pc) then Round(m) - 1 else 33
    case PopGetHead(_, _) => if Fresh(m, pc) then Round(m) - 2 else 32
    case PopLoadNext(_, _) => if Fresh(m, pc) then Round(m) - 3 else 31
    case PopRecheck(_, _, _, _) => if Fresh(m, pc) then Round(m) - 4 else 30
    case PopHelp(_, _, _) => if Fresh(m, pc) then 19 else 26
    case PopGetNext(_, _) => if Fresh(m, pc) then 13 else 29
    case PopReadItem(_, _) => if Fresh(m, pc) then 12 else 28
    case PopCas(_, _, _) => if Fresh(m, pc) then 11 else 27
    case PopCallRelease(_, _) => 10
    case PopRelease(_, _) => 2 + S.Distance(m.pool, q)
    case PopSubLength(_, _) => 1
    case _ => 0
  }

  function Distance(s: State, t: nat): nat
    requires HasThread(s, t)
  {
    if IsPush(s.pcs[t]) then PushDistance(s.mem.pool, s.mem.pool.pcs[t], s.pcs[t])
    else PopDistance(s.mem, s.mem.pool.pcs[t], s.pcs[t])
  }

  /** The step of `t` brings it nearer to its answer, inside the same call. */
  predicate Nearer(s: State, s': State, t: nat) {
    HasThread(s, t) && HasThread(s', t) && s'.pcs[t] != Idle && Distance(s', t) < Distance(s, t) && Unhindered(s', t)
  }

  // ------------------------------------------------------------------ pushes

  lemma PushAllocNearer(s: State, t: nat)
    requires Inv(s) && Unhindered(s, t) && s.pcs[t].PushAlloc?
    ensures Nearer(s, PushStep(s, t, false), t)
  {
    assert ThreadInv(s.mem, t, s.pcs[t]);
    var p := s.mem.pool;
    if !p.pcs[t].AllocDone? {
      S.DistanceDrops(p, t);
      S.OwnWindowsStay(p, t);
      AllocStaysAlloc(p, t);
      assert PushStep(s, t, false) == Goto(s, t, s.pcs[t], s.mem.(pool := P.Step(p, t, false)));
    } else {
      assert P.ThreadInv(p, t, p.pcs[t]);
      PushAllocOver(s, t);
    }
  }

  lemma AllocStaysAlloc(p: P.State, t: nat)
    requires t < |p.pcs| && !p.pcs[t].Idle? && !P.IsRelease(p.pcs[t])
    ensures |P.Step(p, t, false).pcs| == |p.pcs| && !P.IsRelease(P.Step(p, t, false).pcs[t])
  {
  }

  lemma PushAllocOver(s: State, t: nat)
    requires Unhindered(s, t) && s.pcs[t].PushAlloc? && s.mem.pool.pcs[t].AllocDone?
    requires s.mem.pool.pcs[t].result.Handle? ==> Ok(s.mem, s.mem.pool.pcs[t].result)
    ensures Nearer(s, PushStep(s, t, false), t)
  {
  }

  lemma PushNearer(s: State, t: nat)
    requires HasThread(s, t) && ThreadInv(s.mem, t, s.pcs[t]) && IsPush(s.pcs[t]) && !s.pcs[t].PushAlloc?
    requires Unhindered(s, t) && Sizes(s.mem) && P.Shape(s.mem.pool)
    requires IsLast(s.mem, s.mem.tail) ==> s.mem.next[s.mem.tail.slot].Null?
    ensures Nearer(s, PushStep(s, t, false), t)
  {
    if InSection(s.pcs[t]) {
      SectionNearer(s, t);
    } else {
      PreparationNearer(s, t);
    }
  }

  lemma SectionNearer(s: State, t: nat)
    requires HasThread(s, t) && ThreadInv(s.mem, t, s.pcs[t]) && InSection(s.pcs[t])
    requires Unhindered(s, t) && Sizes(s.mem) && P.Shape(s.mem.pool)
    requires IsLast(s.mem, s.mem.tail) ==> s.mem.next[s.mem.tail.slot].Null?
    ensures Nearer(s, PushStep(s, t, false), t)
  {
  }

  lemma PreparationNearer(s: State, t: nat)
    requires HasThread(s, t) && ThreadInv(s.mem, t, s.pcs[t]) && IsPush(s.pcs[t]) && !s.pcs[t].PushAlloc?
    requires Unhindered(s, t) && Sizes(s.mem) && P.Shape(s.mem.pool) && !InSection(s.pcs[t])
    ensures Nearer(s, PushStep(s, t, false), t)
  {
  }

  // -------------------------------------------------------------------- pops

  /** What the invariant says of the front of the queue, in the words a pop compares. */
  predicate FrontFacts(m: Memory) {
    && Ok(m, m.head) && Get(m, m.head) && m.tail.Handle? && m.head.inc == m.pool.inc[m.head.slot]
    && var n := m.next[m.head.slot];
    && (n.Handle? ==> n.live && Ok(m, n) && Get(m, n) && !SameWord(m.head, n))
    && (n.Null? ==> SameWord(m.head, m.tail))
  }

  lemma FrontIsSound(s: State)
    requires Inv(s)
    ensures FrontFacts(s.mem)
  {
    var m := s.mem;
    EndsOnChain(m, Swinging(s));
    if m.next[m.head.slot].Handle? {
      Successor(m, Swinging(s), m.head);
    }
  }

  predicate InLoop(pc: Pc) {
    pc.PopLoadHead? || pc.PopLoadTail? || pc.PopGetHead? || pc.PopLoadNext? || pc.PopRecheck?
  }

  lemma LoopNearer(s: State, t: nat)
    requires Unhindered(s, t) && ThreadInv(s.mem, t, s.pcs[t]) && FrontFacts(s.mem) && InLoop(s.pcs[t])
    ensures Nearer(s, PopStep(s, t, false), t)
  {
  }

  lemma TakeNearer(s: State, t: nat)
    requires Unhindered(s, t) && ThreadInv(s.mem, t, s.pcs[t]) && FrontFacts(s.mem)
    requires s.pcs[t].PopHelp? || s.pcs[t].PopGetNext? || s.pcs[t].PopReadItem? || s.pcs[t].PopCas?
    ensures Nearer(s, PopStep(s, t, false), t)
  {
    if s.pcs[t].PopHelp? {
      HelpNearer(s, t);
    } else if s.pcs[t].PopCas? {
      ExchangeNearer(s, t);
    } else {
      ReadNearer(s, t);
    }
  }

  lemma HelpNearer(s: State, t: nat)
    requires Unhindered(s, t) && ThreadInv(s.mem, t, s.pcs[t]) && FrontFacts(s.mem) && s.pcs[t].PopHelp?
    ensures Nearer(s, PopStep(s, t, false), t)
  {
  }

  lemma ExchangeNearer(s: State, t: nat)
    requires Unhindered(s, t) && ThreadInv(s.mem, t, s.pcs[t]) && s.pcs[t].PopCas?
    ensures Nearer(s, PopStep(s, t, false), t)
  {
  }

  lemma ReadNearer(s: State, t: nat)
    requires Unhindered(s, t) && ThreadInv(s.mem, t, s.pcs[t]) && FrontFacts(s.mem)
    requires s.pcs[t].PopGetNext? || s.pcs[t].PopReadItem?
    ensures Nearer(s, PopStep(s, t, false), t)
  {
  }

  lemma ReleaseNearer(s: State, t: nat)
    requires Inv(s) && Unhindered(s, t)
    requires s.pcs[t].PopCallRelease? || s.pcs[t].PopRelease? || s.pcs[t].PopSubLength?
    ensures Nearer(s, PopStep(s, t, false), t)
  {
    assert ThreadInv(s.mem, t, s.pcs[t]);
    if s.pcs[t].PopRelease? && !s.mem.pool.pcs[t].ReleaseDone? {
      S.DistanceDrops(s.mem.pool, t);
      ReleaseRunsNearer(s, t);
    } else {
      ReleaseEndsNearer(s, t);
    }
  }

  lemma ReleaseRunsNearer(s: State, t: nat)
    requires Unhindered(s, t) && s.pcs[t].PopRelease? && P.IsRelease(s.mem.pool.pcs[t]) && !s.mem.pool.pcs[t].ReleaseDone?
    requires var q := P.Step(s.mem.pool, t, false);
             |q.pcs| == |s.mem.pool.pcs| && S.Distance(q, q.pcs[t]) < S.Distance(s.mem.pool, s.mem.pool.pcs[t])
    ensures Nearer(s, PopStep(s, t, false), t)
  {
    ReleaseStaysRelease(s.mem.pool, t);
    ReleaseSteps(s, t);
  }

  lemma ReleaseSteps(s: State, t: nat)
    requires HasThread(s, t) && s.pcs[t].PopRelease? && !s.mem.pool.pcs[t].ReleaseDone?
    ensures var s' := PopStep(s, t, false);
            s'.pcs == s.pcs && s'.turn == s.turn && s'.mem.pool == P.Step(s.mem.pool, t, false)
  {
    assert s.pcs[t := s.pcs[t]] == s.pcs;
  }

  lemma ReleaseEndsNearer(s: State, t: nat)
    requires Unhindered(s, t) && PoolSide(s.mem.pool.pcs[t], s.pcs[t])
    requires s.pcs[t].PopCallRelease? || s.pcs[t].PopSubLength? || (s.pcs[t].PopRelease? && s.mem.pool.pcs[t].ReleaseDone?)
    ensures Nearer(s, PopStep(s, t, false), t)
  {
    if s.pcs[t].PopCallRelease? {
      CallNearer(s, t);
    } else {
      ReturnNearer(s, t);
    }
  }

  lemma CallNearer(s: State, t: nat)
    requires Unhindered(s, t) && s.pcs[t].PopCallRelease? && s.mem.pool.pcs[t] == P.Idle
    ensures Nearer(s, PopStep(s, t, false), t)
  {
  }

  lemma ReturnNearer(s: State, t: nat)
    requires Unhindered(s, t) && PoolSide(s.mem.pool.pcs[t], s.pcs[t])
    requires s.pcs[t].PopSubLength? || (s.pcs[t].PopRelease? && s.mem.pool.pcs[t].ReleaseDone?)
    ensures Nearer(s, PopStep(s, t, false), t)
  {
  }

  lemma ReleaseStaysRelease(p: P.State, t: nat)
    requires t < |p.pcs| && P.IsRelease(p.pcs[t])
    ensures |P.Step(p, t, false).pcs| == |p.pcs| && P.IsRelease(P.Step(p, t, false).pcs[t])
  {
  }

  // -------------------------------------------------------------- the theorem

  lemma StepNearer(s: State, t: nat)
    requires Inv(s) && Unhindered(s, t) && s.pcs[t] != Idle && !Done(s.pcs[t])
    ensures Nearer(s, Apply(s, Run(t, false)), t) && Inv(Apply(s, Run(t, false)))
  {
    if IsPush(s.pcs[t]) {
      PushStepNearer(s, t);
    } else {
      PopStepNearer(s, t);
    }
  }

  lemma PushStepNearer(s: State, t: nat)
    requires Inv(s) && Unhindered(s, t) && IsPush(s.pcs[t])
    ensures Nearer(s, PushStep(s, t, false), t) && Inv(PushStep(s, t, false))
  {
    assert ThreadInv(s.mem, t, s.pcs[t]);
    if s.pcs[t].PushAlloc? {
      PushAllocNearer(s, t);
      PushPrepareInv(s, t, false);
    } else {
      EndsOnChain(s.mem, Swinging(s));
      PushNearer(s, t);
      PushKeepsInv(s, t);
    }
  }

  lemma PopStepNearer(s: State, t: nat)
    requires Inv(s) && Unhindered(s, t) && !IsPush(s.pcs[t]) && s.pcs[t] != Idle && !Done(s.pcs[t])
    ensures Nearer(s, PopStep(s, t, false), t) && Inv(PopStep(s, t, false))
  {
    assert ThreadInv(s.mem, t, s.pcs[t]);
    FrontIsSound(s);
    if InLoop(s.pcs[t]) {
      LoopNearer(s, t);
      PopTryInv(s, t, false);
    } else {
      PopEndNearer(s, t);
    }
  }

  lemma PushKeepsInv(s: State, t: nat)
    requires Inv(s) && Unhindered(s, t) && IsPush(s.pcs[t]) && !s.pcs[t].PushAlloc?
    ensures Inv(PushStep(s, t, false))
  {
    if s.pcs[t].PushGet? || s.pcs[t].PushStoreNext? || s.pcs[t].PushStoreItem? {
      PushPrepareInv(s, t, false);
    } else {
      assert s.pcs[t].PushEnter? ==> s.turn != Thread(t);
      PushSectionInv(s, t, false);
    }
  }

  lemma PopEndNearer(s: State, t: nat)
    requires Inv(s) && Unhindered(s, t) && FrontFacts(s.mem) && ThreadInv(s.mem, t, s.pcs[t])
    requires !IsPush(s.pcs[t]) && !InLoop(s.pcs[t]) && s.pcs[t] != Idle && !Done(s.pcs[t])
    ensures Nearer(s, PopStep(s, t, false), t) && Inv(PopStep(s, t, false))
  {
    var pc := s.pcs[t];
    if pc.PopCallRelease? || pc.PopRelease? || pc.PopSubLength? {
      ReleaseNearer(s, t);
    } else {
      TakeNearer(s, t);
    }
    if pc.PopGetNext? || pc.PopReadItem? || pc.PopSubLength? {
      PopTryInv(s, t, false);
    } else {
      PopTakeInv(s, t, false);
    }
  }

  /**
   Every call finishes from any point of it: in every state of the invariant, a thread
   inside a push or a pop, however stale what it has loaded, that runs alone comes to its
   answer within 33 steps.
   */
  lemma {:induction false} Finishes(s: State, t: nat) returns (e: State)
    requires Inv(s) && Unhindered(s, t) && s.pcs[t] != Idle
    ensures Within(s, t, Distance(s, t), e) && Done(e.pcs[t]) && Inv(e) && Distance(s, t) <= 33
    decreases Distance(s, t)
  {
    DistanceIsBounded(s, t);
    if Done(s.pcs[t]) {
      e := s;
      Here(s, t);
    } else {
      var s' := Apply(s, Run(t, false));
      StepNearer(s, t);
      e := Finishes(s', t);
      Here(s, t);
      On(s, t, 0, s, s');
      Join(s, t, 1, s', Distance(s', t), e);
      Longer(s, t, 1 + Distance(s', t), Distance(s, t), e);
    }
  }

  lemma Longer(s: State, t: nat, i: nat, j: nat, e: State)
    requires Within(s, t, i, e) && i <= j
    ensures Within(s, t, j, e)
  {
    var n: nat :| n <= i && Steps(s, t, n) == e;
    assert n <= j;
  }

  lemma DistanceIsBounded(s: State, t: nat)
    requires HasThread(s, t)
    ensures Distance(s, t) <= 33
  {
  }
}
