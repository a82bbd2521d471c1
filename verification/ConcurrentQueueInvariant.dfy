/** The invariant of the concurrent queue holds after every legal action. */
module ConcurrentQueueInvariant {
  import opened TaggedHandles
  import opened ConcurrentQueue
  import opened ConcurrentQueueSteps
  import P = ConcurrentPool

  /** Thread `t` moved on and touched nothing but its own locals and the length. */
  ghost predicate PlainMove(s: State, s': State, t: nat) {
    && t < |s.pcs| == |s'.pcs| && HasThread(s, t) && s' == Goto(s, t, s'.pcs[t], s.mem).(length := s'.length)
    && Moves(s.pcs[t], s'.pcs[t]) && KeepsRetired(s.mem.role, t, s.pcs[t], s'.pcs[t])
    && ThreadInv(s.mem, t, s'.pcs[t])
  }

  lemma PlainMoveInv(s: State, s': State, t: nat)
    requires Inv(s) && PlainMove(s, s', t)
    ensures Inv(s')
  {
    GotoInv(s, t, s'.pcs[t], s'.length);
  }

  // ----------------------------------------------------------------- push

  lemma EnterInv(s: State, t: nat, spurious: bool)
    requires Inv(s) && t < |s.pcs| && s.pcs[t].PushEnter? && s.turn == Nobody
    ensures Inv(PushStep(s, t, spurious))
  {
    var s' := PushStep(s, t, spurious);
    assert ThreadInv(s.mem, t, s.pcs[t]);
    EndsOnChain(s.mem, false);
    assert ThreadInv(s'.mem, t, s'.pcs[t]);
    HandOver(s, s', t, s.pcs[t].node.slot);
  }

  /** With no overlapping push, the tail a push loaded stays the last node until it links. */
  lemma BeforeLinkInv(s: State, t: nat, spurious: bool)
    requires Inv(s) && t < |s.pcs|
    requires s.pcs[t].PushLoadTail? || s.pcs[t].PushGetTail? || s.pcs[t].PushLoadNext? || s.pcs[t].PushRecheck?
    ensures Inv(PushStep(s, t, spurious))
  {
    assert ThreadInv(s.mem, t, s.pcs[t]);
    EndsOnChain(s.mem, Swinging(s));
    BeforeLinkThread(s, t, spurious);
    PlainMoveInv(s, PushStep(s, t, spurious), t);
  }

  lemma BeforeLinkThread(s: State, t: nat, spurious: bool)
    requires HasThread(s, t) && ThreadInv(s.mem, t, s.pcs[t])
    requires IsLast(s.mem, s.mem.tail) ==> s.mem.next[s.mem.tail.slot].Null?
    requires s.pcs[t].PushLoadTail? || s.pcs[t].PushGetTail? || s.pcs[t].PushLoadNext? || s.pcs[t].PushRecheck?
    ensures PlainMove(s, PushStep(s, t, spurious), t)
  {
  }

  lemma SwingInv(s: State, t: nat, spurious: bool)
    requires Inv(s) && t < |s.pcs| && s.pcs[t].PushSwing?
    ensures Inv(PushStep(s, t, spurious))
  {
    var h, s' := s.pcs[t].node, PushStep(s, t, spurious);
    assert ThreadInv(s.mem, t, s.pcs[t]);
    assert s.turn == Thread(t);
    SwingThread(s, t, spurious);
    TailForward(s, t, h, s.pcs[t]);
    SwungTurn(s, s', t);
    SwungThreads(s, s', t);
    HandOver(s, s', t, h.slot);
  }

  lemma SwingThread(s: State, t: nat, spurious: bool)
    requires HasThread(s, t) && s.pcs[t].PushSwing? && ThreadInv(s.mem, t, s.pcs[t]) && s.turn == Thread(t)
    ensures var h, s' := s.pcs[t].node, PushStep(s, t, spurious);
            s' == Goto(s, t, PushAddLength(h), s.mem.(tail := h)).(turn := Nobody)
  {
  }

  lemma SwungTurn(s: State, s': State, t: nat)
    requires TurnInv(s) && t < |s.pcs| && s.turn == Thread(t) && s'.turn == Nobody
    requires s.pcs[t].PushSwing? && s'.pcs == s.pcs[t := PushAddLength(s.pcs[t].node)]
    ensures TurnInv(s') && !Swinging(s')
  {
  }

  lemma SwungThreads(s: State, s': State, t: nat)
    requires t < |s.pcs| && s.pcs[t].PushSwing? && s.pcs[t].node.Handle? && s'.pcs == s.pcs[t := PushAddLength(s.pcs[t].node)]
    requires ThreadsInv(s'.mem, s.pcs)
    ensures ThreadsInv(s'.mem, s'.pcs)
  {
    assert ThreadInv(s'.mem, t, s.pcs[t]);
  }

  lemma AfterLinkInv(s: State, t: nat, spurious: bool)
    requires Inv(s) && t < |s.pcs| && (s.pcs[t].PushReloadTail? || s.pcs[t].PushAddLength?)
    ensures Inv(PushStep(s, t, spurious))
  {
    assert ThreadInv(s.mem, t, s.pcs[t]);
    AfterLinkThread(s, t, spurious);
    PlainMoveInv(s, PushStep(s, t, spurious), t);
  }

  lemma AfterLinkThread(s: State, t: nat, spurious: bool)
    requires HasThread(s, t) && ThreadInv(s.mem, t, s.pcs[t]) && (s.pcs[t].PushReloadTail? || s.pcs[t].PushAddLength?)
    ensures PlainMove(s, PushStep(s, t, spurious), t)
  {
  }

  lemma PushMovesInv(s: State, t: nat, spurious: bool)
    requires Inv(s) && t < |s.pcs| && (s.pcs[t].PushGet? || (s.pcs[t].PushLink? && spurious))
    ensures Inv(PushStep(s, t, spurious))
  {
    assert ThreadInv(s.mem, t, s.pcs[t]);
    PushMovesThread(s, t, spurious);
    PlainMoveInv(s, PushStep(s, t, spurious), t);
  }

  lemma PushMovesThread(s: State, t: nat, spurious: bool)
    requires HasThread(s, t) && ThreadInv(s.mem, t, s.pcs[t]) && Sizes(s.mem) && |s.mem.pool.next| == |s.mem.pool.inc|
    requires s.pcs[t].PushGet? || (s.pcs[t].PushLink? && spurious)
    ensures PlainMove(s, PushStep(s, t, spurious), t)
  {
  }

  lemma NoHelp(s: State, t: nat)
    requires Inv(s) && t < |s.pcs|
    ensures !s.pcs[t].PushHelp?
  {
    assert ThreadInv(s.mem, t, s.pcs[t]);
  }

  lemma PushPrepareInv(s: State, t: nat, spurious: bool)
    requires Inv(s) && t < |s.pcs|
    requires s.pcs[t].PushAlloc? || s.pcs[t].PushGet? || s.pcs[t].PushStoreNext? || s.pcs[t].PushStoreItem?
    requires P.AllocWindow(s.mem.pool, s.mem.pool.pcs[t])
    ensures Inv(PushStep(s, t, spurious))
  {
    match s.pcs[t]
    case PushAlloc(d) =>
      if !s.mem.pool.pcs[t].AllocDone? {
        PushAllocInv(s, t, spurious);
      } else if s.mem.pool.pcs[t].result.Null? {
        AllocFailsInv(s, t, spurious);
      } else {
        AllocReturnInv(s, t, spurious);
      }
    case PushGet(_, _) => PushMovesInv(s, t, spurious);
    case _ => PrivateStoreInv(s, t, spurious);
  }

  lemma LinkStepInv(s: State, t: nat)
    requires Inv(s) && t < |s.pcs| && s.pcs[t].PushLink?
    ensures Inv(PushStep(s, t, false))
  {
    LinkInv(s, t);
    assert Apply(s, Run(t, false)) == PushStep(s, t, false);
  }

  lemma PushSectionInv(s: State, t: nat, spurious: bool)
    requires Inv(s) && t < |s.pcs| && (InSection(s.pcs[t]) || s.pcs[t].PushEnter? || s.pcs[t].PushAddLength?)
    requires Legal(s, Run(t, spurious))
    ensures Inv(PushStep(s, t, spurious))
  {
    NoHelp(s, t);
    match s.pcs[t]
    case PushEnter(_, _) => EnterInv(s, t, spurious);
    case PushLink(_, _, _) =>
      if spurious {
        PushMovesInv(s, t, spurious);
      } else {
        LinkStepInv(s, t);
      }
    case PushSwing(_, _) => SwingInv(s, t, spurious);
    case PushReloadTail(_) => AfterLinkInv(s, t, spurious);
    case PushAddLength(_) => AfterLinkInv(s, t, spurious);
    case _ => BeforeLinkInv(s, t, spurious);
  }

  // ------------------------------------------------------------------ pop

  lemma LoadHeadThread(s: State, t: nat, spurious: bool)
    requires HasThread(s, t) && ThreadInv(s.mem, t, s.pcs[t]) && (s.pcs[t].PopLoadHead? || s.pcs[t].PopGetHead?)
    requires OnChain(s.mem, s.mem.head)
    ensures PlainMove(s, PopStep(s, t, spurious), t)
  {
  }

  lemma LoadHeadInv(s: State, t: nat, spurious: bool)
    requires Inv(s) && t < |s.pcs| && (s.pcs[t].PopLoadHead? || s.pcs[t].PopGetHead?)
    ensures Inv(PopStep(s, t, spurious))
  {
    EndsOnChain(s.mem, Swinging(s));
    assert ThreadInv(s.mem, t, s.pcs[t]);
    LoadHeadThread(s, t, spurious);
    PlainMoveInv(s, PopStep(s, t, spurious), t);
  }

  lemma LoadTailInv(s: State, t: nat, spurious: bool)
    requires Inv(s) && t < |s.pcs| && s.pcs[t].PopLoadTail? && HeadWindow(s.mem, s.pcs[t])
    ensures Inv(PopStep(s, t, spurious))
  {
    assert ThreadInv(s.mem, t, s.pcs[t]);
    EndsOnChain(s.mem, Swinging(s));
    LoadTailThread(s, t, spurious);
    PlainMoveInv(s, PopStep(s, t, spurious), t);
  }

  lemma LoadTailThread(s: State, t: nat, spurious: bool)
    requires HasThread(s, t) && s.pcs[t].PopLoadTail? && HeadWindow(s.mem, s.pcs[t]) && ThreadInv(s.mem, t, s.pcs[t])
    requires OnChain(s.mem, s.mem.head) && OnChain(s.mem, s.mem.tail)
    ensures PlainMove(s, PopStep(s, t, spurious), t)
  {
    if SameWord(s.pcs[t].head, s.mem.tail) {
      SameWordInWindow(s.pcs[t].head, s.mem.tail);
    }
  }

  /** A null link loaded from the current head means that the queue is empty. */
  lemma LoadNextInv(s: State, t: nat, spurious: bool)
    requires Inv(s) && t < |s.pcs| && s.pcs[t].PopLoadNext?
    ensures Inv(PopStep(s, t, spurious))
  {
    assert ThreadInv(s.mem, t, s.pcs[t]);
    EndsOnChain(s.mem, Swinging(s));
    LoadNextThread(s, t, spurious);
    PlainMoveInv(s, PopStep(s, t, spurious), t);
  }

  lemma LoadNextThread(s: State, t: nat, spurious: bool)
    requires HasThread(s, t) && s.pcs[t].PopLoadNext? && ThreadInv(s.mem, t, s.pcs[t]) && OnChain(s.mem, s.mem.head)
    requires s.mem.next[s.mem.head.slot].Null? <==> |s.mem.chain| == 1
    ensures PlainMove(s, PopStep(s, t, spurious), t)
  {
    assert s.mem.next[s.mem.head.slot].Null? ==> Items(s.mem) == [];
  }

  lemma RecheckThread(s: State, t: nat, spurious: bool)
    requires HasThread(s, t) && s.pcs[t].PopRecheck? && HeadWindow(s.mem, s.pcs[t]) && ThreadInv(s.mem, t, s.pcs[t])
    requires OnChain(s.mem, s.mem.head)
    ensures PlainMove(s, PopStep(s, t, spurious), t)
  {
    if SameWord(s.pcs[t].head, s.mem.head) {
      SameWordInWindow(s.pcs[t].head, s.mem.head);
    }
  }

  lemma RecheckInv(s: State, t: nat, spurious: bool)
    requires Inv(s) && t < |s.pcs| && s.pcs[t].PopRecheck? && HeadWindow(s.mem, s.pcs[t])
    ensures Inv(PopStep(s, t, spurious))
  {
    EndsOnChain(s.mem, Swinging(s));
    assert ThreadInv(s.mem, t, s.pcs[t]);
    RecheckThread(s, t, spurious);
    PlainMoveInv(s, PopStep(s, t, spurious), t);
  }

  lemma PopReadsThread(s: State, t: nat, spurious: bool)
    requires HasThread(s, t) && ThreadInv(s.mem, t, s.pcs[t]) && Sizes(s.mem) && |s.mem.pool.next| == |s.mem.pool.inc|
    requires s.pcs[t].PopGetNext? || s.pcs[t].PopReadItem? || s.pcs[t].PopSubLength?
    ensures PlainMove(s, PopStep(s, t, spurious), t)
  {
  }

  lemma PopReadsInv(s: State, t: nat, spurious: bool)
    requires Inv(s) && t < |s.pcs|
    requires s.pcs[t].PopGetNext? || s.pcs[t].PopReadItem? || s.pcs[t].PopSubLength?
    ensures Inv(PopStep(s, t, spurious))
  {
    assert ThreadInv(s.mem, t, s.pcs[t]);
    PopReadsThread(s, t, spurious);
    PlainMoveInv(s, PopStep(s, t, spurious), t);
  }

  lemma PopRetryInv(s: State, t: nat)
    requires Inv(s) && t < |s.pcs| && (s.pcs[t].PopHelp? || s.pcs[t].PopCas?)
    ensures Inv(Goto(s, t, PopLoadHead, s.mem))
  {
    assert ThreadInv(s.mem, t, s.pcs[t]);
    GotoInv(s, t, PopLoadHead, s.length);
    assert Goto(s, t, PopLoadHead, s.mem).(length := s.length) == Goto(s, t, PopLoadHead, s.mem);
  }

  /** A pop that helps moves the tail from the last but one node to the last. */
  lemma HelpFacts(s: State, t: nat)
    requires Inv(s) && t < |s.pcs| && s.pcs[t].PopHelp? && HeadWindow(s.mem, s.pcs[t])
    requires SameWord(s.mem.tail, s.pcs[t].tail)
    ensures s.mem.tail == s.pcs[t].tail && IsLast(s.mem, s.pcs[t].next) && Relive(s.pcs[t].next) == s.pcs[t].next
  {
    var m := s.mem;
    assert ThreadInv(m, t, s.pcs[t]);
    EndsOnChain(m, Swinging(s));
    SameWordInWindow(s.pcs[t].tail, m.tail);
    Successor(m, Swinging(s), m.tail);
  }

  lemma HelpInv(s: State, t: nat)
    requires Inv(s) && t < |s.pcs| && s.pcs[t].PopHelp? && HeadWindow(s.mem, s.pcs[t])
    requires SameWord(s.mem.tail, s.pcs[t].tail)
    ensures Inv(PopStep(s, t, false))
  {
    HelpFacts(s, t);
    assert ThreadInv(s.mem, t, s.pcs[t]);
    var n := s.pcs[t].next;
    TailForward(s, t, n, s.pcs[t]);
    var m' := s.mem.(tail := n);
    assert MemoryInv(m', Swinging(s));
    MoveInv(s, t, PopLoadHead, m', s.length);
    assert Goto(s, t, PopLoadHead, m').(length := s.length) == PopStep(s, t, false);
  }

  lemma UnlinkStepInv(s: State, t: nat)
    requires Inv(s) && t < |s.pcs| && s.pcs[t].PopCas? && HeadWindow(s.mem, s.pcs[t])
    requires SameWord(s.mem.head, s.pcs[t].head)
    ensures Inv(PopStep(s, t, false))
  {
    UnlinkInv(s, t);
    assert Apply(s, Run(t, false)) == PopStep(s, t, false);
  }

  lemma PopTryInv(s: State, t: nat, spurious: bool)
    requires Inv(s) && t < |s.pcs| && HeadWindow(s.mem, s.pcs[t])
    requires s.pcs[t].PopLoadHead? || s.pcs[t].PopLoadTail? || s.pcs[t].PopGetHead? || s.pcs[t].PopLoadNext? ||
             s.pcs[t].PopRecheck? || s.pcs[t].PopGetNext? || s.pcs[t].PopReadItem? || s.pcs[t].PopSubLength?
    ensures Inv(PopStep(s, t, spurious))
  {
    match s.pcs[t]
    case PopLoadTail(_) => LoadTailInv(s, t, spurious);
    case PopLoadNext(_, _) => LoadNextInv(s, t, spurious);
    case PopRecheck(_, _, _, _) => RecheckInv(s, t, spurious);
    case PopGetNext(_, _) => PopReadsInv(s, t, spurious);
    case PopReadItem(_, _) => PopReadsInv(s, t, spurious);
    case PopSubLength(_, _) => PopReadsInv(s, t, spurious);
    case _ => LoadHeadInv(s, t, spurious);
  }

  lemma PopTakeInv(s: State, t: nat, spurious: bool)
    requires Inv(s) && t < |s.pcs| && HeadWindow(s.mem, s.pcs[t])
    requires s.pcs[t].PopHelp? || s.pcs[t].PopCas? || s.pcs[t].PopCallRelease? || s.pcs[t].PopRelease?
    ensures Inv(PopStep(s, t, spurious))
  {
    match s.pcs[t]
    case PopHelp(_, tl, _) =>
      if !spurious && SameWord(s.mem.tail, tl) {
        HelpInv(s, t);
      } else {
        PopRetryInv(s, t);
      }
    case PopCas(hd, _, _) =>
      if !spurious && SameWord(s.mem.head, hd) {
        UnlinkStepInv(s, t);
      } else {
        PopRetryInv(s, t);
      }
    case PopCallRelease(_, _) => CallReleaseInv(s, t, spurious);
    case PopRelease(_, _) =>
      if s.mem.pool.pcs[t].ReleaseDone? {
        ReleaseReturnInv(s, t, spurious);
      } else if s.mem.pool.pcs[t].ReleaseStoreGen? {
        StoreGenInv(s, t, spurious);
      } else {
        PopReleaseInv(s, t, spurious);
      }
  }

  // --------------------------------------------------------- every action

  lemma CallPushInv(s: State, t: nat, d: Item)
    requires Inv(s) && t < |s.pcs| && s.pcs[t].Idle?
    ensures Inv(Apply(s, CallPush(t, d)))
  {
    assert ThreadInv(s.mem, t, s.pcs[t]);
    var q := P.Apply(s.mem.pool, P.CallAlloc(t));
    P.ApplyInv(s.mem.pool, P.CallAlloc(t));
    PoolMovesInv(s, t, q, PushAlloc(d));
  }

  lemma OutsideInv(s: State, a: Action)
    requires Inv(s) && a.tid < |s.pcs| && (a.CallPop? || a.Return?)
    ensures Inv(Apply(s, a))
  {
    assert ThreadInv(s.mem, a.tid, s.pcs[a.tid]);
    if Apply(s, a) != s {
      OutsideThread(s, a);
      PlainMoveInv(s, Apply(s, a), a.tid);
    }
  }

  lemma OutsideThread(s: State, a: Action)
    requires HasThread(s, a.tid) && ThreadInv(s.mem, a.tid, s.pcs[a.tid]) && (a.CallPop? || a.Return?) && Apply(s, a) != s
    ensures PlainMove(s, Apply(s, a), a.tid)
  {
  }

  lemma ApplyInv(s: State, a: Action)
    requires Inv(s) && Windows(s) && Legal(s, a)
    ensures Inv(Apply(s, a))
  {
    match a
    case CallPush(t, d) =>
      if s.pcs[t].Idle? {
        CallPushInv(s, t, d);
      }
    case Run(t, spurious) =>
      var pc := s.pcs[t];
      if InSection(pc) || pc.PushEnter? || pc.PushAddLength? {
        PushSectionInv(s, t, spurious);
      } else if IsPush(pc) {
        PushPrepareInv(s, t, spurious);
      } else if pc.PopHelp? || pc.PopCas? || pc.PopCallRelease? || pc.PopRelease? {
        PopTakeInv(s, t, spurious);
      } else if PopStep(s, t, spurious) != s {
        PopTryInv(s, t, spurious);
      }
    case _ => OutsideInv(s, a);
  }
}
