/**
 The same for the queue: what the program does depends only on the words, items and
 counters it can read, not on incarnation numbers, the chain, the roles or the turn.
 */
module ConcurrentQueueErasure {
  import opened TaggedHandles
  import opened ConcurrentQueue
  import P = ConcurrentPool
  import E = ConcurrentPoolErasure

  predicate SamePush(p: Pc, q: Pc) {
    match p
    case PushGet(d, h) => q.PushGet? && q.data == d && SameWord(h, q.node)
    case PushStoreNext(d, h) => q.PushStoreNext? && q.data == d && SameWord(h, q.node)
    case PushStoreItem(d, h) => q.PushStoreItem? && q.data == d && SameWord(h, q.node)
    case PushEnter(d, h) => q.PushEnter? && q.data == d && SameWord(h, q.node)
    case PushLoadTail(d, h) => q.PushLoadTail? && q.data == d && SameWord(h, q.node)
    case PushGetTail(d, h, l) => q.PushGetTail? && q.data == d && SameWord(h, q.node) && SameWord(l, q.tail)
    case PushLoadNext(d, h, l) => q.PushLoadNext? && q.data == d && SameWord(h, q.node) && SameWord(l, q.tail)
    case PushRecheck(d, h, l, n) =>
      q.PushRecheck? && q.data == d && SameWord(h, q.node) && SameWord(l, q.tail) && SameWord(n, q.next)
    case PushLink(d, h, l) => q.PushLink? && q.data == d && SameWord(h, q.node) && SameWord(l, q.tail)
    case PushHelp(d, h, l, n) =>
      q.PushHelp? && q.data == d && SameWord(h, q.node) && SameWord(l, q.tail) && SameWord(n, q.next)
    case PushReloadTail(h) => q.PushReloadTail? && SameWord(h, q.node)
    case PushSwing(h, l) => q.PushSwing? && SameWord(h, q.node) && SameWord(l, q.tail)
    case PushAddLength(h) => q.PushAddLength? && SameWord(h, q.node)
    case PushDone(h) => q.PushDone? && SameWord(h, q.pushed)
    case _ => q == p
  }

  predicate SamePop(p: Pc, q: Pc) {
    match p
    case PopLoadTail(h) => q.PopLoadTail? && SameWord(h, q.head)
    case PopGetHead(h, l) => q.PopGetHead? && SameWord(h, q.head) && SameWord(l, q.tail)
    case PopLoadNext(h, l) => q.PopLoadNext? && SameWord(h, q.head) && SameWord(l, q.tail)
    case PopRecheck(h, l, n, _) => q.PopRecheck? && SameWord(h, q.head) && SameWord(l, q.tail) && SameWord(n, q.next)
    case PopHelp(h, l, n) => q.PopHelp? && SameWord(h, q.head) && SameWord(l, q.tail) && SameWord(n, q.next)
    case PopGetNext(h, n) => q.PopGetNext? && SameWord(h, q.head) && SameWord(n, q.next)
    case PopReadItem(h, n) => q.PopReadItem? && SameWord(h, q.head) && SameWord(n, q.next)
    case PopCas(h, n, v) => q.PopCas? && SameWord(h, q.head) && SameWord(n, q.next) && q.item == v
    case PopCallRelease(h, v) => q.PopCallRelease? && SameWord(h, q.head) && q.item == v
    case PopRelease(h, v) => q.PopRelease? && SameWord(h, q.head) && q.item == v
    case PopDone(v, _) => q.PopDone? && q.popped == v
    case _ => q == p
  }

  predicate SamePc(p: Pc, q: Pc) {
    if IsPush(p) || p.PushDone? then SamePush(p, q) else SamePop(p, q)
  }

  predicate SameMemory(m: Memory, n: Memory) {
    && E.SameProgram(m.pool, n.pool)
    && SameWord(m.head, n.head) && SameWord(m.tail, n.tail)
    && E.SameWords(m.next, n.next) && m.item == n.item && |m.role| == |n.role|
  }

  predicate SamePcs(ps: seq<Pc>, qs: seq<Pc>) {
    |ps| == |qs| && forall i :: 0 <= i < |ps| ==> SamePc(ps[i], qs[i])
  }

  /** The program cannot tell `s` from `r`. */
  predicate SameProgram(s: State, r: State) {
    SameMemory(s.mem, r.mem) && SamePcs(s.pcs, r.pcs) && E.SameCounter(s.length, r.length)
  }

  lemma SameTests(m: Memory, n: Memory, g: Handle, h: Handle)
    requires SameMemory(m, n) && SameWord(g, h)
    ensures Ok(m, g) == Ok(n, h) && Get(m, g) == Get(n, h)
    ensures Ok(m, g) ==> SameWord(m.next[g.slot], n.next[h.slot])
  {
  }

  /** Only thread `t` moved. */
  predicate Moved(s: State, s': State, t: nat) {
    t < |s.pcs| == |s'.pcs| && s'.pcs == s.pcs[t := s'.pcs[t]]
  }

  lemma MoveErases(s: State, r: State, s': State, r': State, t: nat)
    requires SamePcs(s.pcs, r.pcs) && Moved(s, s', t) && Moved(r, r', t)
    requires SamePc(s'.pcs[t], r'.pcs[t]) && SameMemory(s'.mem, r'.mem) && E.SameCounter(s'.length, r'.length)
    ensures SameProgram(s', r')
  {
  }

  predicate Able(s: State, r: State, t: nat) {
    HasThread(s, t) && HasThread(r, t) && SameMemory(s.mem, r.mem) && SamePc(s.pcs[t], r.pcs[t])
  }

  // ------------------------------------------------------------------ pushes

  predicate BeforeTail(pc: Pc) {
    pc.PushGet? || pc.PushStoreNext? || pc.PushStoreItem? || pc.PushEnter? || pc.PushLoadTail?
  }

  predicate AtTail(pc: Pc) {
    pc.PushGetTail? || pc.PushLoadNext? || pc.PushRecheck?
  }

  predicate Exchanges(pc: Pc) {
    pc.PushLink? || pc.PushHelp? || pc.PushSwing?
  }

  /** The next state of thread `t` and of the memory look the same. */
  predicate Alike(s': State, r': State, t: nat) {
    t < |s'.pcs| && t < |r'.pcs| && SamePc(s'.pcs[t], r'.pcs[t]) && SameMemory(s'.mem, r'.mem)
  }

  lemma PushBeforeTail(s: State, r: State, t: nat, spurious: bool)
    requires Able(s, r, t) && BeforeTail(s.pcs[t])
    ensures Alike(PushStep(s, t, spurious), PushStep(r, t, spurious), t)
  {
    SameTests(s.mem, r.mem, s.pcs[t].node, r.pcs[t].node);
  }

  lemma PushAtTail(s: State, r: State, t: nat, spurious: bool)
    requires Able(s, r, t) && AtTail(s.pcs[t])
    ensures Alike(PushStep(s, t, spurious), PushStep(r, t, spurious), t)
  {
    SameTests(s.mem, r.mem, s.pcs[t].tail, r.pcs[t].tail);
  }

  lemma PushExchanges(s: State, r: State, t: nat, spurious: bool)
    requires Able(s, r, t) && Exchanges(s.pcs[t])
    ensures Alike(PushStep(s, t, spurious), PushStep(r, t, spurious), t)
  {
    if s.pcs[t].PushLink? {
      PushLinkErases(s, r, t, spurious);
    } else {
      PushTailErases(s, r, t, spurious);
    }
  }

  lemma PushLinkErases(s: State, r: State, t: nat, spurious: bool)
    requires Able(s, r, t) && s.pcs[t].PushLink?
    ensures Alike(PushStep(s, t, spurious), PushStep(r, t, spurious), t)
  {
    SameTests(s.mem, r.mem, s.pcs[t].tail, r.pcs[t].tail);
    SameTests(s.mem, r.mem, s.pcs[t].node, r.pcs[t].node);
  }

  lemma PushTailErases(s: State, r: State, t: nat, spurious: bool)
    requires Able(s, r, t) && (s.pcs[t].PushHelp? || s.pcs[t].PushSwing?)
    ensures Alike(PushStep(s, t, spurious), PushStep(r, t, spurious), t)
  {
  }

  lemma PushAfterLink(s: State, r: State, t: nat, spurious: bool)
    requires Able(s, r, t) && (s.pcs[t].PushReloadTail? || s.pcs[t].PushAddLength?)
    ensures Alike(PushStep(s, t, spurious), PushStep(r, t, spurious), t)
  {
  }

  lemma PushAllocates(s: State, r: State, t: nat, spurious: bool)
    requires Able(s, r, t) && s.pcs[t].PushAlloc?
    ensures Alike(PushStep(s, t, spurious), PushStep(r, t, spurious), t)
  {
    E.AnnotationsInvisible(s.mem.pool, r.mem.pool, P.Return(t), P.Return(t));
    E.AnnotationsInvisible(s.mem.pool, r.mem.pool, P.Run(t, spurious), P.Run(t, spurious));
    assert E.SamePc(s.mem.pool.pcs[t], r.mem.pool.pcs[t]);
    if s.mem.pool.pcs[t].AllocDone? {
      SameTests(s.mem, r.mem, s.mem.pool.pcs[t].result, r.mem.pool.pcs[t].result);
    }
  }

  lemma PushErases(s: State, r: State, t: nat, spurious: bool)
    requires Able(s, r, t) && IsPush(s.pcs[t])
    ensures Alike(PushStep(s, t, spurious), PushStep(r, t, spurious), t)
  {
    if s.pcs[t].PushAlloc? {
      PushAllocates(s, r, t, spurious);
    } else if BeforeTail(s.pcs[t]) {
      PushBeforeTail(s, r, t, spurious);
    } else if AtTail(s.pcs[t]) {
      PushAtTail(s, r, t, spurious);
    } else if Exchanges(s.pcs[t]) {
      PushExchanges(s, r, t, spurious);
    } else {
      PushAfterLink(s, r, t, spurious);
    }
  }

  // -------------------------------------------------------------------- pops

  predicate ReadsFront(pc: Pc) {
    pc.PopLoadTail? || pc.PopGetHead? || pc.PopLoadNext?
  }

  predicate ReadsNext(pc: Pc) {
    pc.PopGetNext? || pc.PopReadItem?
  }

  lemma PopRechecks(s: State, r: State, t: nat, spurious: bool)
    requires Able(s, r, t) && s.pcs[t].PopRecheck?
    ensures Alike(PopStep(s, t, spurious), PopStep(r, t, spurious), t)
  {
  }

  lemma PopHelps(s: State, r: State, t: nat, spurious: bool)
    requires Able(s, r, t) && s.pcs[t].PopHelp?
    ensures Alike(PopStep(s, t, spurious), PopStep(r, t, spurious), t)
  {
  }

  lemma PopReadsFront(s: State, r: State, t: nat, spurious: bool)
    requires Able(s, r, t) && ReadsFront(s.pcs[t])
    ensures Alike(PopStep(s, t, spurious), PopStep(r, t, spurious), t)
  {
    SameTests(s.mem, r.mem, s.pcs[t].head, r.pcs[t].head);
  }

  lemma PopReadsNext(s: State, r: State, t: nat, spurious: bool)
    requires Able(s, r, t) && ReadsNext(s.pcs[t])
    ensures Alike(PopStep(s, t, spurious), PopStep(r, t, spurious), t)
  {
    SameTests(s.mem, r.mem, s.pcs[t].next, r.pcs[t].next);
  }

  lemma PopExchanges(s: State, r: State, t: nat, spurious: bool)
    requires Able(s, r, t) && s.pcs[t].PopCas?
    ensures Alike(PopStep(s, t, spurious), PopStep(r, t, spurious), t)
  {
    SameTests(s.mem, r.mem, s.pcs[t].head, r.pcs[t].head);
  }

  lemma PopReleases(s: State, r: State, t: nat, spurious: bool)
    requires Able(s, r, t) && s.pcs[t].PopRelease?
    ensures Alike(PopStep(s, t, spurious), PopStep(r, t, spurious), t)
  {
    assert E.SamePc(s.mem.pool.pcs[t], r.mem.pool.pcs[t]);
    if s.mem.pool.pcs[t].ReleaseDone? {
      ReleaseReturns(s, r, t, spurious);
    } else {
      ReleaseMoves(s, r, t, spurious);
    }
  }

  lemma ReleaseReturns(s: State, r: State, t: nat, spurious: bool)
    requires Able(s, r, t) && s.pcs[t].PopRelease? && s.mem.pool.pcs[t].ReleaseDone? && r.mem.pool.pcs[t] == s.mem.pool.pcs[t]
    ensures Alike(PopStep(s, t, spurious), PopStep(r, t, spurious), t)
  {
    E.AnnotationsInvisible(s.mem.pool, r.mem.pool, P.Return(t), P.Return(t));
  }

  lemma ReleaseMoves(s: State, r: State, t: nat, spurious: bool)
    requires Able(s, r, t) && s.pcs[t].PopRelease? && !s.mem.pool.pcs[t].ReleaseDone? && !r.mem.pool.pcs[t].ReleaseDone?
    ensures Alike(PopStep(s, t, spurious), PopStep(r, t, spurious), t)
  {
    var p, q := P.Step(s.mem.pool, t, spurious), P.Step(r.mem.pool, t, spurious);
    assert E.SameProgram(p, q) by {
      E.AnnotationsInvisible(s.mem.pool, r.mem.pool, P.Run(t, spurious), P.Run(t, spurious));
    }
    var s', r' := PopStep(s, t, spurious), PopStep(r, t, spurious);
    ReleaseMemory(s, t, spurious);
    ReleaseMemory(r, t, spurious);
    assert SameMemory(s'.mem, r'.mem);
  }

  lemma ReleaseMemory(s: State, t: nat, spurious: bool)
    requires HasThread(s, t) && s.pcs[t].PopRelease? && !s.mem.pool.pcs[t].ReleaseDone?
    ensures var s' := PopStep(s, t, spurious);
            && s'.pcs == s.pcs && |s'.mem.role| == |s.mem.role|
            && s'.mem == s.mem.(pool := P.Step(s.mem.pool, t, spurious), role := s'.mem.role)
  {
  }

  lemma PopCallsRelease(s: State, r: State, t: nat, spurious: bool)
    requires Able(s, r, t) && s.pcs[t].PopCallRelease?
    ensures Alike(PopStep(s, t, spurious), PopStep(r, t, spurious), t)
  {
    E.AnnotationsInvisible(s.mem.pool, r.mem.pool, P.CallRelease(t, s.pcs[t].head), P.CallRelease(t, r.pcs[t].head));
  }

  lemma PopErases(s: State, r: State, t: nat, spurious: bool)
    requires Able(s, r, t) && !IsPush(s.pcs[t])
    ensures Alike(PopStep(s, t, spurious), PopStep(r, t, spurious), t)
  {
    if s.pcs[t].PopCallRelease? {
      PopCallsRelease(s, r, t, spurious);
    } else if s.pcs[t].PopRelease? {
      PopReleases(s, r, t, spurious);
    } else if s.pcs[t].PopCas? {
      PopExchanges(s, r, t, spurious);
    } else if ReadsFront(s.pcs[t]) {
      PopReadsFront(s, r, t, spurious);
    } else if ReadsNext(s.pcs[t]) {
      PopReadsNext(s, r, t, spurious);
    } else if s.pcs[t].PopRecheck? {
      PopRechecks(s, r, t, spurious);
    } else if s.pcs[t].PopHelp? {
      PopHelps(s, r, t, spurious);
    }
  }

  // --------------------------------------------------------------- every step

  lemma OneThreadMoves(s: State, a: Action)
    requires HasThread(s, a.tid)
    ensures Moved(s, Apply(s, a), a.tid)
  {
  }

  lemma LengthErases(s: State, r: State, a: Action)
    requires HasThread(s, a.tid) && HasThread(r, a.tid) && SamePc(s.pcs[a.tid], r.pcs[a.tid])
    requires E.SameCounter(s.length, r.length)
    ensures E.SameCounter(Apply(s, a).length, Apply(r, a).length)
  {
    E.CounterSucc(s.length, r.length);
  }

  lemma CallErases(s: State, r: State, a: Action)
    requires Able(s, r, a.tid) && !a.Run?
    ensures Alike(Apply(s, a), Apply(r, a), a.tid)
  {
    E.AnnotationsInvisible(s.mem.pool, r.mem.pool, P.CallAlloc(a.tid), P.CallAlloc(a.tid));
  }

  lemma StepErases(s: State, r: State, a: Action)
    requires Able(s, r, a.tid)
    ensures Alike(Apply(s, a), Apply(r, a), a.tid)
  {
    if !a.Run? {
      CallErases(s, r, a);
    } else if IsPush(s.pcs[a.tid]) {
      PushErases(s, r, a.tid, a.spurious);
    } else {
      PopErases(s, r, a.tid, a.spurious);
    }
  }

  /** Two states the program cannot tell apart stay so under every action. */
  lemma AnnotationsInvisible(s: State, r: State, a: Action)
    requires SameProgram(s, r) && HasThread(s, a.tid) && HasThread(r, a.tid)
    ensures SameProgram(Apply(s, a), Apply(r, a))
  {
    StepErases(s, r, a);
    LengthErases(s, r, a);
    OneThreadMoves(s, a);
    OneThreadMoves(r, a);
    MoveErases(s, r, Apply(s, a), Apply(r, a), a.tid);
  }
}
