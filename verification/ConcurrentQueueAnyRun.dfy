/** What holds of the queue in every run whatever, also when pushes overlap and generations wrap. */
module ConcurrentQueueAnyRun {
  import opened TaggedHandles
  import opened ConcurrentQueue
  import opened ConcurrentQueueRuns
  import opened ConcurrentQueueHistories
  import P = ConcurrentPool

  // ------------------------------------------------------------ shared words

  /** The exchange of `tail` that thread `t` is about to try, and what it would store. */
  function TailTarget(pc: Pc, spurious: bool): Option<Handle> {
    match pc
    case PushHelp(_, _, _, n) => if spurious then None else Some(n)
    case PushSwing(h, _) => Some(h)
    case PopHelp(_, _, n) => if spurious then None else Some(n)
    case _ => None
  }

  /**
   `tail` changes only by an exchange that finds the word the thread had loaded, and each
   exchange that finds it stores the loaded successor, or the new node, with LIVE bits. The
   final swing of a push does not fail spuriously.
   */
  lemma TailWrites(s: State, a: Action)
    requires HasThread(s, a.tid)
    ensures var target := if a.Run? then TailTarget(s.pcs[a.tid], a.spurious) else None;
            Apply(s, a).mem.tail ==
            if target.Some? && SameWord(s.mem.tail, s.pcs[a.tid].tail) then Relive(target.value) else s.mem.tail
  {
  }

  /** `head` changes only by the exchange of a pop that finds the word the pop had loaded. */
  lemma HeadWrites(s: State, a: Action)
    requires HasThread(s, a.tid)
    ensures Apply(s, a).mem.head ==
            if a.Run? && !a.spurious && s.pcs[a.tid].PopCas? && SameWord(s.mem.head, s.pcs[a.tid].head) &&
               Ok(s.mem, s.pcs[a.tid].head)
            then Relive(s.pcs[a.tid].next) else s.mem.head
  {
  }

  /** A link changes only when its owner clears it, or from null to the node of a push. */
  lemma LinkWrites(s: State, a: Action, x: nat)
    requires HasThread(s, a.tid) && x < |s.mem.next|
    ensures |Apply(s, a).mem.next| == |s.mem.next|
    ensures Apply(s, a).mem.next[x] != s.mem.next[x] ==>
              var pc := s.pcs[a.tid];
              && a.Run?
              && (|| (pc.PushStoreNext? && pc.node.Handle? && pc.node.slot == x && Apply(s, a).mem.next[x] == Null)
                  || (!a.spurious && pc.PushLink? && pc.tail.Handle? && pc.tail.slot == x && s.mem.next[x] == Null &&
                      Apply(s, a).mem.next[x] == pc.node))
  {
    if a.Run? && IsPush(s.pcs[a.tid]) {
      PushLinkWrites(s, a.tid, a.spurious, x);
    }
  }

  lemma PushLinkWrites(s: State, t: nat, spurious: bool, x: nat)
    requires HasThread(s, t) && IsPush(s.pcs[t]) && x < |s.mem.next|
    ensures |PushStep(s, t, spurious).mem.next| == |s.mem.next|
    ensures var n' := PushStep(s, t, spurious).mem.next[x]; var pc := s.pcs[t];
            n' != s.mem.next[x] ==>
              || (pc.PushStoreNext? && pc.node.Handle? && pc.node.slot == x && n' == Null)
              || (!spurious && pc.PushLink? && pc.tail.Handle? && pc.tail.slot == x && s.mem.next[x] == Null && n' == pc.node)
  {
  }

  // --------------------------------------------------------- validated links

  lemma LinkRises(m: State, a: Action, t: nat, pc: Pc)
    requires HasThread(m, a.tid) && HasThread(m, t) && HasThread(Apply(m, a), t) && pc.PushLink?
    requires m.pcs[t] != pc && Apply(m, a).pcs[t] == pc
    ensures a.Run? && a.tid == t && m.pcs[t] == PushRecheck(pc.data, pc.node, pc.tail, Null) && SameWord(pc.tail, m.mem.tail)
  {
    if a.tid != t {
      OthersKeepThread(m, a, t);
    } else if a.Run? && IsPush(m.pcs[t]) {
      PushLinkRises(m, t, a.spurious, pc);
    }
  }

  lemma PushLinkRises(m: State, t: nat, spurious: bool, pc: Pc)
    requires HasThread(m, t) && IsPush(m.pcs[t]) && pc.PushLink? && m.pcs[t] != pc
    requires HasThread(PushStep(m, t, spurious), t) && PushStep(m, t, spurious).pcs[t] == pc
    ensures m.pcs[t] == PushRecheck(pc.data, pc.node, pc.tail, Null) && SameWord(pc.tail, m.mem.tail)
  {
  }

  /**
   In every run, each link exchange follows directly upon a check of the same call that
   found `tail` unchanged and its link null.
   */
  lemma LinkWasValidated(s: State, run: seq<Action>, t: nat, i: nat) returns (k: nat)
    requires ThreadsOf(s, run) && HasThread(s, t) && s.pcs[t] == Idle && LinksAt(s, run, i, t)
    ensures k < i && run[k].tid == t && t < |StateAt(s, run, k).pcs|
    ensures var pc := StateAt(s, run, i).pcs[t];
            && StateAt(s, run, k).pcs[t] == PushRecheck(pc.data, pc.node, pc.tail, Null)
            && SameWord(pc.tail, StateAt(s, run, k).mem.tail)
            && forall j :: k < j <= i ==> t < |StateAt(s, run, j).pcs| && StateAt(s, run, j).pcs[t] == pc
  {
    var pc, front := StateAt(s, run, i).pcs[t], run[..i];
    k := LastRise(s, front, (x: State) => t < |x.pcs| && x.pcs[t] == pc);
    StateNext(s, front, k);
    SameThreads(StateAt(s, front, k), front[k]);
    LinkRises(StateAt(s, front, k), front[k], t, pc);
    forall j | 0 <= j <= i
      ensures StateAt(s, run, j) == StateAt(s, front, j)
    {
      assert run[..j] == front[..j];
    }
  }

  // ------------------------------------------------------------ null answers

  /** The push has no node and will answer null. */
  predicate SawNull(s: State, t: nat) {
    && HasThread(s, t)
    && (|| s.pcs[t] == PushDone(Null)
        || (s.pcs[t].PushAlloc? && s.mem.pool.pcs[t] == P.AllocDone(Null))
        || (IsPush(s.pcs[t]) && !s.pcs[t].PushAlloc? && s.pcs[t].node.Null?))
  }

  predicate LoadsNull(s: State, a: Action, t: nat) {
    && a.Run? && a.tid == t && HasThread(s, t) && s.pcs[t].PushAlloc?
    && s.mem.pool.pcs[t] == P.AllocLoadHead && s.mem.pool.freeHead.Null?
  }

  predicate InStep(s: State, t: nat) {
    HasThread(s, t) && PoolSide(s.mem.pool.pcs[t], s.pcs[t])
  }

  lemma InStepKept(s: State, a: Action, t: nat)
    requires HasThread(s, a.tid) && InStep(s, t)
    ensures InStep(Apply(s, a), t)
  {
    if a.tid != t {
      OthersKeepThread(s, a, t);
    } else if a.Run? && IsPush(s.pcs[t]) {
      PushInStep(s, t, a.spurious);
    } else if a.Run? {
      PopInStep(s, t, a.spurious);
    }
  }

  lemma PushInStep(s: State, t: nat, spurious: bool)
    requires InStep(s, t) && IsPush(s.pcs[t])
    ensures InStep(PushStep(s, t, spurious), t)
  {
  }

  lemma PopInStep(s: State, t: nat, spurious: bool)
    requires InStep(s, t) && !IsPush(s.pcs[t])
    ensures InStep(PopStep(s, t, spurious), t)
  {
  }

  lemma PushSawNull(s: State, t: nat, spurious: bool)
    requires InStep(s, t) && IsPush(s.pcs[t]) && !SawNull(s, t) && SawNull(PushStep(s, t, spurious), t)
    ensures s.pcs[t].PushAlloc? && s.mem.pool.pcs[t] == P.AllocLoadHead && s.mem.pool.freeHead.Null?
  {
  }

  lemma SawNullStep(s: State, a: Action, t: nat)
    requires HasThread(s, a.tid) && InStep(s, t) && !SawNull(s, t) && SawNull(Apply(s, a), t)
    ensures LoadsNull(s, a, t)
  {
    if a.tid != t {
      OthersKeepThread(s, a, t);
    } else if a.Run? && IsPush(s.pcs[t]) {
      PushSawNull(s, t, a.spurious);
    } else if a.Run? {
      PopHasNoNode(s, t, a.spurious);
    }
  }

  lemma PopHasNoNode(s: State, t: nat, spurious: bool)
    requires HasThread(s, t) && !IsPush(s.pcs[t]) && s.pcs[t] != PushDone(Null)
    ensures !SawNull(PopStep(s, t, spurious), t)
  {
  }

  /** In every run, a push answers null only because its allocation loaded a null head of the free list. */
  lemma NullAnswers(s: State, run: seq<Action>, t: nat) returns (i: nat)
    requires ThreadsOf(s, run) && InStep(s, t) && s.pcs[t] == Idle
    requires HasThread(Exec(s, run), t) && Exec(s, run).pcs[t] == PushDone(Null)
    ensures i < |run| && LoadsNull(StateAt(s, run, i), run[i], t)
    ensures forall j :: i < j <= |run| ==> SawNull(StateAt(s, run, j), t)
  {
    i := LastRise(s, run, (x: State) => SawNull(x, t));
    assert run[..0] == [];
    forall n | 0 <= n < i && InStep(StateAt(s, run, n), t)
      ensures InStep(StateAt(s, run, n + 1), t)
    {
      StateNext(s, run, n);
      InStepKept(StateAt(s, run, n), run[n], t);
    }
    Persists(s, run, 0, i, (x: State) => InStep(x, t));
    StateNext(s, run, i);
    SawNullStep(StateAt(s, run, i), run[i], t);
  }
}
