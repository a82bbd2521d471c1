/** What every run of the concurrent queue does, for any number of threads. */
module ConcurrentQueueRuns {
  import opened Lists
  import opened TaggedHandles
  import opened ConcurrentQueue
  import opened ConcurrentQueueSteps
  import opened ConcurrentQueueInvariant
  import P = ConcurrentPool
  import R = ConcurrentPoolRuns

  // ------------------------------------------------------------------- runs

  /** The queue just after creation: slot 0 is the dummy node, the others are free. Unused nodes hold anything. */
  predicate Init(s: State) {
    var m := s.mem; var p := m.pool;
    && 0 < |p.inc| == |p.next| == |p.owner| == |m.next| == |m.item| == |m.role|
    && |p.stack| == |p.inc| - 1
    && (forall x :: 0 <= x < |p.inc| ==> p.inc[x] == 0)
    && (forall i :: 0 <= i < |p.stack| ==> p.stack[i] == i + 1)
    && (forall x :: 0 < x < |p.inc| ==> p.owner[x] == P.Free && m.role[x] == Pooled)
    && P.IsList(p.stack, p.inc, p.next, p.freeHead)
    && p.owner[0] == P.Live && m.role[0] == Chained && p.issued == {Handle(0, 0, true)}
    && p.slotsFree == |p.stack| && p.allocCount == 1 && p.releaseCount == 0
    && |p.pcs| == |s.pcs|
    && (forall t :: 0 <= t < |s.pcs| ==> s.pcs[t] == Idle && p.pcs[t] == P.Idle)
    && m.head == m.tail == Handle(0, 0, true) && m.next[0].Null? && m.chain == [0]
    && s.turn == Nobody && s.length == 0
  }

  lemma InitInv(s: State)
    requires Init(s)
    ensures Inv(s) && Items(s.mem) == []
  {
    InitPoolInv(s);
  }

  lemma InitPoolInv(s: State)
    requires Init(s)
    ensures P.Inv(s.mem.pool)
  {
    var p := s.mem.pool;
    forall x | 0 <= x < |p.owner|
      ensures p.owner[x] == P.Free <==> x in p.stack
    {
      if x > 0 {
        assert p.stack[x - 1] == x;
      }
    }
  }

  ghost predicate ThreadsOf(s: State, run: seq<Action>) {
    forall i :: 0 <= i < |run| ==> HasThread(s, run[i].tid)
  }

  lemma SameThreads(s: State, a: Action)
    requires HasThread(s, a.tid)
    ensures |Apply(s, a).pcs| == |s.pcs| && |Apply(s, a).mem.pool.pcs| == |s.mem.pool.pcs|
  {
  }

  ghost function Exec(s: State, run: seq<Action>): State
    requires ThreadsOf(s, run)
    decreases |run|
  {
    if run == [] then s
    else SameThreads(s, run[0]); Exec(Apply(s, run[0]), run[1..])
  }

  function Next(s: State, t: nat): State {
    if HasThread(s, t) then Apply(s, Run(t, false)) else s
  }

  /** Thread `t` takes `n` steps without a spurious failure. */
  function Steps(s: State, t: nat, n: nat): State {
    Iterate(x => Next(x, t), s, n)
  }

  /** Serialised push sections, and fewer than 65536 releases of a slot inside one load-to-exchange window. */
  ghost predicate LegalRun(s: State, run: seq<Action>)
    requires ThreadsOf(s, run)
    decreases |run|
  {
    Windows(s) &&
    (run != [] ==> Legal(s, run[0]) && (SameThreads(s, run[0]); LegalRun(Apply(s, run[0]), run[1..])))
  }

  lemma {:induction false} RunInv(s: State, run: seq<Action>)
    requires Inv(s) && ThreadsOf(s, run) && LegalRun(s, run)
    ensures Inv(Exec(s, run))
    decreases |run|
  {
    if run != [] {
      ApplyInv(s, run[0]);
      SameThreads(s, run[0]);
      RunInv(Apply(s, run[0]), run[1..]);
    }
  }

  // ------------------------------------------------------- linearization

  /** The link compare-exchange of a push succeeds. */
  predicate Links(s: State, a: Action)
    requires HasThread(s, a.tid)
  {
    a.Run? && s.pcs[a.tid].PushLink? && Apply(s, a).pcs[a.tid].PushReloadTail?
  }

  /** The head compare-exchange of a pop succeeds. */
  predicate Takes(s: State, a: Action)
    requires HasThread(s, a.tid)
  {
    a.Run? && s.pcs[a.tid].PopCas? && Apply(s, a).pcs[a.tid].PopCallRelease?
  }

  /** The item a step appends: the data of the push that links. */
  function Linked(s: State, a: Action): seq<Item>
    requires HasThread(s, a.tid)
  {
    if Links(s, a) then [s.pcs[a.tid].data] else []
  }

  /** The item a step removes: what the pop that unlinks has copied out. */
  function Taken(s: State, a: Action): seq<Item>
    requires HasThread(s, a.tid)
  {
    if Takes(s, a) then [s.pcs[a.tid].item] else []
  }

  lemma ExchangeSucceeds(s: State, a: Action)
    requires HasThread(s, a.tid) && (Links(s, a) || Takes(s, a))
    ensures a == Run(a.tid, false)
    ensures Takes(s, a) ==> SameWord(s.mem.head, s.pcs[a.tid].head)
  {
  }

  lemma {:induction false} ItemsAt(xs: seq<nat>, item: seq<Item>)
    requires |xs| > 0 && forall i :: 0 <= i < |xs| ==> xs[i] < |item|
    ensures |ItemsAlong(xs, item)| == |xs| - 1
    ensures forall i :: 0 <= i < |xs| - 1 ==> ItemsAlong(xs, item)[i] == item[xs[i + 1]]
  {
    if |xs| > 1 {
      ItemsAt(xs[..|xs| - 1], item);
    }
  }

  lemma LinkItems(s: State, t: nat)
    requires Inv(s) && t < |s.pcs| && s.pcs[t].PushLink?
    ensures Items(Apply(s, Run(t, false)).mem) == Items(s.mem) + [s.pcs[t].data]
  {
    LinkInv(s, t);
    LinkFacts(s, t);
    ItemsSnoc(s.mem.chain, s.mem.item, s.pcs[t].node.slot);
    assert AfterLink(s, t).mem.chain == s.mem.chain + [s.pcs[t].node.slot];
  }

  lemma UnlinkItems(s: State, t: nat)
    requires Inv(s) && t < |s.pcs| && s.pcs[t].PopCas? && HeadWindow(s.mem, s.pcs[t])
    requires SameWord(s.mem.head, s.pcs[t].head)
    ensures Items(s.mem) == [s.pcs[t].item] + Items(Apply(s, Run(t, false)).mem)
  {
    UnlinkApplies(s, t);
    UnlinkFacts(s, t);
    ItemsDrop(s.mem.chain, s.mem.item);
  }

  lemma ItemsSnoc(xs: seq<nat>, item: seq<Item>, x: nat)
    requires |xs| > 0 && x < |item|
    ensures ItemsAlong(xs + [x], item) == ItemsAlong(xs, item) + [item[x]]
  {
    assert (xs + [x])[..|xs|] == xs;
  }

  lemma {:induction false} ItemsDrop(xs: seq<nat>, item: seq<Item>)
    requires |xs| > 1 && forall i :: 0 <= i < |xs| ==> xs[i] < |item|
    ensures ItemsAlong(xs, item) == [item[xs[1]]] + ItemsAlong(xs[1..], item)
  {
    if |xs| > 2 {
      var front := xs[..|xs| - 1];
      ItemsDrop(front, item);
      assert xs[1..][..|xs| - 2] == front[1..];
    }
  }

  lemma {:induction false} ItemsFrame(xs: seq<nat>, item: seq<Item>, item': seq<Item>)
    requires |item'| == |item| && forall i :: 0 <= i < |xs| && xs[i] < |item| ==> item'[xs[i]] == item[xs[i]]
    ensures ItemsAlong(xs, item') == ItemsAlong(xs, item)
  {
    if |xs| > 1 {
      ItemsFrame(xs[..|xs| - 1], item, item');
    }
  }

  lemma OtherStepsKeepChain(s: State, a: Action)
    requires HasThread(s, a.tid) && !Links(s, a) && !Takes(s, a)
    ensures Apply(s, a).mem.chain == s.mem.chain && |Apply(s, a).mem.item| == |s.mem.item|
    ensures !(a.Run? && s.pcs[a.tid].PushStoreItem?) ==> Apply(s, a).mem.item == s.mem.item
    ensures a.Run? && s.pcs[a.tid].PushStoreItem? && Ok(s.mem, s.pcs[a.tid].node) ==>
              Apply(s, a).mem.item == s.mem.item[s.pcs[a.tid].node.slot := s.pcs[a.tid].data]
  {
    if a.Run? && IsPush(s.pcs[a.tid]) {
      PushKeepsChain(s, a.tid, a.spurious);
    } else if a.Run? {
      PopKeepsChain(s, a.tid, a.spurious);
    }
  }

  lemma PushKeepsChain(s: State, t: nat, spurious: bool)
    requires HasThread(s, t) && IsPush(s.pcs[t])
    ensures var s' := PushStep(s, t, spurious);
            && (!(s.pcs[t].PushLink? && s'.pcs[t].PushReloadTail?) ==> s'.mem.chain == s.mem.chain)
            && |s'.mem.item| == |s.mem.item|
            && (!s.pcs[t].PushStoreItem? ==> s'.mem.item == s.mem.item)
            && (s.pcs[t].PushStoreItem? && Ok(s.mem, s.pcs[t].node) ==>
                  s'.mem.item == s.mem.item[s.pcs[t].node.slot := s.pcs[t].data])
  {
  }

  lemma PopKeepsChain(s: State, t: nat, spurious: bool)
    requires HasThread(s, t)
    ensures var s' := PopStep(s, t, spurious);
            && (!(s.pcs[t].PopCas? && s'.pcs[t].PopCallRelease?) ==> s'.mem.chain == s.mem.chain)
            && s'.mem.item == s.mem.item
  {
  }

  /** A push writes its item into a node that is not on the chain. */
  lemma PrivateOffChain(s: State, t: nat)
    requires Inv(s) && t < |s.pcs| && s.pcs[t].PushStoreItem?
    ensures Ok(s.mem, s.pcs[t].node) && s.pcs[t].node.slot !in s.mem.chain
  {
    assert ThreadInv(s.mem, t, s.pcs[t]);
  }

  /** Every step appends what it links, removes what it takes, and otherwise leaves the items alone. */
  lemma StepItems(s: State, a: Action)
    requires Inv(s) && Windows(s) && Legal(s, a)
    ensures Items(s.mem) + Linked(s, a) == Taken(s, a) + Items(Apply(s, a).mem)
  {
    if Links(s, a) {
      ExchangeSucceeds(s, a);
      LinkItems(s, a.tid);
    } else if Takes(s, a) {
      ExchangeSucceeds(s, a);
      UnlinkItems(s, a.tid);
    } else {
      OtherStepsKeepChain(s, a);
      if a.Run? && s.pcs[a.tid].PushStoreItem? {
        PrivateOffChain(s, a.tid);
      }
      ItemsFrame(s.mem.chain, s.mem.item, Apply(s, a).mem.item);
    }
  }

  ghost function Pushed(s: State, run: seq<Action>): seq<Item>
    requires ThreadsOf(s, run)
    decreases |run|
  {
    if run == [] then []
    else SameThreads(s, run[0]); Linked(s, run[0]) + Pushed(Apply(s, run[0]), run[1..])
  }

  ghost function Popped(s: State, run: seq<Action>): seq<Item>
    requires ThreadsOf(s, run)
    decreases |run|
  {
    if run == [] then []
    else SameThreads(s, run[0]); Taken(s, run[0]) + Popped(Apply(s, run[0]), run[1..])
  }

  /**
   First in, first out, over whole runs: the items taken, followed by those still in the
   queue, are the items that were there and those linked since, in the order of linking.
   */
  lemma {:induction false} FifoOrder(s: State, run: seq<Action>)
    requires Inv(s) && ThreadsOf(s, run) && LegalRun(s, run)
    ensures Popped(s, run) + Items(Exec(s, run).mem) == Items(s.mem) + Pushed(s, run)
    decreases |run|
  {
    if run != [] {
      var a := run[0];
      var s' := Apply(s, a);
      RestIsLegal(s, run, s');
      assert Inv(s') by { ApplyInv(s, a); }
      assert Items(s.mem) + Linked(s, a) == Taken(s, a) + Items(s'.mem) by { StepItems(s, a); }
      FifoOrder(s', run[1..]);
      FifoExtends(s, s', a, run);
    }
  }

  lemma RestIsLegal(s: State, run: seq<Action>, s': State)
    requires ThreadsOf(s, run) && LegalRun(s, run) && run != [] && s' == Apply(s, run[0])
    ensures Windows(s) && Legal(s, run[0]) && ThreadsOf(s', run[1..]) && LegalRun(s', run[1..])
  {
    SameThreads(s, run[0]);
  }

  lemma FifoExtends(s: State, s': State, a: Action, run: seq<Action>)
    requires ThreadsOf(s, run) && run != [] && a == run[0] && s' == Apply(s, a) && ThreadsOf(s', run[1..])
    requires Items(s.mem) + Linked(s, a) == Taken(s, a) + Items(s'.mem)
    requires Popped(s', run[1..]) + Items(Exec(s', run[1..]).mem) == Items(s'.mem) + Pushed(s', run[1..])
    ensures Popped(s, run) + Items(Exec(s, run).mem) == Items(s.mem) + Pushed(s, run)
  {
    Unfold(s, run);
    Regroup(Taken(s, a), Popped(s', run[1..]), Items(Exec(s, run).mem),
            Items(s'.mem), Pushed(s', run[1..]), Items(s.mem), Linked(s, a));
  }

  lemma Unfold(s: State, run: seq<Action>)
    requires ThreadsOf(s, run) && run != []
    ensures ThreadsOf(Apply(s, run[0]), run[1..])
    ensures Exec(s, run) == Exec(Apply(s, run[0]), run[1..])
    ensures Pushed(s, run) == Linked(s, run[0]) + Pushed(Apply(s, run[0]), run[1..])
    ensures Popped(s, run) == Taken(s, run[0]) + Popped(Apply(s, run[0]), run[1..])
  {
    SameThreads(s, run[0]);
  }

  lemma Regroup(taken: seq<Item>, out: seq<Item>, rest: seq<Item>,
                mid: seq<Item>, later: seq<Item>, start: seq<Item>, linked: seq<Item>)
    requires out + rest == mid + later && start + linked == taken + mid
    ensures (taken + out) + rest == start + (linked + later)
  {
    assert (taken + out) + rest == taken + (mid + later);
    assert taken + (mid + later) == (start + linked) + later;
  }

  /** From creation on: what has been popped is a prefix of what has been pushed, and the rest is in the queue. */
  lemma Linearizable(s: State, run: seq<Action>)
    requires Init(s) && ThreadsOf(s, run) && LegalRun(s, run)
    ensures Pushed(s, run) == Popped(s, run) + Items(Exec(s, run).mem)
  {
    InitInv(s);
    FifoOrder(s, run);
  }

  // ------------------------------------------------ the chain in every run

  /** Reading the links from `h`, at most `fuel` of them. */
  function Walk(next: seq<Handle>, h: Handle, fuel: nat): seq<nat>
    decreases fuel
  {
    if fuel == 0 || h.Null? || h.slot >= |next| then [] else [h.slot] + Walk(next, next[h.slot], fuel - 1)
  }

  lemma {:induction false} WalkFrom(xs: seq<nat>, inc: seq<nat>, next: seq<Handle>, head: Handle, i: nat, fuel: nat)
    requires IsChain(xs, inc, next, head) && i <= |xs| <= i + fuel
    ensures Walk(next, Tag(xs, inc, i), fuel) == xs[i..]
    decreases fuel
  {
    if i < |xs| {
      WalkFrom(xs, inc, next, head, i + 1, fuel - 1);
      assert xs[i..] == [xs[i]] + xs[i + 1..];
    }
  }

  /**
   In every state of every legal run the links from `head` form a finite chain without
   repetition that ends in null; `tail` is its last node, or its last but one between a
   push's link and its swing; every node on it is a live slot of the pool whose handle
   `anam_get` accepts; and the items are those of the nodes after the dummy, in order.
   */
  lemma ChainInEveryRun(s: State, run: seq<Action>)
    requires Init(s) && ThreadsOf(s, run) && LegalRun(s, run)
    ensures var e := Exec(s, run); var m := e.mem;
            && IsChain(m.chain, m.pool.inc, m.next, m.head)
            && Walk(m.next, m.head, |m.next|) == m.chain
            && TailInv(m, Swinging(e))
            && (forall x :: x in m.chain ==> R.InUse(m.pool, x) && Get(m, Handle(x, m.pool.inc[x], true)))
            && |Items(m)| == |m.chain| - 1
            && (forall i :: 0 <= i < |Items(m)| ==> m.chain[i + 1] < |m.item| && Items(m)[i] == m.item[m.chain[i + 1]])
  {
    InitInv(s);
    RunInv(s, run);
    ChainFacts(Exec(s, run));
  }

  lemma ChainFacts(e: State)
    requires Inv(e)
    ensures Walk(e.mem.next, e.mem.head, |e.mem.next|) == e.mem.chain
    ensures |Items(e.mem)| == |e.mem.chain| - 1
    ensures forall i :: 0 <= i < |Items(e.mem)| ==>
              e.mem.chain[i + 1] < |e.mem.item| && Items(e.mem)[i] == e.mem.item[e.mem.chain[i + 1]]
    ensures forall x :: x in e.mem.chain ==> R.InUse(e.mem.pool, x) && Get(e.mem, Handle(x, e.mem.pool.inc[x], true))
  {
    var m := e.mem;
    BoundedLength(m.chain, |m.next|);
    WalkFrom(m.chain, m.pool.inc, m.next, m.head, 0, |m.next|);
    ItemsAt(m.chain, m.item);
    forall x | x in m.chain
      ensures R.InUse(m.pool, x) && Get(m, Handle(x, m.pool.inc[x], true))
    {
      assert m.role[x] == Chained;
      R.SlotPartition(m.pool, x);
    }
  }

  // ------------------------------------------------------- safe recycling

  /**
   A node between its removal and the acceptance of its release is on neither the chain nor
   `tail`, no other thread is releasing that incarnation, the release is a lawful call on
   the pool, and it never returns false.
   */
  lemma SafeRecycling(s: State, t: nat)
    requires Inv(s) && t < |s.pcs|
    ensures s.pcs[t].PopCallRelease? ==>
              var h := s.pcs[t].head;
              && h.slot !in s.mem.chain && h != s.mem.tail && h != s.mem.head
              && Get(s.mem, h) && P.Legal(s.mem.pool, P.CallRelease(t, h))
    ensures s.pcs[t].PopRelease? && s.mem.pool.pcs[t].ReleaseCheck? ==>
              s.mem.pool.pcs[t].handle == s.pcs[t].head && Get(s.mem, s.pcs[t].head)
    ensures s.pcs[t].PopRelease? ==> s.mem.pool.pcs[t] != P.ReleaseDone(false)
    ensures s.pcs[t].PopSubLength? ==> s.pcs[t].released
  {
    assert ThreadInv(s.mem, t, s.pcs[t]);
    EndsOnChain(s.mem, Swinging(s));
    if s.pcs[t].PopCallRelease? {
      ReleaseIsLegal(s, t);
    }
  }

  /** Right after a successful head exchange the old head is off the chain and is not the tail. */
  lemma RemovedNodeIsFree(s: State, a: Action)
    requires Inv(s) && Windows(s) && Legal(s, a) && Takes(s, a)
    ensures var s' := Apply(s, a);
            && s'.pcs[a.tid] == PopCallRelease(s.mem.head, s.pcs[a.tid].item)
            && s.mem.head.slot !in s'.mem.chain && s'.mem.tail != s.mem.head
            && s'.mem.head == s.mem.next[s.mem.head.slot]
  {
    ExchangeSucceeds(s, a);
    assert HeadWindow(s.mem, s.pcs[a.tid]);
    UnlinkFacts(s, a.tid);
    ApplyInv(s, a);
    SafeRecycling(Apply(s, a), a.tid);
    EndsOnChain(s.mem, Swinging(s));
  }

  // ------------------------------------------------------ an empty answer

  predicate SawEmpty(pc: Pc) {
    (pc.PopRecheck? && pc.sawEmpty) || (pc.PopDone? && pc.popped.None? && pc.sawEmpty)
  }

  /** Thread `t` loads the link of `head` while the queue is empty. */
  predicate LoadsEmpty(s: State, a: Action, t: nat)
    requires HasThread(s, t)
  {
    a.Run? && a.tid == t && s.pcs[t].PopLoadNext? && Items(s.mem) == []
  }

  lemma SawEmptyStep(s: State, a: Action, t: nat)
    requires HasThread(s, a.tid) && HasThread(s, t)
    requires HasThread(Apply(s, a), t) && SawEmpty(Apply(s, a).pcs[t]) && !SawEmpty(s.pcs[t])
    ensures LoadsEmpty(s, a, t)
  {
    if a.Run? && a.tid == t && !IsPush(s.pcs[t]) {
      PopSawEmpty(s, t, a.spurious);
    }
  }

  lemma PopSawEmpty(s: State, t: nat, spurious: bool)
    requires HasThread(s, t) && SawEmpty(PopStep(s, t, spurious).pcs[t]) && !SawEmpty(s.pcs[t])
    ensures s.pcs[t].PopLoadNext? && Items(s.mem) == []
  {
  }

  lemma {:induction false} ExecSnoc(s: State, run: seq<Action>, a: Action)
    requires ThreadsOf(s, run + [a])
    ensures ThreadsOf(s, run) && HasThread(Exec(s, run), a.tid)
    ensures Exec(s, run + [a]) == Apply(Exec(s, run), a)
    ensures |Exec(s, run).pcs| == |s.pcs| && |Exec(s, run).mem.pool.pcs| == |s.mem.pool.pcs|
    decreases |run|
  {
    assert forall i :: 0 <= i < |run| ==> (run + [a])[i] == run[i];
    assert (run + [a])[|run|] == a;
    if run == [] {
      assert (run + [a])[1..] == [];
    } else {
      SameThreads(s, run[0]);
      assert (run + [a])[1..] == run[1..] + [a];
      ExecSnoc(Apply(s, run[0]), run[1..], a);
    }
  }

  ghost function StateAt(s: State, run: seq<Action>, i: nat): State
    requires ThreadsOf(s, run) && i <= |run|
  {
    Exec(s, run[..i])
  }

  /** At step `i` thread `t` loaded the link of an empty queue, and it has remembered that ever since. */
  ghost predicate EmptyAt(s: State, run: seq<Action>, t: nat, i: nat)
    requires ThreadsOf(s, run)
  {
    && i < |run|
    && HasThread(StateAt(s, run, i), t) && LoadsEmpty(StateAt(s, run, i), run[i], t)
    && (forall j :: i < j <= |run| ==> t < |StateAt(s, run, j).pcs| && SawEmpty(StateAt(s, run, j).pcs[t]))
  }

  lemma StateNext(s: State, run: seq<Action>, i: nat)
    requires ThreadsOf(s, run) && i < |run|
    ensures |StateAt(s, run, i).pcs| == |s.pcs| && |StateAt(s, run, i).mem.pool.pcs| == |s.mem.pool.pcs|
    ensures HasThread(StateAt(s, run, i), run[i].tid)
    ensures StateAt(s, run, i + 1) == Apply(StateAt(s, run, i), run[i])
  {
    assert run[..i + 1] == run[..i] + [run[i]];
    ExecSnoc(s, run[..i], run[i]);
  }

  /** What holds at step `i` and is kept by every step up to `j` holds at all states in between. */
  lemma {:induction false} Persists(s: State, run: seq<Action>, i: nat, j: nat, f: State -> bool)
    requires ThreadsOf(s, run) && i <= j <= |run| && f(StateAt(s, run, i))
    requires forall n :: i <= n < j && f(StateAt(s, run, n)) ==> f(StateAt(s, run, n + 1))
    ensures f(StateAt(s, run, j))
    decreases j
  {
    if i < j {
      Persists(s, run, i, j - 1, f);
      var n := j - 1;
      assert f(StateAt(s, run, n));
    }
  }

  /** The moment from which on `f` has held. */
  lemma {:induction false} LastRise(s: State, run: seq<Action>, f: State -> bool) returns (i: nat)
    requires ThreadsOf(s, run) && !f(s) && f(Exec(s, run))
    ensures i < |run| && !f(StateAt(s, run, i))
    ensures forall j :: i < j <= |run| ==> f(StateAt(s, run, j))
    decreases |run|
  {
    var front := run[..|run| - 1];
    assert run[..|run|] == run;
    if f(Exec(s, front)) {
      i := LastRise(s, front, f);
      forall j | i < j <= |run|
        ensures f(StateAt(s, run, j))
      {
        if j < |run| {
          assert run[..j] == front[..j];
          assert f(StateAt(s, front, j));
        }
      }
      assert run[..i] == front[..i];
    } else {
      i := |front|;
    }
  }

  /** Every "empty" answer had a moment, inside the call that gave it, when the queue was empty. */
  lemma EmptyAnswers(s: State, run: seq<Action>, t: nat) returns (i: nat)
    requires Init(s) && ThreadsOf(s, run) && LegalRun(s, run)
    requires HasThread(s, t) && t < |Exec(s, run).pcs|
    requires Exec(s, run).pcs[t].PopDone? && Exec(s, run).pcs[t].popped.None?
    ensures EmptyAt(s, run, t, i)
  {
    EmptyRemembered(s, run, t);
    i := LastRise(s, run, (x: State) => t < |x.pcs| && SawEmpty(x.pcs[t]));
    RiseOfEmpty(s, run, t, i);
  }

  lemma EmptyRemembered(s: State, run: seq<Action>, t: nat)
    requires Init(s) && ThreadsOf(s, run) && LegalRun(s, run) && t < |Exec(s, run).pcs|
    requires Exec(s, run).pcs[t].PopDone? && Exec(s, run).pcs[t].popped.None?
    ensures SawEmpty(Exec(s, run).pcs[t])
  {
    InvFromInit(s, run);
    EmptyIsSeen(Exec(s, run), t);
  }

  lemma InvFromInit(s: State, run: seq<Action>)
    requires Init(s) && ThreadsOf(s, run) && LegalRun(s, run)
    ensures Inv(Exec(s, run))
  {
    assert Inv(s) by { InitInv(s); }
    RunInv(s, run);
  }

  lemma EmptyIsSeen(e: State, t: nat)
    requires ThreadsInv(e.mem, e.pcs) && t < |e.pcs| && e.pcs[t].PopDone? && e.pcs[t].popped.None?
    ensures SawEmpty(e.pcs[t])
  {
    assert ThreadInv(e.mem, t, e.pcs[t]);
  }

  lemma RiseOfEmpty(s: State, run: seq<Action>, t: nat, i: nat)
    requires ThreadsOf(s, run) && HasThread(s, t) && i < |run|
    requires !(t < |StateAt(s, run, i).pcs| && SawEmpty(StateAt(s, run, i).pcs[t]))
    requires t < |StateAt(s, run, i + 1).pcs| && SawEmpty(StateAt(s, run, i + 1).pcs[t])
    ensures HasThread(StateAt(s, run, i), t) && LoadsEmpty(StateAt(s, run, i), run[i], t)
  {
    StateNext(s, run, i);
    SameThreads(StateAt(s, run, i), run[i]);
    SawEmptyStep(StateAt(s, run, i), run[i], t);
  }

  // --------------------------------------------------------- conservation

  /** Pushes linked but not yet counted, and pops unlinked but not yet uncounted. */
  function LengthDebt(pc: Pc): int {
    if pc.PushReloadTail? || pc.PushSwing? || pc.PushAddLength? then -1
    else if pc.PopCallRelease? || pc.PopRelease? || pc.PopSubLength? then 1
    else 0
  }

  ghost predicate LengthInv(s: State) {
    s.length == |Items(s.mem)| + Sum(s.pcs, LengthDebt)
  }

  predicate LengthMoves(s: State, a: Action)
    requires HasThread(s, a.tid)
  {
    var s' := Apply(s, a);
    && |s'.pcs| == |s.pcs| && s'.pcs == s.pcs[a.tid := s'.pcs[a.tid]]
    && s'.length - s.length ==
       |Linked(s, a)| - |Taken(s, a)| + LengthDebt(s'.pcs[a.tid]) - LengthDebt(s.pcs[a.tid])
  }

  lemma LengthMovesPush(s: State, a: Action)
    requires HasThread(s, a.tid) && ThreadInv(s.mem, a.tid, s.pcs[a.tid]) && IsPush(s.pcs[a.tid])
    ensures LengthMoves(s, a)
  {
  }

  lemma LengthMovesPop(s: State, a: Action)
    requires HasThread(s, a.tid) && ThreadInv(s.mem, a.tid, s.pcs[a.tid]) && !IsPush(s.pcs[a.tid])
    ensures LengthMoves(s, a)
  {
  }

  lemma LengthStep(s: State, a: Action)
    requires Inv(s) && Windows(s) && Legal(s, a) && LengthInv(s)
    ensures LengthInv(Apply(s, a))
  {
    assert ThreadInv(s.mem, a.tid, s.pcs[a.tid]);
    if IsPush(s.pcs[a.tid]) {
      LengthMovesPush(s, a);
    } else {
      LengthMovesPop(s, a);
    }
    StepItems(s, a);
    SumUpdate(s.pcs, a.tid, Apply(s, a).pcs[a.tid], LengthDebt);
    assert |Items(s.mem) + Linked(s, a)| == |Taken(s, a) + Items(Apply(s, a).mem)|;
  }

  lemma {:induction false} RunLength(s: State, run: seq<Action>)
    requires Inv(s) && LengthInv(s) && ThreadsOf(s, run) && LegalRun(s, run)
    ensures LengthInv(Exec(s, run))
    decreases |run|
  {
    if run != [] {
      var s' := Apply(s, run[0]);
      assert Inv(s') by { ApplyInv(s, run[0]); }
      RestIsLegal(s, run, s');
      assert LengthInv(s') by { LengthStep(s, run[0]); }
      RunLength(s', run[1..]);
    }
  }

  /** When every call has returned, `length` is exact and no slot has leaked: each is on the chain or on the free list. */
  lemma Quiescent(s: State, run: seq<Action>)
    requires Init(s) && ThreadsOf(s, run) && LegalRun(s, run)
    requires forall t :: 0 <= t < |Exec(s, run).pcs| ==> Exec(s, run).pcs[t] == Idle
    ensures Exec(s, run).length == |Items(Exec(s, run).mem)|
    ensures var m := Exec(s, run).mem; |m.pool.stack| + |m.chain| == |m.pool.inc|
  {
    var e := Exec(s, run);
    assert Inv(s) by { InitInv(s); }
    assert LengthInv(s) by { SumZero(s.pcs, LengthDebt); }
    assert LengthInv(e) by { RunLength(s, run); }
    assert Inv(e) by { RunInv(s, run); }
    QuiescentLength(e);
    QuiescentSlots(e);
  }

  lemma QuiescentLength(e: State)
    requires LengthInv(e) && forall t :: 0 <= t < |e.pcs| ==> e.pcs[t] == Idle
    ensures e.length == |Items(e.mem)|
  {
    SumZero(e.pcs, LengthDebt);
  }

  lemma QuiescentSlots(e: State)
    requires Inv(e) && forall t :: 0 <= t < |e.pcs| ==> e.pcs[t] == Idle
    ensures |e.mem.pool.stack| + |e.mem.chain| == |e.mem.pool.inc|
  {
    var m := e.mem;
    forall t | 0 <= t < |m.pool.pcs|
      ensures m.pool.pcs[t] == P.Idle
    {
      assert ThreadInv(m, t, e.pcs[t]);
    }
    R.QuiescentSlots(m.pool);
    forall x: nat | x < |m.pool.inc|
      ensures x in R.SlotsInUse(m.pool) <==> x in Elements(m.chain)
    {
      R.SlotPartition(m.pool, x);
      assert RoleActive(e.pcs, x, m.role[x]);
    }
    assert R.SlotsInUse(m.pool) == Elements(m.chain);
    ElementCount(m.chain);
  }

  // -------------------------------------------------------- re-encoding

  /** Wherever the queue decodes a handle and encodes it again, it gets the same word back. */
  lemma ReencodingIsIdentity(s: State, t: nat)
    requires Inv(s) && Windows(s) && t < |s.pcs|
    ensures s.pcs[t].PushSwing? ==> Relive(s.pcs[t].node) == s.pcs[t].node
    ensures s.pcs[t].PopHelp? && SameWord(s.mem.tail, s.pcs[t].tail) ==> Relive(s.pcs[t].next) == s.pcs[t].next
    ensures s.pcs[t].PopCas? && SameWord(s.mem.head, s.pcs[t].head) ==> Relive(s.pcs[t].next) == s.pcs[t].next
    ensures !s.pcs[t].PushHelp?
  {
    assert HeadWindow(s.mem, s.pcs[t]);
    NodesAreLive(s.mem, t, s.pcs[t]);
    if s.pcs[t].PopHelp? && SameWord(s.mem.tail, s.pcs[t].tail) {
      HelpFacts(s, t);
    } else if s.pcs[t].PopCas? && SameWord(s.mem.head, s.pcs[t].head) {
      TakenNextIsLive(s, t);
    }
  }

  lemma NodesAreLive(m: Memory, t: nat, pc: Pc)
    requires ThreadInv(m, t, pc)
    ensures !pc.PushHelp? && (pc.PushSwing? ==> Relive(pc.node) == pc.node)
  {
  }

  lemma TakenNextIsLive(s: State, t: nat)
    requires Inv(s) && t < |s.pcs| && s.pcs[t].PopCas? && HeadWindow(s.mem, s.pcs[t])
    requires SameWord(s.mem.head, s.pcs[t].head)
    ensures Relive(s.pcs[t].next) == s.pcs[t].next
  {
    UnlinkFacts(s, t);
  }
}
