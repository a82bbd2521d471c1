/** What becomes of a node after a pop has taken it, over whole runs. */
module ConcurrentQueueRecycling {
  import opened TaggedHandles
  import opened ConcurrentQueue
  import opened ConcurrentQueueSteps
  import opened ConcurrentQueueRuns
  import P = ConcurrentPool

  // --------------------------------------------------------- states of a run

  lemma {:induction false} LegalPrefix(s: State, run: seq<Action>, i: nat)
    requires ThreadsOf(s, run) && LegalRun(s, run) && i <= |run|
    ensures ThreadsOf(s, run[..i]) && LegalRun(s, run[..i])
    decreases |run|
  {
    if i > 0 {
      var s' := Apply(s, run[0]);
      RestIsLegal(s, run, s');
      LegalPrefix(s', run[1..], i - 1);
      assert run[..i][1..] == run[1..][..i - 1];
    }
  }

  lemma {:induction false} EndsLegally(s: State, run: seq<Action>)
    requires ThreadsOf(s, run) && LegalRun(s, run)
    ensures Windows(Exec(s, run))
    decreases |run|
  {
    if run != [] {
      var s' := Apply(s, run[0]);
      RestIsLegal(s, run, s');
      EndsLegally(s', run[1..]);
    }
  }

  lemma {:induction false} LegalAt(s: State, run: seq<Action>, i: nat)
    requires ThreadsOf(s, run) && LegalRun(s, run) && i < |run|
    ensures Legal(StateAt(s, run, i), run[i])
    decreases |run|
  {
    var s' := Apply(s, run[0]);
    RestIsLegal(s, run, s');
    if i == 0 {
      assert run[..0] == [];
    } else {
      LegalAt(s', run[1..], i - 1);
      assert run[..i][1..] == run[1..][..i - 1];
    }
  }

  /** In a legal run from creation, every state satisfies the invariant and every step is legal. */
  lemma GoodAt(s: State, run: seq<Action>, i: nat)
    requires Init(s) && ThreadsOf(s, run) && LegalRun(s, run) && i < |run|
    ensures Inv(StateAt(s, run, i)) && Windows(StateAt(s, run, i)) && Legal(StateAt(s, run, i), run[i])
    ensures StateAt(s, run, i + 1) == Apply(StateAt(s, run, i), run[i])
  {
    LegalPrefix(s, run, i);
    InvFromInit(s, run[..i]);
    EndsLegally(s, run[..i]);
    LegalAt(s, run, i);
    StateNext(s, run, i);
  }

  // -------------------------------------------------- who releases a node

  /** Thread `t` has taken node `h` off the chain and has not yet stored its next generation. */
  predicate RetiredBy(m: Memory, t: nat, h: Handle) {
    Ok(m, h) && h.live && m.role[h.slot] == Retired(t) && m.pool.inc[h.slot] == h.inc
  }

  /** Thread `t` is about to store the next generation of `h`. */
  predicate StoresNext(s: State, t: nat, h: Handle) {
    && HasThread(s, t) && h.Handle? && s.pcs[t].PopRelease? && s.pcs[t].head == h
    && s.mem.pool.pcs[t] == P.ReleaseStoreGen(h.slot, h.inc)
  }

  /** After the step, thread `t` still has the node, or has just stored its next generation. */
  predicate StaysRetired(s: State, s': State, a: Action, t: nat, h: Handle) {
    RetiredBy(s'.mem, t, h) || (a.Run? && a.tid == t && StoresNext(s, t, h))
  }

  lemma PushKeepsRetired(s: State, u: nat, spurious: bool, t: nat, h: Handle)
    requires HasThread(s, u) && IsPush(s.pcs[u]) && ThreadInv(s.mem, u, s.pcs[u]) && Sizes(s.mem) && RolesInv(s.mem)
    requires P.Shape(s.mem.pool) && P.ThreadInv(s.mem.pool, u, s.mem.pool.pcs[u]) && RetiredBy(s.mem, t, h)
    ensures RetiredBy(PushStep(s, u, spurious).mem, t, h)
  {
  }

  lemma PopKeepsRetired(s: State, u: nat, spurious: bool, t: nat, h: Handle)
    requires HasThread(s, u) && !IsPush(s.pcs[u]) && ThreadInv(s.mem, u, s.pcs[u]) && Sizes(s.mem)
    requires !s.pcs[u].PopRelease? && !s.pcs[u].PopCallRelease? && RetiredBy(s.mem, t, h)
    requires s.pcs[u].PopCas? && SameWord(s.mem.head, s.pcs[u].head) ==> OnChain(s.mem, s.pcs[u].head)
    ensures RetiredBy(PopStep(s, u, spurious).mem, t, h)
  {
  }

  lemma ReleaseKeepsRetired(s: State, u: nat, spurious: bool, t: nat, h: Handle)
    requires HasThread(s, u) && (s.pcs[u].PopRelease? || s.pcs[u].PopCallRelease?)
    requires ThreadInv(s.mem, u, s.pcs[u]) && Sizes(s.mem) && P.Shape(s.mem.pool) && RetiredBy(s.mem, t, h)
    ensures StaysRetired(s, PopStep(s, u, spurious), Run(u, spurious), t, h)
  {
  }

  lemma RetiredStep(s: State, a: Action, t: nat, h: Handle)
    requires Inv(s) && Windows(s) && Legal(s, a) && RetiredBy(s.mem, t, h)
    ensures StaysRetired(s, Apply(s, a), a, t, h)
  {
    assert ThreadInv(s.mem, a.tid, s.pcs[a.tid]);
    assert P.ThreadInv(s.mem.pool, a.tid, s.mem.pool.pcs[a.tid]);
    if a.Run? {
      if IsPush(s.pcs[a.tid]) {
        PushKeepsRetired(s, a.tid, a.spurious, t, h);
      } else if s.pcs[a.tid].PopRelease? || s.pcs[a.tid].PopCallRelease? {
        ReleaseKeepsRetired(s, a.tid, a.spurious, t, h);
      } else {
        if s.pcs[a.tid].PopCas? && SameWord(s.mem.head, s.pcs[a.tid].head) {
          UnlinkFacts(s, a.tid);
        }
        PopKeepsRetired(s, a.tid, a.spurious, t, h);
      }
    }
  }

  lemma PushKeepsIncarnations(s: State, t: nat, spurious: bool)
    requires HasThread(s, t) && IsPush(s.pcs[t]) && ThreadInv(s.mem, t, s.pcs[t])
    ensures PushStep(s, t, spurious).mem.pool.inc == s.mem.pool.inc
  {
  }

  lemma PopGrowsIncarnations(s: State, t: nat, spurious: bool, x: nat)
    requires HasThread(s, t) && !IsPush(s.pcs[t]) && ThreadInv(s.mem, t, s.pcs[t]) && x < |s.mem.pool.inc|
    requires P.ThreadInv(s.mem.pool, t, s.mem.pool.pcs[t])
    ensures |PopStep(s, t, spurious).mem.pool.inc| == |s.mem.pool.inc|
    ensures s.mem.pool.inc[x] <= PopStep(s, t, spurious).mem.pool.inc[x]
  {
  }

  /** Incarnations only go up. */
  lemma IncarnationsGrow(s: State, a: Action, x: nat)
    requires Inv(s) && HasThread(s, a.tid) && x < |s.mem.pool.inc|
    ensures |Apply(s, a).mem.pool.inc| == |s.mem.pool.inc| && s.mem.pool.inc[x] <= Apply(s, a).mem.pool.inc[x]
  {
    assert ThreadInv(s.mem, a.tid, s.pcs[a.tid]);
    assert P.ThreadInv(s.mem.pool, a.tid, s.mem.pool.pcs[a.tid]);
    if a.Run? && IsPush(s.pcs[a.tid]) {
      PushKeepsIncarnations(s, a.tid, a.spurious);
    } else if a.Run? {
      PopGrowsIncarnations(s, a.tid, a.spurious, x);
    }
  }

  /** At step `i` the pop of thread `t` takes node `h` off the chain. */
  ghost predicate TakesNode(s: State, run: seq<Action>, i: nat, t: nat, h: Handle)
    requires ThreadsOf(s, run)
  {
    && i < |run| && run[i].tid == t && HasThread(StateAt(s, run, i), t)
    && Takes(StateAt(s, run, i), run[i]) && StateAt(s, run, i).pcs[t].head == h
  }

  /** Since it was taken, node `h` is retired by `t`, or its incarnation is over. */
  predicate TakenOff(m: Memory, t: nat, h: Handle) {
    RetiredBy(m, t, h) || (h.Handle? && h.slot < |m.pool.inc| && h.inc < m.pool.inc[h.slot])
  }

  lemma TakesRetires(s: State, a: Action, h: Handle)
    requires Inv(s) && Windows(s) && Legal(s, a) && Takes(s, a) && s.pcs[a.tid].head == h
    ensures RetiredBy(Apply(s, a).mem, a.tid, h)
  {
    ExchangeSucceeds(s, a);
    assert HeadWindow(s.mem, s.pcs[a.tid]);
    UnlinkFacts(s, a.tid);
  }

  lemma StoreAdvances(s: State, t: nat, spurious: bool, h: Handle)
    requires Inv(s) && StoresNext(s, t, h)
    ensures TakenOff(Apply(s, Run(t, spurious)).mem, t, h)
  {
    assert ThreadInv(s.mem, t, s.pcs[t]);
  }

  lemma TakenOffStep(s: State, a: Action, t: nat, h: Handle)
    requires Inv(s) && Windows(s) && Legal(s, a) && TakenOff(s.mem, t, h)
    ensures TakenOff(Apply(s, a).mem, t, h)
  {
    if RetiredBy(s.mem, t, h) {
      RetiredStep(s, a, t, h);
      if !RetiredBy(Apply(s, a).mem, t, h) {
        StoreAdvances(s, t, a.spurious, h);
      }
    } else {
      IncarnationsGrow(s, a, h.slot);
    }
  }

  lemma TakenOffRun(s: State, run: seq<Action>, i: nat, j: nat, t: nat, h: Handle)
    requires Init(s) && ThreadsOf(s, run) && LegalRun(s, run) && TakesNode(s, run, i, t, h) && i < j <= |run|
    ensures TakenOff(StateAt(s, run, j).mem, t, h)
  {
    TakenOffFirst(s, run, i, t, h);
    forall n | i + 1 <= n < j && TakenOff(StateAt(s, run, n).mem, t, h)
      ensures TakenOff(StateAt(s, run, n + 1).mem, t, h)
    {
      TakenOffNext(s, run, n, t, h);
    }
    Persists(s, run, i + 1, j, (x: State) => TakenOff(x.mem, t, h));
  }

  lemma TakenOffFirst(s: State, run: seq<Action>, i: nat, t: nat, h: Handle)
    requires Init(s) && ThreadsOf(s, run) && LegalRun(s, run) && TakesNode(s, run, i, t, h)
    ensures TakenOff(StateAt(s, run, i + 1).mem, t, h)
  {
    GoodAt(s, run, i);
    TakesRetires(StateAt(s, run, i), run[i], h);
  }

  lemma TakenOffNext(s: State, run: seq<Action>, n: nat, t: nat, h: Handle)
    requires Init(s) && ThreadsOf(s, run) && LegalRun(s, run) && n < |run| && TakenOff(StateAt(s, run, n).mem, t, h)
    ensures TakenOff(StateAt(s, run, n + 1).mem, t, h)
  {
    GoodAt(s, run, n);
    TakenOffStep(StateAt(s, run, n), run[n], t, h);
  }

  /**
   Only the pop that took a node ever releases that incarnation of it: in every legal run
   from creation, if thread `t` takes `h` at step `i`, then any later step that changes the
   generation of the slot while its incarnation is that of `h` is the store of the release
   that `t` called on `h`.
   */
  lemma ReleasedOnlyByTaker(s: State, run: seq<Action>, i: nat, t: nat, h: Handle, j: nat)
    requires Init(s) && ThreadsOf(s, run) && LegalRun(s, run) && TakesNode(s, run, i, t, h) && i < j < |run|
    ensures h.Handle? && h.slot < |StateAt(s, run, j).mem.pool.inc| == |StateAt(s, run, j + 1).mem.pool.inc|
    ensures var before, after := StateAt(s, run, j).mem.pool.inc[h.slot], StateAt(s, run, j + 1).mem.pool.inc[h.slot];
            h.inc <= before <= after &&
            (before == h.inc != after ==> run[j].Run? && run[j].tid == t && StoresNext(StateAt(s, run, j), t, h))
  {
    var m := StateAt(s, run, j);
    GoodAt(s, run, j);
    TakenOffRun(s, run, i, j, t, h);
    IncarnationsGrow(m, run[j], h.slot);
    if m.mem.pool.inc[h.slot] == h.inc {
      RetiredStep(m, run[j], t, h);
    }
  }
}
