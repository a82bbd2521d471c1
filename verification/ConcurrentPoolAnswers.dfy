/** What a concurrent `anam_release` answers, in every run. */
module ConcurrentPoolAnswers {
  import opened Lists
  import opened TaggedHandles
  import opened ConcurrentPool
  import opened ConcurrentPoolRuns

  /** Thread `t` does not return from its call during the run. */
  ghost predicate StaysIn(run: seq<Action>, t: nat) {
    forall i :: 0 <= i < |run| ==> run[i] != Return(t)
  }

  /** The release has passed its check. */
  predicate Committed(pc: Pc) {
    pc.ReleaseStoreGen? || pc.ReleaseLoadHead? || pc.ReleaseStoreNext? || pc.ReleaseCas? ||
    pc.ReleaseAddFree? || pc.ReleaseAddCount? || pc == ReleaseDone(true)
  }

  lemma DecidedStep(s: State, a: Action, t: nat)
    requires a.tid < |s.pcs| && t < |s.pcs| && a != Return(t)
    ensures |Apply(s, a).pcs| == |s.pcs|
    ensures Committed(s.pcs[t]) ==> Committed(Apply(s, a).pcs[t])
    ensures s.pcs[t] == ReleaseDone(false) ==> Apply(s, a).pcs[t] == ReleaseDone(false)
  {
    if a.tid != t {
      OthersDoNotSee(s, a, t);
    } else if a.Run? && Committed(s.pcs[t]) {
      CommittedMoves(s, t, a.spurious);
    }
  }

  lemma CommittedMoves(s: State, t: nat, spurious: bool)
    requires t < |s.pcs| && Committed(s.pcs[t])
    ensures |Step(s, t, spurious).pcs| == |s.pcs| && Committed(Step(s, t, spurious).pcs[t])
  {
  }

  /** The check decides: whatever the other threads do afterwards, lawful or not, the answer is fixed. */
  lemma {:induction false} CheckDecides(s: State, run: seq<Action>, t: nat)
    requires ThreadsOf(s, run) && StaysIn(run, t) && t < |s.pcs|
    ensures |Exec(s, run).pcs| == |s.pcs|
    ensures Committed(s.pcs[t]) ==> Committed(Exec(s, run).pcs[t])
    ensures s.pcs[t] == ReleaseDone(false) ==> Exec(s, run).pcs[t] == ReleaseDone(false)
    decreases |run|
  {
    if run != [] {
      var s' := Apply(s, run[0]);
      Unfold(s, run, s');
      DecidedStep(s, run[0], t);
      CheckDecides(s', run[1..], t);
    }
  }

  // --------------------------------------------------------- lawful releases

  /** Where a release of `h` stands; `current` says whether `h` was of the current incarnation at the call. */
  predicate Stands(s: State, t: nat, h: Handle, current: bool) {
    && t < |s.pcs|
    && (if s.pcs[t].ReleaseCheck?
        then s.pcs[t].handle == h && h.Handle? && h.slot < |s.inc| && (current <==> h.inc == s.inc[h.slot])
        else if current then Committed(s.pcs[t]) else s.pcs[t] == ReleaseDone(false))
  }

  /** While the handle being checked is current, nobody else can retire it; once it is stale it stays stale. */
  lemma OthersKeepCheck(s: State, a: Action, s': State, t: nat, h: Handle)
    requires Inv(s) && Legal(s, a) && s' == Apply(s, a) && t < |s.pcs| == |s'.pcs|
    requires a.tid != t && s.pcs[t] == ReleaseCheck(h)
    ensures h.Handle? && h.slot < |s.inc| == |s'.inc| && s'.pcs[t] == s.pcs[t]
    ensures h.inc == s.inc[h.slot] <==> h.inc == s'.inc[h.slot]
  {
    OthersDoNotSee(s, a, t);
    assert ThreadInv(s, t, s.pcs[t]);
    assert ThreadInv(s, a.tid, s.pcs[a.tid]);
    StepOwnership(s, a, h.slot);
    if AcceptsRelease(s, a, h.slot) {
      assert Releases(s.pcs[t], h.slot, h.inc);
      assert Releases(s.pcs[a.tid], h.slot, s.pcs[a.tid].inc);
    }
  }

  lemma StandsStep(s: State, a: Action, t: nat, h: Handle, current: bool)
    requires Inv(s) && Windows(s) && Legal(s, a) && a != Return(t) && Stands(s, t, h, current)
    ensures Stands(Apply(s, a), t, h, current)
  {
    DecidedStep(s, a, t);
    if s.pcs[t].ReleaseCheck? {
      if a.tid != t {
        OthersKeepCheck(s, a, Apply(s, a), t, h);
      } else {
        assert ThreadInv(s, t, s.pcs[t]);
        assert ReleaseWindow(s, s.pcs[t]);
      }
    }
  }

  lemma {:induction false} StandsRun(s: State, run: seq<Action>, t: nat, h: Handle, current: bool)
    requires Inv(s) && ThreadsOf(s, run) && LegalRun(s, run) && StaysIn(run, t) && Stands(s, t, h, current)
    ensures Stands(Exec(s, run), t, h, current)
    decreases |run|
  {
    if run != [] {
      var s' := Apply(s, run[0]);
      Unfold(s, run, s');
      assert Stands(s', t, h, current) by { StandsStep(s, run[0], t, h, current); }
      assert Inv(s') by { ApplyInv(s, run[0]); }
      StandsRun(s', run[1..], t, h, current);
    }
  }

  /**
   What a release answers. In every run under the hypotheses, a release of `h` that is
   called in state `s` and has come to its answer answers true if and only if `h` was in
   use at the call: of its slot's current incarnation, that is, not released before. So
   every double free answers false, whatever other threads do meanwhile.
   */
  lemma ReleaseAnswers(o: State, before: seq<Action>, s: State, t: nat, h: Handle, after: seq<Action>)
    requires Init(o) && ThreadsOf(o, before) && LegalRun(o, before) && s == Exec(o, before)
    requires ThreadsOf(s, [CallRelease(t, h)] + after) && LegalRun(s, [CallRelease(t, h)] + after)
    requires s.pcs[t] == Idle && StaysIn(after, t)
    ensures h.Handle? && h.slot < |s.inc| && h.live
    ensures ThreadsOf(Apply(s, CallRelease(t, h)), after)
    ensures var e := Exec(Apply(s, CallRelease(t, h)), after);
            t < |e.pcs| && (e.pcs[t].ReleaseDone? ==> (e.pcs[t].ok <==> h.inc == s.inc[h.slot] && InUse(s, h.slot)))
  {
    var run := [CallRelease(t, h)] + after;
    assert run[0] == CallRelease(t, h) && run[1..] == after;
    assert Inv(s) by {
      InitInv(o);
      RunInv(o, before);
    }
    assert Issued(s, h);
    var s' := Apply(s, CallRelease(t, h));
    assert Inv(s') by { ApplyInv(s, CallRelease(t, h)); }
    StandsRun(s', after, t, h, h.inc == s.inc[h.slot]);
  }

  // ------------------------------------------------------- counted answers

  /** The allocation holds a handle it has yet to return. */
  function HandleReady(pc: Pc): int {
    if pc.AllocDone? && pc.result.Handle? then 1 else 0
  }

  /** The release has yet to return true. */
  function TrueReady(pc: Pc): int {
    if pc == ReleaseDone(true) then 1 else 0
  }

  /** The calls of the run that returned a handle. */
  ghost function HandlesReturned(s: State, run: seq<Action>): int
    requires ThreadsOf(s, run)
    decreases |run|
  {
    if run == [] then 0
    else (if run[0].Return? then HandleReady(s.pcs[run[0].tid]) else 0) + HandlesReturned(Apply(s, run[0]), run[1..])
  }

  /** The calls of the run that returned true from a release. */
  ghost function TruesReturned(s: State, run: seq<Action>): int
    requires ThreadsOf(s, run)
    decreases |run|
  {
    if run == [] then 0
    else (if run[0].Return? then TrueReady(s.pcs[run[0].tid]) else 0) + TruesReturned(Apply(s, run[0]), run[1..])
  }

  lemma CountedStep(s: State, a: Action)
    requires a.tid < |s.pcs|
    ensures var s' := Apply(s, a); var pc, pc' := s.pcs[a.tid], s'.pcs[a.tid];
            && |s'.pcs| == |s.pcs| && s'.pcs == s.pcs[a.tid := pc']
            && s'.allocCount - HandleReady(pc') == s.allocCount - HandleReady(pc) + (if a.Return? then HandleReady(pc) else 0)
            && s'.releaseCount - TrueReady(pc') == s.releaseCount - TrueReady(pc) + (if a.Return? then TrueReady(pc) else 0)
  {
  }

  lemma CountedSums(s: State, a: Action, s': State)
    requires a.tid < |s.pcs| && s' == Apply(s, a)
    ensures s'.allocCount - Sum(s'.pcs, HandleReady) ==
            s.allocCount - Sum(s.pcs, HandleReady) + (if a.Return? then HandleReady(s.pcs[a.tid]) else 0)
    ensures s'.releaseCount - Sum(s'.pcs, TrueReady) ==
            s.releaseCount - Sum(s.pcs, TrueReady) + (if a.Return? then TrueReady(s.pcs[a.tid]) else 0)
  {
    CountedStep(s, a);
    SumUpdate(s.pcs, a.tid, s'.pcs[a.tid], HandleReady);
    SumUpdate(s.pcs, a.tid, s'.pcs[a.tid], TrueReady);
  }

  /**
   In every run, lawful or not, each total counts answers: `alloc_count` the handles
   returned or about to be, `release_count` the releases that returned true or are about to.
   */
  lemma {:induction false} TotalsCountAnswers(s: State, run: seq<Action>)
    requires ThreadsOf(s, run)
    ensures var e := Exec(s, run);
            && e.allocCount - Sum(e.pcs, HandleReady) == s.allocCount - Sum(s.pcs, HandleReady) + HandlesReturned(s, run)
            && e.releaseCount - Sum(e.pcs, TrueReady) == s.releaseCount - Sum(s.pcs, TrueReady) + TruesReturned(s, run)
    decreases |run|
  {
    if run != [] {
      var s' := Apply(s, run[0]);
      Unfold(s, run, s');
      CountedSums(s, run[0], s');
      TotalsCountAnswers(s', run[1..]);
    }
  }

  // ---------------------------------------------------- overlapping releases

  /** The state as it would be if thread `u` had not called. */
  function Without(s: State, u: nat): State
    requires u < |s.pcs|
  {
    s.(pcs := s.pcs[u := Idle])
  }

  ghost predicate AvoidsThread(run: seq<Action>, u: nat) {
    forall i :: 0 <= i < |run| ==> run[i].tid != u
  }

  lemma Swap(pcs: seq<Pc>, t: nat, u: nat, pc: Pc)
    requires t < |pcs| && u < |pcs| && t != u
    ensures pcs[t := pc][u := Idle] == pcs[u := Idle][t := pc]
  {
  }

  lemma AllocDoesNotSee(s: State, t: nat, spurious: bool, u: nat)
    requires t < |s.pcs| && u < |s.pcs| && t != u && !IsRelease(s.pcs[t])
    ensures |Step(s, t, spurious).pcs| == |s.pcs| && Step(s, t, spurious).pcs[u] == s.pcs[u]
    ensures Without(Step(s, t, spurious), u) == Step(Without(s, u), t, spurious)
  {
    Swap(s.pcs, t, u, Step(s, t, spurious).pcs[t]);
  }

  lemma ReleaseDoesNotSee(s: State, t: nat, spurious: bool, u: nat)
    requires t < |s.pcs| && u < |s.pcs| && t != u && IsRelease(s.pcs[t])
    ensures |Step(s, t, spurious).pcs| == |s.pcs| && Step(s, t, spurious).pcs[u] == s.pcs[u]
    ensures Without(Step(s, t, spurious), u) == Step(Without(s, u), t, spurious)
  {
    Swap(s.pcs, t, u, Step(s, t, spurious).pcs[t]);
  }

  lemma CallDoesNotSee(s: State, a: Action, u: nat)
    requires a.tid < |s.pcs| && u < |s.pcs| && a.tid != u && !a.Run?
    ensures |Apply(s, a).pcs| == |s.pcs| && Apply(s, a).pcs[u] == s.pcs[u]
    ensures Without(Apply(s, a), u) == Apply(Without(s, u), a)
  {
    Swap(s.pcs, a.tid, u, Apply(s, a).pcs[a.tid]);
  }

  /** A waiting release is invisible to the other threads. */
  lemma OthersDoNotSee(s: State, a: Action, u: nat)
    requires a.tid < |s.pcs| && u < |s.pcs| && a.tid != u
    ensures |Apply(s, a).pcs| == |s.pcs| && Apply(s, a).pcs[u] == s.pcs[u]
    ensures Without(Apply(s, a), u) == Apply(Without(s, u), a)
  {
    if !a.Run? {
      CallDoesNotSee(s, a, u);
    } else if IsRelease(s.pcs[a.tid]) {
      ReleaseDoesNotSee(s, a.tid, a.spurious, u);
    } else {
      AllocDoesNotSee(s, a.tid, a.spurious, u);
    }
  }

  /** Thread `t` has a release of `h` under way; thread `u` has called the same release and not yet checked. */
  ghost predicate Overlaps(s: State, t: nat, u: nat, h: Handle) {
    && t < |s.pcs| && u < |s.pcs| && t != u && s.pcs[u] == ReleaseCheck(h)
    && Inv(Without(s, u)) && InRange(s, h) && h.inc <= s.inc[h.slot]
    && (Releases(s.pcs[t], h.slot, h.inc) <==> h.inc == s.inc[h.slot])
  }

  /** The release under way ends with its store: before it `h` is current, after it `h` is stale. */
  lemma OwnStore(s: State, a: Action, t: nat, h: Handle)
    requires Inv(s) && Legal(s, a) && a.tid == t && InRange(s, h)
    requires Releases(s.pcs[t], h.slot, h.inc) <==> h.inc == s.inc[h.slot]
    requires a.CallRelease? ==> a.handle.Handle? && !(a.handle.slot == h.slot && a.handle.inc == h.inc)
    ensures var s' := Apply(s, a);
            |s'.inc| == |s.inc| && |s'.pcs| == |s.pcs| &&
            (h.inc <= s.inc[h.slot] ==> (Releases(s'.pcs[t], h.slot, h.inc) <==> h.inc == s'.inc[h.slot]))
  {
    assert ThreadInv(s, t, s.pcs[t]);
    StepOwnership(s, a, h.slot);
  }

  lemma OtherStore(s: State, a: Action, t: nat, h: Handle)
    requires Inv(s) && Legal(s, a) && a.tid != t && t < |s.pcs| && InRange(s, h)
    requires Releases(s.pcs[t], h.slot, h.inc) <==> h.inc == s.inc[h.slot]
    ensures var s' := Apply(s, a);
            |s'.inc| == |s.inc| && |s'.pcs| == |s.pcs| && s'.pcs[t] == s.pcs[t] &&
            (h.inc <= s.inc[h.slot] ==> (Releases(s'.pcs[t], h.slot, h.inc) <==> h.inc == s'.inc[h.slot]))
  {
    assert ThreadInv(s, a.tid, s.pcs[a.tid]);
    StepOwnership(s, a, h.slot);
    OthersDoNotSee(s, a, t);
    if AcceptsRelease(s, a, h.slot) && Releases(s.pcs[t], h.slot, h.inc) {
      assert Releases(s.pcs[a.tid], h.slot, h.inc);
    }
  }

  lemma StoreEndsRelease(s: State, a: Action, t: nat, u: nat, h: Handle)
    requires Overlaps(s, t, u, h) && Legal(s, a) && a.tid != u
    ensures var s' := Apply(s, a);
            && |s'.inc| == |s.inc| && |s'.pcs| == |s.pcs| && h.inc <= s'.inc[h.slot]
            && (Releases(s'.pcs[t], h.slot, h.inc) <==> h.inc == s'.inc[h.slot])
  {
    var w := Without(s, u);
    assert Legal(w, a);
    OthersDoNotSee(s, a, u);
    StepOwnership(w, a, h.slot);
    assert Releases(s.pcs[u], h.slot, h.inc);
    if a.tid == t {
      OwnStore(w, a, t, h);
    } else {
      OtherStore(w, a, t, h);
    }
  }

  lemma OverlapsStep(s: State, a: Action, t: nat, u: nat, h: Handle)
    requires Overlaps(s, t, u, h) && Windows(s) && Legal(s, a) && a.tid != u
    ensures Overlaps(Apply(s, a), t, u, h)
  {
    var w := Without(s, u);
    OthersDoNotSee(s, a, u);
    StoreEndsRelease(s, a, t, u, h);
    assert AllocWindow(s, s.pcs[a.tid]) && ReleaseWindow(s, s.pcs[a.tid]);
    assert Legal(w, a);
    ApplyInv(w, a);
  }

  lemma {:induction false} OverlapsRun(s: State, run: seq<Action>, t: nat, u: nat, h: Handle)
    requires Overlaps(s, t, u, h) && ThreadsOf(s, run) && LegalRun(s, run) && AvoidsThread(run, u)
    ensures Overlaps(Exec(s, run), t, u, h)
    decreases |run|
  {
    if run != [] {
      var s' := Apply(s, run[0]);
      Unfold(s, run, s');
      assert Overlaps(s', t, u, h) by { OverlapsStep(s, run[0], t, u, h); }
      OverlapsRun(s', run[1..], t, u, h);
    }
  }

  lemma OverlapStarts(s: State, t: nat, u: nat, h: Handle)
    requires Inv(s) && t < |s.pcs| && u < |s.pcs| && t != u && s.pcs[u] == Idle && h in s.issued
    requires Releases(s.pcs[t], h.slot, h.inc) && h.inc == s.inc[h.slot]
    ensures !Legal(s, CallRelease(u, h)) && Overlaps(Apply(s, CallRelease(u, h)), t, u, h)
  {
    assert Issued(s, h);
    var s' := Apply(s, CallRelease(u, h));
    assert Without(s', u) == s by { assert s'.pcs[u := Idle] == s.pcs; }
  }

  /**
   What the hypothesis excludes, exactly: thread `u` calls the release of a handle whose
   release by `t` is under way, checks in state `e` and goes on while others do anything.
   Its release answers true if and only if `t` had not yet stored the next generation at
   the check. Up to the check everything but that one call is lawful.
   */
  lemma OverlappingReleaseAnswers(s: State, t: nat, u: nat, h: Handle, before: seq<Action>, e: State,
                                  spurious: bool, after: seq<Action>)
    requires Inv(s) && t < |s.pcs| && u < |s.pcs| && t != u && s.pcs[u] == Idle && h in s.issued && h.Handle?
    requires h.slot < |s.inc| && Releases(s.pcs[t], h.slot, h.inc) && h.inc == s.inc[h.slot]
    requires ThreadsOf(s, before) && ThreadsOf(Apply(s, CallRelease(u, h)), before)
    requires LegalRun(Apply(s, CallRelease(u, h)), before) && AvoidsThread(before, u)
    requires e == Exec(Apply(s, CallRelease(u, h)), before)
    requires u < |e.pcs| && ThreadsOf(Apply(e, Run(u, spurious)), after) && StaysIn(after, u)
    ensures !Legal(s, CallRelease(u, h)) && t < |e.pcs|
    ensures var f := Exec(Apply(e, Run(u, spurious)), after);
            u < |f.pcs| && (f.pcs[u].ReleaseDone? ==> (f.pcs[u].ok <==> Releases(e.pcs[t], h.slot, h.inc)))
  {
    var s' := Apply(s, CallRelease(u, h));
    OverlapStarts(s, t, u, h);
    OverlapsRun(s', before, t, u, h);
    assert ReleaseWindow(e, e.pcs[u]) by { RunWindows(s', before); }
    OverlapCheck(e, t, u, h, spurious);
    CheckDecides(Apply(e, Run(u, spurious)), after, u);
  }

  lemma OverlapCheck(e: State, t: nat, u: nat, h: Handle, spurious: bool)
    requires Overlaps(e, t, u, h) && ReleaseWindow(e, e.pcs[u])
    ensures var c := Apply(e, Run(u, spurious));
            |c.pcs| == |e.pcs| &&
            if Releases(e.pcs[t], h.slot, h.inc) then Committed(c.pcs[u]) else c.pcs[u] == ReleaseDone(false)
  {
  }
}
