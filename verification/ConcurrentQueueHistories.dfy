/** Histories of calls on the concurrent queue: what every answer stands for. */
module ConcurrentQueueHistories {
  import opened TaggedHandles
  import opened ConcurrentQueue
  import opened ConcurrentQueueRuns
  import opened ConcurrentQueueRecycling
  import P = ConcurrentPool

  // --------------------------------------------------- a push that fails

  /** The allocation of the push found no free slot. */
  predicate SawExhausted(s: State, t: nat) {
    HasThread(s, t) && (s.pcs[t] == PushDone(Null) || (s.pcs[t].PushAlloc? && s.mem.pool.pcs[t] == P.AllocDone(Null)))
  }

  /** Thread `t` loads the head of the free list while every slot is taken. */
  predicate LoadsExhausted(s: State, a: Action, t: nat) {
    a.Run? && a.tid == t && HasThread(s, t) && s.pcs[t].PushAlloc? && s.mem.pool.stack == []
  }

  lemma OthersKeepThread(s: State, a: Action, t: nat)
    requires HasThread(s, a.tid) && HasThread(s, t) && a.tid != t
    ensures HasThread(Apply(s, a), t)
    ensures Apply(s, a).pcs[t] == s.pcs[t] && Apply(s, a).mem.pool.pcs[t] == s.mem.pool.pcs[t]
  {
    if a.Run? && IsPush(s.pcs[a.tid]) {
      PushKeepsOthers(s, a.tid, a.spurious, t);
    } else if a.Run? {
      PopKeepsOthers(s, a.tid, a.spurious, t);
    }
  }

  lemma PushKeepsOthers(s: State, u: nat, spurious: bool, t: nat)
    requires HasThread(s, u) && HasThread(s, t) && u != t
    ensures HasThread(PushStep(s, u, spurious), t) && PushStep(s, u, spurious).pcs[t] == s.pcs[t]
    ensures PushStep(s, u, spurious).mem.pool.pcs[t] == s.mem.pool.pcs[t]
  {
  }

  lemma PopKeepsOthers(s: State, u: nat, spurious: bool, t: nat)
    requires HasThread(s, u) && HasThread(s, t) && u != t
    ensures HasThread(PopStep(s, u, spurious), t) && PopStep(s, u, spurious).pcs[t] == s.pcs[t]
    ensures PopStep(s, u, spurious).mem.pool.pcs[t] == s.mem.pool.pcs[t]
  {
  }

  lemma PushSawExhausted(s: State, t: nat, spurious: bool)
    requires HasThread(s, t) && IsPush(s.pcs[t]) && ThreadInv(s.mem, t, s.pcs[t])
    requires P.IsList(s.mem.pool.stack, s.mem.pool.inc, s.mem.pool.next, s.mem.pool.freeHead)
    requires !SawExhausted(s, t) && SawExhausted(PushStep(s, t, spurious), t)
    ensures s.pcs[t].PushAlloc? && s.mem.pool.stack == []
  {
  }

  lemma PopIsNoPush(s: State, t: nat, spurious: bool)
    requires HasThread(s, t) && !IsPush(s.pcs[t]) && !s.pcs[t].PushDone?
    ensures !SawExhausted(PopStep(s, t, spurious), t)
  {
  }

  lemma CallSeesNothing(s: State, a: Action)
    requires HasThread(s, a.tid) && !a.Run? && ThreadInv(s.mem, a.tid, s.pcs[a.tid]) && !SawExhausted(s, a.tid)
    ensures !SawExhausted(Apply(s, a), a.tid)
  {
  }

  lemma SawExhaustedStep(s: State, a: Action, t: nat)
    requires Inv(s) && HasThread(s, a.tid) && HasThread(s, t)
    requires !SawExhausted(s, t) && SawExhausted(Apply(s, a), t)
    ensures LoadsExhausted(s, a, t)
  {
    assert ThreadInv(s.mem, t, s.pcs[t]);
    if a.tid != t {
      OthersKeepThread(s, a, t);
    } else if a.Run? && IsPush(s.pcs[t]) {
      PushSawExhausted(s, t, a.spurious);
    } else if a.Run? {
      PopIsNoPush(s, t, a.spurious);
    } else {
      CallSeesNothing(s, a);
    }
  }

  /** At step `i` the push of thread `t` found every slot taken, and it has known that ever since. */
  ghost predicate ExhaustedAt(s: State, run: seq<Action>, t: nat, i: nat)
    requires ThreadsOf(s, run)
  {
    && i < |run| && LoadsExhausted(StateAt(s, run, i), run[i], t)
    && (forall j :: i < j <= |run| ==> SawExhausted(StateAt(s, run, j), t))
  }

  /** Every null answer of a push had a moment, inside the call that gave it, when no slot was free. */
  lemma FullAnswers(s: State, run: seq<Action>, t: nat) returns (i: nat)
    requires Init(s) && ThreadsOf(s, run) && LegalRun(s, run)
    requires HasThread(s, t) && HasThread(Exec(s, run), t) && Exec(s, run).pcs[t] == PushDone(Null)
    ensures ExhaustedAt(s, run, t, i)
  {
    i := LastRise(s, run, (x: State) => SawExhausted(x, t));
    GoodAt(s, run, i);
    StateNext(s, run, i);
    SawExhaustedStep(StateAt(s, run, i), run[i], t);
  }

  // -------------------------------------------------------- calls and answers

  /** The call of thread `t` that is under way at the end of the run began at step `c`. */
  ghost predicate CallFrom(s: State, run: seq<Action>, t: nat, c: nat)
    requires ThreadsOf(s, run)
  {
    && c < |run| && t < |StateAt(s, run, c).pcs| && StateAt(s, run, c).pcs[t] == Idle
    && (forall j :: c < j <= |run| ==> t < |StateAt(s, run, j).pcs| && StateAt(s, run, j).pcs[t] != Idle)
  }

  lemma CallBegins(s: State, run: seq<Action>, t: nat) returns (c: nat)
    requires ThreadsOf(s, run) && HasThread(s, t) && s.pcs[t] == Idle
    requires t < |Exec(s, run).pcs| && Exec(s, run).pcs[t] != Idle
    ensures CallFrom(s, run, t, c)
  {
    c := LastRise(s, run, (x: State) => t < |x.pcs| && x.pcs[t] != Idle);
    StateNext(s, run, c);
  }

  /** Thread `t` can go from `m` to a state inside the same call by `a`. */
  predicate Inside(m: State, a: Action, t: nat) {
    HasThread(m, a.tid) && HasThread(m, t) && HasThread(Apply(m, a), t) && Apply(m, a).pcs[t] != Idle
  }

  ghost predicate KeptInside(f: Pc -> bool, t: nat) {
    forall m: State, a: Action :: Inside(m, a, t) && f(m.pcs[t]) ==> f(Apply(m, a).pcs[t])
  }

  /** A fact about where `t` stands that every step inside a call keeps holds to the end of the call. */
  lemma KeptInCall(s: State, run: seq<Action>, t: nat, c: nat, i: nat, j: nat, f: Pc -> bool)
    requires ThreadsOf(s, run) && HasThread(s, t) && CallFrom(s, run, t, c) && c < i <= j <= |run|
    requires KeptInside(f, t) && f(StateAt(s, run, i).pcs[t])
    ensures f(StateAt(s, run, j).pcs[t])
  {
    forall n | i <= n < j && t < |StateAt(s, run, n).pcs| && f(StateAt(s, run, n).pcs[t])
      ensures t < |StateAt(s, run, n + 1).pcs| && f(StateAt(s, run, n + 1).pcs[t])
    {
      StateNext(s, run, n);
      SameThreads(StateAt(s, run, n), run[n]);
      assert Inside(StateAt(s, run, n), run[n], t);
    }
    Persists(s, run, i, j, (x: State) => t < |x.pcs| && f(x.pcs[t]));
  }

  // ---------------------------------------------------------- pops in a history

  predicate PushSide(pc: Pc) {
    IsPush(pc) || pc.PushDone? || pc.Crashed?
  }

  /** The pop has taken `v` and not yet returned. */
  predicate HasTaken(pc: Pc, v: Item) {
    || ((pc.PopCallRelease? || pc.PopRelease? || pc.PopSubLength?) && pc.item == v)
    || (pc.PopDone? && pc.popped == Some(v))
  }

  ghost predicate TakesAt(s: State, run: seq<Action>, j: nat, t: nat)
    requires ThreadsOf(s, run)
  {
    j < |run| && run[j].tid == t && HasThread(StateAt(s, run, j), t) && Takes(StateAt(s, run, j), run[j])
  }

  lemma PushSideKept(t: nat)
    ensures KeptInside((pc: Pc) => PushSide(pc), t)
  {
    forall m: State, a: Action | Inside(m, a, t) && PushSide(m.pcs[t])
      ensures PushSide(Apply(m, a).pcs[t])
    {
      StaysOnPushSide(m, a, t);
    }
  }

  lemma StaysOnPushSide(m: State, a: Action, t: nat)
    requires Inside(m, a, t) && PushSide(m.pcs[t])
    ensures PushSide(Apply(m, a).pcs[t])
  {
    if a.tid != t {
      OthersKeepThread(m, a, t);
    } else if a.Run? && IsPush(m.pcs[t]) {
      PushStaysPush(m, t, a.spurious);
    }
  }

  lemma PushStaysPush(m: State, t: nat, spurious: bool)
    requires HasThread(m, t) && IsPush(m.pcs[t])
    ensures |PushStep(m, t, spurious).pcs| == |m.pcs| && PushSide(PushStep(m, t, spurious).pcs[t])
  {
  }

  lemma TakenKept(t: nat, v: Item)
    ensures KeptInside((pc: Pc) => HasTaken(pc, v), t)
  {
    forall m: State, a: Action | Inside(m, a, t) && HasTaken(m.pcs[t], v)
      ensures HasTaken(Apply(m, a).pcs[t], v)
    {
      StaysTaken(m, a, t, v);
    }
  }

  lemma StaysTaken(m: State, a: Action, t: nat, v: Item)
    requires Inside(m, a, t) && HasTaken(m.pcs[t], v)
    ensures HasTaken(Apply(m, a).pcs[t], v)
  {
    if a.tid != t {
      OthersKeepThread(m, a, t);
    }
  }

  /** Only the successful exchange of the head turns a pop into one that has taken an item. */
  lemma TakenRises(m: State, a: Action, t: nat, v: Item)
    requires HasThread(m, a.tid) && HasThread(m, t) && HasThread(Apply(m, a), t)
    requires !HasTaken(m.pcs[t], v) && HasTaken(Apply(m, a).pcs[t], v)
    ensures a.tid == t && Takes(m, a) && m.pcs[t].item == v
  {
    if a.tid != t {
      OthersKeepThread(m, a, t);
    } else if a.Run? && IsPush(m.pcs[t]) {
      PushStaysPush(m, t, a.spurious);
    }
  }

  /** After a pop has taken an item it takes no second one in the same call. */
  lemma NoSecondTake(s: State, run: seq<Action>, t: nat, c: nat, i: nat, j: nat)
    requires ThreadsOf(s, run) && HasThread(s, t) && CallFrom(s, run, t, c)
    requires c <= i < j && TakesAt(s, run, i, t)
    ensures !TakesAt(s, run, j, t)
  {
    if j < |run| {
      var m := StateAt(s, run, i);
      StateNext(s, run, i);
      var v := m.pcs[t].item;
      assert HasTaken(StateAt(s, run, i + 1).pcs[t], v) by { TakesGives(m, run[i]); }
      TakenKept(t, v);
      KeptInCall(s, run, t, c, i + 1, j, (pc: Pc) => HasTaken(pc, v));
    }
  }

  lemma TakesGives(m: State, a: Action)
    requires HasThread(m, a.tid) && Takes(m, a)
    ensures HasThread(Apply(m, a), a.tid) && HasTaken(Apply(m, a).pcs[a.tid], m.pcs[a.tid].item)
  {
    SameThreads(m, a);
  }

  /**
   Every pop that answers with an item took exactly that item by exactly one exchange
   inside its call.
   */
  lemma PopHistory(s: State, run: seq<Action>, t: nat) returns (c: nat, i: nat)
    requires ThreadsOf(s, run) && HasThread(s, t) && s.pcs[t] == Idle
    requires t < |Exec(s, run).pcs| && Exec(s, run).pcs[t].PopDone? && Exec(s, run).pcs[t].popped.Some?
    ensures CallFrom(s, run, t, c) && run[c] == CallPop(t)
    ensures c < i && TakesAt(s, run, i, t) && StateAt(s, run, i).pcs[t].item == Exec(s, run).pcs[t].popped.value
    ensures forall j :: c <= j < |run| && j != i ==> !TakesAt(s, run, j, t)
  {
    var v := Exec(s, run).pcs[t].popped.value;
    c := CallBegins(s, run, t);
    PopCalled(s, run, t, c);
    i := LastRise(s, run, (x: State) => t < |x.pcs| && HasTaken(x.pcs[t], v));
    TakenAt(s, run, t, i, v);
    forall j | c <= j < |run| && j != i
      ensures !TakesAt(s, run, j, t)
    {
      if j < i {
        if TakesAt(s, run, j, t) {
          NoSecondTake(s, run, t, c, j, i);
        }
      } else {
        NoSecondTake(s, run, t, c, i, j);
      }
    }
  }

  lemma TakenAt(s: State, run: seq<Action>, t: nat, i: nat, v: Item)
    requires ThreadsOf(s, run) && HasThread(s, t) && i < |run|
    requires !(t < |StateAt(s, run, i).pcs| && HasTaken(StateAt(s, run, i).pcs[t], v))
    requires t < |StateAt(s, run, i + 1).pcs| && HasTaken(StateAt(s, run, i + 1).pcs[t], v)
    ensures TakesAt(s, run, i, t) && StateAt(s, run, i).pcs[t].item == v
  {
    StateNext(s, run, i);
    SameThreads(StateAt(s, run, i), run[i]);
    TakenRises(StateAt(s, run, i), run[i], t, v);
  }

  lemma PopCalled(s: State, run: seq<Action>, t: nat, c: nat)
    requires ThreadsOf(s, run) && HasThread(s, t) && CallFrom(s, run, t, c)
    requires t < |Exec(s, run).pcs| && !PushSide(Exec(s, run).pcs[t])
    ensures run[c] == CallPop(t)
  {
    StateNext(s, run, c);
    FirstStep(StateAt(s, run, c), run[c], t);
    assert run[..|run|] == run;
    if PushSide(StateAt(s, run, c + 1).pcs[t]) {
      PushSideKept(t);
      KeptInCall(s, run, t, c, c + 1, |run|, (pc: Pc) => PushSide(pc));
    }
  }

  /** The step that takes an idle thread into a call is the call. */
  lemma FirstStep(m: State, a: Action, t: nat)
    requires HasThread(m, a.tid) && HasThread(m, t) && m.pcs[t] == Idle
    requires t < |Apply(m, a).pcs| && Apply(m, a).pcs[t] != Idle
    ensures a == CallPop(t) || (a.CallPush? && a.tid == t && Apply(m, a).pcs[t] == PushAlloc(a.data))
  {
    if a.tid != t {
      OthersKeepThread(m, a, t);
    }
  }

  // -------------------------------------------------------- pushes in a history

  /** The push has linked node `h` and not yet returned. */
  predicate HasLinked(pc: Pc, h: Handle) {
    || ((pc.PushReloadTail? || pc.PushSwing? || pc.PushAddLength?) && pc.node == h)
    || (pc.PushDone? && pc.pushed == h)
  }

  /** The push carries item `d`, or is past linking. */
  predicate Carries(pc: Pc, d: Item) {
    if pc.PushReloadTail? || pc.PushSwing? || pc.PushAddLength? || pc.PushDone? || pc.Crashed? then true
    else IsPush(pc) && pc.data == d
  }

  ghost predicate LinksAt(s: State, run: seq<Action>, j: nat, t: nat)
    requires ThreadsOf(s, run)
  {
    j < |run| && run[j].tid == t && HasThread(StateAt(s, run, j), t) && Links(StateAt(s, run, j), run[j])
  }

  lemma LinkedKept(t: nat, h: Handle)
    ensures KeptInside((pc: Pc) => HasLinked(pc, h), t)
  {
    forall m: State, a: Action | Inside(m, a, t) && HasLinked(m.pcs[t], h)
      ensures HasLinked(Apply(m, a).pcs[t], h)
    {
      StaysLinked(m, a, t, h);
    }
  }

  lemma StaysLinked(m: State, a: Action, t: nat, h: Handle)
    requires Inside(m, a, t) && HasLinked(m.pcs[t], h)
    ensures HasLinked(Apply(m, a).pcs[t], h)
  {
    if a.tid != t {
      OthersKeepThread(m, a, t);
    }
  }

  lemma CarriesKept(t: nat, d: Item)
    ensures KeptInside((pc: Pc) => Carries(pc, d), t)
  {
    forall m: State, a: Action | Inside(m, a, t) && Carries(m.pcs[t], d)
      ensures Carries(Apply(m, a).pcs[t], d)
    {
      StaysCarrying(m, a, t, d);
    }
  }

  lemma StaysCarrying(m: State, a: Action, t: nat, d: Item)
    requires Inside(m, a, t) && Carries(m.pcs[t], d)
    ensures Carries(Apply(m, a).pcs[t], d)
  {
    if a.tid != t {
      OthersKeepThread(m, a, t);
    } else if a.Run? && IsPush(m.pcs[t]) {
      PushCarries(m, t, a.spurious, d);
    }
  }

  lemma PushCarries(m: State, t: nat, spurious: bool, d: Item)
    requires HasThread(m, t) && IsPush(m.pcs[t]) && Carries(m.pcs[t], d)
    ensures |PushStep(m, t, spurious).pcs| == |m.pcs| && Carries(PushStep(m, t, spurious).pcs[t], d)
  {
  }

  /** Only the successful link exchange turns a push into one that has linked a node. */
  lemma LinkedRises(m: State, a: Action, t: nat, h: Handle)
    requires HasThread(m, a.tid) && HasThread(m, t) && HasThread(Apply(m, a), t) && h.Handle?
    requires !HasLinked(m.pcs[t], h) && HasLinked(Apply(m, a).pcs[t], h)
    ensures a.tid == t && Links(m, a) && m.pcs[t].node == h
  {
    if a.tid != t {
      OthersKeepThread(m, a, t);
    } else if a.Run? && IsPush(m.pcs[t]) {
      PushLinks(m, t, a.spurious, h);
    }
  }

  lemma PushLinks(m: State, t: nat, spurious: bool, h: Handle)
    requires HasThread(m, t) && IsPush(m.pcs[t]) && h.Handle? && HasThread(PushStep(m, t, spurious), t)
    requires !HasLinked(m.pcs[t], h) && HasLinked(PushStep(m, t, spurious).pcs[t], h)
    ensures m.pcs[t].PushLink? && PushStep(m, t, spurious).pcs[t].PushReloadTail? && m.pcs[t].node == h
  {
  }

  lemma LinksGives(m: State, a: Action)
    requires HasThread(m, a.tid) && Links(m, a)
    ensures HasThread(Apply(m, a), a.tid) && HasLinked(Apply(m, a).pcs[a.tid], m.pcs[a.tid].node)
  {
    SameThreads(m, a);
  }

  /** After a push has linked its node it links no second one in the same call. */
  lemma NoSecondLink(s: State, run: seq<Action>, t: nat, c: nat, i: nat, j: nat)
    requires ThreadsOf(s, run) && HasThread(s, t) && CallFrom(s, run, t, c)
    requires c <= i < j && LinksAt(s, run, i, t)
    ensures !LinksAt(s, run, j, t)
  {
    if j < |run| {
      var m := StateAt(s, run, i);
      StateNext(s, run, i);
      var h := m.pcs[t].node;
      assert HasLinked(StateAt(s, run, i + 1).pcs[t], h) by { LinksGives(m, run[i]); }
      LinkedKept(t, h);
      KeptInCall(s, run, t, c, i + 1, j, (pc: Pc) => HasLinked(pc, h));
    }
  }

  lemma LinkedAt(s: State, run: seq<Action>, t: nat, i: nat, h: Handle)
    requires ThreadsOf(s, run) && HasThread(s, t) && i < |run| && h.Handle?
    requires !(t < |StateAt(s, run, i).pcs| && HasLinked(StateAt(s, run, i).pcs[t], h))
    requires t < |StateAt(s, run, i + 1).pcs| && HasLinked(StateAt(s, run, i + 1).pcs[t], h)
    ensures LinksAt(s, run, i, t) && StateAt(s, run, i).pcs[t].node == h
  {
    StateNext(s, run, i);
    SameThreads(StateAt(s, run, i), run[i]);
    LinkedRises(StateAt(s, run, i), run[i], t, h);
  }

  /** The item a push links is the one it was called with. */
  lemma PushCalled(s: State, run: seq<Action>, t: nat, c: nat, i: nat)
    requires ThreadsOf(s, run) && HasThread(s, t) && CallFrom(s, run, t, c) && c < i && LinksAt(s, run, i, t)
    ensures run[c] == CallPush(t, StateAt(s, run, i).pcs[t].data)
  {
    StateNext(s, run, c);
    FirstStep(StateAt(s, run, c), run[c], t);
    if run[c].CallPush? {
      CarriesKept(t, run[c].data);
      KeptInCall(s, run, t, c, c + 1, i, (pc: Pc) => Carries(pc, run[c].data));
    } else {
      PopCallGives(StateAt(s, run, c), t);
      PopSideKept(t);
      KeptInCall(s, run, t, c, c + 1, i, (pc: Pc) => !PushSide(pc) && pc != Idle);
    }
  }

  lemma PopCallGives(m: State, t: nat)
    requires HasThread(m, t) && m.pcs[t] == Idle
    ensures HasThread(Apply(m, CallPop(t)), t) && Apply(m, CallPop(t)).pcs[t] == PopLoadHead
  {
  }

  lemma PopSideKept(t: nat)
    ensures KeptInside((pc: Pc) => !PushSide(pc) && pc != Idle, t)
  {
    forall m: State, a: Action | Inside(m, a, t) && !PushSide(m.pcs[t]) && m.pcs[t] != Idle
      ensures !PushSide(Apply(m, a).pcs[t])
    {
      StaysOnPopSide(m, a, t);
    }
  }

  lemma StaysOnPopSide(m: State, a: Action, t: nat)
    requires Inside(m, a, t) && !PushSide(m.pcs[t]) && m.pcs[t] != Idle
    ensures !PushSide(Apply(m, a).pcs[t])
  {
    if a.tid != t {
      OthersKeepThread(m, a, t);
    }
  }

  /**
   Every push that answers with a handle linked exactly that node, with the item it was
   called with, by exactly one exchange inside its call.
   */
  lemma PushHistory(s: State, run: seq<Action>, t: nat) returns (c: nat, i: nat)
    requires ThreadsOf(s, run) && HasThread(s, t) && s.pcs[t] == Idle
    requires t < |Exec(s, run).pcs| && Exec(s, run).pcs[t].PushDone? && Exec(s, run).pcs[t].pushed.Handle?
    ensures CallFrom(s, run, t, c) && c < i && LinksAt(s, run, i, t)
    ensures StateAt(s, run, i).pcs[t].node == Exec(s, run).pcs[t].pushed
    ensures run[c] == CallPush(t, StateAt(s, run, i).pcs[t].data)
    ensures forall j :: c <= j < |run| && j != i ==> !LinksAt(s, run, j, t)
  {
    var h := Exec(s, run).pcs[t].pushed;
    c := CallBegins(s, run, t);
    i := LastRise(s, run, (x: State) => t < |x.pcs| && HasLinked(x.pcs[t], h));
    LinkedAt(s, run, t, i, h);
    PushCalled(s, run, t, c, i);
    forall j | c <= j < |run| && j != i
      ensures !LinksAt(s, run, j, t)
    {
      if j < i {
        if LinksAt(s, run, j, t) {
          NoSecondLink(s, run, t, c, j, i);
        }
      } else {
        NoSecondLink(s, run, t, c, i, j);
      }
    }
  }
}
