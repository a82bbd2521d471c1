/**
 A push or a pop that runs alone comes to its answer in a bounded number of steps, and the
 answer is the right one. The other threads may stand anywhere, also in the middle of a push.
 */
module ConcurrentQueueSolo {
  import opened Lists
  import opened TaggedHandles
  import opened ConcurrentQueue
  import opened ConcurrentQueueSteps
  import opened ConcurrentQueueRuns
  import P = ConcurrentPool
  import R = ConcurrentPoolRuns
  import S = ConcurrentPoolSolo

  /** Running alone without spurious failures, thread `t` comes from `s` to `e` in at most `k` steps. */
  ghost predicate Within(s: State, t: nat, k: nat, e: State) {
    HasThread(s, t) && HasThread(e, t) && exists n: nat :: n <= k && Steps(s, t, n) == e
  }

  lemma Here(s: State, t: nat)
    requires HasThread(s, t)
    ensures Within(s, t, 0, s)
  {
    assert Steps(s, t, 0) == s;
  }

  lemma Join(s: State, t: nat, i: nat, m: State, j: nat, e: State)
    requires Within(s, t, i, m) && Within(m, t, j, e)
    ensures Within(s, t, i + j, e)
  {
    var p: nat :| p <= i && Steps(s, t, p) == m;
    var q: nat :| q <= j && Steps(m, t, q) == e;
    IterateSplit(x => Next(x, t), s, p, q);
    assert Steps(s, t, p + q) == e;
  }

  /** One more step. */
  lemma On(s: State, t: nat, k: nat, m: State, e: State)
    requires Within(s, t, k, m) && HasThread(e, t) && e == Apply(m, Run(t, false))
    ensures Within(s, t, k + 1, e)
  {
    assert Steps(m, t, 1) == e;
    Join(s, t, k, m, 1, e);
  }

  // ------------------------------------------------------- inside the pool

  /** Only the pool and the roles have moved. */
  predicate Carried(s: State, e: State) {
    e == s.(mem := s.mem.(pool := e.mem.pool, role := e.mem.role)) && |e.mem.role| == |s.mem.role|
  }

  lemma {:induction false} AllocCarries(s: State, t: nat, n: nat) returns (e: State)
    requires HasThread(s, t) && s.pcs[t].PushAlloc?
    requires t < |R.Steps(s.mem.pool, t, n).pcs| && R.Steps(s.mem.pool, t, n).pcs[t].AllocDone?
    ensures Within(s, t, n, e) && Carried(s, e) && e.mem.role == s.mem.role && e.mem.pool == R.Steps(s.mem.pool, t, n)
    decreases n
  {
    if s.mem.pool.pcs[t].AllocDone? {
      DoneStays(s.mem.pool, t, n);
      e := s;
      Here(s, t);
    } else {
      var m := Apply(s, Run(t, false));
      assert m == s.(mem := s.mem.(pool := P.Step(s.mem.pool, t, false))) by { assert s.pcs[t := s.pcs[t]] == s.pcs; }
      e := AllocCarries(m, t, n - 1);
      Here(s, t);
      On(s, t, 0, s, m);
      Join(s, t, 1, m, n - 1, e);
    }
  }

  lemma {:induction false} DoneStays(p: P.State, t: nat, n: nat)
    requires t < |p.pcs| && (p.pcs[t].AllocDone? || p.pcs[t].ReleaseDone?)
    ensures R.Steps(p, t, n) == p
    decreases n
  {
    if n > 0 {
      DoneStays(P.Step(p, t, false), t, n - 1);
    }
  }

  lemma {:induction false} ReleaseCarries(s: State, t: nat, n: nat) returns (e: State)
    requires HasThread(s, t) && s.pcs[t].PopRelease?
    requires t < |R.Steps(s.mem.pool, t, n).pcs| && R.Steps(s.mem.pool, t, n).pcs[t].ReleaseDone?
    ensures Within(s, t, n, e) && Carried(s, e) && e.mem.pool == R.Steps(s.mem.pool, t, n)
    decreases n
  {
    if s.mem.pool.pcs[t].ReleaseDone? {
      DoneStays(s.mem.pool, t, n);
      e := s;
      Here(s, t);
    } else {
      var m := Apply(s, Run(t, false));
      assert Carried(s, m) && m.mem.pool == P.Step(s.mem.pool, t, false) by { assert s.pcs[t := s.pcs[t]] == s.pcs; }
      e := ReleaseCarries(m, t, n - 1);
      Here(s, t);
      On(s, t, 0, s, m);
      Join(s, t, 1, m, n - 1, e);
    }
  }

  // --------------------------------------------------------------------- pop

  predicate HeadReady(m: Memory) {
    Ok(m, m.head) && Get(m, m.head) && P.Shape(m.pool)
  }

  /** The head has a successor that holds `v`, and `tail` is not the head. */
  predicate FrontReady(m: Memory, v: Item) {
    && HeadReady(m) && !SameWord(m.head, m.tail)
    && var n := m.next[m.head.slot]; Ok(m, n) && Get(m, n) && m.item[n.slot] == v
  }

  lemma PopLooks(s: State, t: nat)
    requires HasThread(s, t) && s.pcs[t] == PopLoadHead && HeadReady(s.mem)
    ensures Within(s, t, 4, Goto(s, t, PopRecheck(s.mem.head, s.mem.tail, s.mem.next[s.mem.head.slot], Items(s.mem) == []), s.mem))
  {
    var m := s.mem;
    var s1 := Goto(s, t, PopLoadTail(m.head), m);
    var s2 := Goto(s, t, PopGetHead(m.head, m.tail), m);
    var s3 := Goto(s, t, PopLoadNext(m.head, m.tail), m);
    var s4 := Goto(s, t, PopRecheck(m.head, m.tail, m.next[m.head.slot], Items(m) == []), m);
    Here(s, t);
    On(s, t, 0, s, s1);
    On(s, t, 1, s1, s2);
    On(s, t, 2, s2, s3);
    On(s, t, 3, s3, s4);
  }

  /** A pop that finds the tail on the head and a successor helps the tail on and starts over. */
  lemma PopHelpsAlone(s: State, t: nat)
    requires HasThread(s, t) && s.pcs[t] == PopLoadHead && HeadReady(s.mem)
    requires SameWord(s.mem.head, s.mem.tail) && s.mem.next[s.mem.head.slot].Handle?
    ensures Within(s, t, 6, Goto(s, t, PopLoadHead, s.mem.(tail := Relive(s.mem.next[s.mem.head.slot]))))
  {
    var m := s.mem;
    var n := m.next[m.head.slot];
    PopLooks(s, t);
    var s4 := Goto(s, t, PopRecheck(m.head, m.tail, n, Items(m) == []), m);
    var s5 := Goto(s, t, PopHelp(m.head, m.tail, n), m);
    var s6 := Goto(s, t, PopLoadHead, m.(tail := Relive(n)));
    On(s, t, 4, s4, s5);
    On(s, t, 5, s5, s6);
  }

  /** A pop on an empty queue answers that it is empty. */
  lemma PopEmptyAlone(s: State, t: nat)
    requires HasThread(s, t) && s.pcs[t] == PopLoadHead && HeadReady(s.mem)
    requires SameWord(s.mem.head, s.mem.tail) && s.mem.next[s.mem.head.slot].Null?
    ensures Within(s, t, 5, Goto(s, t, PopDone(None, Items(s.mem) == []), s.mem))
  {
    var m := s.mem;
    PopLooks(s, t);
    var s4 := Goto(s, t, PopRecheck(m.head, m.tail, Null, Items(m) == []), m);
    On(s, t, 4, s4, Goto(s, t, PopDone(None, Items(m) == []), m));
  }

  lemma PopReads(s: State, t: nat, v: Item)
    requires HasThread(s, t) && s.pcs[t] == PopLoadHead && FrontReady(s.mem, v)
    ensures Within(s, t, 7, Goto(s, t, PopCas(s.mem.head, s.mem.next[s.mem.head.slot], v), s.mem))
  {
    var m := s.mem;
    var hd, n := m.head, m.next[m.head.slot];
    PopLooks(s, t);
    var s4 := Goto(s, t, PopRecheck(hd, m.tail, n, Items(m) == []), m);
    var s5 := Goto(s, t, PopGetNext(hd, n), m);
    var s6 := Goto(s, t, PopReadItem(hd, n), m);
    On(s, t, 4, s4, s5);
    On(s, t, 5, s5, s6);
    On(s, t, 6, s6, Goto(s, t, PopCas(hd, n, v), m));
  }

  lemma PopCalls(s: State, t: nat, v: Item) returns (e: State)
    requires HasThread(s, t) && HeadReady(s.mem) && s.pcs[t].PopCas? && s.mem.pool.pcs[t] == P.Idle
    requires s.pcs[t].head == s.mem.head && s.pcs[t].item == v
    ensures Within(s, t, 2, e) && e.pcs[t] == PopRelease(s.mem.head, v)
    ensures e.mem.pool == P.Apply(s.mem.pool, P.CallRelease(t, s.mem.head))
  {
    var m, hd := s.mem, s.mem.head;
    var s1 := Goto(s, t, PopCallRelease(hd, v), UnlinkHead(m, t, hd, s.pcs[t].next));
    e := Goto(s1, t, PopRelease(hd, v), s1.mem.(pool := P.Apply(m.pool, P.CallRelease(t, hd))));
    Here(s, t);
    On(s, t, 0, s, s1);
    On(s, t, 1, s1, e);
  }

  /** A pop takes the item behind the head and calls the release. */
  lemma PopTakes(s: State, t: nat, v: Item) returns (e: State)
    requires HasThread(s, t) && s.pcs[t] == PopLoadHead && FrontReady(s.mem, v) && s.mem.pool.pcs[t] == P.Idle
    ensures Within(s, t, 9, e) && e.pcs[t] == PopRelease(s.mem.head, v) && P.Shape(e.mem.pool)
    ensures P.InRange(e.mem.pool, s.mem.head) && P.GetAccepts(e.mem.pool, s.mem.head)
    ensures e.mem.pool.pcs[t] == P.ReleaseCheck(s.mem.head)
  {
    PopReads(s, t, v);
    var m := Goto(s, t, PopCas(s.mem.head, s.mem.next[s.mem.head.slot], v), s.mem);
    e := PopCalls(m, t, v);
    Join(s, t, 7, m, 2, e);
  }

  lemma PopReturnsAlone(s: State, t: nat, hd: Handle, v: Item) returns (e: State)
    requires HasThread(s, t) && s.pcs[t] == PopRelease(hd, v) && s.mem.pool.pcs[t] == P.ReleaseDone(true)
    ensures Within(s, t, 2, e) && e.pcs[t] == PopDone(Some(v), false)
  {
    var s1 := Goto(s, t, PopSubLength(v, true), s.mem.(pool := P.Apply(s.mem.pool, P.Return(t))));
    e := Goto(s1, t, PopDone(Some(v), false), s1.mem).(length := s1.length - 1);
    Here(s, t);
    On(s, t, 0, s, s1);
    On(s, t, 1, s1, e);
  }

  lemma PopReleasesAlone(s: State, t: nat, hd: Handle, v: Item) returns (e: State)
    requires HasThread(s, t) && s.pcs[t] == PopRelease(hd, v) && P.Shape(s.mem.pool)
    requires s.mem.pool.pcs[t] == P.ReleaseCheck(hd) && P.GetAccepts(s.mem.pool, hd)
    ensures Within(s, t, 9, e) && e.pcs[t] == PopDone(Some(v), false)
  {
    var p := S.CheckAlone(s.mem.pool, t, hd);
    var n: nat :| n <= 7 && R.Steps(s.mem.pool, t, n) == p;
    var m := ReleaseCarries(s, t, n);
    e := PopReturnsAlone(m, t, hd, v);
    assert Within(s, t, 7, m);
    Join(s, t, 7, m, 2, e);
  }

  lemma PopReadyAlone(s: State, t: nat, v: Item) returns (e: State)
    requires HasThread(s, t) && s.pcs[t] == PopLoadHead && FrontReady(s.mem, v) && s.mem.pool.pcs[t] == P.Idle
    ensures Within(s, t, 18, e) && e.pcs[t] == PopDone(Some(v), false)
  {
    var m := PopTakes(s, t, v);
    e := PopReleasesAlone(m, t, s.mem.head, v);
    Join(s, t, 9, m, 9, e);
  }

  /** What the invariant says of the front of the queue. */
  lemma FrontOfQueue(s: State, t: nat)
    requires Inv(s) && t < |s.pcs| && s.pcs[t] == PopLoadHead
    ensures HasThread(s, t) && HeadReady(s.mem) && s.mem.pool.pcs[t] == P.Idle
    ensures Items(s.mem) == [] ==> s.mem.next[s.mem.head.slot].Null? && s.mem.tail == s.mem.head
    ensures Items(s.mem) != [] ==>
              var n := s.mem.next[s.mem.head.slot];
              && n.Handle? && n.live && Ok(s.mem, n) && Get(s.mem, n) && s.mem.item[n.slot] == Items(s.mem)[0]
              && !SameWord(s.mem.head, n) && (s.mem.tail != s.mem.head ==> !SameWord(s.mem.head, s.mem.tail))
  {
    var m := s.mem;
    assert ThreadInv(m, t, s.pcs[t]);
    EndsOnChain(m, Swinging(s));
    ItemsAt(m.chain, m.item);
    if Items(m) != [] {
      Successor(m, Swinging(s), m.head);
    }
  }

  /**
   A pop that runs alone, from any state of the invariant, also while `tail` lags, answers
   within 24 steps: nothing exactly if the queue is empty, and otherwise its front item.
   */
  lemma PopAlone(s: State, t: nat) returns (e: State)
    requires Inv(s) && t < |s.pcs| && s.pcs[t] == PopLoadHead
    ensures Within(s, t, 24, e) && e.pcs[t].PopDone?
    ensures e.pcs[t].popped == if Items(s.mem) == [] then None else Some(Items(s.mem)[0])
  {
    FrontOfQueue(s, t);
    var m := s.mem;
    if Items(m) == [] {
      PopEmptyAlone(s, t);
      e := Goto(s, t, PopDone(None, true), m);
    } else if m.tail == m.head {
      PopHelpsAlone(s, t);
      var n := m.next[m.head.slot];
      var s' := Goto(s, t, PopLoadHead, m.(tail := n));
      e := PopReadyAlone(s', t, Items(m)[0]);
      Join(s, t, 6, s', 18, e);
    } else {
      e := PopReadyAlone(s, t, Items(m)[0]);
    }
  }

  // -------------------------------------------------------------------- push

  predicate TailReady(m: Memory) {
    Ok(m, m.tail) && Get(m, m.tail) && m.next[m.tail.slot].Null?
  }

  lemma PushPrepares(s: State, t: nat, d: Item, h: Handle) returns (e: State)
    requires HasThread(s, t) && s.pcs[t] == PushGet(d, h) && Ok(s.mem, h) && Get(s.mem, h) && TailReady(s.mem)
    ensures Within(s, t, 4, e) && e.pcs[t] == PushLoadTail(d, h) && Ok(e.mem, h) && TailReady(e.mem)
  {
    var m := s.mem;
    var s1 := Goto(s, t, PushStoreNext(d, h), m);
    var s2 := Goto(s, t, PushStoreItem(d, h), m.(next := m.next[h.slot := Null]));
    var s3 := Goto(s, t, PushEnter(d, h), s2.mem.(item := m.item[h.slot := d]));
    e := Goto(s, t, PushLoadTail(d, h), s3.mem).(turn := Thread(t));
    Here(s, t);
    On(s, t, 0, s, s1);
    On(s, t, 1, s1, s2);
    On(s, t, 2, s2, s3);
    On(s, t, 3, s3, e);
  }

  lemma PushLinksAlone(s: State, t: nat, d: Item, h: Handle) returns (e: State)
    requires HasThread(s, t) && s.pcs[t] == PushLoadTail(d, h) && Ok(s.mem, h) && TailReady(s.mem)
    ensures Within(s, t, 8, e) && e.pcs[t] == PushDone(h)
  {
    var m, tl := s.mem, s.mem.tail;
    var s1 := Goto(s, t, PushGetTail(d, h, tl), m);
    var s2 := Goto(s, t, PushLoadNext(d, h, tl), m);
    var s3 := Goto(s, t, PushRecheck(d, h, tl, Null), m);
    var s4 := Goto(s, t, PushLink(d, h, tl), m);
    var s5 := Goto(s, t, PushReloadTail(h), LinkNode(m, h, tl));
    var s6 := Goto(s5, t, PushSwing(h, tl), s5.mem);
    Here(s, t);
    On(s, t, 0, s, s1);
    On(s, t, 1, s1, s2);
    On(s, t, 2, s2, s3);
    On(s, t, 3, s3, s4);
    On(s, t, 4, s4, s5);
    On(s, t, 5, s5, s6);
    e := PushSwingsAlone(s6, t, h, tl);
    Join(s, t, 6, s6, 2, e);
  }

  lemma PushSwingsAlone(s: State, t: nat, h: Handle, tl: Handle) returns (e: State)
    requires HasThread(s, t) && s.pcs[t] == PushSwing(h, tl)
    ensures Within(s, t, 2, e) && e.pcs[t] == PushDone(h)
  {
    var s1 := Apply(s, Run(t, false));
    assert s1.pcs[t] == PushAddLength(h);
    e := Apply(s1, Run(t, false));
    Here(s, t);
    On(s, t, 0, s, s1);
    On(s, t, 1, s1, e);
  }

  /** The push has its slot, or has learnt that there is none. */
  lemma PushAllocatesAlone(s: State, t: nat, d: Item) returns (e: State)
    requires HasThread(s, t) && s.pcs[t] == PushAlloc(d) && s.mem.pool.pcs[t] == P.AllocLoadHead
    requires Sizes(s.mem) && P.Inv(s.mem.pool) && TailReady(s.mem)
    ensures s.mem.pool.stack == [] ==> Within(s, t, 8, e) && e.pcs[t] == PushDone(Null)
    ensures s.mem.pool.stack != [] ==>
              var h := Handle(s.mem.pool.stack[0], s.mem.pool.inc[s.mem.pool.stack[0]], true);
              && Within(s, t, 8, e) && e.pcs[t] == PushGet(d, h) && Ok(e.mem, h) && Get(e.mem, h) && TailReady(e.mem)
  {
    var q := s.mem.pool;
    var p := S.AllocAlone(q, t);
    var n: nat :| n <= 7 && R.Steps(q, t, n) == p;
    var m := AllocCarries(s, t, n);
    assert Within(s, t, 7, m);
    e := Apply(m, Run(t, false));
    if q.stack == [] {
      assert e == Goto(m, t, PushDone(Null), m.mem.(pool := P.Apply(p, P.Return(t))));
    } else {
      var h := p.pcs[t].result;
      assert Ok(m.mem, h);
      assert e == Goto(m, t, PushGet(d, h), m.mem.(pool := P.Apply(p, P.Return(t)), role := m.mem.role[h.slot := Private(t)]));
    }
    On(s, t, 7, m, e);
  }

  /**
   A push that runs alone, from any state of the invariant with no other push in its
   section, answers within 20 steps: null exactly if the pool is exhausted, and otherwise
   the handle of the slot on top of the free list.
   */
  lemma PushAlone(s: State, t: nat, d: Item) returns (e: State)
    requires Inv(s) && t < |s.pcs| && s.pcs[t] == PushAlloc(d) && s.mem.pool.pcs[t] == P.AllocLoadHead && s.turn == Nobody
    ensures Within(s, t, 20, e)
    ensures e.pcs[t] == PushDone(if s.mem.pool.stack == [] then Null
                                 else Handle(s.mem.pool.stack[0], s.mem.pool.inc[s.mem.pool.stack[0]], true))
  {
    LastOfQueue(s);
    var m := PushAllocatesAlone(s, t, d);
    if s.mem.pool.stack == [] {
      e := m;
    } else {
      var h := m.pcs[t].node;
      var l := PushPrepares(m, t, d, h);
      Join(s, t, 8, m, 4, l);
      e := PushLinksAlone(l, t, d, h);
      Join(s, t, 12, l, 8, e);
    }
  }

  lemma LastOfQueue(s: State)
    requires Inv(s) && s.turn == Nobody
    ensures TailReady(s.mem)
  {
    EndsOnChain(s.mem, Swinging(s));
  }
}
