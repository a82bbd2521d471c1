/**
 The annotations are invisible to the program: two states that agree on every word the
 program can read go, under the same action, to two states that again agree. So nothing
 proved with annotated handles depends on information the C code does not have.
 */
module ConcurrentPoolErasure {
  import opened Bits
  import opened TaggedHandles
  import opened ConcurrentPool

  predicate SameWords(xs: seq<Handle>, ys: seq<Handle>) {
    |xs| == |ys| && forall i :: 0 <= i < |xs| ==> SameWord(xs[i], ys[i])
  }

  predicate SameGens(xs: seq<nat>, ys: seq<nat>) {
    |xs| == |ys| && forall i :: 0 <= i < |xs| ==> Gen(xs[i]) == Gen(ys[i])
  }

  predicate SamePc(p: Pc, q: Pc) {
    match p
    case AllocLoadNext(h) => q.AllocLoadNext? && SameWord(h, q.oldHead)
    case AllocCas(h, n) => q.AllocCas? && SameWord(h, q.oldHead) && SameWord(n, q.newHead)
    case AllocLoadGen(x) => q == p
    case AllocClearNext(x, k) => q.AllocClearNext? && q.slot == x && Gen(q.inc) == Gen(k)
    case AllocSubFree(x, k) => q.AllocSubFree? && q.slot == x && Gen(q.inc) == Gen(k)
    case AllocAddCount(x, k) => q.AllocAddCount? && q.slot == x && Gen(q.inc) == Gen(k)
    case AllocDone(h) => q.AllocDone? && SameWord(h, q.result)
    case ReleaseCheck(h) => q.ReleaseCheck? && SameWord(h, q.handle)
    case ReleaseStoreGen(x, k) => q.ReleaseStoreGen? && q.slot == x && Gen(q.inc) == Gen(k)
    case ReleaseLoadHead(x, k) => q.ReleaseLoadHead? && q.slot == x && Gen(q.inc) == Gen(k)
    case ReleaseStoreNext(x, k, h) =>
      q.ReleaseStoreNext? && q.slot == x && Gen(q.inc) == Gen(k) && SameWord(h, q.oldHead)
    case ReleaseCas(x, k, h) => q.ReleaseCas? && q.slot == x && Gen(q.inc) == Gen(k) && SameWord(h, q.oldHead)
    case _ => q == p
  }

  predicate SamePcs(ps: seq<Pc>, qs: seq<Pc>) {
    |ps| == |qs| && forall i :: 0 <= i < |ps| ==> SamePc(ps[i], qs[i])
  }

  predicate SameCounter(x: int, y: int) {
    x % SIZE_T == y % SIZE_T
  }

  /** The program cannot tell `s` from `r`. */
  predicate SameProgram(s: State, r: State) {
    && Shape(s) && Shape(r)
    && SameWord(s.freeHead, r.freeHead)
    && SameWords(s.next, r.next)
    && SameGens(s.inc, r.inc)
    && SameCounter(s.slotsFree, r.slotsFree)
    && SameCounter(s.allocCount, r.allocCount)
    && SameCounter(s.releaseCount, r.releaseCount)
    && SamePcs(s.pcs, r.pcs)
  }

  predicate SameAction(a: Action, b: Action) {
    if a.CallRelease? then b.CallRelease? && a.tid == b.tid && SameWord(a.handle, b.handle) else a == b
  }

  lemma CounterSucc(x: int, y: int)
    requires SameCounter(x, y)
    ensures SameCounter(x + 1, y + 1) && SameCounter(x - 1, y - 1)
  {
    NextRemainder(x);
    NextRemainder(y);
  }

  lemma NextRemainder(x: int)
    ensures (x + 1) % SIZE_T == if x % SIZE_T == SIZE_T - 1 then 0 else x % SIZE_T + 1
    ensures (x - 1) % SIZE_T == if x % SIZE_T == 0 then SIZE_T - 1 else x % SIZE_T - 1
  {
    var q, r := x / SIZE_T, x % SIZE_T;
    assert x == SIZE_T * q + r;
    if r == SIZE_T - 1 {
      ModUnique(x + 1, SIZE_T, q + 1, 0);
    } else {
      ModUnique(x + 1, SIZE_T, q, r + 1);
    }
    if r == 0 {
      ModUnique(x - 1, SIZE_T, q - 1, SIZE_T - 1);
    } else {
      ModUnique(x - 1, SIZE_T, q, r - 1);
    }
  }

  lemma AllocStepErases(s: State, r: State, t: nat, spurious: bool)
    requires SameProgram(s, r) && t < |s.pcs| && !IsRelease(s.pcs[t])
    ensures SameProgram(Step(s, t, spurious), Step(r, t, spurious))
  {
    assert SamePc(s.pcs[t], r.pcs[t]);
    CounterSucc(s.slotsFree, r.slotsFree);
    CounterSucc(s.allocCount, r.allocCount);
  }

  lemma ReleaseCasErases(s: State, r: State, t: nat, spurious: bool)
    requires SameProgram(s, r) && t < |s.pcs| && s.pcs[t].ReleaseCas?
    ensures SameProgram(Step(s, t, spurious), Step(r, t, spurious))
  {
    assert SamePc(s.pcs[t], r.pcs[t]);
  }

  lemma ReleaseStepErases(s: State, r: State, t: nat, spurious: bool)
    requires SameProgram(s, r) && t < |s.pcs| && IsRelease(s.pcs[t]) && !s.pcs[t].ReleaseCas?
    ensures SameProgram(Step(s, t, spurious), Step(r, t, spurious))
  {
    assert SamePc(s.pcs[t], r.pcs[t]);
    if s.pcs[t].ReleaseAddFree? || s.pcs[t].ReleaseAddCount? {
      ReleaseCountErases(s, r, t, spurious);
    } else if s.pcs[t].ReleaseStoreGen? {
      StoreGenErases(s, r, t, spurious);
    }
  }

  lemma ReleaseCountErases(s: State, r: State, t: nat, spurious: bool)
    requires SameProgram(s, r) && t < |s.pcs| && (s.pcs[t].ReleaseAddFree? || s.pcs[t].ReleaseAddCount?)
    ensures SameProgram(Step(s, t, spurious), Step(r, t, spurious))
  {
    assert SamePc(s.pcs[t], r.pcs[t]);
    CounterSucc(s.slotsFree, r.slotsFree);
    CounterSucc(s.releaseCount, r.releaseCount);
  }

  lemma StoreGenErases(s: State, r: State, t: nat, spurious: bool)
    requires SameProgram(s, r) && t < |s.pcs| && s.pcs[t].ReleaseStoreGen?
    ensures SameProgram(Step(s, t, spurious), Step(r, t, spurious))
  {
    assert SamePc(s.pcs[t], r.pcs[t]);
    GenSucc(s.pcs[t].inc);
    GenSucc(r.pcs[t].inc);
  }

  lemma AnnotationsInvisible(s: State, r: State, a: Action, b: Action)
    requires SameProgram(s, r) && SameAction(a, b) && a.tid < |s.pcs|
    ensures SameProgram(Apply(s, a), Apply(r, b))
  {
    assert SamePc(s.pcs[a.tid], r.pcs[a.tid]);
    if a.Run? {
      if s.pcs[a.tid].ReleaseCas? {
        ReleaseCasErases(s, r, a.tid, a.spurious);
      } else if IsRelease(s.pcs[a.tid]) {
        ReleaseStepErases(s, r, a.tid, a.spurious);
      } else {
        AllocStepErases(s, r, a.tid, a.spurious);
      }
    }
  }
}
