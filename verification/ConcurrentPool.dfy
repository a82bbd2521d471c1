/**
 The pool as a step system: any number of threads run `anam_alloc` and `anam_release`,
 one shared-memory access a step, in any interleaving.

 Each program counter is named after the access that comes next. `stack`, `owner` and
 `issued` are auxiliary: no step reads them to decide what the program does. `stack` is
 the abstract free list and `owner` says who holds each slot. The three counters are the
 exact integers; the program's `size_t` holds them modulo 2^64.
 */
module ConcurrentPool {
  import opened Lists
  import opened TaggedHandles

  datatype Owner = Free | Allocating(tid: nat) | Live | Releasing(tid: nat)

  datatype Pc =
    | Idle
    | AllocLoadHead
    | AllocLoadNext(oldHead: Handle)
    | AllocCas(oldHead: Handle, newHead: Handle)
    | AllocLoadGen(slot: nat)
    | AllocClearNext(slot: nat, inc: nat)
    | AllocSubFree(slot: nat, inc: nat)
    | AllocAddCount(slot: nat, inc: nat)
    | AllocDone(result: Handle)
    | ReleaseCheck(handle: Handle)
    | ReleaseStoreGen(slot: nat, inc: nat)
    | ReleaseLoadHead(slot: nat, inc: nat)
    | ReleaseStoreNext(slot: nat, inc: nat, oldHead: Handle)
    | ReleaseCas(slot: nat, inc: nat, oldHead: Handle)
    | ReleaseAddFree
    | ReleaseAddCount
    | ReleaseDone(ok: bool)

  datatype State = State(
    freeHead: Handle,
    next: seq<Handle>,
    inc: seq<nat>,
    slotsFree: int,
    allocCount: int,
    releaseCount: int,
    pcs: seq<Pc>,
    stack: seq<nat>,
    owner: seq<Owner>,
    issued: set<Handle>)

  /** `Run(t, true)` is a step in which a weak compare-exchange fails spuriously. */
  datatype Action =
    | CallAlloc(tid: nat)
    | CallRelease(tid: nat, handle: Handle)
    | Run(tid: nat, spurious: bool)
    | Return(tid: nat)

  // ------------------------------------------------------------------ steps

  function Goto(s: State, t: nat, pc: Pc): State
    requires t < |s.pcs|
  {
    s.(pcs := s.pcs[t := pc])
  }

  predicate InRange(s: State, h: Handle) {
    h.Handle? && h.slot < |s.next| && h.slot < |s.inc| && h.slot < |s.owner|
  }

  predicate SlotInRange(s: State, x: nat) {
    x < |s.next| && x < |s.inc| && x < |s.owner|
  }

  /** Replaces the annotation of entry `x` by that of an equal word; no word changes. */
  function Reannotate(next: seq<Handle>, x: nat, h: Handle): seq<Handle>
    requires x < |next|
  {
    if SameWord(next[x], h) then next[x := h] else next
  }

  /** One shared-memory access of thread `t`. A thread with nothing to access stays put. */
  function Step(s: State, t: nat, spurious: bool): State
    requires t < |s.pcs|
  {
    match s.pcs[t]
    case AllocLoadHead =>
      if s.freeHead.Null? then Goto(s, t, AllocDone(Null)) else Goto(s, t, AllocLoadNext(s.freeHead))
    case AllocLoadNext(h) =>
      if InRange(s, h) then Goto(s, t, AllocCas(h, s.next[h.slot])) else s
    case AllocCas(h, n) =>
      if !spurious && SameWord(s.freeHead, h) && InRange(s, h) then
        Goto(s, t, AllocLoadGen(h.slot)).(
          freeHead := n,
          stack := if |s.stack| > 0 then s.stack[1..] else [],
          owner := s.owner[h.slot := Allocating(t)])
      else Goto(s, t, AllocLoadHead)
    case AllocLoadGen(x) =>
      if SlotInRange(s, x) then Goto(s, t, AllocClearNext(x, s.inc[x])) else s
    case AllocClearNext(x, k) =>
      if SlotInRange(s, x) then Goto(s, t, AllocSubFree(x, k)).(next := s.next[x := Null]) else s
    case AllocSubFree(x, k) =>
      Goto(s, t, AllocAddCount(x, k)).(slotsFree := s.slotsFree - 1)
    case AllocAddCount(x, k) =>
      Goto(s, t, AllocDone(Handle(x, k, true))).(allocCount := s.allocCount + 1)
    case ReleaseCheck(h) =>
      if InRange(s, h) then
        if Gen(h.inc) == Gen(s.inc[h.slot]) then Goto(s, t, ReleaseStoreGen(h.slot, s.inc[h.slot]))
        else Goto(s, t, ReleaseDone(false))
      else s
    case ReleaseStoreGen(x, k) =>
      if SlotInRange(s, x) then
        Goto(s, t, ReleaseLoadHead(x, k + 1)).(
          inc := s.inc[x := k + 1],
          owner := s.owner[x := Releasing(t)])
      else s
    case ReleaseLoadHead(x, k) =>
      Goto(s, t, ReleaseStoreNext(x, k, s.freeHead))
    case ReleaseStoreNext(x, k, h) =>
      if SlotInRange(s, x) then Goto(s, t, ReleaseCas(x, k, h)).(next := s.next[x := h]) else s
    case ReleaseCas(x, k, h) =>
      if !spurious && SameWord(s.freeHead, h) && SlotInRange(s, x) then
        Goto(s, t, ReleaseAddFree).(
          freeHead := Handle(x, k, false),
          next := Reannotate(s.next, x, s.freeHead),
          stack := [x] + s.stack,
          owner := s.owner[x := Free])
      else Goto(s, t, ReleaseLoadHead(x, k))
    case ReleaseAddFree =>
      Goto(s, t, ReleaseAddCount).(slotsFree := s.slotsFree + 1)
    case ReleaseAddCount =>
      Goto(s, t, ReleaseDone(true)).(releaseCount := s.releaseCount + 1)
    case _ => s
  }

  function Apply(s: State, a: Action): State
    requires a.tid < |s.pcs|
  {
    match a
    case CallAlloc(t) =>
      if s.pcs[t].Idle? then Goto(s, t, AllocLoadHead) else s
    case CallRelease(t, h) =>
      if !s.pcs[t].Idle? then s
      else if h.Null? || !h.live || !InRange(s, h) then Goto(s, t, ReleaseDone(false))
      else Goto(s, t, ReleaseCheck(h))
    case Run(t, spurious) => Step(s, t, spurious)
    case Return(t) =>
      match s.pcs[t]
      case AllocDone(h) =>
        if InRange(s, h) then
          Goto(s, t, Idle).(owner := s.owner[h.slot := Live], issued := s.issued + {h})
        else Goto(s, t, Idle)
      case ReleaseDone(_) => Goto(s, t, Idle)
      case _ => s
  }

  /** `anam_get` on a live handle: one load of the header's generation. */
  predicate GetAccepts(s: State, h: Handle) {
    InRange(s, h) && h.live && Gen(h.inc) == Gen(s.inc[h.slot])
  }

  // ------------------------------------------------- hypotheses on runs

  /** The incarnation a release has read or is about to check, until it stores the next one. */
  predicate Releases(pc: Pc, x: nat, k: nat) {
    match pc
    case ReleaseCheck(h) => h.Handle? && h.slot == x && h.inc == k
    case ReleaseStoreGen(y, j) => y == x && j == k
    case _ => false
  }

  /** Callers pass only issued handles, and two releases of one handle do not overlap. */
  predicate Legal(s: State, a: Action) {
    a.tid < |s.pcs| &&
    (a.CallRelease? ==>
       a.handle in s.issued && a.handle.Handle? &&
       forall u :: 0 <= u < |s.pcs| && u != a.tid ==> !Releases(s.pcs[u], a.handle.slot, a.handle.inc))
  }

  predicate InWindow(s: State, h: Handle) {
    InRange(s, h) ==> s.inc[h.slot] < h.inc + GENERATIONS
  }

  /** Fewer than 65536 releases of the slot since thread `t` loaded the free-list head. */
  predicate AllocWindow(s: State, pc: Pc) {
    match pc
    case AllocLoadNext(h) => InWindow(s, h)
    case AllocCas(h, _) => InWindow(s, h)
    case _ => true
  }

  /** A handle being released that shows its slot's generation is of the current incarnation, not of one 65536 earlier. */
  predicate ReleaseWindow(s: State, pc: Pc) {
    pc.ReleaseCheck? && InRange(s, pc.handle) && Gen(pc.handle.inc) == Gen(s.inc[pc.handle.slot]) ==>
      pc.handle.inc == s.inc[pc.handle.slot]
  }

  predicate Windows(s: State) {
    forall t :: 0 <= t < |s.pcs| ==> AllocWindow(s, s.pcs[t]) && ReleaseWindow(s, s.pcs[t])
  }

  // ----------------------------------------------------------- invariant

  /** The word that stands for position `i` of the list `xs`. */
  function Tag(xs: seq<nat>, inc: seq<nat>, i: nat): Handle
    requires forall j :: 0 <= j < |xs| ==> xs[j] < |inc|
  {
    if i < |xs| then Handle(xs[i], inc[xs[i]], false) else Null
  }

  /** Starting at `head` and following `next`, the words spell out `xs`, each with its slot's true incarnation. */
  predicate IsList(xs: seq<nat>, inc: seq<nat>, next: seq<Handle>, head: Handle) {
    && |next| == |inc|
    && (forall j :: 0 <= j < |xs| ==> xs[j] < |inc|)
    && NoDuplicates(xs)
    && head == Tag(xs, inc, 0)
    && (forall i :: 0 <= i < |xs| ==> next[xs[i]] == Tag(xs, inc, i + 1))
  }

  lemma PopList(xs: seq<nat>, inc: seq<nat>, next: seq<Handle>, head: Handle)
    requires IsList(xs, inc, next, head) && |xs| > 0
    ensures IsList(xs[1..], inc, next, next[xs[0]])
  {
    var ys := xs[1..];
    assert forall i :: 0 <= i < |ys| ==> ys[i] == xs[i + 1];
  }

  lemma PushList(xs: seq<nat>, inc: seq<nat>, next: seq<Handle>, head: Handle, x: nat)
    requires IsList(xs, inc, next, head) && x < |inc| && x !in xs
    ensures IsList([x] + xs, inc, next[x := head], Handle(x, inc[x], false))
  {
    var ys := [x] + xs;
    assert forall i :: 0 < i < |ys| ==> ys[i] == xs[i - 1];
  }

  /** A slot off the list may change its link and its incarnation. */
  lemma FrameList(xs: seq<nat>, inc: seq<nat>, next: seq<Handle>, head: Handle, x: nat, k: nat, h: Handle)
    requires IsList(xs, inc, next, head) && x < |inc| && x !in xs
    ensures IsList(xs, inc[x := k], next[x := h], head)
  {
  }

  predicate Shape(s: State) {
    |s.next| == |s.inc| == |s.owner|
  }

  /** The free list in memory is the abstract stack, and holds exactly the free slots. */
  predicate FreeListInv(s: State) {
    && IsList(s.stack, s.inc, s.next, s.freeHead)
    && (forall x :: 0 <= x < |s.owner| ==> (s.owner[x] == Free <==> x in s.stack))
    && (forall i :: 0 <= i < |s.stack| ==> s.stack[i] < |s.owner|)
  }

  /** A loaded list head: if its incarnation is still current, no release of it has begun. */
  predicate Snapshot(s: State, h: Handle) {
    InRange(s, h) && !h.live && h.inc <= s.inc[h.slot] &&
    (h.inc == s.inc[h.slot] ==> !s.owner[h.slot].Releasing?)
  }

  predicate Holds(s: State, x: nat, k: nat, who: Owner) {
    SlotInRange(s, x) && s.owner[x] == who && s.inc[x] == k
  }

  predicate Issued(s: State, h: Handle) {
    InRange(s, h) && h.live && h.inc <= s.inc[h.slot] && (h.inc == s.inc[h.slot] ==> s.owner[h.slot] == Live)
  }

  predicate ThreadInv(s: State, t: nat, pc: Pc) {
    match pc
    case AllocLoadNext(h) => Snapshot(s, h)
    case AllocCas(h, n) =>
      Snapshot(s, h) && (h.inc == s.inc[h.slot] && s.owner[h.slot] == Free ==> s.next[h.slot] == n)
    case AllocLoadGen(x) => SlotInRange(s, x) && s.owner[x] == Allocating(t)
    case AllocClearNext(x, k) => Holds(s, x, k, Allocating(t))
    case AllocSubFree(x, k) => Holds(s, x, k, Allocating(t))
    case AllocAddCount(x, k) => Holds(s, x, k, Allocating(t))
    case AllocDone(h) => h.Null? || (h.live && Holds(s, h.slot, h.inc, Allocating(t)))
    case ReleaseCheck(h) => Issued(s, h)
    case ReleaseStoreGen(x, k) => Holds(s, x, k, Live)
    case ReleaseLoadHead(x, k) => Holds(s, x, k, Releasing(t))
    case ReleaseStoreNext(x, k, _) => Holds(s, x, k, Releasing(t))
    case ReleaseCas(x, k, h) => Holds(s, x, k, Releasing(t)) && s.next[x] == h
    case _ => true
  }

  ghost predicate OneReleaseEach(s: State) {
    forall t, u, x, k :: 0 <= t < |s.pcs| && 0 <= u < |s.pcs| && Releases(s.pcs[t], x, k) && Releases(s.pcs[u], x, k) ==> t == u
  }

  predicate OwnerActive(s: State, x: nat, who: Owner) {
    match who
    case Allocating(t) => t < |s.pcs| && AllocatesSlot(s.pcs[t], x)
    case Releasing(t) => t < |s.pcs| && PushesSlot(s.pcs[t], x)
    case _ => true
  }

  predicate AllocatesSlot(pc: Pc, x: nat) {
    match pc
    case AllocLoadGen(y) => x == y
    case AllocClearNext(y, _) => x == y
    case AllocSubFree(y, _) => x == y
    case AllocAddCount(y, _) => x == y
    case AllocDone(h) => h.Handle? && h.slot == x
    case _ => false
  }

  predicate PushesSlot(pc: Pc, x: nat) {
    match pc
    case ReleaseLoadHead(y, _) => x == y
    case ReleaseStoreNext(y, _, _) => x == y
    case ReleaseCas(y, _, _) => x == y
    case _ => false
  }

  predicate ThreadsInv(s: State) {
    forall t :: 0 <= t < |s.pcs| ==> ThreadInv(s, t, s.pcs[t])
  }

  predicate OwnersInv(s: State) {
    forall x :: 0 <= x < |s.owner| ==> OwnerActive(s, x, s.owner[x])
  }

  /** Issued handles are past or current incarnations, and every live slot's current handle is issued. */
  predicate IssuedInv(s: State) {
    && (forall h :: h in s.issued ==> Issued(s, h))
    && (forall x :: 0 <= x < |s.owner| && x < |s.inc| && s.owner[x] == Live ==> Handle(x, s.inc[x], true) in s.issued)
  }

  ghost predicate Inv(s: State) {
    && Shape(s)
    && FreeListInv(s)
    && ThreadsInv(s)
    && OneReleaseEach(s)
    && OwnersInv(s)
    && IssuedInv(s)
  }

  predicate Init(s: State) {
    && |s.next| == |s.inc| == |s.owner| == |s.stack|
    && (forall i :: 0 <= i < |s.stack| ==> s.stack[i] == i && s.inc[i] == 0 && s.owner[i] == Free)
    && IsList(s.stack, s.inc, s.next, s.freeHead)
    && (forall t :: 0 <= t < |s.pcs| ==> s.pcs[t] == Idle)
    && s.issued == {}
    && s.slotsFree == |s.stack| && s.allocCount == 0 && s.releaseCount == 0
  }

  lemma InitInv(s: State)
    requires Init(s)
    ensures Inv(s)
  {
    forall x | 0 <= x < |s.owner|
      ensures x in s.stack
    {
      assert s.stack[x] == x;
    }
  }

  // --------------------------------------------------- one lemma a step

  /** A step that only moves thread `t`'s program counter keeps what the others rely on. */
  lemma GotoInv(s: State, t: nat, pc: Pc)
    requires Inv(s) && t < |s.pcs|
    requires ThreadInv(s, t, pc)
    requires forall x, k :: Releases(pc, x, k) ==>
               Releases(s.pcs[t], x, k) || forall u :: 0 <= u < |s.pcs| && u != t ==> !Releases(s.pcs[u], x, k)
    requires forall x :: AllocatesSlot(s.pcs[t], x) ==> AllocatesSlot(pc, x)
    requires forall x :: PushesSlot(s.pcs[t], x) ==> PushesSlot(pc, x)
    ensures Inv(Goto(s, t, pc))
  {
    var s' := Goto(s, t, pc);
    forall u | 0 <= u < |s'.pcs|
      ensures ThreadInv(s', u, s'.pcs[u])
    {
      assert ThreadInv(s, u, s'.pcs[u]);
    }
  }

  /** When the exchange of an allocation succeeds, the link it read earlier is still the successor of the head. */
  lemma AbaFree(s: State, t: nat)
    requires Inv(s) && t < |s.pcs| && s.pcs[t].AllocCas?
    requires AllocWindow(s, s.pcs[t])
    requires SameWord(s.freeHead, s.pcs[t].oldHead)
    ensures s.freeHead == s.pcs[t].oldHead
    ensures |s.stack| > 0 && s.stack[0] == s.pcs[t].oldHead.slot
    ensures s.pcs[t].newHead == s.next[s.stack[0]] == Tag(s.stack, s.inc, 1)
  {
    assert ThreadInv(s, t, s.pcs[t]);
    SameWordInWindow(s.pcs[t].oldHead, s.freeHead);
  }

  lemma AllocCasFreeList(s: State, t: nat)
    requires Inv(s) && t < |s.pcs| && s.pcs[t].AllocCas?
    requires AllocWindow(s, s.pcs[t])
    requires SameWord(s.freeHead, s.pcs[t].oldHead)
    ensures Shape(Step(s, t, false)) && FreeListInv(Step(s, t, false))
    ensures s.stack == [s.pcs[t].oldHead.slot] + Step(s, t, false).stack
  {
    AbaFree(s, t);
    PopList(s.stack, s.inc, s.next, s.freeHead);
    var s' := Step(s, t, false);
    assert s.stack == [s.stack[0]] + s'.stack;
  }

  lemma AllocCasInv(s: State, t: nat)
    requires Inv(s) && t < |s.pcs| && s.pcs[t].AllocCas?
    requires AllocWindow(s, s.pcs[t])
    requires SameWord(s.freeHead, s.pcs[t].oldHead)
    ensures Inv(Step(s, t, false))
  {
    AbaFree(s, t);
    AllocCasFreeList(s, t);
    var s' := Step(s, t, false);
    assert s.owner[s.stack[0]] == Free;
    OthersKeep(s, s', t, s.stack[0]);
    IssuedKeep(s, s', t, s.stack[0]);
  }

  lemma ReleaseCasFreeList(s: State, t: nat)
    requires Inv(s) && t < |s.pcs| && s.pcs[t].ReleaseCas?
    requires SameWord(s.freeHead, s.pcs[t].oldHead)
    ensures Shape(Step(s, t, false)) && FreeListInv(Step(s, t, false))
    ensures Step(s, t, false).stack == [s.pcs[t].slot] + s.stack
  {
    var s' := Step(s, t, false);
    var x := s.pcs[t].slot;
    assert ThreadInv(s, t, s.pcs[t]);
    PushList(s.stack, s.inc, s.next, s.freeHead, x);
  }

  lemma ReleaseCasInv(s: State, t: nat)
    requires Inv(s) && t < |s.pcs| && s.pcs[t].ReleaseCas?
    requires SameWord(s.freeHead, s.pcs[t].oldHead)
    ensures Inv(Step(s, t, false))
  {
    ReleaseCasFreeList(s, t);
    var s' := Step(s, t, false);
    assert ThreadInv(s, t, s.pcs[t]);
    OthersKeep(s, s', t, s.pcs[t].slot);
    IssuedKeep(s, s', t, s.pcs[t].slot);
  }

  /** `s'` differs from `s` at most at slot `x`, which thread `t` holds or hands on to its next owner. */
  predicate HandsOn(s: State, s': State, t: nat, x: nat) {
    && Shape(s) && Shape(s') && SlotInRange(s, x) && |s'.inc| == |s.inc|
    && (forall y :: 0 <= y < |s.inc| && y != x ==>
          s'.owner[y] == s.owner[y] && s'.next[y] == s.next[y] && s'.inc[y] == s.inc[y])
    && (|| (s.owner[x] == Free && s'.owner[x] == Allocating(t) && s'.inc[x] == s.inc[x])
        || (s.owner[x] == Releasing(t) && s'.owner[x] == Free && s'.inc[x] == s.inc[x])
        || (s.owner[x] == Allocating(t) && s'.owner[x] == Live && s'.inc[x] == s.inc[x])
        || (s.owner[x] == Live && s'.owner[x] == Releasing(t) && s'.inc[x] == s.inc[x] + 1)
        || (s.owner[x] in {Allocating(t), Releasing(t)} && s'.owner[x] == s.owner[x] && s'.inc[x] == s.inc[x]))
  }

  /**
   When thread `t` hands slot `x` on, every other thread keeps what it relies on: a slot
   in a thread's hands is nobody else's, and a loaded list head is compared by incarnation.
   */
  lemma OtherKeeps(s: State, s': State, t: nat, x: nat, u: nat, pc: Pc)
    requires HandsOn(s, s', t, x) && u != t
    requires ThreadInv(s, u, pc)
    requires !(s.owner[x] == Live && pc.ReleaseStoreGen? && pc.slot == x)
    ensures ThreadInv(s', u, pc)
  {
  }

  lemma OthersKeep(s: State, s': State, t: nat, x: nat)
    requires ThreadsInv(s) && t < |s.pcs| && HandsOn(s, s', t, x)
    requires |s'.pcs| == |s.pcs| && s'.pcs == s.pcs[t := s'.pcs[t]]
    requires forall u :: 0 <= u < |s.pcs| && u != t ==> !(s.owner[x] == Live && s.pcs[u].ReleaseStoreGen? && s.pcs[u].slot == x)
    requires ThreadInv(s', t, s'.pcs[t])
    ensures ThreadsInv(s')
  {
    forall u | 0 <= u < |s'.pcs| && u != t
      ensures ThreadInv(s', u, s'.pcs[u])
    {
      OtherKeeps(s, s', t, x, u, s.pcs[u]);
    }
  }

  lemma IssuedKeep(s: State, s': State, t: nat, x: nat)
    requires IssuedInv(s) && HandsOn(s, s', t, x)
    requires s'.issued == s.issued && s'.owner[x] != Live
    ensures IssuedInv(s')
  {
    forall h | h in s'.issued
      ensures Issued(s', h)
    {
      assert Issued(s, h);
    }
  }

  lemma StoreGenFreeList(s: State, t: nat)
    requires Inv(s) && t < |s.pcs| && s.pcs[t].ReleaseStoreGen?
    ensures Shape(Step(s, t, false)) && FreeListInv(Step(s, t, false))
  {
    assert ThreadInv(s, t, s.pcs[t]);
    var x := s.pcs[t].slot;
    FrameList(s.stack, s.inc, s.next, s.freeHead, x, s.inc[x] + 1, s.next[x]);
    assert s.next[x := s.next[x]] == s.next;
  }

  lemma ReleaseStoreGenInv(s: State, t: nat)
    requires Inv(s) && t < |s.pcs| && s.pcs[t].ReleaseStoreGen?
    ensures Inv(Step(s, t, false))
  {
    var s' := Step(s, t, false);
    var x, k := s.pcs[t].slot, s.pcs[t].inc;
    assert ThreadInv(s, t, s.pcs[t]);
    StoreGenFreeList(s, t);
    forall u | 0 <= u < |s.pcs| && u != t
      ensures !(s.pcs[u].ReleaseStoreGen? && s.pcs[u].slot == x)
    {
      assert ThreadInv(s, u, s.pcs[u]);
      assert Releases(s.pcs[t], x, k);
    }
    OthersKeep(s, s', t, x);
    IssuedKeep(s, s', t, x);
  }

  /** The stores into `header->next` by the thread that holds the slot. */
  lemma StoreNextInv(s: State, t: nat)
    requires Inv(s) && t < |s.pcs| && (s.pcs[t].AllocClearNext? || s.pcs[t].ReleaseStoreNext?)
    ensures Inv(Step(s, t, false))
  {
    var s' := Step(s, t, false);
    var x := s.pcs[t].slot;
    assert ThreadInv(s, t, s.pcs[t]);
    FrameList(s.stack, s.inc, s.next, s.freeHead, x, s.inc[x], s'.next[x]);
    assert s.inc[x := s.inc[x]] == s.inc;
    OthersKeep(s, s', t, x);
    IssuedKeep(s, s', t, x);
  }

  lemma IssueKeeps(s: State, t: nat, h: Handle)
    requires Inv(s) && t < |s.pcs| && s.pcs[t] == AllocDone(h) && h.Handle?
    ensures IssuedInv(Apply(s, Return(t)))
  {
    var s' := Apply(s, Return(t));
    assert ThreadInv(s, t, s.pcs[t]);
    forall g | g in s'.issued
      ensures Issued(s', g)
    {
      assert g == h || Issued(s, g);
    }
  }

  lemma IssueInv(s: State, t: nat, h: Handle)
    requires Inv(s) && t < |s.pcs| && s.pcs[t] == AllocDone(h) && h.Handle?
    ensures Inv(Apply(s, Return(t)))
  {
    var s' := Apply(s, Return(t));
    assert ThreadInv(s, t, s.pcs[t]);
    OthersKeep(s, s', t, h.slot);
    IssueKeeps(s, t, h);
  }

  lemma ReturnInv(s: State, t: nat)
    requires Inv(s) && t < |s.pcs|
    ensures Inv(Apply(s, Return(t)))
  {
    if s.pcs[t].AllocDone? && s.pcs[t].result.Handle? {
      IssueInv(s, t, s.pcs[t].result);
    } else if s.pcs[t].AllocDone? || s.pcs[t].ReleaseDone? {
      GotoInv(s, t, Idle);
    }
  }

  lemma AllocStepInv(s: State, t: nat, spurious: bool)
    requires Inv(s) && t < |s.pcs|
    requires !IsRelease(s.pcs[t])
    requires AllocWindow(s, s.pcs[t])
    ensures Inv(Step(s, t, spurious))
  {
    assert ThreadInv(s, t, s.pcs[t]);
    match s.pcs[t]
    case AllocLoadHead =>
      if s.freeHead.Handle? {
        assert s.stack[0] in s.stack;
        GotoInv(s, t, AllocLoadNext(s.freeHead));
      } else {
        GotoInv(s, t, AllocDone(Null));
      }
    case AllocLoadNext(h) => GotoInv(s, t, AllocCas(h, s.next[h.slot]));
    case AllocCas(h, n) =>
      if !spurious && SameWord(s.freeHead, h) {
        AllocCasInv(s, t);
      } else {
        GotoInv(s, t, AllocLoadHead);
      }
    case AllocLoadGen(x) => GotoInv(s, t, AllocClearNext(x, s.inc[x]));
    case AllocClearNext(_, _) => StoreNextInv(s, t);
    case AllocSubFree(x, k) =>
      GotoInv(s, t, AllocAddCount(x, k));
      CountersInv(Goto(s, t, AllocAddCount(x, k)), Step(s, t, spurious));
    case AllocAddCount(x, k) =>
      GotoInv(s, t, AllocDone(Handle(x, k, true)));
      CountersInv(Goto(s, t, AllocDone(Handle(x, k, true))), Step(s, t, spurious));
    case _ =>
  }

  predicate IsRelease(pc: Pc) {
    pc.ReleaseCheck? || pc.ReleaseStoreGen? || pc.ReleaseLoadHead? || pc.ReleaseStoreNext? ||
    pc.ReleaseCas? || pc.ReleaseAddFree? || pc.ReleaseAddCount? || pc.ReleaseDone?
  }

  lemma ReleaseStepInv(s: State, t: nat, spurious: bool)
    requires Inv(s) && t < |s.pcs|
    requires IsRelease(s.pcs[t])
    requires ReleaseWindow(s, s.pcs[t])
    ensures Inv(Step(s, t, spurious))
  {
    assert ThreadInv(s, t, s.pcs[t]);
    match s.pcs[t]
    case ReleaseCheck(h) =>
      if Gen(h.inc) == Gen(s.inc[h.slot]) {
        GotoInv(s, t, ReleaseStoreGen(h.slot, s.inc[h.slot]));
      } else {
        GotoInv(s, t, ReleaseDone(false));
      }
    case ReleaseStoreGen(_, _) => ReleaseStoreGenInv(s, t);
    case ReleaseLoadHead(x, k) => GotoInv(s, t, ReleaseStoreNext(x, k, s.freeHead));
    case ReleaseStoreNext(_, _, _) => StoreNextInv(s, t);
    case ReleaseCas(x, k, h) =>
      if !spurious && SameWord(s.freeHead, h) {
        ReleaseCasInv(s, t);
      } else {
        GotoInv(s, t, ReleaseLoadHead(x, k));
      }
    case ReleaseAddFree =>
      GotoInv(s, t, ReleaseAddCount);
      CountersInv(Goto(s, t, ReleaseAddCount), Step(s, t, spurious));
    case ReleaseAddCount =>
      GotoInv(s, t, ReleaseDone(true));
      CountersInv(Goto(s, t, ReleaseDone(true)), Step(s, t, spurious));
    case _ =>
  }

  /** The invariant does not read the counters. */
  lemma CountersInv(s: State, s': State)
    requires Inv(s)
    requires s' == s.(slotsFree := s'.slotsFree, allocCount := s'.allocCount, releaseCount := s'.releaseCount)
    ensures Inv(s')
  {
    forall u | 0 <= u < |s'.pcs|
      ensures ThreadInv(s', u, s'.pcs[u])
    {
      assert ThreadInv(s, u, s.pcs[u]);
    }
    forall h | h in s'.issued
      ensures Issued(s', h)
    {
      assert Issued(s, h);
    }
  }

  lemma ApplyInv(s: State, a: Action)
    requires Inv(s) && Legal(s, a)
    requires a.Run? ==> AllocWindow(s, s.pcs[a.tid]) && ReleaseWindow(s, s.pcs[a.tid])
    ensures Inv(Apply(s, a))
  {
    match a
    case CallAlloc(t) =>
      if s.pcs[t].Idle? {
        GotoInv(s, t, AllocLoadHead);
      }
    case CallRelease(t, h) =>
      if s.pcs[t].Idle? {
        assert Issued(s, h);
        GotoInv(s, t, ReleaseCheck(h));
      }
    case Run(t, spurious) =>
      if IsRelease(s.pcs[t]) {
        ReleaseStepInv(s, t, spurious);
      } else {
        AllocStepInv(s, t, spurious);
      }
    case Return(t) => ReturnInv(s, t);
  }
}
