/**
 The Michael-Scott queue on top of the concurrent pool. A queue thread inside `anam_alloc`
 or `anam_release` takes the pool's own steps, so pushes, pops, allocations and releases
 interleave at every shared-memory access.

 Each program counter is named after the access that comes next. `chain`, `role` and `turn`
 are auxiliary: `chain` lists the slots from `head` to the last node, `role` says what the
 queue uses each slot for, and `turn` is the thread between the first load of `tail` and
 the final swing of a push.
 */
module ConcurrentQueue {
  import opened Lists
  import opened TaggedHandles
  import P = ConcurrentPool

  /** Payloads are copied and never inspected. */
  type Item = int

  datatype Role = Pooled | Private(tid: nat) | Chained | Retired(tid: nat)

  datatype Turn = Nobody | Thread(tid: nat)

  datatype Option<T> = None | Some(value: T)

  datatype Pc =
    | Idle
    | PushAlloc(data: Item)
    | PushGet(data: Item, node: Handle)
    | PushStoreNext(data: Item, node: Handle)
    | PushStoreItem(data: Item, node: Handle)
    | PushEnter(data: Item, node: Handle)
    | PushLoadTail(data: Item, node: Handle)
    | PushGetTail(data: Item, node: Handle, tail: Handle)
    | PushLoadNext(data: Item, node: Handle, tail: Handle)
    | PushRecheck(data: Item, node: Handle, tail: Handle, next: Handle)
    | PushLink(data: Item, node: Handle, tail: Handle)
    | PushHelp(data: Item, node: Handle, tail: Handle, next: Handle)
    | PushReloadTail(node: Handle)
    | PushSwing(node: Handle, tail: Handle)
    | PushAddLength(node: Handle)
    | PushDone(pushed: Handle)
    | PopLoadHead
    | PopLoadTail(head: Handle)
    | PopGetHead(head: Handle, tail: Handle)
    | PopLoadNext(head: Handle, tail: Handle)
    | PopRecheck(head: Handle, tail: Handle, next: Handle, sawEmpty: bool)
    | PopHelp(head: Handle, tail: Handle, next: Handle)
    | PopGetNext(head: Handle, next: Handle)
    | PopReadItem(head: Handle, next: Handle)
    | PopCas(head: Handle, next: Handle, item: Item)
    | PopCallRelease(head: Handle, item: Item)
    | PopRelease(head: Handle, item: Item)
    | PopSubLength(item: Item, released: bool)
    | PopDone(popped: Option<Item>, sawEmpty: bool)
    | Crashed

  /** The shared memory of the pool and the queue. */
  datatype Memory = Memory(
    pool: P.State,
    head: Handle,
    tail: Handle,
    next: seq<Handle>,
    item: seq<Item>,
    chain: seq<nat>,
    role: seq<Role>)

  datatype State = State(mem: Memory, length: int, pcs: seq<Pc>, turn: Turn)

  datatype Action =
    | CallPush(tid: nat, data: Item)
    | CallPop(tid: nat)
    | Run(tid: nat, spurious: bool)
    | Return(tid: nat)

  // ------------------------------------------------------------------ steps

  predicate HasThread(s: State, t: nat) {
    t < |s.pcs| && t < |s.mem.pool.pcs|
  }

  predicate Ok(m: Memory, h: Handle) {
    h.Handle? && h.slot < |m.next| && h.slot < |m.item| && h.slot < |m.role| && P.InRange(m.pool, h)
  }

  /** Thread `t` goes on to `pc` and leaves the memory as `m`. */
  function Goto(s: State, t: nat, pc: Pc, m: Memory): State
    requires HasThread(s, t)
  {
    s.(pcs := s.pcs[t := pc], mem := m)
  }

  /** Decoding a handle and encoding it again with the LIVE bits. */
  function Relive(h: Handle): Handle {
    if h.Null? then Null else h.(live := true)
  }

  /** `anam_get`: accepts a live handle whose generation is the header's. */
  predicate Get(m: Memory, h: Handle) {
    P.GetAccepts(m.pool, h)
  }

  /** The items of all nodes but the first, which is the dummy. */
  function ItemsAlong(xs: seq<nat>, item: seq<Item>): seq<Item> {
    if |xs| <= 1 || xs[|xs| - 1] >= |item| then []
    else ItemsAlong(xs[..|xs| - 1], item) + [item[xs[|xs| - 1]]]
  }

  /** The items in the queue, oldest first. */
  function Items(m: Memory): seq<Item> {
    ItemsAlong(m.chain, m.item)
  }

  function LinkNode(m: Memory, h: Handle, tl: Handle): Memory
    requires Ok(m, h) && Ok(m, tl)
  {
    m.(next := m.next[tl.slot := h], chain := m.chain + [h.slot], role := m.role[h.slot := Chained])
  }

  function UnlinkHead(m: Memory, t: nat, hd: Handle, n: Handle): Memory
    requires Ok(m, hd)
  {
    m.(head := Relive(n),
       chain := if |m.chain| > 0 then m.chain[1..] else [],
       role := m.role[hd.slot := Retired(t)])
  }

  function PushStep(s: State, t: nat, spurious: bool): State
    requires HasThread(s, t)
  {
    var m := s.mem;
    match s.pcs[t]
    case PushAlloc(d) =>
      if m.pool.pcs[t].AllocDone? then
        var h := m.pool.pcs[t].result;
        var p := P.Apply(m.pool, P.Return(t));
        if h.Null? then Goto(s, t, PushDone(Null), m.(pool := p))
        else if Ok(m, h) then Goto(s, t, PushGet(d, h), m.(pool := p, role := m.role[h.slot := Private(t)]))
        else s
      else Goto(s, t, s.pcs[t], m.(pool := P.Step(m.pool, t, spurious)))
    case PushGet(d, h) =>
      Goto(s, t, if Get(m, h) then PushStoreNext(d, h) else Crashed, m)
    case PushStoreNext(d, h) =>
      if Ok(m, h) then Goto(s, t, PushStoreItem(d, h), m.(next := m.next[h.slot := Null])) else s
    case PushStoreItem(d, h) =>
      if Ok(m, h) then Goto(s, t, PushEnter(d, h), m.(item := m.item[h.slot := d])) else s
    case PushEnter(d, h) =>
      Goto(s, t, PushLoadTail(d, h), m).(turn := Thread(t))
    case PushLoadTail(d, h) =>
      Goto(s, t, PushGetTail(d, h, m.tail), m)
    case PushGetTail(d, h, tl) =>
      Goto(s, t, if Get(m, tl) then PushLoadNext(d, h, tl) else PushLoadTail(d, h), m)
    case PushLoadNext(d, h, tl) =>
      if Ok(m, tl) then Goto(s, t, PushRecheck(d, h, tl, m.next[tl.slot]), m) else s
    case PushRecheck(d, h, tl, n) =>
      Goto(s, t,
           if !SameWord(tl, m.tail) then PushLoadTail(d, h)
           else if n.Null? then PushLink(d, h, tl)
           else PushHelp(d, h, tl, n), m)
    case PushLink(d, h, tl) =>
      if !spurious && Ok(m, tl) && Ok(m, h) && m.next[tl.slot].Null? then
        Goto(s, t, PushReloadTail(h), LinkNode(m, h, tl))
      else Goto(s, t, PushLoadTail(d, h), m)
    case PushHelp(d, h, tl, n) =>
      Goto(s, t, PushLoadTail(d, h), if !spurious && SameWord(m.tail, tl) then m.(tail := Relive(n)) else m)
    case PushReloadTail(h) =>
      Goto(s, t, PushSwing(h, m.tail), m)
    case PushSwing(h, tl) =>
      Goto(s, t, PushAddLength(h), if SameWord(m.tail, tl) then m.(tail := Relive(h)) else m).(
        turn := if s.turn == Thread(t) then Nobody else s.turn)
    case PushAddLength(h) =>
      Goto(s, t, PushDone(h), m).(length := s.length + 1)
    case _ => s
  }

  function PopStep(s: State, t: nat, spurious: bool): State
    requires HasThread(s, t)
  {
    var m := s.mem;
    match s.pcs[t]
    case PopLoadHead =>
      Goto(s, t, PopLoadTail(m.head), m)
    case PopLoadTail(hd) =>
      Goto(s, t, PopGetHead(hd, m.tail), m)
    case PopGetHead(hd, tl) =>
      Goto(s, t, if Get(m, hd) then PopLoadNext(hd, tl) else PopLoadHead, m)
    case PopLoadNext(hd, tl) =>
      if Ok(m, hd) then Goto(s, t, PopRecheck(hd, tl, m.next[hd.slot], Items(m) == []), m) else s
    case PopRecheck(hd, tl, n, e) =>
      Goto(s, t,
           if !SameWord(hd, m.head) then PopLoadHead
           else if !SameWord(hd, tl) then PopGetNext(hd, n)
           else if n.Null? then PopDone(None, e)
           else PopHelp(hd, tl, n), m)
    case PopHelp(hd, tl, n) =>
      Goto(s, t, PopLoadHead, if !spurious && SameWord(m.tail, tl) then m.(tail := Relive(n)) else m)
    case PopGetNext(hd, n) =>
      Goto(s, t, if Get(m, n) then PopReadItem(hd, n) else PopLoadHead, m)
    case PopReadItem(hd, n) =>
      if Ok(m, n) then Goto(s, t, PopCas(hd, n, m.item[n.slot]), m) else s
    case PopCas(hd, n, v) =>
      if !spurious && SameWord(m.head, hd) && Ok(m, hd) then
        Goto(s, t, PopCallRelease(hd, v), UnlinkHead(m, t, hd, n))
      else Goto(s, t, PopLoadHead, m)
    case PopCallRelease(hd, v) =>
      Goto(s, t, PopRelease(hd, v), m.(pool := P.Apply(m.pool, P.CallRelease(t, hd))))
    case PopRelease(hd, v) =>
      if m.pool.pcs[t].ReleaseDone? then
        Goto(s, t, PopSubLength(v, m.pool.pcs[t].ok), m.(pool := P.Apply(m.pool, P.Return(t))))
      else if m.pool.pcs[t].ReleaseStoreGen? && m.pool.pcs[t].slot < |m.role| then
        Goto(s, t, s.pcs[t], m.(pool := P.Step(m.pool, t, spurious), role := m.role[m.pool.pcs[t].slot := Pooled]))
      else Goto(s, t, s.pcs[t], m.(pool := P.Step(m.pool, t, spurious)))
    case PopSubLength(v, _) =>
      Goto(s, t, PopDone(Some(v), false), m).(length := s.length - 1)
    case _ => s
  }

  predicate IsPush(pc: Pc) {
    pc.PushAlloc? || pc.PushGet? || pc.PushStoreNext? || pc.PushStoreItem? || pc.PushEnter? ||
    pc.PushLoadTail? || pc.PushGetTail? || pc.PushLoadNext? || pc.PushRecheck? || pc.PushLink? ||
    pc.PushHelp? || pc.PushReloadTail? || pc.PushSwing? || pc.PushAddLength?
  }

  function Apply(s: State, a: Action): State
    requires HasThread(s, a.tid)
  {
    match a
    case CallPush(t, d) =>
      if s.pcs[t].Idle? then Goto(s, t, PushAlloc(d), s.mem.(pool := P.Apply(s.mem.pool, P.CallAlloc(t)))) else s
    case CallPop(t) =>
      if s.pcs[t].Idle? then Goto(s, t, PopLoadHead, s.mem) else s
    case Run(t, spurious) =>
      if IsPush(s.pcs[t]) then PushStep(s, t, spurious) else PopStep(s, t, spurious)
    case Return(t) =>
      if s.pcs[t].PushDone? || s.pcs[t].PopDone? then Goto(s, t, Idle, s.mem) else s
  }

  // ------------------------------------------------- hypotheses on runs

  /** Between the first load of `tail` and the final swing. */
  predicate InSection(pc: Pc) {
    pc.PushLoadTail? || pc.PushGetTail? || pc.PushLoadNext? || pc.PushRecheck? || pc.PushLink? ||
    pc.PushHelp? || pc.PushReloadTail? || pc.PushSwing?
  }

  /** A push may enter its section only when no other push is in one. */
  predicate Legal(s: State, a: Action) {
    HasThread(s, a.tid) && (a.Run? && s.pcs[a.tid].PushEnter? ==> s.turn == Nobody)
  }

  /** Fewer than 65536 releases of the head's slot since the pop loaded it. */
  predicate HeadWindow(m: Memory, pc: Pc) {
    match pc
    case PopLoadTail(hd) => P.InWindow(m.pool, hd)
    case PopGetHead(hd, _) => P.InWindow(m.pool, hd)
    case PopLoadNext(hd, _) => P.InWindow(m.pool, hd)
    case PopRecheck(hd, _, _, _) => P.InWindow(m.pool, hd)
    case PopHelp(hd, _, _) => P.InWindow(m.pool, hd)
    case PopGetNext(hd, _) => P.InWindow(m.pool, hd)
    case PopReadItem(hd, _) => P.InWindow(m.pool, hd)
    case PopCas(hd, _, _) => P.InWindow(m.pool, hd)
    case _ => true
  }

  predicate Windows(s: State) {
    && (forall t :: 0 <= t < |s.pcs| ==> HeadWindow(s.mem, s.pcs[t]))
    && (forall t :: 0 <= t < |s.mem.pool.pcs| ==> P.AllocWindow(s.mem.pool, s.mem.pool.pcs[t]))
  }

  // ----------------------------------------------------------- invariant

  /** The word that stands for position `i` of the chain `xs`. */
  function Tag(xs: seq<nat>, inc: seq<nat>, i: nat): Handle
    requires forall j :: 0 <= j < |xs| ==> xs[j] < |inc|
  {
    if i < |xs| then Handle(xs[i], inc[xs[i]], true) else Null
  }

  /** From `head` along `next` the words spell out `xs` and end in null. */
  predicate IsChain(xs: seq<nat>, inc: seq<nat>, next: seq<Handle>, head: Handle) {
    && |xs| > 0
    && |next| == |inc|
    && (forall j :: 0 <= j < |xs| ==> xs[j] < |inc|)
    && NoDuplicates(xs)
    && head == Tag(xs, inc, 0)
    && (forall i :: 0 <= i < |xs| ==> next[xs[i]] == Tag(xs, inc, i + 1))
  }

  predicate Sizes(m: Memory) {
    |m.next| == |m.item| == |m.role| == |m.pool.inc| == |m.pool.owner|
  }

  predicate Swinging(s: State) {
    s.turn.Thread? && s.turn.tid < |s.pcs| && (s.pcs[s.turn.tid].PushReloadTail? || s.pcs[s.turn.tid].PushSwing?)
  }

  /** `tail` is the last node, or the last but one while a push has linked and not yet swung. */
  predicate TailInv(m: Memory, lagging: bool)
  {
    && (forall j :: 0 <= j < |m.chain| ==> m.chain[j] < |m.pool.inc|)
    && |m.chain| > 0
    && (m.tail == Tag(m.chain, m.pool.inc, |m.chain| - 1) ||
        (lagging && |m.chain| > 1 && m.tail == Tag(m.chain, m.pool.inc, |m.chain| - 2)))
  }

  /** A slot is on the chain or not, and the pool counts as live exactly what the queue uses. */
  predicate RolesInv(m: Memory)
    requires Sizes(m)
  {
    && (forall x :: 0 <= x < |m.role| ==> (m.role[x] == Chained <==> x in m.chain))
    && (forall x :: 0 <= x < |m.role| ==> (m.role[x] == Pooled <==> m.pool.owner[x] != P.Live))
  }

  /** A private or retired slot is in the hands of a push or a pop that is under way. */
  predicate RoleActive(pcs: seq<Pc>, x: nat, r: Role) {
    match r
    case Private(t) => t < |pcs| && Prepares(pcs[t], x)
    case Retired(t) => t < |pcs| && Retires(pcs[t], x)
    case _ => true
  }

  predicate RolesActive(s: State) {
    forall x :: 0 <= x < |s.mem.role| ==> RoleActive(s.pcs, x, s.mem.role[x])
  }

  predicate Prepares(pc: Pc, x: nat) {
    (pc.PushGet? || pc.PushStoreNext? || pc.PushStoreItem? || pc.PushEnter? || pc.PushLoadTail? ||
     pc.PushGetTail? || pc.PushLoadNext? || pc.PushRecheck? || pc.PushLink? || pc.PushHelp?) &&
    pc.node.Handle? && pc.node.slot == x
  }

  predicate Retires(pc: Pc, x: nat) {
    (pc.PopCallRelease? || pc.PopRelease?) && pc.head.Handle? && pc.head.slot == x
  }

  predicate TurnInv(s: State) {
    forall t :: 0 <= t < |s.pcs| ==> (InSection(s.pcs[t]) <==> s.turn == Thread(t))
  }

  predicate Current(m: Memory, h: Handle) {
    Ok(m, h) && h.live && h.inc == m.pool.inc[h.slot]
  }

  predicate OnChain(m: Memory, h: Handle) {
    Current(m, h) && m.role[h.slot] == Chained
  }

  /** A loaded node handle: if its incarnation is current, the node is on the chain or just off it. */
  predicate Snapshot(m: Memory, h: Handle) {
    Ok(m, h) && h.live && h.inc <= m.pool.inc[h.slot] &&
    (h.inc == m.pool.inc[h.slot] ==> m.role[h.slot] == Chained || m.role[h.slot].Retired?)
  }

  /** A loaded `head`: still the head, or off the chain for good. */
  predicate HeadSnapshot(m: Memory, h: Handle) {
    Snapshot(m, h) && (h == m.head || !OnChain(m, h))
  }

  /** A loaded `next` is still the link as long as its node is on the chain. */
  predicate LinkSeen(m: Memory, h: Handle, n: Handle) {
    OnChain(m, h) && n.Handle? ==> m.next[h.slot] == n
  }

  predicate TailAhead(m: Memory, h: Handle) {
    h == m.head ==> m.tail != m.head
  }

  predicate Ready(m: Memory, t: nat, d: Item, h: Handle) {
    Mine(m, t, h) && m.next[h.slot].Null? && m.item[h.slot] == d
  }

  predicate Mine(m: Memory, t: nat, h: Handle) {
    Current(m, h) && m.role[h.slot] == Private(t)
  }

  predicate IsLast(m: Memory, h: Handle) {
    |m.chain| > 0 && Current(m, h) && h.slot == m.chain[|m.chain| - 1]
  }

  /** Where the thread stands inside the pool. */
  predicate PoolSide(p: P.Pc, pc: Pc) {
    match pc
    case PushAlloc(_) => !p.Idle? && !P.IsRelease(p)
    case PopRelease(_, _) => P.IsRelease(p)
    case _ => p.Idle?
  }

  /** The release of a retired node never sees a foreign generation. */
  predicate ReleasesNode(m: Memory, t: nat, pc: P.Pc, h: Handle) {
    match pc
    case ReleaseCheck(g) => g == h && Current(m, h) && m.role[h.slot] == Retired(t)
    case ReleaseStoreGen(x, k) => h == Handle(x, k, true) && Current(m, h) && m.role[h.slot] == Retired(t)
    case ReleaseDone(ok) => ok && Ok(m, h) && m.role[h.slot] != Retired(t)
    case _ => Ok(m, h) && m.role[h.slot] != Retired(t)
  }

  predicate PushInv(m: Memory, t: nat, pc: Pc)
  {
    match pc
    case PushGet(_, h) => Mine(m, t, h)
    case PushStoreNext(_, h) => Mine(m, t, h)
    case PushStoreItem(_, h) => Mine(m, t, h) && m.next[h.slot].Null?
    case PushEnter(d, h) => Ready(m, t, d, h)
    case PushLoadTail(d, h) => Ready(m, t, d, h) && IsLast(m, m.tail)
    case PushGetTail(d, h, tl) => Ready(m, t, d, h) && IsLast(m, m.tail) && tl == m.tail
    case PushLoadNext(d, h, tl) => Ready(m, t, d, h) && IsLast(m, m.tail) && tl == m.tail
    case PushRecheck(d, h, tl, n) =>
      Ready(m, t, d, h) && IsLast(m, m.tail) && tl == m.tail && n.Null?
    case PushLink(d, h, tl) => Ready(m, t, d, h) && IsLast(m, m.tail) && tl == m.tail
    case PushHelp(_, _, _, _) => false
    case PushReloadTail(h) => IsLast(m, h)
    case PushSwing(h, tl) => IsLast(m, h) && (m.tail == tl || m.tail == h)
    case PushAddLength(h) => h.Handle?
    case _ => true
  }

  predicate PopInv(m: Memory, t: nat, pc: Pc)
  {
    match pc
    case PopLoadTail(hd) => HeadSnapshot(m, hd)
    case PopGetHead(hd, tl) => TailSeen(m, hd, tl)
    case PopLoadNext(hd, tl) => TailSeen(m, hd, tl)
    case PopRecheck(hd, tl, n, e) =>
      TailSeen(m, hd, tl) && LinkSeen(m, hd, n) && (hd == m.head && n.Null? ==> e)
    case PopHelp(hd, tl, n) => HeadSnapshot(m, hd) && hd == tl && n.Handle? && LinkSeen(m, hd, n)
    case PopGetNext(hd, n) => HeadSnapshot(m, hd) && TailAhead(m, hd) && LinkSeen(m, hd, n)
    case PopReadItem(hd, n) =>
      HeadSnapshot(m, hd) && TailAhead(m, hd) && LinkSeen(m, hd, n) && Ok(m, n)
    case PopCas(hd, n, v) =>
      HeadSnapshot(m, hd) && TailAhead(m, hd) && LinkSeen(m, hd, n) && Ok(m, n) &&
      (OnChain(m, hd) ==> v == m.item[n.slot])
    case PopCallRelease(hd, _) => Current(m, hd) && m.role[hd.slot] == Retired(t)
    case PopRelease(hd, _) => t < |m.pool.pcs| && ReleasesNode(m, t, m.pool.pcs[t], hd)
    case PopSubLength(_, ok) => ok
    case PopDone(v, e) => (v.None? ==> e)
    case Crashed => false
    case _ => true
  }

  /** What a pop knows after loading `tail`: if `head` has not moved, equal words are equal nodes and others lie ahead. */
  predicate TailSeen(m: Memory, hd: Handle, tl: Handle) {
    HeadSnapshot(m, hd) && (if SameWord(hd, tl) then hd == tl else TailAhead(m, hd))
  }

  predicate ThreadInv(m: Memory, t: nat, pc: Pc) {
    t < |m.pool.pcs| && PoolSide(m.pool.pcs[t], pc) && (if IsPush(pc) then PushInv(m, t, pc) else PopInv(m, t, pc))
  }

  predicate ThreadsInv(m: Memory, pcs: seq<Pc>) {
    forall t :: 0 <= t < |pcs| ==> ThreadInv(m, t, pcs[t])
  }

  ghost predicate MemoryInv(m: Memory, lagging: bool) {
    && P.Inv(m.pool)
    && Sizes(m)
    && IsChain(m.chain, m.pool.inc, m.next, m.head)
    && TailInv(m, lagging)
    && RolesInv(m)
  }

  ghost predicate Inv(s: State) {
    && |s.pcs| == |s.mem.pool.pcs|
    && MemoryInv(s.mem, Swinging(s))
    && RolesActive(s)
    && TurnInv(s)
    && ThreadsInv(s.mem, s.pcs)
  }
}
