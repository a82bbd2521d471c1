/** Every step of the concurrent queue keeps its invariant. */
module ConcurrentQueueSteps {
  import opened Lists
  import opened TaggedHandles
  import opened ConcurrentQueue
  import P = ConcurrentPool

  // ------------------------------------------------------------ the chain

  lemma ChainAppend(xs: seq<nat>, inc: seq<nat>, next: seq<Handle>, head: Handle, x: nat)
    requires IsChain(xs, inc, next, head) && x < |inc| && x !in xs && next[x].Null?
    ensures IsChain(xs + [x], inc, next[xs[|xs| - 1] := Handle(x, inc[x], true)], head)
  {
    var ys := xs + [x];
    var next' := next[xs[|xs| - 1] := Handle(x, inc[x], true)];
    forall i | 0 <= i < |ys|
      ensures next'[ys[i]] == Tag(ys, inc, i + 1)
    {
      assert i < |xs| ==> ys[i] == xs[i];
      assert i < |xs| - 1 ==> ys[i + 1] == xs[i + 1] && ys[i] != xs[|xs| - 1];
    }
  }

  lemma ChainDrop(xs: seq<nat>, inc: seq<nat>, next: seq<Handle>, head: Handle)
    requires IsChain(xs, inc, next, head) && |xs| > 1
    ensures IsChain(xs[1..], inc, next, next[xs[0]])
  {
    var ys := xs[1..];
    assert forall i :: 0 <= i < |ys| ==> ys[i] == xs[i + 1];
  }

  lemma DropMember(xs: seq<nat>, x: nat)
    requires NoDuplicates(xs) && |xs| > 0
    ensures x in xs[1..] <==> x in xs && x != xs[0]
  {
    assert xs == [xs[0]] + xs[1..];
  }

  lemma ChainFrame(xs: seq<nat>, inc: seq<nat>, next: seq<Handle>, head: Handle, x: nat, k: nat, h: Handle)
    requires IsChain(xs, inc, next, head) && x < |inc| && x !in xs
    ensures IsChain(xs, inc[x := k], next[x := h], head)
  {
  }

  /** The link of a node on the chain is null or leads to a node on the chain. */
  lemma Successor(m: Memory, lagging: bool, h: Handle)
    requires MemoryInv(m, lagging) && OnChain(m, h) && m.next[h.slot].Handle?
    ensures |m.chain| > 1 && h.slot != m.chain[|m.chain| - 1]
    ensures OnChain(m, m.next[h.slot]) && m.next[h.slot] != m.head
    ensures h == m.head ==> m.next[h.slot] == Tag(m.chain, m.pool.inc, 1)
    ensures h == m.tail ==> lagging && IsLast(m, m.next[h.slot])
  {
    var i :| 0 <= i < |m.chain| && m.chain[i] == h.slot;
    assert m.next[m.chain[i]] == Tag(m.chain, m.pool.inc, i + 1);
    assert m.chain[i + 1] in m.chain;
    if h == m.head {
      assert m.chain[0] == h.slot;
      assert i == 0;
    }
    if h == m.tail {
      assert i == |m.chain| - 2;
    }
  }

  lemma EndsOnChain(m: Memory, lagging: bool)
    requires MemoryInv(m, lagging)
    ensures OnChain(m, m.head) && OnChain(m, m.tail)
    ensures IsLast(m, Tag(m.chain, m.pool.inc, |m.chain| - 1)) && m.next[m.chain[|m.chain| - 1]].Null?
    ensures m.next[m.head.slot].Null? <==> |m.chain| == 1
    ensures !lagging ==> IsLast(m, m.tail)
  {
    assert m.chain[0] in m.chain && m.chain[|m.chain| - 1] in m.chain;
    if |m.chain| > 1 {
      assert m.chain[|m.chain| - 2] in m.chain;
    }
    assert m.next[m.chain[0]] == Tag(m.chain, m.pool.inc, 1);
  }

  // ------------------------------------------------- one thread moves on

  /** What a thread must keep of its old program counter for the rest of the invariant. */
  ghost predicate Moves(p: Pc, q: Pc) {
    && (InSection(p) <==> InSection(q))
    && (p.PushReloadTail? || p.PushSwing? ==> q.PushReloadTail? || q.PushSwing?)
    && (forall x :: Prepares(p, x) ==> Prepares(q, x))
  }

  /** No retired slot of thread `t` is forgotten. */
  predicate KeepsRetired(role: seq<Role>, t: nat, p: Pc, q: Pc) {
    forall x :: 0 <= x < |role| && role[x] == Retired(t) && Retires(p, x) ==> Retires(q, x)
  }

  lemma MoveInv(s: State, t: nat, pc: Pc, m: Memory, n: int)
    requires Inv(s) && t < |s.pcs| == |m.pool.pcs| && Moves(s.pcs[t], pc) && KeepsRetired(s.mem.role, t, s.pcs[t], pc)
    requires m.role == s.mem.role && MemoryInv(m, Swinging(s))
    requires ThreadsInv(m, s.pcs[t := pc])
    ensures Inv(Goto(s, t, pc, m).(length := n))
  {
    var s' := Goto(s, t, pc, m).(length := n);
    assert Swinging(s) ==> Swinging(s');
    forall x | 0 <= x < |s'.mem.role|
      ensures RoleActive(s'.pcs, x, s'.mem.role[x])
    {
      assert RoleActive(s.pcs, x, s.mem.role[x]);
    }
  }

  /** A step that leaves the memory alone. */
  lemma GotoInv(s: State, t: nat, pc: Pc, n: int)
    requires Inv(s) && t < |s.pcs| && Moves(s.pcs[t], pc) && KeepsRetired(s.mem.role, t, s.pcs[t], pc)
    requires ThreadInv(s.mem, t, pc)
    ensures Inv(Goto(s, t, pc, s.mem).(length := n))
  {
    MoveInv(s, t, pc, s.mem, n);
  }

  // ------------------------------------------------- the pool's own steps

  /** The pool moved without touching an incarnation or a live slot. */
  predicate PoolMoves(p: P.State, q: P.State, t: nat) {
    && t < |p.pcs| == |q.pcs|
    && q.inc == p.inc && |q.next| == |p.next| && |q.owner| == |p.owner|
    && (forall u :: 0 <= u < |p.pcs| && u != t ==> q.pcs[u] == p.pcs[u])
    && (forall x :: 0 <= x < |p.owner| ==> (q.owner[x] == P.Live <==> p.owner[x] == P.Live))
  }

  lemma PushIgnoresPool(m: Memory, q: P.State, t: nat, u: nat, pc: Pc)
    requires PoolMoves(m.pool, q, t) && u != t && u < |q.pcs|
    requires PushInv(m, u, pc)
    ensures PushInv(m.(pool := q), u, pc)
  {
  }

  lemma PopIgnoresPool(m: Memory, q: P.State, t: nat, u: nat, pc: Pc)
    requires PoolMoves(m.pool, q, t) && u != t && u < |q.pcs|
    requires PopInv(m, u, pc)
    ensures PopInv(m.(pool := q), u, pc)
  {
  }

  lemma PoolMovesInv(s: State, t: nat, q: P.State, pc: Pc)
    requires Inv(s) && PoolMoves(s.mem.pool, q, t) && P.Inv(q)
    requires Moves(s.pcs[t], pc) && KeepsRetired(s.mem.role, t, s.pcs[t], pc)
    requires ThreadInv(s.mem.(pool := q), t, pc)
    ensures Inv(Goto(s, t, pc, s.mem.(pool := q)))
  {
    var m := s.mem.(pool := q);
    forall u | 0 <= u < |s.pcs| && u != t
      ensures ThreadInv(m, u, s.pcs[u])
    {
      assert ThreadInv(s.mem, u, s.pcs[u]);
      if IsPush(s.pcs[u]) {
        PushIgnoresPool(s.mem, q, t, u, s.pcs[u]);
      } else {
        PopIgnoresPool(s.mem, q, t, u, s.pcs[u]);
      }
    }
    MoveInv(s, t, pc, m, s.length);
    assert Goto(s, t, pc, m).(length := s.length) == Goto(s, t, pc, m);
  }

  // -------------------------------- a step that also changes a slot's role

  lemma HandOver(s: State, s': State, t: nat, x: nat)
    requires RolesActive(s) && t < |s.pcs| == |s'.pcs| == |s'.mem.pool.pcs| && s'.pcs == s.pcs[t := s'.pcs[t]]
    requires x < |s.mem.role| == |s'.mem.role|
    requires forall y :: 0 <= y < |s.mem.role| && y != x ==> s'.mem.role[y] == s.mem.role[y]
    requires RoleActive(s'.pcs, x, s'.mem.role[x])
    requires forall y: nat :: y != x && Prepares(s.pcs[t], y) ==> Prepares(s'.pcs[t], y)
    requires forall y: nat :: y != x && Retires(s.pcs[t], y) ==> Retires(s'.pcs[t], y)
    requires MemoryInv(s'.mem, Swinging(s'))
    requires TurnInv(s')
    requires ThreadsInv(s'.mem, s'.pcs)
    ensures Inv(s')
  {
    forall y | 0 <= y < |s.mem.role| && y != x
      ensures RoleActive(s'.pcs, y, s'.mem.role[y])
    {
      assert RoleActive(s.pcs, y, s.mem.role[y]);
    }
  }

  lemma TurnKept(s: State, s': State, t: nat)
    requires TurnInv(s) && t < |s.pcs| == |s'.pcs| && s'.pcs == s.pcs[t := s'.pcs[t]] && s'.turn == s.turn
    requires InSection(s.pcs[t]) <==> InSection(s'.pcs[t])
    ensures TurnInv(s')
  {
  }

  // ------------------------------------- changes to a slot off the chain

  /** Thread `t` changes slot `x`, which is its own or the pool's, and nothing else. */
  predicate OffChain(m: Memory, m': Memory, t: nat, x: nat) {
    && Sizes(m) && Sizes(m') && |m.pool.next| == |m'.pool.next| == |m.pool.inc| == |m'.pool.inc|
    && x < |m.role| && |m.pool.pcs| == |m'.pool.pcs|
    && m'.head == m.head && m'.tail == m.tail && m'.chain == m.chain
    && (forall y :: 0 <= y < |m.role| && y != x ==>
          m'.next[y] == m.next[y] && m'.item[y] == m.item[y] && m'.role[y] == m.role[y] && m'.pool.inc[y] == m.pool.inc[y])
    && (forall u :: 0 <= u < |m.pool.pcs| && u != t ==> m'.pool.pcs[u] == m.pool.pcs[u])
    && x !in m.chain
    && m'.role[x] in {Pooled, Private(t)}
    && (|| (m.role[x] in {Pooled, Private(t)} && m'.pool.inc[x] == m.pool.inc[x])
        || (m.role[x] == Retired(t) && m'.pool.inc[x] == m.pool.inc[x] + 1))
  }

  lemma OffChainPush(m: Memory, m': Memory, t: nat, x: nat, u: nat, pc: Pc)
    requires OffChain(m, m', t, x) && u != t && PushInv(m, u, pc)
    ensures PushInv(m', u, pc)
  {
  }

  lemma OffChainPop(m: Memory, m': Memory, t: nat, x: nat, u: nat, pc: Pc)
    requires OffChain(m, m', t, x) && u != t && u < |m.pool.pcs| && PopInv(m, u, pc)
    requires pc.PopCas? && OnChain(m, pc.head) ==> OnChain(m, pc.next)
    ensures PopInv(m', u, pc)
  {
  }

  lemma OffChainOther(m: Memory, m': Memory, lagging: bool, t: nat, x: nat, u: nat, pc: Pc)
    requires MemoryInv(m, lagging) && OffChain(m, m', t, x) && u != t && ThreadInv(m, u, pc)
    ensures ThreadInv(m', u, pc)
  {
    if IsPush(pc) {
      OffChainPush(m, m', t, x, u, pc);
    } else {
      if pc.PopCas? && OnChain(m, pc.head) {
        Successor(m, lagging, pc.head);
      }
      OffChainPop(m, m', t, x, u, pc);
    }
  }

  lemma OffChainOthers(s: State, m': Memory, t: nat, x: nat, pc: Pc)
    requires Inv(s) && t < |s.pcs| && OffChain(s.mem, m', t, x)
    requires ThreadInv(m', t, pc)
    ensures ThreadsInv(m', s.pcs[t := pc])
  {
    var m := s.mem;
    forall u | 0 <= u < |s.pcs| && u != t
      ensures ThreadInv(m', u, s.pcs[u])
    {
      assert ThreadInv(m, u, s.pcs[u]);
      OffChainOther(m, m', Swinging(s), t, x, u, s.pcs[u]);
    }
  }

  lemma OffChainMemory(m: Memory, m': Memory, lagging: bool, t: nat, x: nat)
    requires MemoryInv(m, lagging) && OffChain(m, m', t, x)
    requires P.Inv(m'.pool)
    requires forall y :: 0 <= y < |m.role| && y != x ==> (m'.pool.owner[y] == P.Live <==> m.pool.owner[y] == P.Live)
    requires m'.role[x] == Pooled <==> m'.pool.owner[x] != P.Live
    ensures MemoryInv(m', lagging)
  {
    ChainFrame(m.chain, m.pool.inc, m.next, m.head, x, m'.pool.inc[x], m'.next[x]);
    assert m'.pool.inc == m.pool.inc[x := m'.pool.inc[x]];
    assert m'.next == m.next[x := m'.next[x]];
  }

  lemma OffChainInv(s: State, s': State, t: nat, x: nat)
    requires Inv(s) && t < |s.pcs| == |s'.pcs| == |s'.mem.pool.pcs| && s'.pcs == s.pcs[t := s'.pcs[t]] && s'.turn == s.turn
    requires OffChain(s.mem, s'.mem, t, x) && P.Inv(s'.mem.pool)
    requires forall y :: 0 <= y < |s.mem.role| && y != x ==> (s'.mem.pool.owner[y] == P.Live <==> s.mem.pool.owner[y] == P.Live)
    requires s'.mem.role[x] == Pooled <==> s'.mem.pool.owner[x] != P.Live
    requires RoleActive(s'.pcs, x, s'.mem.role[x])
    requires forall y: nat :: y != x && Prepares(s.pcs[t], y) ==> Prepares(s'.pcs[t], y)
    requires forall y: nat :: y != x && Retires(s.pcs[t], y) ==> Retires(s'.pcs[t], y)
    requires !InSection(s.pcs[t]) && !InSection(s'.pcs[t])
    requires ThreadInv(s'.mem, t, s'.pcs[t])
    ensures Inv(s')
  {
    assert Swinging(s') == Swinging(s);
    OffChainMemory(s.mem, s'.mem, Swinging(s), t, x);
    OffChainOthers(s, s'.mem, t, x, s'.pcs[t]);
    TurnKept(s, s', t);
    HandOver(s, s', t, x);
  }

  // -------------------------------------------------------------- linking

  lemma LinkMemory(m: Memory, t: nat, h: Handle)
    requires MemoryInv(m, false) && Mine(m, t, h) && m.next[h.slot].Null?
    ensures MemoryInv(LinkNode(m, h, m.tail), true)
  {
    EndsOnChain(m, false);
    var m' := LinkNode(m, h, m.tail);
    assert h.slot !in m.chain;
    ChainAppend(m.chain, m.pool.inc, m.next, m.head, h.slot);
    assert m'.chain[|m'.chain| - 2] == m.chain[|m.chain| - 1];
    forall x | 0 <= x < |m'.role|
      ensures m'.role[x] == Chained <==> x in m'.chain
    {
      assert x in m'.chain <==> x in m.chain || x == h.slot;
    }
  }

  lemma LinkOther(m: Memory, t: nat, h: Handle, u: nat, pc: Pc)
    requires Sizes(m) && OnChain(m, m.tail) && m.next[m.tail.slot].Null? && Mine(m, t, h)
    requires u != t && !InSection(pc) && ThreadInv(m, u, pc)
    ensures ThreadInv(LinkNode(m, h, m.tail), u, pc)
  {
  }

  lemma LinkOthers(m: Memory, t: nat, h: Handle, pcs: seq<Pc>, pc: Pc)
    requires Sizes(m) && OnChain(m, m.tail) && m.next[m.tail.slot].Null? && Mine(m, t, h)
    requires ThreadsInv(m, pcs) && t < |pcs|
    requires forall u :: 0 <= u < |pcs| && u != t ==> !InSection(pcs[u])
    requires ThreadInv(LinkNode(m, h, m.tail), t, pc)
    ensures ThreadsInv(LinkNode(m, h, m.tail), pcs[t := pc])
  {
    forall u | 0 <= u < |pcs| && u != t
      ensures ThreadInv(LinkNode(m, h, m.tail), u, pcs[u])
    {
      LinkOther(m, t, h, u, pcs[u]);
    }
  }

  lemma LinkFacts(s: State, t: nat)
    requires Inv(s) && t < |s.pcs| && s.pcs[t].PushLink?
    ensures s.turn == Thread(t) && !Swinging(s)
    ensures s.pcs[t].tail == s.mem.tail && Mine(s.mem, t, s.pcs[t].node) && s.mem.next[s.pcs[t].node.slot].Null?
    ensures OnChain(s.mem, s.mem.tail) && s.mem.next[s.mem.tail.slot].Null?
    ensures PoolSide(s.mem.pool.pcs[t], s.pcs[t]) && s.mem.item[s.pcs[t].node.slot] == s.pcs[t].data
  {
    assert ThreadInv(s.mem, t, s.pcs[t]);
    assert s.turn == Thread(t);
    EndsOnChain(s.mem, false);
  }

  function AfterLink(s: State, t: nat): State
    requires HasThread(s, t) && s.pcs[t].PushLink? && Ok(s.mem, s.mem.tail) && Ok(s.mem, s.pcs[t].node)
  {
    Goto(s, t, PushReloadTail(s.pcs[t].node), LinkNode(s.mem, s.pcs[t].node, s.mem.tail)).(turn := s.turn)
  }

  lemma LinkKeeps(s: State, t: nat)
    requires Inv(s) && t < |s.pcs| && s.pcs[t].PushLink?
    ensures Ok(s.mem, s.mem.tail) && Ok(s.mem, s.pcs[t].node)
    ensures MemoryInv(AfterLink(s, t).mem, Swinging(AfterLink(s, t)))
    ensures ThreadsInv(AfterLink(s, t).mem, AfterLink(s, t).pcs)
  {
    LinkFacts(s, t);
    var h := s.pcs[t].node;
    LinkMemory(s.mem, t, h);
    var m' := LinkNode(s.mem, h, s.mem.tail);
    assert m'.chain[|m'.chain| - 1] == h.slot;
    assert ThreadInv(m', t, PushReloadTail(h));
    LinkOthers(s.mem, t, h, s.pcs, PushReloadTail(h));
  }

  lemma LinkApplies(s: State, t: nat)
    requires Inv(s) && t < |s.pcs| && s.pcs[t].PushLink?
    ensures Ok(s.mem, s.mem.tail) && Ok(s.mem, s.pcs[t].node)
    ensures Apply(s, Run(t, false)) == AfterLink(s, t)
  {
    LinkFacts(s, t);
  }

  lemma LinkInv(s: State, t: nat)
    requires Inv(s) && t < |s.pcs| && s.pcs[t].PushLink?
    ensures Ok(s.mem, s.mem.tail) && Ok(s.mem, s.pcs[t].node)
    ensures Apply(s, Run(t, false)) == AfterLink(s, t)
    ensures Inv(AfterLink(s, t))
  {
    LinkApplies(s, t);
    LinkKeeps(s, t);
    assert Mine(s.mem, t, s.pcs[t].node) by { LinkFacts(s, t); }
    TurnKept(s, AfterLink(s, t), t);
    HandOver(s, AfterLink(s, t), t, s.pcs[t].node.slot);
  }

  // ------------------------------------------------- moving the tail forward

  lemma TailOther(m: Memory, lagging: bool, h: Handle, u: nat, pc: Pc)
    requires MemoryInv(m, lagging) && IsLast(m, h)
    requires InSection(pc) && lagging ==> pc.PushReloadTail? || pc.PushSwing?
    requires ThreadInv(m, u, pc)
    ensures ThreadInv(m.(tail := h), u, pc)
  {
    if m.tail != h {
      assert h.slot == m.chain[|m.chain| - 1] != m.chain[0];
      assert h != m.head && lagging;
    }
    if IsPush(pc) {
      TailOtherPush(m, lagging, h, u, pc);
    } else {
      TailOtherPop(m, h, u, pc);
    }
  }

  lemma TailOtherPush(m: Memory, lagging: bool, h: Handle, u: nat, pc: Pc)
    requires IsLast(m, h) && PushInv(m, u, pc) && (m.tail != h ==> lagging)
    requires InSection(pc) && lagging ==> pc.PushReloadTail? || pc.PushSwing?
    requires pc.PushSwing? ==> pc.node == h
    ensures PushInv(m.(tail := h), u, pc)
  {
  }

  lemma TailOtherPop(m: Memory, h: Handle, u: nat, pc: Pc)
    requires PopInv(m, u, pc) && (m.tail != h ==> h != m.head)
    ensures PopInv(m.(tail := h), u, pc)
  {
  }

  lemma TailInvAfter(m: Memory, lagging: bool, h: Handle)
    requires MemoryInv(m, lagging) && IsLast(m, h)
    ensures MemoryInv(m.(tail := h), false)
  {
  }

  lemma TailForward(s: State, t: nat, h: Handle, pc: Pc)
    requires Inv(s) && t < |s.pcs| && IsLast(s.mem, h)
    requires ThreadInv(s.mem, t, pc)
    ensures ThreadsInv(s.mem.(tail := h), s.pcs)
    ensures MemoryInv(s.mem.(tail := h), false)
  {
    TailInvAfter(s.mem, Swinging(s), h);
    forall u | 0 <= u < |s.pcs|
      ensures ThreadInv(s.mem.(tail := h), u, s.pcs[u])
    {
      assert ThreadInv(s.mem, u, s.pcs[u]);
      TailOther(s.mem, Swinging(s), h, u, s.pcs[u]);
    }
  }

  // ------------------------------------------------------------ unlinking

  lemma UnlinkMemory(m: Memory, lagging: bool, t: nat)
    requires MemoryInv(m, lagging) && |m.chain| > 1 && m.tail != m.head
    ensures MemoryInv(UnlinkHead(m, t, m.head, m.next[m.head.slot]), lagging)
  {
    EndsOnChain(m, lagging);
    Successor(m, lagging, m.head);
    var m' := UnlinkHead(m, t, m.head, m.next[m.head.slot]);
    ChainDrop(m.chain, m.pool.inc, m.next, m.head);
    UnlinkRoles(m, t);
    UnlinkTail(m, m', lagging);
  }

  lemma UnlinkTail(m: Memory, m': Memory, lagging: bool)
    requires TailInv(m, lagging) && |m.chain| > 1 && m.tail != Tag(m.chain, m.pool.inc, 0)
    requires m'.chain == m.chain[1..] && m'.tail == m.tail && m'.pool == m.pool
    ensures TailInv(m', lagging)
  {
    assert m'.chain[|m'.chain| - 1] == m.chain[|m.chain| - 1];
    assert m.tail == Tag(m.chain, m.pool.inc, |m.chain| - 1) || m'.chain[|m'.chain| - 2] == m.chain[|m.chain| - 2];
  }

  lemma UnlinkRoles(m: Memory, t: nat)
    requires Sizes(m) && RolesInv(m) && OnChain(m, m.head) && |m.chain| > 1 && m.chain[0] == m.head.slot && NoDuplicates(m.chain)
    ensures RolesInv(UnlinkHead(m, t, m.head, m.next[m.head.slot]))
  {
    var m' := UnlinkHead(m, t, m.head, m.next[m.head.slot]);
    forall x | 0 <= x < |m'.role|
      ensures m'.role[x] == Chained <==> x in m'.chain
    {
      DropMember(m.chain, x);
    }
  }

  lemma UnlinkOther(m: Memory, t: nat, u: nat, pc: Pc)
    requires Sizes(m) && OnChain(m, m.head) && |m.chain| > 1 && m.chain[0] == m.head.slot
    requires OnChain(m, m.next[m.head.slot]) && m.next[m.head.slot] != m.head
    requires u != t && ThreadInv(m, u, pc)
    ensures ThreadInv(UnlinkHead(m, t, m.head, m.next[m.head.slot]), u, pc)
  {
    var m' := UnlinkHead(m, t, m.head, m.next[m.head.slot]);
    assert m'.chain[|m'.chain| - 1] == m.chain[|m.chain| - 1];
  }

  /** A successful head compare-exchange: the head has not moved, and the item read is the front of the queue. */
  lemma UnlinkFacts(s: State, t: nat)
    requires Inv(s) && t < |s.pcs| && s.pcs[t].PopCas? && HeadWindow(s.mem, s.pcs[t])
    requires SameWord(s.mem.head, s.pcs[t].head)
    ensures s.pcs[t].head == s.mem.head != s.mem.tail
    ensures OnChain(s.mem, s.mem.head) && OnChain(s.mem, s.mem.next[s.mem.head.slot])
    ensures s.mem.next[s.mem.head.slot] != s.mem.head
    ensures |s.mem.chain| > 1 && s.mem.next[s.mem.head.slot] == s.pcs[t].next == Tag(s.mem.chain, s.mem.pool.inc, 1)
    ensures s.pcs[t].item == s.mem.item[s.mem.chain[1]]
  {
    var m := s.mem;
    assert ThreadInv(m, t, s.pcs[t]);
    EndsOnChain(m, Swinging(s));
    SameWordInWindow(s.pcs[t].head, m.head);
    Successor(m, Swinging(s), m.head);
  }

  lemma UnlinkOthers(m: Memory, t: nat, pcs: seq<Pc>, pc: Pc)
    requires Sizes(m) && OnChain(m, m.head) && |m.chain| > 1 && m.chain[0] == m.head.slot
    requires OnChain(m, m.next[m.head.slot]) && m.next[m.head.slot] != m.head
    requires ThreadsInv(m, pcs) && t < |pcs|
    requires ThreadInv(UnlinkHead(m, t, m.head, m.next[m.head.slot]), t, pc)
    ensures ThreadsInv(UnlinkHead(m, t, m.head, m.next[m.head.slot]), pcs[t := pc])
  {
    forall u | 0 <= u < |pcs| && u != t
      ensures ThreadInv(UnlinkHead(m, t, m.head, m.next[m.head.slot]), u, pcs[u])
    {
      UnlinkOther(m, t, u, pcs[u]);
    }
  }

  lemma UnlinkThread(s: State, t: nat)
    requires Inv(s) && t < |s.pcs| && s.pcs[t].PopCas? && s.pcs[t].head == s.mem.head && OnChain(s.mem, s.mem.head)
    ensures ThreadInv(UnlinkHead(s.mem, t, s.mem.head, s.pcs[t].next), t, PopCallRelease(s.pcs[t].head, s.pcs[t].item))
  {
    assert ThreadInv(s.mem, t, s.pcs[t]);
  }

  function AfterUnlink(s: State, t: nat): State
    requires HasThread(s, t) && s.pcs[t].PopCas? && Ok(s.mem, s.mem.head)
  {
    Goto(s, t, PopCallRelease(s.pcs[t].head, s.pcs[t].item), UnlinkHead(s.mem, t, s.mem.head, s.pcs[t].next)).(turn := s.turn)
  }

  lemma UnlinkKeeps(s: State, t: nat)
    requires Inv(s) && t < |s.pcs| && s.pcs[t].PopCas? && HeadWindow(s.mem, s.pcs[t])
    requires SameWord(s.mem.head, s.pcs[t].head)
    ensures Ok(s.mem, s.mem.head) && MemoryInv(AfterUnlink(s, t).mem, Swinging(AfterUnlink(s, t)))
    ensures ThreadsInv(AfterUnlink(s, t).mem, AfterUnlink(s, t).pcs)
  {
    UnlinkFacts(s, t);
    UnlinkMemory(s.mem, Swinging(s), t);
    assert Swinging(AfterUnlink(s, t)) == Swinging(s);
    UnlinkThread(s, t);
    UnlinkOthers(s.mem, t, s.pcs, PopCallRelease(s.pcs[t].head, s.pcs[t].item));
  }

  lemma UnlinkApplies(s: State, t: nat)
    requires Inv(s) && t < |s.pcs| && s.pcs[t].PopCas? && HeadWindow(s.mem, s.pcs[t])
    requires SameWord(s.mem.head, s.pcs[t].head)
    ensures Ok(s.mem, s.mem.head) && Apply(s, Run(t, false)) == AfterUnlink(s, t)
  {
    UnlinkFacts(s, t);
  }

  lemma UnlinkInv(s: State, t: nat)
    requires Inv(s) && t < |s.pcs| && s.pcs[t].PopCas? && HeadWindow(s.mem, s.pcs[t])
    requires SameWord(s.mem.head, s.pcs[t].head)
    ensures Ok(s.mem, s.mem.head) && Apply(s, Run(t, false)) == AfterUnlink(s, t)
    ensures Inv(AfterUnlink(s, t))
  {
    UnlinkApplies(s, t);
    UnlinkKeeps(s, t);
    var s' := AfterUnlink(s, t);
    assert s'.pcs[t].head == s.mem.head by { UnlinkFacts(s, t); }
    TurnKept(s, s', t);
    HandOver(s, s', t, s.mem.head.slot);
  }

  // ------------------------------------------------ steps inside the pool

  lemma AllocMovesPool(p: P.State, t: nat, spurious: bool)
    requires P.Inv(p) && t < |p.pcs| && P.AllocWindow(p, p.pcs[t])
    requires !p.pcs[t].Idle? && !P.IsRelease(p.pcs[t]) && !p.pcs[t].AllocDone?
    ensures var q := P.Step(p, t, spurious);
            P.Inv(q) && PoolMoves(p, q, t) && !q.pcs[t].Idle? && !P.IsRelease(q.pcs[t])
  {
    P.AllocStepInv(p, t, spurious);
    assert P.ThreadInv(p, t, p.pcs[t]);
    if p.pcs[t].AllocCas? && SameWord(p.freeHead, p.pcs[t].oldHead) {
      P.AbaFree(p, t);
      assert p.stack[0] in p.stack;
    }
  }

  lemma ReleaseMovesPool(p: P.State, t: nat, spurious: bool)
    requires P.Inv(p) && t < |p.pcs| && P.ReleaseWindow(p, p.pcs[t])
    requires P.IsRelease(p.pcs[t]) && !p.pcs[t].ReleaseDone? && !p.pcs[t].ReleaseStoreGen?
    ensures var q := P.Step(p, t, spurious);
            P.Inv(q) && PoolMoves(p, q, t) && P.IsRelease(q.pcs[t]) &&
            (q.pcs[t] == p.pcs[t] || !q.pcs[t].ReleaseCheck?)
  {
    P.ReleaseStepInv(p, t, spurious);
    assert P.ThreadInv(p, t, p.pcs[t]);
  }

  lemma PushAllocInv(s: State, t: nat, spurious: bool)
    requires Inv(s) && t < |s.pcs| && s.pcs[t].PushAlloc? && P.AllocWindow(s.mem.pool, s.mem.pool.pcs[t])
    requires !s.mem.pool.pcs[t].AllocDone?
    ensures Inv(PushStep(s, t, spurious))
  {
    assert ThreadInv(s.mem, t, s.pcs[t]);
    AllocMovesPool(s.mem.pool, t, spurious);
    PoolMovesInv(s, t, P.Step(s.mem.pool, t, spurious), s.pcs[t]);
  }

  lemma ReleaseThread(m: Memory, t: nat, pc: Pc, spurious: bool)
    requires ThreadInv(m, t, pc) && pc.PopRelease? && Sizes(m) && |m.pool.next| == |m.pool.inc|
    requires !m.pool.pcs[t].ReleaseDone? && !m.pool.pcs[t].ReleaseStoreGen?
    ensures P.IsRelease(m.pool.pcs[t]) && P.ReleaseWindow(m.pool, m.pool.pcs[t])
    ensures var q := P.Step(m.pool, t, spurious);
            PoolMoves(m.pool, q, t) && P.IsRelease(q.pcs[t]) ==> ThreadInv(m.(pool := q), t, pc)
  {
  }

  lemma PopReleaseInv(s: State, t: nat, spurious: bool)
    requires Inv(s) && t < |s.pcs| && s.pcs[t].PopRelease?
    requires !s.mem.pool.pcs[t].ReleaseDone? && !s.mem.pool.pcs[t].ReleaseStoreGen?
    ensures Inv(PopStep(s, t, spurious))
  {
    ReleaseThread(s.mem, t, s.pcs[t], spurious);
    ReleaseMovesPool(s.mem.pool, t, spurious);
    PoolMovesInv(s, t, P.Step(s.mem.pool, t, spurious), s.pcs[t]);
  }

  lemma AllocReturnThread(s: State, t: nat, spurious: bool)
    requires HasThread(s, t) && s.pcs[t].PushAlloc? && s.mem.pool.pcs[t].AllocDone?
    requires s.mem.pool.pcs[t].result.Handle? && P.ThreadInv(s.mem.pool, t, s.mem.pool.pcs[t])
    requires Sizes(s.mem) && |s.mem.pool.next| == |s.mem.pool.inc| && |s.mem.pool.pcs| == |s.pcs| && RolesInv(s.mem)
    ensures var s' := PushStep(s, t, spurious); var x := s.mem.pool.pcs[t].result.slot;
            && OffChain(s.mem, s'.mem, t, x) && ThreadInv(s'.mem, t, s'.pcs[t]) && s'.turn == s.turn
            && s'.pcs == s.pcs[t := s'.pcs[t]] && s'.pcs[t].PushGet? && Prepares(s'.pcs[t], x)
            && s'.mem.pool == P.Apply(s.mem.pool, P.Return(t))
            && s'.mem.pool.owner == s.mem.pool.owner[x := P.Live] && s'.mem.role[x] == Private(t)
  {
    assert s.mem.role[s.mem.pool.pcs[t].result.slot] == Pooled;
  }

  /** `anam_alloc` returns to a push: the slot becomes private to it. */
  lemma AllocReturnInv(s: State, t: nat, spurious: bool)
    requires Inv(s) && t < |s.pcs| && s.pcs[t].PushAlloc? && s.mem.pool.pcs[t].AllocDone?
    requires s.mem.pool.pcs[t].result.Handle?
    ensures Inv(PushStep(s, t, spurious))
  {
    AllocReturnThread(s, t, spurious);
    P.ReturnInv(s.mem.pool, t);
    OffChainInv(s, PushStep(s, t, spurious), t, s.mem.pool.pcs[t].result.slot);
  }

  lemma AllocFailsInv(s: State, t: nat, spurious: bool)
    requires Inv(s) && t < |s.pcs| && s.pcs[t].PushAlloc? && s.mem.pool.pcs[t] == P.AllocDone(Null)
    ensures Inv(PushStep(s, t, spurious))
  {
    var q := P.Apply(s.mem.pool, P.Return(t));
    assert P.Inv(q) by { P.ReturnInv(s.mem.pool, t); }
    NullReturnMoves(s.mem.pool, t);
    PoolMovesInv(s, t, q, PushDone(Null));
  }

  lemma NullReturnMoves(p: P.State, t: nat)
    requires t < |p.pcs| && p.pcs[t] == P.AllocDone(Null)
    ensures PoolMoves(p, P.Apply(p, P.Return(t)), t) && P.Apply(p, P.Return(t)).pcs[t] == P.Idle
  {
  }

  /** The release of a retired node bumps its generation: the slot is the pool's again. */
  lemma StoreGenInv(s: State, t: nat, spurious: bool)
    requires Inv(s) && t < |s.pcs| && s.pcs[t].PopRelease? && s.mem.pool.pcs[t].ReleaseStoreGen?
    ensures Inv(PopStep(s, t, spurious))
  {
    var x, s' := s.mem.pool.pcs[t].slot, PopStep(s, t, spurious);
    assert ThreadInv(s.mem, t, s.pcs[t]);
    assert P.ThreadInv(s.mem.pool, t, s.mem.pool.pcs[t]);
    assert s.mem.role[x] == Retired(t);
    StoreGenThread(s, t, spurious, x);
    P.ReleaseStoreGenInv(s.mem.pool, t);
    OffChainInv(s, s', t, x);
  }

  lemma StoreGenThread(s: State, t: nat, spurious: bool, x: nat)
    requires HasThread(s, t) && s.pcs[t].PopRelease? && s.mem.pool.pcs[t].ReleaseStoreGen? && x == s.mem.pool.pcs[t].slot
    requires ThreadInv(s.mem, t, s.pcs[t]) && Sizes(s.mem) && |s.mem.pool.next| == |s.mem.pool.inc| && x !in s.mem.chain
    requires P.ThreadInv(s.mem.pool, t, s.mem.pool.pcs[t])
    ensures var s' := PopStep(s, t, spurious);
            && OffChain(s.mem, s'.mem, t, x) && ThreadInv(s'.mem, t, s'.pcs[t])
            && s'.mem.pool == P.Step(s.mem.pool, t, false)
            && s'.pcs == s.pcs && s'.turn == s.turn && s'.mem.role[x] == Pooled && s'.mem.pool.owner[x] != P.Live
            && (forall y :: 0 <= y < |s.mem.role| && y != x ==> s'.mem.pool.owner[y] == s.mem.pool.owner[y])
  {
  }

  lemma PrivateStoreThread(s: State, t: nat, spurious: bool)
    requires t < |s.pcs| && (s.pcs[t].PushStoreNext? || s.pcs[t].PushStoreItem?)
    requires ThreadInv(s.mem, t, s.pcs[t]) && Sizes(s.mem) && |s.mem.pool.next| == |s.mem.pool.inc|
    requires s.pcs[t].node.slot !in s.mem.chain
    ensures var s' := PushStep(s, t, spurious); var x := s.pcs[t].node.slot;
            && OffChain(s.mem, s'.mem, t, x) && ThreadInv(s'.mem, t, s'.pcs[t])
            && s'.mem.role == s.mem.role && s'.mem.pool == s.mem.pool && s'.turn == s.turn
            && s'.pcs == s.pcs[t := s'.pcs[t]] && Prepares(s'.pcs[t], x)
            && s'.mem.role[x] == Private(t) && !InSection(s'.pcs[t])
  {
  }

  /** A push writes into its private node. */
  lemma PrivateStoreInv(s: State, t: nat, spurious: bool)
    requires Inv(s) && t < |s.pcs| && (s.pcs[t].PushStoreNext? || s.pcs[t].PushStoreItem?)
    ensures Inv(PushStep(s, t, spurious))
  {
    var x := s.pcs[t].node.slot;
    assert ThreadInv(s.mem, t, s.pcs[t]);
    PrivateStoreThread(s, t, spurious);
    OffChainInv(s, PushStep(s, t, spurious), t, x);
  }

  /** The queue is a lawful client of the pool: the handle it releases is issued and in nobody else's release. */
  lemma ReleaseIsLegal(s: State, t: nat)
    requires Inv(s) && t < |s.pcs| && s.pcs[t].PopCallRelease?
    ensures P.Legal(s.mem.pool, P.CallRelease(t, s.pcs[t].head))
  {
    var m, h := s.mem, s.pcs[t].head;
    assert ThreadInv(m, t, s.pcs[t]);
    forall u | 0 <= u < |m.pool.pcs| && u != t
      ensures !P.Releases(m.pool.pcs[u], h.slot, h.inc)
    {
      assert ThreadInv(m, u, s.pcs[u]);
    }
  }

  lemma CallReleaseThread(m: Memory, t: nat, pc: Pc)
    requires ThreadInv(m, t, pc) && pc.PopCallRelease? && Sizes(m) && |m.pool.next| == |m.pool.inc|
    ensures var q := P.Apply(m.pool, P.CallRelease(t, pc.head));
            PoolMoves(m.pool, q, t) && ThreadInv(m.(pool := q), t, PopRelease(pc.head, pc.item))
  {
  }

  lemma CallReleaseInv(s: State, t: nat, spurious: bool)
    requires Inv(s) && t < |s.pcs| && s.pcs[t].PopCallRelease?
    ensures Inv(PopStep(s, t, spurious))
  {
    var h := s.pcs[t].head;
    assert P.Inv(P.Apply(s.mem.pool, P.CallRelease(t, h))) by {
      ReleaseIsLegal(s, t);
      P.ApplyInv(s.mem.pool, P.CallRelease(t, h));
    }
    CallReleaseThread(s.mem, t, s.pcs[t]);
    PoolMovesInv(s, t, P.Apply(s.mem.pool, P.CallRelease(t, h)), PopRelease(h, s.pcs[t].item));
  }

  lemma ReleaseReturnThread(m: Memory, t: nat, pc: Pc)
    requires ThreadInv(m, t, pc) && pc.PopRelease? && m.pool.pcs[t].ReleaseDone?
    ensures m.pool.pcs[t].ok && Ok(m, pc.head) && m.role[pc.head.slot] != Retired(t)
    ensures var q := P.Apply(m.pool, P.Return(t));
            PoolMoves(m.pool, q, t) && ThreadInv(m.(pool := q), t, PopSubLength(pc.item, true))
  {
  }

  lemma ReleaseReturnInv(s: State, t: nat, spurious: bool)
    requires Inv(s) && t < |s.pcs| && s.pcs[t].PopRelease? && s.mem.pool.pcs[t].ReleaseDone?
    ensures Inv(PopStep(s, t, spurious))
  {
    ReleaseReturnThread(s.mem, t, s.pcs[t]);
    P.ReturnInv(s.mem.pool, t);
    PoolMovesInv(s, t, P.Apply(s.mem.pool, P.Return(t)), PopSubLength(s.pcs[t].item, true));
  }
}
