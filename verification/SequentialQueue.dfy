/** The queue as one thread sees it: a bounded first-in first-out list on top of the pool. */
module SequentialQueue {
  import opened Bits
  import opened Lists
  import opened TaggedHandles
  import opened HandleCodec
  import opened PoolLayout
  import opened SlotWords
  import opened SequentialPool

  /** What a node's data bytes hold. */
  datatype Payload<T> = Unset | Item(value: T)

  // ------------------------------------------------------------- the chain

  /** From `head` to `tail` the nodes spell out `items`; the first node is the dummy. */
  ghost predicate IsChain<T>(g: Geometry, inc: seq<nat>, chain: seq<nat>, items: seq<T>,
                             links: seq<nat>, data: seq<Payload<T>>, head: nat, tail: nat)
  {
    && |chain| == |items| + 1 && |links| == |data| == |inc|
    && (forall i :: 0 <= i < |chain| ==> chain[i] < |inc|)
    && NoDuplicates(chain)
    && head == LiveWord(g, inc, chain[0]) && tail == LiveWord(g, inc, chain[|items|])
    && (forall i :: 0 <= i < |items| ==> links[chain[i]] == LiveWord(g, inc, chain[i + 1]))
    && (forall i :: 0 <= i < |items| ==> data[chain[i + 1]] == Item(items[i]))
    && links[chain[|items|]] == NULL_WORD
  }

  /** Each of the `n` slots is either on the chain or on the free list. */
  predicate Splits(chain: seq<nat>, stack: seq<nat>, n: nat) {
    && (forall i, j :: 0 <= i < |chain| && 0 <= j < |stack| ==> chain[i] != stack[j])
    && |chain| + |stack| == n
  }

  lemma PrepareNode<T>(g: Geometry, inc: seq<nat>, chain: seq<nat>, items: seq<T>, links: seq<nat>,
                       data: seq<Payload<T>>, head: nat, tail: nat, x: nat, v: T)
    requires IsChain(g, inc, chain, items, links, data, head, tail) && x < |inc| && x !in chain
    ensures IsChain(g, inc, chain, items, links[x := NULL_WORD], data[x := Item(v)], head, tail)
  {
  }

  lemma PushChain<T>(g: Geometry, inc: seq<nat>, chain: seq<nat>, items: seq<T>, links: seq<nat>,
                     data: seq<Payload<T>>, head: nat, tail: nat, x: nat, v: T)
    requires IsChain(g, inc, chain, items, links, data, head, tail)
    requires x < |inc| && x !in chain && links[x] == NULL_WORD && data[x] == Item(v)
    ensures IsChain(g, inc, chain + [x], items + [v], links[chain[|items|] := LiveWord(g, inc, x)], data,
                    head, LiveWord(g, inc, x))
  {
    var chain', items' := chain + [x], items + [v];
    assert forall i :: 0 <= i < |chain| ==> chain'[i] == chain[i];
    assert forall i :: 0 <= i < |items| ==> items'[i] == items[i];
    assert NoDuplicates(chain');
  }

  lemma PopChain<T>(g: Geometry, inc: seq<nat>, chain: seq<nat>, items: seq<T>, links: seq<nat>,
                    data: seq<Payload<T>>, head: nat, tail: nat)
    requires IsChain(g, inc, chain, items, links, data, head, tail) && |items| > 0
    ensures IsChain(g, Reborn(inc, chain[0]), chain[1..], items[1..], links, data, links[chain[0]], tail)
  {
    var chain', items', inc' := chain[1..], items[1..], Reborn(inc, chain[0]);
    assert forall i :: 0 <= i < |chain'| ==> chain'[i] == chain[i + 1] && inc'[chain'[i]] == inc[chain'[i]];
    assert forall i :: 0 <= i < |items'| ==> items'[i] == items[i + 1];
  }

  /** Just after creation slot 0 is the chain, and the other slots are the free list. */
  lemma DummyChain<T>(g: Geometry, inc: seq<nat>, links: seq<nat>, data: seq<Payload<T>>, word: nat)
    requires 0 < |inc| == |links| == |data| && word == LiveWord(g, inc, 0) && links[0] == NULL_WORD
    ensures IsChain(g, inc, [0], [], links, data, word, word)
  {
  }

  lemma DummySplits(stack: seq<nat>, n: nat)
    requires n > 0 && stack == Below(n)[1..]
    ensures Splits([0], stack, n)
  {
    assert forall j :: 0 <= j < |stack| ==> stack[j] == j + 1;
  }

  lemma SplitsPush(chain: seq<nat>, stack: seq<nat>, n: nat)
    requires Splits(chain, stack, n) && stack != [] && NoDuplicates(stack)
    ensures stack[0] !in chain && Splits(chain + [stack[0]], stack[1..], n)
  {
    var chain', stack' := chain + [stack[0]], stack[1..];
    assert forall j :: 0 <= j < |stack'| ==> stack'[j] == stack[j + 1];
  }

  lemma SplitsPop(chain: seq<nat>, stack: seq<nat>, n: nat)
    requires Splits(chain, stack, n) && chain != [] && NoDuplicates(chain)
    ensures chain[0] !in stack && Splits(chain[1..], [chain[0]] + stack, n)
  {
    var chain', stack' := chain[1..], [chain[0]] + stack;
    assert forall i :: 0 <= i < |chain'| ==> chain'[i] == chain[i + 1];
  }

  /** The queue's decode-then-encode. */
  function Reencoded(word: nat): nat {
    EncodeHandle(DecodeGen(word), DecodeAddr(word), LIVE)
  }

  /** Re-encoding is the identity on the handles the queue stores. */
  lemma ReencodedLive(g: Geometry, inc: seq<nat>, x: nat)
    requires g.Valid() && |inc| == g.count && x < g.count
    ensures Reencoded(LiveWord(g, inc, x)) == LiveWord(g, inc, x)
  {
    SlotWordFields(g, x, Gen(inc[x]), LIVE);
    Reencode(LiveWord(g, inc, x));
  }

  /** The steps of a push on the words, one after the other. */
  lemma PushedChain<T>(g: Geometry, inc: seq<nat>, chain: seq<nat>, items: seq<T>, links: seq<nat>,
                       data: seq<Payload<T>>, head: nat, tail: nat, x: nat, v: T)
    requires IsChain(g, inc, chain, items, links, data, head, tail) && x < |inc| && x !in chain
    ensures IsChain(g, inc, chain, items, links[x := NULL_WORD], data[x := Item(v)], head, tail)
    ensures IsChain(g, inc, chain + [x], items + [v],
                    links[x := NULL_WORD][chain[|items|] := LiveWord(g, inc, x)], data[x := Item(v)],
                    head, LiveWord(g, inc, x))
  {
    PrepareNode(g, inc, chain, items, links, data, head, tail, x, v);
    PushChain(g, inc, chain, items, links[x := NULL_WORD], data[x := Item(v)], head, tail, x, v);
  }

  /** A pop of `before` answers `out` and leaves `after`. */
  ghost predicate Popped<T>(before: seq<T>, out: Payload<T>, after: seq<T>) {
    if before == [] then out == Unset && after == [] else out == Item(before[0]) && after == before[1..]
  }

  /** What has been drained, what the last pop answered and what is left make up `all`. */
  ghost predicate Drained<T>(all: seq<T>, drained: seq<T>, out: Payload<T>, left: seq<T>) {
    if out.Item? then all == drained + [out.value] + left else all == drained && left == []
  }

  lemma DrainStart<T>(all: seq<T>, out: Payload<T>, left: seq<T>)
    requires Popped(all, out, left)
    ensures Drained(all, [], out, left)
  {
  }

  lemma DrainStep<T>(all: seq<T>, drained: seq<T>, value: T, left: seq<T>, out: Payload<T>, left': seq<T>)
    requires Drained(all, drained, Item(value), left) && Popped(left, out, left')
    ensures Drained(all, drained + [value], out, left')
  {
    assert out.Item? ==> left == [out.value] + left';
  }

  lemma {:induction false} AllOnList(xs: seq<nat>, n: nat, i: nat)
    requires NoDuplicates(xs) && (forall j :: 0 <= j < |xs| ==> xs[j] < n) && |xs| == n && i < n
    ensures i in xs
  {
    if i !in xs {
      var ys := xs + [i];
      assert forall j :: 0 <= j < |ys| ==> ys[j] == if j < n then xs[j] else i;
      BoundedLength(ys, n);
    }
  }

  // ------------------------------------------------------------- the class

  class Queue<T> {
    const capacity: nat
    const pool: Pool
    const links: array<nat>
    const data: array<Payload<T>>
    var head: nat
    var tail: nat
    var length: nat
    ghost var chain: seq<nat>
    ghost var items: seq<T>

    ghost predicate Separate() {
      links != pool.next && links != pool.gen
    }

    ghost predicate Valid()
      reads this, pool, pool.next, pool.gen, links, data
    {
      && Separate() && pool.Valid() && pool.g.count == capacity + 1
      && IsChain(pool.g, pool.inc, chain, items, links[..], data[..], head, tail)
      && Splits(chain, pool.stack, pool.g.count)
      && length == |items|
    }

    /** `anam_queue_create` once the block is there: a pool with one slot more than the capacity, and the dummy. */
    constructor (g: Geometry, strict: bool, capacity: nat)
      requires g.Valid() && g.count == capacity + 1
      ensures Valid() && items == [] && this.capacity == capacity && pool.g == g
      ensures fresh(pool) && fresh(pool.next) && fresh(pool.gen) && fresh(links) && fresh(data)
    {
      this.capacity := capacity;
      var p := new Pool(g, strict);
      pool := p;
      var ls := new nat[g.count];
      links := ls;
      data := new Payload<T>[g.count](_ => Unset);
      head, tail, length := NULL_WORD, NULL_WORD, 0;
      chain, items := [], [];
      new;
      InstallDummy();
    }

    /** The first node of the pool becomes the dummy. */
    method InstallDummy()
      requires Separate() && pool.Valid() && pool.g.count == capacity + 1 && pool.stack == Below(pool.g.count)
      requires links.Length == data.Length == pool.g.count && items == [] && length == 0
      modifies this, pool, pool.next, links
      ensures Valid() && items == []
    {
      var dummy := pool.Alloc(0);
      var found, i := Node(dummy, 0);
      links[i] := NULL_WORD;
      head, tail := dummy, dummy;
      chain := [0];
      DummyChain<T>(pool.g, pool.inc, links[..], data[..], dummy);
      DummySplits(pool.stack, pool.g.count);
    }

    /** `anam_get` on the handle of slot `x` finds the slot's node. */
    method Node(word: nat, ghost x: nat) returns (found: bool, i: nat)
      requires pool.Sound() && x < pool.g.count && word == LiveWord(pool.g, pool.inc, x)
      ensures found && i == x
    {
      LiveWordAccepted(pool.g, pool.strict, pool.inc, x);
      var address := pool.Get(word);
      found := address != 0;
      i := IndexOf(pool.g, address);
    }

    /** `anam_release` on the handle of a slot that is in use is accepted and pushes the slot. */
    method Retire(word: nat, spurious: nat, ghost x: nat)
      requires pool.Valid() && x < pool.g.count && word == LiveWord(pool.g, pool.inc, x) && x !in pool.stack
      modifies pool, pool.next, pool.gen
      ensures pool.Valid() && pool.stack == [x] + old(pool.stack)
      ensures pool.inc == Reborn(old(pool.inc), x)
    {
      LiveWordAccepted(pool.g, pool.strict, pool.inc, x);
      assert SlotOf(pool.g, word) == x;
      var released := pool.Release(word, spurious);
      assert released;
    }

    /** `alloc_node` after a successful allocation: clear the link, then copy the item in. */
    method FillNode(word: nat, v: T, ghost x: nat)
      requires Separate() && pool.Sound() && links.Length == data.Length == pool.g.count
      requires x < pool.g.count && word == LiveWord(pool.g, pool.inc, x)
      modifies links, data
      ensures links[..] == old(links[..])[x := NULL_WORD] && data[..] == old(data[..])[x := Item(v)]
    {
      var found, i := Node(word, x);
      links[i] := NULL_WORD;
      data[i] := Item(v);
    }

    /** The loop of `anam_queue_push`: find the last node and link the new one behind it. */
    method LinkNode(word: nat, spurious: nat)
      requires Separate() && pool.Sound() && IsChain(pool.g, pool.inc, chain, items, links[..], data[..], head, tail)
      modifies links
      ensures links[..] == old(links[..])[chain[|items|] := word]
    {
      ghost var last := chain[|items|];
      var failures := spurious;
      while true
        invariant failures >= 0 && links[..] == old(links[..])
        decreases failures
      {
        var tailWord := tail;
        var found, i := Node(tailWord, last);
        if !found {
          assert false;
        }
        var nextWord := links[i];
        if nextWord != NULL_WORD {
          assert false;
        } else if failures == 0 {
          links[i] := word;
          return;
        }
        failures := failures - 1;
      }
    }

    /** A push once it has its node: fill it, link it, swing the tail, count. */
    method Append(word: nat, v: T, spurious: nat, ghost x: nat)
      requires Separate() && pool.Sound() && IsChain(pool.g, pool.inc, chain, items, links[..], data[..], head, tail)
      requires x < pool.g.count && x !in chain && word == LiveWord(pool.g, pool.inc, x) && length == |items| < pool.g.count
      modifies this, links, data
      ensures IsChain(pool.g, pool.inc, chain, items, links[..], data[..], head, tail) && length == |items|
      ensures chain == old(chain) + [x] && items == old(items) + [v] && tail == word
    {
      PushedChain(pool.g, pool.inc, chain, items, links[..], data[..], head, tail, x, v);
      CountFits(pool.g);
      ReencodedLive(pool.g, pool.inc, x);
      FillNode(word, v, x);
      LinkNode(word, spurious);
      tail := Reencoded(word);
      length := CountUp(length);
      chain, items := chain + [x], items + [v];
    }

    /** `anam_queue_push`: null exactly when the queue holds `capacity` items. */
    method Push(v: T, spurious: nat) returns (word: nat)
      requires Valid()
      modifies this, pool, pool.next, links, data
      ensures Valid()
      ensures word == NULL_WORD <==> |old(items)| == capacity
      ensures word == NULL_WORD ==> items == old(items)
      ensures word != NULL_WORD ==> items == old(items) + [v] && word == tail
    {
      ghost var free := pool.stack;
      word := pool.Alloc(spurious);
      NoLiveNull(pool.g, pool.inc, free);
      if word == NULL_WORD {
        return;
      }
      SplitsPush(chain, free, pool.g.count);
      Append(word, v, spurious, free[0]);
    }

    /** The loop of `anam_queue_pop` up to its exchange of the head: read the front item, then step over the dummy. */
    method TakeFront(spurious: nat) returns (oldHead: nat, out: Payload<T>)
      requires Separate() && pool.Sound() && IsChain(pool.g, pool.inc, chain, items, links[..], data[..], head, tail)
      modifies this`head
      ensures oldHead == old(head)
      ensures items == [] ==> out == Unset && head == old(head)
      ensures items != [] ==> out == Item(items[0]) && head == links[chain[0]]
    {
      FrontNodes(pool.g, pool.inc, chain, items, links[..], data[..], head, tail);
      var failures := spurious;
      while true
        invariant failures >= 0 && head == old(head)
        decreases failures
      {
        oldHead := head;
        var tailWord := tail;
        var found, i := Node(oldHead, chain[0]);
        if !found {
          assert false;
        }
        var nextWord := links[i];
        if oldHead == tailWord {
          if nextWord == NULL_WORD {
            return oldHead, Unset;
          }
          assert false;
        }
        var nextFound, j := Node(nextWord, chain[1]);
        if !nextFound {
          assert false;
        }
        out := data[j];
        if failures == 0 {
          head := Reencoded(nextWord);
          return;
        }
        failures := failures - 1;
      }
    }

    /** `anam_queue_pop`: nothing exactly when the queue is empty, otherwise the front item. */
    method Pop(spurious: nat) returns (out: Payload<T>)
      requires Valid()
      modifies this, pool, pool.next, pool.gen
      ensures Valid()
      ensures Popped(old(items), out, items)
    {
      var oldHead;
      oldHead, out := TakeFront(spurious);
      if out.Unset? {
        return;
      }
      DropDummy(oldHead, spurious);
    }

    /** A pop once it has moved the head: release the old dummy, whose place the taken node fills, and count. */
    method DropDummy(oldHead: nat, spurious: nat)
      requires Separate() && pool.Valid() && pool.g.count == capacity + 1 && items != [] && length == |items|
      requires IsChain(pool.g, pool.inc, chain, items, links[..], data[..], oldHead, tail) && head == links[chain[0]]
      requires Splits(chain, pool.stack, pool.g.count)
      modifies this, pool, pool.next, pool.gen
      ensures Valid() && items == old(items[1..])
    {
      ghost var x := chain[0];
      PopChain(pool.g, pool.inc, chain, items, links[..], data[..], oldHead, tail);
      SplitsPop(chain, pool.stack, pool.g.count);
      Retire(oldHead, spurious, x);
      length := CountDown(length);
      chain, items := chain[1..], items[1..];
    }

    /** `anam_queue_peek`. */
    method Peek() returns (out: Payload<T>)
      requires Valid()
      ensures out == if items == [] then Unset else Item(items[0])
    {
      FrontNodes(pool.g, pool.inc, chain, items, links[..], data[..], head, tail);
      var found, i := Node(head, chain[0]);
      if !found {
        assert false;
      }
      var nextWord := links[i];
      if nextWord == NULL_WORD {
        return Unset;
      }
      var nextFound, j := Node(nextWord, chain[1]);
      if !nextFound {
        assert false;
      }
      out := data[j];
    }

    /** `anam_queue_empty`. */
    method IsEmpty() returns (empty: bool)
      requires Valid()
      ensures empty <==> items == []
    {
      FrontNodes(pool.g, pool.inc, chain, items, links[..], data[..], head, tail);
      var found, i := Node(head, chain[0]);
      if !found {
        assert false;
      }
      empty := links[i] == NULL_WORD;
    }

    /** `anam_queue_destroy` up to freeing the memory: the drain hands out the items and every slot is free again. */
    method Drain(spurious: nat) returns (drained: seq<T>)
      requires Valid()
      modifies this, pool, pool.next, pool.gen
      ensures drained == old(items)
      ensures pool.Valid() && pool.slotsFree == pool.g.count
      ensures forall i :: 0 <= i < pool.g.count ==> i in pool.stack
    {
      drained := [];
      ghost var all := items;
      var out := Pop(spurious);
      DrainStart(all, out, items);
      while out.Item?
        invariant Valid() && Drained(all, drained, out, items)
        decreases |items| + if out.Item? then 1 else 0
      {
        ghost var left := items;
        var value := out.value;
        out := Pop(spurious);
        DrainStep(all, drained, value, left, out, items);
        drained := drained + [value];
      }
      ReleaseDummy(spurious);
    }

    method ReleaseDummy(spurious: nat)
      requires Valid() && items == []
      modifies this, pool, pool.next, pool.gen
      ensures pool.Valid() && pool.slotsFree == pool.g.count
      ensures forall i :: 0 <= i < pool.g.count ==> i in pool.stack
    {
      SplitsPop(chain, pool.stack, pool.g.count);
      ghost var x := chain[0];
      Retire(head, spurious, x);
      forall i | 0 <= i < pool.g.count
        ensures i in pool.stack
      {
        AllOnList(pool.stack, pool.g.count, i);
      }
    }
  }

  /** `node_size`: the link and the item, rounded up to 8 bytes, in `size_t`. */
  function NodeSize(itemSize: nat): nat {
    AlignUp(8 + itemSize, 8)
  }

  /** Without wrap-around a node has room for its link and its item, and wastes less than 8 bytes. */
  lemma NodeSizeFits(itemSize: nat)
    requires 8 + itemSize + 7 < SIZE_T
    ensures NodeSize(itemSize) % 8 == 0 && 8 + itemSize <= NodeSize(itemSize) < 8 + itemSize + 8
  {
    EightIsPow2();
    AlignUpRounds(8 + itemSize, 8);
    UpFacts(8 + itemSize, 8);
  }

  /** The bytes of the block that `anam_queue_create` has its pool request. */
  function BlockBytes(itemSize: nat, capacity: nat): nat {
    ComputeLayout(NodeSize(itemSize), capacity + 1, 8).total
  }

  /**
   There are `capacity + 1` nodes; the header, the link and the item of each lie inside the
   block, before the header of the next one, at an address that is a multiple of 8.
   */
  predicate NodesFit(g: Geometry, memory: nat, itemSize: nat, capacity: nat) {
    && g.count == capacity + 1
    && forall i :: 0 <= i < g.count ==> NodeFits(g, memory, itemSize, capacity, i)
  }

  predicate NodeFits(g: Geometry, memory: nat, itemSize: nat, capacity: nat, i: nat) {
    && memory + HEADER <= g.Addr(i) && g.Addr(i) + 8 + itemSize <= memory + BlockBytes(itemSize, capacity)
    && g.Addr(i) % 8 == 0
    && (i + 1 < g.count ==> g.Addr(i) + 8 + itemSize + HEADER <= g.Addr(i + 1))
  }

  lemma NodesLieApart(itemSize: nat, capacity: nat, memory: nat)
    requires itemSize > 0 && memory > 0 && BlockFits(itemSize, capacity, memory)
    ensures var layout := ComputeLayout(NodeSize(itemSize), capacity + 1, 8);
            NodesFit(Geometry(BaseAddr(memory, 8), layout.stride, capacity + 1), memory, itemSize, capacity)
  {
    var g := Geometry(BaseAddr(memory, 8), ComputeLayout(NodeSize(itemSize), capacity + 1, 8).stride, capacity + 1);
    forall i | 0 <= i < g.count
      ensures NodeFits(g, memory, itemSize, capacity, i)
    {
      NodeLiesApart(itemSize, capacity, memory, i);
    }
  }

  lemma NodeLiesApart(itemSize: nat, capacity: nat, memory: nat, i: nat)
    requires itemSize > 0 && memory > 0 && BlockFits(itemSize, capacity, memory) && i <= capacity
    ensures var g := Geometry(BaseAddr(memory, 8), ComputeLayout(NodeSize(itemSize), capacity + 1, 8).stride, capacity + 1);
            NodeFits(g, memory, itemSize, capacity, i)
  {
    NodeSizeFits(itemSize);
    assert And(8, 7) == 0 by {
      EightIsPow2();
      PowerOfTwoTest(8);
    }
    assert memory >= 8 by { MultipleAtLeast(memory, 8); }
    LayoutSafety(memory, NodeSize(itemSize), capacity + 1, 0, i, if i < capacity then i + 1 else i);
  }

  /** The block for `capacity + 1` nodes at `memory`: its sizes do not wrap and it ends below 2^48. */
  predicate BlockFits(itemSize: nat, capacity: nat, memory: nat) {
    && 8 + itemSize + 7 < SIZE_T
    && Fits(NodeSize(itemSize), capacity + 1, 8)
    && memory % 8 == 0 && memory + BlockBytes(itemSize, capacity) < ADDR_LIMIT
  }

  /** `anam_queue_create`; `memory` is the block the allocator gives, 0 when it has none. */
  method Create<T>(itemSize: nat, capacity: nat, memory: nat, strict: bool) returns (q: Queue?<T>)
    requires itemSize != 0 && capacity != 0 && memory != 0 ==> BlockFits(itemSize, capacity, memory)
    ensures q == null <==> itemSize == 0 || capacity == 0 || memory == 0
    ensures q != null ==> fresh(q) && q.Valid() && q.items == [] && q.capacity == capacity
    ensures q != null ==> NodesFit(q.pool.g, memory, itemSize, capacity)
  {
    if itemSize == 0 || capacity == 0 {
      return null;
    }
    if memory == 0 {
      return null;
    }
    var layout := ComputeLayout(NodeSize(itemSize), capacity + 1, 8);
    NodeGeometry(itemSize, capacity, memory);
    NodesLieApart(itemSize, capacity, memory);
    q := new Queue(Geometry(BaseAddr(memory, 8), layout.stride, capacity + 1), strict, capacity);
  }

  lemma NodeGeometry(itemSize: nat, capacity: nat, memory: nat)
    requires itemSize > 0 && memory > 0 && BlockFits(itemSize, capacity, memory)
    ensures Geometry(BaseAddr(memory, 8), ComputeLayout(NodeSize(itemSize), capacity + 1, 8).stride, capacity + 1).Valid()
  {
    assert NodeSize(itemSize) > 0 by { NodeSizeFits(itemSize); }
    assert And(8, 7) == 0 by {
      EightIsPow2();
      PowerOfTwoTest(8);
    }
    assert memory >= 8 by { MultipleAtLeast(memory, 8); }
    ComputedGeometryValid(memory, NodeSize(itemSize), capacity + 1, 0);
  }

  /** What a consumer sees at the front of a chain. */
  lemma FrontNodes<T>(g: Geometry, inc: seq<nat>, chain: seq<nat>, items: seq<T>, links: seq<nat>,
                      data: seq<Payload<T>>, head: nat, tail: nat)
    requires g.Valid() && |inc| == g.count && IsChain(g, inc, chain, items, links, data, head, tail)
    ensures head == LiveWord(g, inc, chain[0]) && (head == tail <==> items == [])
    ensures items == [] ==> links[chain[0]] == NULL_WORD
    ensures items != [] ==>
              links[chain[0]] == LiveWord(g, inc, chain[1]) == Reencoded(links[chain[0]]) != NULL_WORD &&
              data[chain[1]] == Item(items[0])
  {
    DistinctEnds(g, inc, chain, |items|);
    if items != [] {
      ReencodedLive(g, inc, chain[1]);
      NoLiveNull(g, inc, chain[1..]);
    }
  }

  /** The first and the last node of a chain have different handles unless they are the same node. */
  lemma DistinctEnds(g: Geometry, inc: seq<nat>, chain: seq<nat>, n: nat)
    requires g.Valid() && |inc| == g.count && |chain| == n + 1 && NoDuplicates(chain)
    requires forall i :: 0 <= i < |chain| ==> chain[i] < |inc|
    ensures LiveWord(g, inc, chain[0]) == LiveWord(g, inc, chain[n]) <==> n == 0
  {
    SlotWordFields(g, chain[0], Gen(inc[chain[0]]), LIVE);
    SlotWordFields(g, chain[n], Gen(inc[chain[n]]), LIVE);
  }

  lemma NoLiveNull(g: Geometry, inc: seq<nat>, xs: seq<nat>)
    requires g.Valid() && |inc| == g.count && forall j :: 0 <= j < |xs| ==> xs[j] < g.count
    ensures xs != [] ==> LiveWord(g, inc, xs[0]) != NULL_WORD
  {
    if xs != [] {
      SlotWordFields(g, xs[0], Gen(inc[xs[0]]), LIVE);
    }
  }

  lemma CountFits(g: Geometry)
    requires g.Valid()
    ensures g.count + 1 < SIZE_T
  {
    if g.count > 0 {
      MulAtLeast(g.count, g.stride);
    }
  }
}
