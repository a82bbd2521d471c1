/** Handle words of a pool's slots: the range check, and the words that stand for annotated handles. */
module SlotWords {
  import opened Bits
  import opened TaggedHandles
  import opened HandleCodec
  import opened PoolLayout

  datatype Geometry = Geometry(base: nat, stride: nat, count: nat) {
    function End(): nat {
      base + count * stride
    }

    function Addr(i: nat): nat {
      SlotAddr(base, stride, i)
    }

    /** What the layout computation guarantees of an allocated pool. */
    predicate Valid() {
      base % 8 == 0 && stride % 8 == 0 && stride > HEADER && base >= HEADER && End() <= ADDR_LIMIT
    }
  }

  // ------------------------------------------------------- the range check

  function StrideMask(stride: nat): nat
    requires stride > 0
  {
    if And(stride, stride - 1) == 0 then stride - 1 else 0
  }

  /** `in_pool`; `strict` is the build option ANAM_STRICT_VALIDATION. */
  predicate InPool(g: Geometry, strict: bool, p: nat)
    requires g.stride > 0
  {
    if p < g.base || p >= g.End() then false
    else if !strict then true
    else if StrideMask(g.stride) != 0 then And(p - g.base, StrideMask(g.stride)) == 0
    else (p - g.base) % g.stride == 0
  }

  /** In strict mode the mask path and the modulo path agree. */
  lemma StrictPathsAgree(g: Geometry, p: nat)
    requires g.stride > 0 && g.base <= p < g.End()
    ensures InPool(g, true, p) <==> (p - g.base) % g.stride == 0
  {
    PowerOfTwoTest(g.stride);
    if And(g.stride, g.stride - 1) == 0 {
      var k: nat :| g.stride == Pow2(k);
      AndLowMask(p - g.base, k);
    }
  }

  /** Strict mode accepts exactly the addresses of slots. */
  lemma StrictAccepts(g: Geometry, p: nat)
    requires g.stride > 0
    ensures InPool(g, true, p) <==> exists i: nat :: i < g.count && p == g.Addr(i)
  {
    if InPool(g, true, p) {
      assert (p - g.base) % g.stride == 0 by { StrictPathsAgree(g, p); }
      var i := SlotOfAddr(g, p);
    }
    forall i: nat | i < g.count
      ensures InPool(g, true, g.Addr(i))
    {
      OnSlot(g, i);
    }
  }

  /** Outside strict mode exactly the addresses inside some slot's stride pass. */
  lemma LooseAccepts(g: Geometry, p: nat)
    requires g.stride > 0
    ensures InPool(g, false, p) <==> exists i: nat :: i < g.count && g.Addr(i) <= p < g.Addr(i) + g.stride
  {
    if InPool(g, false, p) {
      var i := (p - g.base) / g.stride;
      assert p - g.base == g.stride * i + (p - g.base) % g.stride;
      BelowCount(g.stride, i, g.count);
      assert g.Addr(i) <= p < g.Addr(i) + g.stride;
    }
    forall i: nat | i < g.count && g.Addr(i) <= p < g.Addr(i) + g.stride
      ensures InPool(g, false, p)
    {
      SlotSpacing(g.stride, i, i, g.count);
    }
  }

  lemma SlotOfAddr(g: Geometry, p: nat) returns (i: nat)
    requires g.stride > 0 && g.base <= p < g.End() && (p - g.base) % g.stride == 0
    ensures i < g.count && p == g.Addr(i)
  {
    i := (p - g.base) / g.stride;
    assert p - g.base == g.stride * i;
    BelowCount(g.stride, i, g.count);
  }

  lemma BelowCount(stride: nat, i: nat, count: nat)
    requires stride * i < count * stride
    ensures i < count
  {
    assert stride * (i - count) == stride * i - stride * count;
    if i > count {
      MulAtLeast(stride, i - count);
    }
  }

  /** The address of a slot passes the check in either mode and decodes to the slot's index. */
  lemma OnSlot(g: Geometry, i: nat)
    requires g.stride > 0 && i < g.count
    ensures g.base <= g.Addr(i) < g.End()
    ensures (g.Addr(i) - g.base) / g.stride == i && (g.Addr(i) - g.base) % g.stride == 0
    ensures InPool(g, true, g.Addr(i)) && InPool(g, false, g.Addr(i))
  {
    SlotSpacing(g.stride, i, i, g.count);
    assert g.Addr(i) - g.base == g.stride * i;
    ModUnique(g.Addr(i) - g.base, g.stride, i, 0);
    StrictPathsAgree(g, g.Addr(i));
  }

  lemma AlignedBelow(p: nat, end: nat)
    requires p % 8 == 0 && end % 8 == 0 && p < end
    ensures p + 8 <= end
  {
  }

  /**
   For every 64-bit word whose address passes the check, in either mode, the 16 bytes read
   as a header lie inside the allocated block.
   */
  lemma HeaderReadInside(memory: nat, slotSize: nat, count: nat, alignment: nat, strict: bool, word: nat)
    requires Accepted(slotSize, count, alignment) && Fits(slotSize, count, Alignment(alignment))
    requires Alignment(alignment) <= SIZE_T
    requires memory % Alignment(alignment) == 0 && Alignment(alignment) <= memory < ADDR_LIMIT
    ensures var a := Alignment(alignment); var l := ComputeLayout(slotSize, count, a);
            var g := Geometry(BaseAddr(memory, a), l.stride, count);
            && g.stride > HEADER
            && (InPool(g, strict, DecodeAddr(word)) ==>
                  memory + HEADER <= DecodeAddr(word) <= memory + l.total)
  {
    var a := Alignment(alignment);
    AcceptedAlignment(slotSize, count, alignment);
    var e := ExactLayout(slotSize, count, a);
    assert ComputeLayout(slotSize, count, a) == e by { ExactWhenFits(slotSize, count, a); }
    assert BaseAddr(memory, a) == memory + e.header by { BaseFacts(memory, a); }
    StrideFacts(slotSize, count, a);
    HeaderSize(a);
    UpFacts(HEADER, a);
    DecodeParts(word);
    HeaderRoom(memory, e.header, e.stride, e.total, count, a, DecodeAddr(word));
  }

  lemma HeaderRoom(memory: nat, header: nat, stride: nat, total: nat, count: nat, a: nat, p: nat)
    requires a > 0 && a % 8 == 0 && memory % a == 0 && header % a == 0 && stride % 8 == 0 && p % 8 == 0
    requires HEADER <= header <= a + 8 && stride * count + a <= total
    ensures memory + header <= p < memory + header + count * stride ==> memory + HEADER <= p <= memory + total
  {
    ModAdd(memory, header, a);
    ModTrans(memory + header, a);
    ModMul(stride, count, 8);
    ModAdd(memory + header, count * stride, 8);
    assert count * stride == stride * count;
    if memory + header <= p < memory + header + count * stride {
      AlignedBelow(p, memory + header + count * stride);
    }
  }

  /** Every accepted configuration that fits gives a valid geometry, in a block below 2^48. */
  lemma ComputedGeometryValid(memory: nat, slotSize: nat, count: nat, alignment: nat)
    requires Accepted(slotSize, count, alignment) && Fits(slotSize, count, Alignment(alignment))
    requires Alignment(alignment) <= SIZE_T
    requires memory % Alignment(alignment) == 0 && Alignment(alignment) <= memory
    requires memory + ComputeLayout(slotSize, count, Alignment(alignment)).total < ADDR_LIMIT
    ensures var a := Alignment(alignment); var l := ComputeLayout(slotSize, count, a);
            Geometry(BaseAddr(memory, a), l.stride, count).Valid()
  {
    var a := Alignment(alignment);
    AcceptedAlignment(slotSize, count, alignment);
    var e := ExactLayout(slotSize, count, a);
    assert ComputeLayout(slotSize, count, a) == e by { ExactWhenFits(slotSize, count, a); }
    assert BaseAddr(memory, a) == memory + e.header by { BaseFacts(memory, a); }
    StrideFacts(slotSize, count, a);
    HeaderSize(a);
    UpFacts(HEADER, a);
    ValidNumbers(memory, e.header, e.stride, e.total, count, a);
  }

  lemma ValidNumbers(memory: nat, header: nat, stride: nat, total: nat, count: nat, a: nat)
    requires a > 0 && a % 8 == 0 && memory % a == 0 && header % a == 0 && total % a == 0
    requires header <= a + 8 && stride * count + a <= total && memory + total < ADDR_LIMIT
    ensures (memory + header) % 8 == 0 && memory + header + count * stride <= ADDR_LIMIT
  {
    ModTrans(memory, a);
    ModTrans(header, a);
    ModTrans(total, a);
    assert count * stride == stride * count;
  }

  // ------------------------------------------------------------- the words

  /** The word for slot `i` with a generation and state bits. */
  function SlotWord(g: Geometry, i: nat, gen: nat, state: nat): nat {
    EncodeHandle(gen, g.Addr(i), state)
  }

  /** The slot that covers a user address. */
  function IndexOf(g: Geometry, p: nat): nat
    requires g.stride > 0 && p >= g.base
  {
    (p - g.base) / g.stride
  }

  function WordSlot(g: Geometry, word: nat): nat
    requires g.stride > 0 && DecodeAddr(word) >= g.base
  {
    IndexOf(g, DecodeAddr(word))
  }

  lemma SlotWordFields(g: Geometry, i: nat, gen: nat, state: nat)
    requires g.Valid() && i < g.count && gen < GENERATIONS && state < 8
    ensures DecodeAddr(SlotWord(g, i, gen, state)) == g.Addr(i)
    ensures g.base <= g.Addr(i) && WordSlot(g, SlotWord(g, i, gen, state)) == i
    ensures DecodeGen(SlotWord(g, i, gen, state)) == gen && StateOf(SlotWord(g, i, gen, state)) == state
    ensures 0 < SlotWord(g, i, gen, state) < WORD_LIMIT
    ensures InPool(g, true, g.Addr(i)) && InPool(g, false, g.Addr(i))
  {
    OnSlot(g, i);
    ModMul(g.stride, i, 8);
    ModAdd(g.base, i * g.stride, 8);
    RoundTrip(gen, g.Addr(i), state);
  }

  /** The word the program holds for an annotated handle. */
  function Word(g: Geometry, h: Handle): nat {
    if h.Null? then NULL_WORD else SlotWord(g, h.slot, Gen(h.inc), if h.live then LIVE else FREE)
  }

  /** Comparing words is comparing slot, 16-bit generation and state: `SameWord` is what the program computes. */
  lemma WordsFaithful(g: Geometry, a: Handle, b: Handle)
    requires g.Valid()
    requires a.Handle? ==> a.slot < g.count
    requires b.Handle? ==> b.slot < g.count
    ensures Word(g, a) == Word(g, b) <==> SameWord(a, b)
    ensures Word(g, a) == NULL_WORD <==> a.Null?
  {
    if a.Handle? {
      SlotWordFields(g, a.slot, Gen(a.inc), if a.live then LIVE else FREE);
    }
    if b.Handle? {
      SlotWordFields(g, b.slot, Gen(b.inc), if b.live then LIVE else FREE);
    }
  }
}
