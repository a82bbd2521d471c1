/** The layout of a pool's memory block, and which handle words its range check accepts. */
module PoolLayout {
  import opened Bits
  import opened HandleCodec

  const HEADER: nat := 16

  // ------------------------------------------------------------ align_up

  /** `(value + alignment - 1) & ~(alignment - 1)` in `size_t`. */
  function AlignUp(value: nat, alignment: nat): nat
    requires 0 < alignment <= SIZE_T
  {
    And((value + alignment - 1) % SIZE_T, SIZE_T - alignment)
  }

  /** The least multiple of `alignment` that is at least `value`. */
  function Up(value: nat, alignment: nat): nat
    requires alignment > 0
  {
    (value + alignment - 1) / alignment * alignment
  }

  lemma SizeTIsPow2()
    ensures Pow2(64) == SIZE_T
  {
    assert Pow2(8) == 0x100;
    Pow2Add(8, 8);
    Pow2Add(16, 16);
    Pow2Add(32, 32);
  }

  lemma UpFacts(value: nat, a: nat)
    requires a > 0
    ensures Up(value, a) % a == 0 && value <= Up(value, a) < value + a
    ensures Up(value, a) == (value + a - 1) - (value + a - 1) % a
  {
    var q := (value + a - 1) / a;
    ModUnique(Up(value, a), a, q, 0);
  }

  /** Without wrap-around the bit trick rounds up. */
  lemma AlignUpRounds(value: nat, a: nat)
    requires IsPow2(a) && value + a - 1 < SIZE_T
    ensures a <= SIZE_T && AlignUp(value, a) == Up(value, a)
  {
    var k: nat :| a == Pow2(k);
    assert Pow2(64) == SIZE_T by { SizeTIsPow2(); }
    Pow2Mono(k, 64);
    MaskOff(value + a - 1, k);
    UpFacts(value, a);
  }

  lemma MaskOff(x: nat, k: nat)
    requires k <= 64 && x < SIZE_T && Pow2(k) <= SIZE_T
    ensures And(x % SIZE_T, SIZE_T - Pow2(k)) == x - x % Pow2(k)
  {
    assert Pow2(64) == SIZE_T by { SizeTIsPow2(); }
    NoWrap(x);
    MaskOffBelow(x, k, 64, SIZE_T);
  }

  lemma MaskOffBelow(x: nat, k: nat, w: nat, limit: nat)
    requires k <= w && limit == Pow2(w) && x < limit
    ensures Pow2(k) <= limit && And(x, limit - Pow2(k)) == x - x % Pow2(k)
  {
    AndMidMask(x, k, w);
    ModUnique(x, limit, 0, x);
  }

  /** A multiple of `a` is already rounded up. */
  lemma UpFixed(value: nat, a: nat)
    requires a > 0 && value % a == 0
    ensures Up(value, a) == value
  {
    UpFacts(value, a);
    var d := Up(value, a) - value;
    assert value == a * (value / a);
    ModUnique(value + a - 1, a, value / a, a - 1);
  }

  // -------------------------------------------------------- the computation

  datatype Layout = Layout(header: nat, user: nat, stride: nat, total: nat)

  /** What `anam_pool_create` computes in `size_t` before it allocates. */
  function ComputeLayout(slotSize: nat, count: nat, a: nat): Layout
    requires 0 < a <= SIZE_T
  {
    var header := AlignUp(HEADER, a);
    var user := AlignUp(slotSize, a);
    var stride := AlignUp((header + user) % SIZE_T, 8);
    Layout(header, user, stride, AlignUp((stride * count + a) % SIZE_T, a))
  }

  /** The same in unbounded integers. */
  function ExactLayout(slotSize: nat, count: nat, a: nat): Layout
    requires a > 0
  {
    var header, user := Up(HEADER, a), Up(slotSize, a);
    var stride := Up(header + user, 8);
    Layout(header, user, stride, Up(stride * count + a, a))
  }

  /** No intermediate size wraps around. */
  predicate Fits(slotSize: nat, count: nat, a: nat)
    requires a > 0
  {
    var e := ExactLayout(slotSize, count, a);
    && slotSize + a - 1 < SIZE_T
    && e.header + e.user + 7 < SIZE_T
    && e.stride * count + a + a - 1 < SIZE_T
  }

  /** The tests at the head of `anam_pool_create`; alignment 0 stands for 8. */
  predicate Accepted(slotSize: nat, count: nat, alignment: nat) {
    slotSize != 0 && count != 0 && Alignment(alignment) >= 8 && And(Alignment(alignment), Alignment(alignment) - 1) == 0
  }

  function Alignment(alignment: nat): nat {
    if alignment == 0 then 8 else alignment
  }

  lemma {:induction false} Pow2MultipleOf8(k: nat)
    requires Pow2(k) >= 8
    ensures Pow2(k) % 8 == 0
  {
    assert Pow2(2) == 4;
    Pow2Mono(k, 2);
    if k > 3 {
      assert Pow2(3) == 8;
      Pow2Mono(3, k - 1);
      Pow2MultipleOf8(k - 1);
    }
  }

  lemma AcceptedAlignment(slotSize: nat, count: nat, alignment: nat)
    requires Accepted(slotSize, count, alignment)
    ensures IsPow2(Alignment(alignment)) && Alignment(alignment) % 8 == 0
  {
    var a := Alignment(alignment);
    PowerOfTwoTest(a);
    var k: nat :| a == Pow2(k);
    Pow2MultipleOf8(k);
  }

  /** The configurations that are accepted: something to store, and no alignment or a power of two from 8 on. */
  lemma AcceptedConfigurations(slotSize: nat, count: nat, alignment: nat)
    ensures Accepted(slotSize, count, alignment) <==>
            slotSize > 0 && count > 0 && (alignment == 0 || (IsPow2(alignment) && alignment >= 8))
    ensures Alignment(0) == 8 && (alignment != 0 ==> Alignment(alignment) == alignment)
  {
    EightIsPow2();
    PowerOfTwoTest(Alignment(alignment));
  }

  lemma EightIsPow2()
    ensures IsPow2(8)
  {
    assert Pow2(3) == 8;
  }

  lemma NoWrap(x: nat)
    requires x < SIZE_T
    ensures x % SIZE_T == x
  {
  }

  lemma Compose(slotSize: nat, count: nat, a: nat, header: nat, user: nat, stride: nat, bytes: nat, total: nat)
    requires 0 < a <= SIZE_T && AlignUp(HEADER, a) == header && AlignUp(slotSize, a) == user
    requires header + user < SIZE_T && AlignUp(header + user, 8) == stride
    requires stride * count + a == bytes < SIZE_T && AlignUp(bytes, a) == total
    ensures ComputeLayout(slotSize, count, a) == Layout(header, user, stride, total)
  {
    NoWrap(header + user);
    NoWrap(bytes);
  }

  lemma ExactWhenFits(slotSize: nat, count: nat, a: nat)
    requires IsPow2(a) && a >= 8 && Fits(slotSize, count, a)
    ensures a <= SIZE_T && ComputeLayout(slotSize, count, a) == ExactLayout(slotSize, count, a)
  {
    var header, user := Up(HEADER, a), Up(slotSize, a);
    var stride := Up(header + user, 8);
    var bytes := stride * count + a;
    assert bytes + a - 1 < SIZE_T;
    assert bytes >= a;
    AlignUpRounds(HEADER, a);
    AlignUpRounds(slotSize, a);
    EightIsPow2();
    AlignUpRounds(header + user, 8);
    AlignUpRounds(bytes, a);
    Compose(slotSize, count, a, header, user, stride, bytes, Up(bytes, a));
  }

  // -------------------------------------------------------- layout safety

  lemma ModAdd(x: nat, y: nat, a: nat)
    requires a > 0 && x % a == 0 && y % a == 0
    ensures (x + y) % a == 0
  {
    var p, q := x / a, y / a;
    assert x == a * p && y == a * q;
    assert x + y == a * (p + q);
    ModUnique(x + y, a, p + q, 0);
  }

  lemma ModMul(x: nat, n: nat, a: nat)
    requires a > 0 && x % a == 0
    ensures (n * x) % a == 0
  {
    var p := x / a;
    assert x == a * p;
    assert n * x == a * (n * p) by { assert n * (a * p) == a * (n * p); }
    ModUnique(n * x, a, n * p, 0);
  }

  lemma ModTrans(x: nat, a: nat)
    requires a > 0 && a % 8 == 0 && x % a == 0
    ensures x % 8 == 0
  {
    var p := x / a;
    assert x == p * a;
    ModMul(a, p, 8);
  }

  /** The header takes one alignment unit, or two when the unit is 8. */
  lemma HeaderSize(a: nat)
    requires a >= 8 && a % 8 == 0
    ensures HEADER <= Up(HEADER, a) <= a + 8
  {
    UpFacts(HEADER, a);
    if a > 8 {
      BetweenMultiples(Up(HEADER, a), a, a, HEADER);
    }
  }

  /** The exact stride: header and user region, with nothing added. */
  lemma StrideFacts(slotSize: nat, count: nat, a: nat)
    requires a >= 8 && a % 8 == 0 && slotSize > 0
    ensures var e := ExactLayout(slotSize, count, a);
            && e.stride == e.header + e.user && e.stride % a == 0 && e.stride % 8 == 0
            && HEADER + slotSize <= e.stride < e.header + slotSize + a
            && e.total % a == 0 && e.stride * count + a <= e.total < e.stride * count + a + a
  {
    UpFacts(HEADER, a);
    UpFacts(slotSize, a);
    var header, user := Up(HEADER, a), Up(slotSize, a);
    ModAdd(header, user, a);
    ModTrans(header + user, a);
    UpFixed(header + user, 8);
    UpFacts((header + user) * count + a, a);
  }

  function BaseAddr(memory: nat, a: nat): nat
    requires 0 < a <= SIZE_T
  {
    AlignUp((memory + HEADER) % SIZE_T, a)
  }

  /** `slots_base` is one header past the start of the block. */
  lemma BaseFacts(memory: nat, a: nat)
    requires IsPow2(a) && a >= 8 && memory % a == 0 && a <= memory < ADDR_LIMIT
    ensures BaseAddr(memory, a) == memory + Up(HEADER, a) && BaseAddr(memory, a) % a == 0
  {
    var x := memory + HEADER;
    assert x % SIZE_T == x;
    assert x + a - 1 < SIZE_T;
    assert AlignUp(x, a) == Up(x, a) by { AlignUpRounds(x, a); }
    assert Up(x, a) == memory + Up(HEADER, a) && Up(x, a) % a == 0 by { UpShift(memory, HEADER, a); }
  }

  lemma UpShift(x: nat, y: nat, a: nat)
    requires a > 0 && x % a == 0
    ensures Up(x + y, a) == x + Up(y, a) && Up(x + y, a) % a == 0
  {
    UpFacts(y, a);
    UpFacts(x + y, a);
    ModAdd(x, Up(y, a), a);
    BetweenMultiples(x + Up(y, a), Up(x + y, a), a, x + y);
  }

  /** Two multiples of `a` in the same window of width `a` are equal. */
  lemma BetweenMultiples(x: nat, y: nat, a: nat, low: nat)
    requires a > 0 && x % a == 0 && y % a == 0 && low <= x < low + a && low <= y < low + a
    ensures x == y
  {
    var p, q := x / a, y / a;
    assert x == a * p && y == a * q;
    assert a * (p - q) == x - y && a * (q - p) == y - x;
    if p > q {
      MulAtLeast(a, p - q);
    } else if q > p {
      MulAtLeast(a, q - p);
    }
  }

  function SlotAddr(base: nat, stride: nat, i: nat): nat {
    base + i * stride
  }

  /**
   For every accepted configuration whose sizes do not wrap and every aligned block of the
   requested size: headers and user regions lie inside the block and do not overlap, user
   addresses are aligned, and the requested size is a multiple of the alignment.
   */
  lemma LayoutSafety(memory: nat, slotSize: nat, count: nat, alignment: nat, i: nat, j: nat)
    requires Accepted(slotSize, count, alignment) && Fits(slotSize, count, Alignment(alignment))
    requires Alignment(alignment) <= SIZE_T
    requires memory % Alignment(alignment) == 0 && Alignment(alignment) <= memory < ADDR_LIMIT
    requires i < j < count || i == j < count
    ensures var a := Alignment(alignment); var l := ComputeLayout(slotSize, count, a); var base := BaseAddr(memory, a);
            && l.total % a == 0
            && memory <= SlotAddr(base, l.stride, i) - HEADER
            && SlotAddr(base, l.stride, i) + slotSize <= memory + l.total
            && SlotAddr(base, l.stride, i) % a == 0
            && (i < j ==> SlotAddr(base, l.stride, i) + slotSize <= SlotAddr(base, l.stride, j) - HEADER)
  {
    var a := Alignment(alignment);
    AcceptedAlignment(slotSize, count, alignment);
    var e := ExactLayout(slotSize, count, a);
    assert ComputeLayout(slotSize, count, a) == e by { ExactWhenFits(slotSize, count, a); }
    assert BaseAddr(memory, a) == memory + e.header by { BaseFacts(memory, a); }
    StrideFacts(slotSize, count, a);
    HeaderSize(a);
    UpFacts(HEADER, a);
    SlotsApart(memory, e.header, e.stride, e.total, slotSize, count, a, i, j);
  }

  /** `m` is the least multiple of `a` that is at least `x`. */
  predicate LeastMultiple(m: nat, x: nat, a: nat)
    requires a > 0
  {
    m % a == 0 && x <= m < x + a
  }

  /**
   The layout without waste: header and user region take the least multiples of the
   alignment that hold them, a slot takes just these two, the block takes the slots and one
   more alignment unit, and the first user region begins one header into the block.
   */
  lemma LayoutExact(memory: nat, slotSize: nat, count: nat, alignment: nat)
    requires Accepted(slotSize, count, alignment) && Fits(slotSize, count, Alignment(alignment))
    requires Alignment(alignment) <= SIZE_T
    requires memory % Alignment(alignment) == 0 && Alignment(alignment) <= memory < ADDR_LIMIT
    ensures var a := Alignment(alignment); var l := ComputeLayout(slotSize, count, a);
            && LeastMultiple(l.header, HEADER, a) && LeastMultiple(l.user, slotSize, a)
            && l.stride == l.header + l.user && l.total == l.stride * count + a && BaseAddr(memory, a) == memory + l.header
  {
    var a := Alignment(alignment);
    AcceptedAlignment(slotSize, count, alignment);
    var e := ExactLayout(slotSize, count, a);
    assert ComputeLayout(slotSize, count, a) == e by { ExactWhenFits(slotSize, count, a); }
    UpFacts(HEADER, a);
    UpFacts(slotSize, a);
    StrideFacts(slotSize, count, a);
    BlockIsMultiple(e.stride, count, a);
    BaseFacts(memory, a);
  }

  lemma BlockIsMultiple(stride: nat, count: nat, a: nat)
    requires a > 0 && stride % a == 0
    ensures Up(stride * count + a, a) == stride * count + a
  {
    ModMul(stride, count, a);
    assert count * stride == stride * count;
    ModUnique(a, a, 1, 0);
    ModAdd(stride * count, a, a);
    UpFixed(stride * count + a, a);
  }

  /** The same for the bare numbers. */
  lemma SlotsApart(memory: nat, header: nat, stride: nat, total: nat, slotSize: nat, count: nat, a: nat, i: nat, j: nat)
    requires a > 0 && memory % a == 0 && header % a == 0 && stride % a == 0
    requires HEADER <= header <= a + 8 && HEADER + slotSize <= stride && stride * count + a <= total
    requires header + slotSize <= stride + a
    requires i <= j < count
    ensures memory <= SlotAddr(memory + header, stride, i) - HEADER
    ensures SlotAddr(memory + header, stride, i) + slotSize <= memory + total
    ensures SlotAddr(memory + header, stride, i) % a == 0
    ensures i < j ==> SlotAddr(memory + header, stride, i) + slotSize <= SlotAddr(memory + header, stride, j) - HEADER
  {
    SlotSpacing(stride, i, j, count);
    ModMul(stride, i, a);
    ModAdd(memory, header, a);
    ModAdd(memory + header, i * stride, a);
  }

  lemma SlotSpacing(stride: nat, i: nat, j: nat, count: nat)
    requires i <= j < count
    ensures i * stride + stride <= count * stride && i * stride <= j * stride
    ensures i < j ==> i * stride + stride <= j * stride
    ensures stride * count == count * stride
  {
    assert (count - i) * stride == count * stride - i * stride;
    assert (j - i) * stride == j * stride - i * stride;
    MulAtLeast(stride, count - i);
    if i < j {
      MulAtLeast(stride, j - i);
    }
  }

  // -------------------------------------------------- exactly when it fits

  /** The block covers every slot, and each stride covers a header and a user region. */
  predicate Covers(memory: nat, l: Layout, base: nat, slotSize: nat, count: nat)
    requires count > 0
  {
    HEADER + slotSize <= l.stride && memory + HEADER <= base && base + (count - 1) * l.stride + slotSize <= memory + l.total
  }

  lemma ComputedStride(slotSize: nat, count: nat, a: nat)
    requires IsPow2(a) && 8 <= a < ADDR_LIMIT && a % 8 == 0 && 0 < slotSize <= ADDR_LIMIT
    ensures a <= SIZE_T
    ensures var e := ExactLayout(slotSize, count, a);
            && ComputeLayout(slotSize, count, a).stride == e.stride < 4 * ADDR_LIMIT
            && e.header + e.user + 7 < SIZE_T
  {
    var header, user := Up(HEADER, a), Up(slotSize, a);
    SizeBounds(slotSize, a);
    AlignUpRounds(HEADER, a);
    AlignUpRounds(slotSize, a);
    EightIsPow2();
    AlignUpRounds(header + user, 8);
    ComposeStride(slotSize, count, a, header, user, Up(header + user, 8));
  }

  lemma SizeBounds(slotSize: nat, a: nat)
    requires 8 <= a < ADDR_LIMIT && slotSize <= ADDR_LIMIT
    ensures Up(HEADER, a) + Up(slotSize, a) + 7 < 4 * ADDR_LIMIT
    ensures Up(Up(HEADER, a) + Up(slotSize, a), 8) < 4 * ADDR_LIMIT
  {
    UpFacts(HEADER, a);
    UpFacts(slotSize, a);
    UpFacts(Up(HEADER, a) + Up(slotSize, a), 8);
  }

  lemma ComposeStride(slotSize: nat, count: nat, a: nat, header: nat, user: nat, stride: nat)
    requires 0 < a <= SIZE_T && AlignUp(HEADER, a) == header && AlignUp(slotSize, a) == user
    requires header + user < SIZE_T && AlignUp(header + user, 8) == stride
    ensures ComputeLayout(slotSize, count, a).stride == stride
  {
    NoWrap(header + user);
  }

  lemma CoversImpliesFits(memory: nat, slotSize: nat, count: nat, a: nat, l: Layout, base: nat)
    requires IsPow2(a) && 8 <= a <= memory < ADDR_LIMIT && a % 8 == 0 && 0 < slotSize && count > 0
    requires l == ComputeLayout(slotSize, count, a) && memory + l.total <= ADDR_LIMIT
    requires Covers(memory, l, base, slotSize, count)
    ensures Fits(slotSize, count, a)
  {
    RoomForAll(memory, l.total, l.stride, base, slotSize, count, a);
    ComputedStride(slotSize, count, a);
  }

  lemma RoomForAll(memory: nat, total: nat, stride: nat, base: nat, slotSize: nat, count: nat, a: nat)
    requires a < ADDR_LIMIT && memory + total <= ADDR_LIMIT && count > 0
    requires base + (count - 1) * stride + slotSize <= memory + total
    ensures slotSize <= ADDR_LIMIT
    ensures stride < 4 * ADDR_LIMIT ==> stride * count + a + a - 1 < SIZE_T
  {
    assert (count - 1) * stride >= 0;
    assert stride * count == (count - 1) * stride + stride;
  }

  lemma MultipleAtLeast(x: nat, a: nat)
    requires a > 0 && x > 0 && x % a == 0
    ensures a <= x
  {
    assert x == a * (x / a);
    MulAtLeast(a, x / a);
  }

  /** Whenever the allocation succeeds, the block covers all slots if and only if no size computation wrapped. */
  lemma CoversExactlyWhenFits(memory: nat, slotSize: nat, count: nat, alignment: nat)
    requires Accepted(slotSize, count, alignment) && Alignment(alignment) <= SIZE_T
    requires memory % Alignment(alignment) == 0 && 0 < memory < ADDR_LIMIT
    requires memory + ComputeLayout(slotSize, count, Alignment(alignment)).total <= ADDR_LIMIT
    ensures var a := Alignment(alignment);
            Covers(memory, ComputeLayout(slotSize, count, a), BaseAddr(memory, a), slotSize, count)
            <==> Fits(slotSize, count, a)
  {
    var a := Alignment(alignment);
    var l, base := ComputeLayout(slotSize, count, a), BaseAddr(memory, a);
    AcceptedAlignment(slotSize, count, alignment);
    MultipleAtLeast(memory, a);
    if Fits(slotSize, count, a) {
      FitsImpliesCovers(memory, slotSize, count, alignment);
    }
    if Covers(memory, l, base, slotSize, count) {
      CoversImpliesFits(memory, slotSize, count, a, l, base);
    }
  }

  lemma FitsImpliesCovers(memory: nat, slotSize: nat, count: nat, alignment: nat)
    requires Accepted(slotSize, count, alignment) && Fits(slotSize, count, Alignment(alignment))
    requires memory % Alignment(alignment) == 0 && Alignment(alignment) <= memory < ADDR_LIMIT
    ensures var a := Alignment(alignment);
            a <= SIZE_T && Covers(memory, ComputeLayout(slotSize, count, a), BaseAddr(memory, a), slotSize, count)
  {
    var a := Alignment(alignment);
    AcceptedAlignment(slotSize, count, alignment);
    ExactWhenFits(slotSize, count, a);
    StrideFacts(slotSize, count, a);
    LayoutSafety(memory, slotSize, count, alignment, 0, 0);
    LayoutSafety(memory, slotSize, count, alignment, count - 1, count - 1);
  }
}
