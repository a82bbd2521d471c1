/**
 The trace ring buffer in the abstract: the log of everything recorded, how much of it the
 flush position has passed, and what reached the file. Counters here are unbounded; the
 program sees them modulo 2^32.
 */
module TraceRing {
  import opened Bits

  const U32: nat := 0x1_0000_0000

  datatype Entry = Entry(timestamp: nat, slotIndex: nat, generation: nat, opType: nat, threadId: nat)

  /** What a `uint32_t` keeps of a number. */
  function Word(n: nat): nat {
    n % U32
  }

  /** `capacity * 3 / 4`, whose product wraps around at the largest capacity. */
  function Threshold(capacity: nat): nat {
    (capacity * 3) % U32 / 4
  }

  datatype Ring = Ring(capacity: nat, log: seq<Entry>, flushed: nat, file: seq<Entry>, overflows: nat) {
    ghost predicate Valid() {
      0 < capacity < U32 && IsPow2(capacity) && flushed <= |log|
    }

    function Pending(): nat
      requires flushed <= |log|
    {
      |log| - flushed
    }

    /** Nothing recorded is missing from the file or the ring. */
    predicate Lossless()
      requires flushed <= |log|
    {
      file == log[..flushed] && Pending() <= capacity
    }
  }

  function Fresh(capacity: nat): Ring {
    Ring(capacity, [], 0, [], 0)
  }

  // ------------------------------------------------------------- the steps

  /** How many entries a flush writes: the pending ones modulo the capacity, or a whole ring once there was an overflow. */
  function FlushCount(r: Ring): nat
    requires r.capacity > 0 && r.flushed <= |r.log|
  {
    var c := r.Pending() % r.capacity;
    if c == 0 && Word(r.overflows) > 0 then r.capacity else c
  }

  predicate Flushes(r: Ring, canOpen: bool)
    requires r.capacity > 0 && r.flushed <= |r.log|
  {
    Word(r.Pending()) != 0 && canOpen && FlushCount(r) != 0
  }

  lemma FlushCountBounds(r: Ring)
    requires r.Valid()
    ensures FlushCount(r) <= r.capacity
    ensures r.Pending() > 0 ==> FlushCount(r) <= r.Pending()
    ensures 0 < r.Pending() < r.capacity ==> FlushCount(r) == r.Pending()
    ensures r.Pending() == r.capacity ==> FlushCount(r) == if Word(r.overflows) > 0 then r.capacity else 0
  {
    var n, c := r.Pending(), r.capacity;
    if n >= c {
      ModAtMost(n, c);
    }
    if n == c {
      ModUnique(n, c, 1, 0);
    }
    if n < c {
      ModUnique(n, c, 0, n);
    }
  }

  lemma ModAtMost(n: nat, c: nat)
    requires 0 < c <= n
    ensures n % c <= n && n % c < c
  {
  }

  /** `anam_trace_buffer_flush`; `canOpen` tells whether the file could be opened. */
  function Flushed(r: Ring, canOpen: bool): (r': Ring)
    requires r.Valid()
    ensures r'.Valid() && r'.capacity == r.capacity && r'.log == r.log && r'.overflows == r.overflows
  {
    FlushCountBounds(r);
    if Flushes(r, canOpen) then
      r.(file := r.file + r.log[|r.log| - FlushCount(r)..], flushed := |r.log|)
    else r
  }

  function Appended(r: Ring, e: Entry): (r': Ring)
    requires r.Valid()
    ensures r'.Valid() && r'.Pending() == r.Pending() + 1
  {
    r.(log := r.log + [e])
  }

  /** The test for 75 per cent and the flush it triggers. */
  function Relieved(r: Ring, canOpen: bool): (r': Ring)
    requires r.Valid()
    ensures r'.Valid() && r'.capacity == r.capacity && r'.log == r.log && r'.overflows == r.overflows
  {
    if r.Pending() % r.capacity > Threshold(r.capacity) then Flushed(r, canOpen) else r
  }

  /** The overflow test. */
  function Counted(r: Ring): (r': Ring)
    requires r.Valid()
    ensures r'.Valid()
  {
    if Word(r.Pending()) >= r.capacity then r.(overflows := r.overflows + 1) else r
  }

  /** `anam_trace_record`. */
  function Recorded(r: Ring, e: Entry, canOpen: bool): (r': Ring)
    requires r.Valid()
    ensures r'.Valid() && r'.log == r.log + [e] && r'.capacity == r.capacity
  {
    Counted(Relieved(Appended(r, e), canOpen))
  }

  datatype Event = Record(e: Entry, canOpen: bool) | Flush(canOpen: bool)

  function Step(r: Ring, v: Event): (r': Ring)
    requires r.Valid()
    ensures r'.Valid() && r'.capacity == r.capacity
  {
    match v
    case Record(e, canOpen) => Recorded(r, e, canOpen)
    case Flush(canOpen) => Flushed(r, canOpen)
  }

  function Run(r: Ring, vs: seq<Event>): (r': Ring)
    requires r.Valid()
    ensures r'.Valid() && r'.capacity == r.capacity
  {
    if vs == [] then r else Step(Run(r, vs[..|vs| - 1]), vs[|vs| - 1])
  }

  // ------------------------------------------------------ lossless tracing

  lemma WordSmall(n: nat)
    requires n < U32
    ensures Word(n) == n
  {
  }

  lemma ThresholdFacts(c: nat)
    requires 0 < c < U32 && IsPow2(c)
    ensures Threshold(c) < c && 4 * Threshold(c) <= 3 * c
    ensures c >= 2 ==> Threshold(c) >= 1
    ensures c >= 8 <==> Threshold(c) + 1 < c
  {
    var k: nat :| c == Pow2(k);
    if k >= 32 {
      assert Pow2(32) == U32 by { U32IsPow2(); }
      Pow2Mono(32, k);
    } else if k == 31 {
      assert Pow2(31) == 0x8000_0000 by { U32IsPow2(); }
    } else {
      assert Pow2(30) == 0x4000_0000 by { U32IsPow2(); }
      Pow2Mono(k, 30);
      SmallPowers(k);
    }
  }

  lemma SmallPowers(k: nat)
    ensures Pow2(0) == 1 && Pow2(1) == 2 && Pow2(2) == 4
    ensures k >= 3 ==> Pow2(k) >= 8
  {
    if k >= 3 {
      Pow2Mono(3, k);
    }
  }

  lemma U32IsPow2()
    ensures Pow2(32) == U32 && Pow2(31) == 0x8000_0000 && Pow2(30) == 0x4000_0000
  {
    assert Pow2(8) == 0x100;
    Pow2Add(8, 8);
    assert Pow2(14) == 0x4000;
    Pow2Add(16, 14);
  }

  /** A flush of at most a full ring loses nothing. */
  lemma FlushLossless(r: Ring, canOpen: bool)
    requires r.Valid() && r.Lossless()
    ensures Flushed(r, canOpen).Lossless()
    ensures Flushes(r, canOpen) ==> Flushed(r, canOpen).Pending() == 0
  {
    FlushCountBounds(r);
    if Flushes(r, canOpen) {
      WordSmall(r.Pending());
      assert FlushCount(r) == r.Pending();
      assert r.log[..r.flushed] + r.log[r.flushed..] == r.log;
    }
  }

  /** The record's own flush, when the ring was at most full: never at one past full. */
  lemma RelievedLossless(r: Ring, canOpen: bool)
    requires r.Valid() && r.file == r.log[..r.flushed] && r.Pending() <= r.capacity + 1
    ensures Relieved(r, canOpen).Pending() <= r.capacity ==> Relieved(r, canOpen).Lossless()
  {
    var c := r.capacity;
    ThresholdFacts(c);
    if r.Pending() == c + 1 {
      if c == 1 {
        ModUnique(c + 1, c, 2, 0);
      } else {
        ModUnique(c + 1, c, 1, 1);
      }
    } else {
      FlushLossless(r, canOpen);
    }
  }

  lemma StepLossless(r: Ring, v: Event)
    requires r.Valid() && r.Lossless() && Step(r, v).Pending() <= r.capacity
    ensures Step(r, v).Lossless()
  {
    match v
    case Record(e, canOpen) =>
      var a := Appended(r, e);
      assert a.log[..a.flushed] == r.log[..r.flushed];
      RelievedLossless(a, canOpen);
    case Flush(canOpen) =>
      FlushLossless(r, canOpen);
  }

  /** What is missing once an entry was overwritten before it was flushed stays missing. */
  ghost predicate Lossy(r: Ring) {
    r.Valid() && |r.file| <= r.flushed && (r.Pending() > r.capacity || |r.file| < r.flushed)
  }

  lemma FlushFile(r: Ring, canOpen: bool)
    requires r.Valid() && |r.file| <= r.flushed
    ensures |Flushed(r, canOpen).file| <= Flushed(r, canOpen).flushed
    ensures Lossy(r) ==> Lossy(Flushed(r, canOpen))
  {
    FlushCountBounds(r);
  }

  lemma StepFile(r: Ring, v: Event)
    requires r.Valid() && |r.file| <= r.flushed
    ensures |Step(r, v).file| <= Step(r, v).flushed
    ensures Lossy(r) ==> Lossy(Step(r, v))
  {
    match v
    case Record(e, canOpen) =>
      var a := Appended(r, e);
      FlushFile(a, canOpen);
      assert Lossy(r) ==> Lossy(a);
    case Flush(canOpen) =>
      FlushFile(r, canOpen);
  }

  /** No more than a full ring is ever pending. */
  ghost predicate NeverPastFull(capacity: nat, vs: seq<Event>)
    requires Fresh(capacity).Valid()
  {
    forall k :: 0 <= k <= |vs| ==> Run(Fresh(capacity), vs[..k]).Pending() <= capacity
  }

  /**
   Exactly when tracing loses nothing: file and ring together hold the whole log if and
   only if at no point of the run more than `capacity` entries were pending.
   */
  lemma {:induction false} LosslessExactly(capacity: nat, vs: seq<Event>)
    requires Fresh(capacity).Valid()
    ensures Run(Fresh(capacity), vs).Lossless() <==> NeverPastFull(capacity, vs)
    ensures !NeverPastFull(capacity, vs) ==> Lossy(Run(Fresh(capacity), vs))
    ensures |Run(Fresh(capacity), vs).file| <= Run(Fresh(capacity), vs).flushed
  {
    assert vs[..|vs|] == vs;
    if vs != [] {
      var front, v := vs[..|vs| - 1], vs[|vs| - 1];
      var r := Run(Fresh(capacity), front);
      LosslessExactly(capacity, front);
      forall k | 0 <= k < |vs|
        ensures vs[..k] == front[..k]
      {
      }
      assert NeverPastFull(capacity, vs) <==> NeverPastFull(capacity, front) && Step(r, v).Pending() <= capacity;
      StepFile(r, v);
      if NeverPastFull(capacity, vs) {
        StepLossless(r, v);
      }
    }
  }

  /** While no overflow was counted, less than a full ring is pending. */
  lemma StepNotFull(r: Ring, v: Event)
    requires r.Valid() && (r.overflows == 0 ==> r.Pending() < r.capacity)
    ensures r.overflows <= Step(r, v).overflows <= r.overflows + (|Step(r, v).log| - |r.log|)
    ensures Step(r, v).overflows == 0 ==> Step(r, v).Pending() < r.capacity
  {
    if v.Record? && r.overflows == 0 {
      var b := Relieved(Appended(r, v.e), v.canOpen);
      assert b.Pending() <= r.capacity;
      WordSmall(b.Pending());
    }
  }

  lemma {:induction false} NoOverflowNotFull(capacity: nat, vs: seq<Event>)
    requires Fresh(capacity).Valid()
    ensures Run(Fresh(capacity), vs).overflows == 0 ==> Run(Fresh(capacity), vs).Pending() < capacity
    ensures Run(Fresh(capacity), vs).overflows <= |Run(Fresh(capacity), vs).log|
    ensures forall k :: 0 <= k <= |vs| ==> Run(Fresh(capacity), vs[..k]).overflows <= Run(Fresh(capacity), vs).overflows
  {
    assert vs[..|vs|] == vs;
    if vs != [] {
      var front, v := vs[..|vs| - 1], vs[|vs| - 1];
      NoOverflowNotFull(capacity, front);
      StepNotFull(Run(Fresh(capacity), front), v);
      forall k | 0 <= k < |vs|
        ensures vs[..k] == front[..k]
      {
      }
    }
  }

  lemma NoOverflowNeverFull(capacity: nat, vs: seq<Event>)
    requires Fresh(capacity).Valid() && Run(Fresh(capacity), vs).overflows == 0
    ensures NeverPastFull(capacity, vs)
  {
    NoOverflowNotFull(capacity, vs);
    forall k | 0 <= k <= |vs|
      ensures Run(Fresh(capacity), vs[..k]).Pending() <= capacity
    {
      NoOverflowNotFull(capacity, vs[..k]);
    }
  }

  /**
   Lossless tracing: for every run of records and flushes and every pattern of failed
   opens, if no overflow was counted then the file followed by the pending entries is the
   log, and the ring still holds all pending entries.
   */
  lemma LosslessTracing(capacity: nat, vs: seq<Event>)
    requires Fresh(capacity).Valid() && Run(Fresh(capacity), vs).overflows == 0
    ensures var r := Run(Fresh(capacity), vs);
            r.file + r.log[r.flushed..] == r.log && r.Pending() < capacity
  {
    var r := Run(Fresh(capacity), vs);
    NoOverflowNotFull(capacity, vs);
    NoOverflowNeverFull(capacity, vs);
    LosslessExactly(capacity, vs);
    assert r.log[..r.flushed] + r.log[r.flushed..] == r.log;
  }

  /** The counter the program keeps can be trusted for the first 2^32 - 1 records. */
  lemma CounterTrusted(capacity: nat, vs: seq<Event>)
    requires Fresh(capacity).Valid() && |Run(Fresh(capacity), vs).log| < U32
    ensures Word(Run(Fresh(capacity), vs).overflows) == 0 <==> Run(Fresh(capacity), vs).overflows == 0
  {
    NoOverflowNotFull(capacity, vs);
    WordSmall(Run(Fresh(capacity), vs).overflows);
  }

  // ------------------------------------------- no overflow at working sizes

  predicate AllOpen(vs: seq<Event>) {
    forall k :: 0 <= k < |vs| ==> vs[k].canOpen
  }

  lemma StepBelowThreshold(r: Ring, v: Event)
    requires r.Valid() && r.capacity >= 8 && v.canOpen && r.overflows == 0 && r.Pending() <= Threshold(r.capacity)
    ensures Step(r, v).overflows == 0 && Step(r, v).Pending() <= Threshold(r.capacity)
  {
    ThresholdFacts(r.capacity);
    if v.Record? {
      var a := Appended(r, v.e);
      ModUnique(a.Pending(), a.capacity, 0, a.Pending());
      FlushCountBounds(a);
      WordSmall(a.Pending());
      assert Relieved(a, true).Pending() <= Threshold(r.capacity);
      WordSmall(Relieved(a, true).Pending());
    }
  }

  /** From capacity 8 on, with every open succeeding, no overflow ever happens and at most three quarters are pending. */
  lemma {:induction false} NoOverflow(capacity: nat, vs: seq<Event>)
    requires Fresh(capacity).Valid() && capacity >= 8 && AllOpen(vs)
    ensures Run(Fresh(capacity), vs).overflows == 0
    ensures Run(Fresh(capacity), vs).Pending() <= Threshold(capacity)
    ensures 4 * Run(Fresh(capacity), vs).Pending() <= 3 * capacity
  {
    ThresholdFacts(capacity);
    if vs != [] {
      NoOverflow(capacity, vs[..|vs| - 1]);
      StepBelowThreshold(Run(Fresh(capacity), vs[..|vs| - 1]), vs[|vs| - 1]);
    }
  }

  function Records(e: Entry, canOpen: bool, n: nat): seq<Event> {
    seq(n, _ => Record(e, canOpen))
  }

  lemma RunOneMore(r: Ring, e: Entry, canOpen: bool, n: nat)
    requires r.Valid()
    ensures Run(r, Records(e, canOpen, n + 1)) == Recorded(Run(r, Records(e, canOpen, n)), e, canOpen)
  {
    assert Records(e, canOpen, n + 1)[..n] == Records(e, canOpen, n);
  }

  /** Below capacity 8 the threshold lets the ring fill up: `capacity` records overflow it. */
  lemma SmallRingFills(capacity: nat, e: Entry, n: nat)
    requires Fresh(capacity).Valid() && capacity < 8 && n < capacity
    ensures var r := Run(Fresh(capacity), Records(e, true, n));
            r.Pending() == |r.log| == n && r.overflows == 0
  {
    if n > 0 {
      SmallRingFills(capacity, e, n - 1);
      RunOneMore(Fresh(capacity), e, true, n - 1);
      ThresholdFacts(capacity);
      ModUnique(n, capacity, 0, n);
      WordSmall(n);
    }
  }

  lemma SmallRingOverflows(capacity: nat, e: Entry)
    requires Fresh(capacity).Valid() && capacity < 8
    ensures Run(Fresh(capacity), Records(e, true, capacity)).overflows == 1
  {
    SmallRingFills(capacity, e, capacity - 1);
    RunOneMore(Fresh(capacity), e, true, capacity - 1);
    ModUnique(capacity, capacity, 1, 0);
    WordSmall(capacity);
  }

  /** Exactly the capacities from 8 on never overflow while every open succeeds. */
  lemma WorkingSizes(capacity: nat)
    requires Fresh(capacity).Valid()
    ensures (forall vs :: AllOpen(vs) ==> Run(Fresh(capacity), vs).overflows == 0) <==> capacity >= 8
  {
    forall vs | capacity >= 8 && AllOpen(vs)
      ensures Run(Fresh(capacity), vs).overflows == 0
    {
      NoOverflow(capacity, vs);
    }
    if capacity < 8 {
      var e := Entry(0, 0, 0, 0, 0);
      SmallRingOverflows(capacity, e);
      assert AllOpen(Records(e, true, capacity));
    }
  }

  // ----------------------------------------------------- after an overflow

  /**
   A flush after more than a full ring keeps the newest `capacity` entries, as a ring
   buffer would, if and only if the pending count is a multiple of the capacity and neither
   it nor the overflow count is a multiple of 2^32.
   */
  lemma FlushAfterOverflow(r: Ring)
    requires r.Valid() && r.Pending() > r.capacity
    ensures Flushed(r, true).file == r.file + r.log[|r.log| - r.capacity..] <==>
            r.Pending() % r.capacity == 0 && Word(r.Pending()) != 0 && Word(r.overflows) > 0
  {
    FlushCountBounds(r);
    assert r.Pending() % r.capacity < r.capacity;
    assert |r.file + r.log[|r.log| - r.capacity..]| == |r.file| + r.capacity;
    assert Flushes(r, true) ==> |Flushed(r, true).file| == |r.file| + FlushCount(r);
  }

  /**
   What a flush writes, for every ring, overrun or not: nothing when the file does not open
   or the positions look equal; otherwise the newest `pending % capacity` entries, or if
   that is zero a whole ring of the newest, but only once an overflow shows.
   */
  lemma FlushWrites(r: Ring, canOpen: bool)
    requires r.Valid()
    ensures !canOpen || Word(r.Pending()) == 0 ==> Flushed(r, canOpen) == r
    ensures canOpen && Word(r.Pending()) != 0 && r.Pending() % r.capacity != 0 ==>
              var n := r.Pending() % r.capacity;
              n <= |r.log| && Flushed(r, canOpen).file == r.file + r.log[|r.log| - n..] &&
              Flushed(r, canOpen).flushed == |r.log|
    ensures canOpen && Word(r.Pending()) != 0 && r.Pending() % r.capacity == 0 ==>
              if Word(r.overflows) > 0
              then r.capacity <= |r.log| && Flushed(r, canOpen).file == r.file + r.log[|r.log| - r.capacity..] &&
                   Flushed(r, canOpen).flushed == |r.log|
              else Flushed(r, canOpen) == r
  {
    FlushCountBounds(r);
  }

  function Remainder(n: nat, c: nat): (r: nat)
    requires c > 0
    ensures r <= n && r < c
  {
    if n < c then n else n % c
  }

  lemma RemainderIsMod(n: nat, c: nat)
    requires c > 0
    ensures Remainder(n, c) == n % c
  {
    if n < c {
      ModUnique(n, c, 0, n);
    }
  }

  /** Records of the entries `es`, none of which can be flushed. */
  function RecordsOf(es: seq<Entry>): seq<Event> {
    seq(|es|, i requires 0 <= i < |es| => Record(es[i], false))
  }

  lemma {:induction false} UnopenedRun(capacity: nat, es: seq<Entry>)
    requires Fresh(capacity).Valid()
    ensures var r := Run(Fresh(capacity), RecordsOf(es)); r.log == es && r.flushed == 0 && r.file == []
  {
    if es != [] {
      var front, e := es[..|es| - 1], es[|es| - 1];
      UnopenedRun(capacity, front);
      assert RecordsOf(es)[..|es| - 1] == RecordsOf(front);
      UnopenedKeeps(Run(Fresh(capacity), RecordsOf(front)), e);
      assert es == front + [e];
    }
  }

  lemma UnopenedKeeps(r: Ring, e: Entry)
    requires r.Valid()
    ensures var q := Recorded(r, e, false); q.log == r.log + [e] && q.flushed == r.flushed && q.file == r.file
  {
  }

  /**
   Whatever is recorded, and however much, into a ring that cannot be flushed: the first
   flush that opens writes only the last `|es| % capacity` of the entries, although an
   overrun ring still has the last `capacity` of them.
   */
  lemma OverrunWritesRemainder(capacity: nat, es: seq<Entry>)
    requires Fresh(capacity).Valid() && Remainder(|es|, capacity) != 0
    ensures Flushed(Run(Fresh(capacity), RecordsOf(es)), true).file == es[|es| - Remainder(|es|, capacity)..]
  {
    UnopenedRun(capacity, es);
    RemainderWritten(Run(Fresh(capacity), RecordsOf(es)));
  }

  lemma RemainderWritten(r: Ring)
    requires r.Valid() && r.flushed == 0 && r.file == [] && Remainder(|r.log|, r.capacity) != 0
    ensures Flushed(r, true).file == r.log[|r.log| - Remainder(|r.log|, r.capacity)..]
  {
    RemainderIsMod(|r.log|, r.capacity);
    WordNonzero(|r.log|, r.capacity);
    FlushWrites(r, true);
  }

  /** Ten records into a ring of eight that cannot be flushed: the next flush writes the last two, though eight are there. */
  lemma EightEntriesDropped(es: seq<Entry>)
    requires |es| == 10
    ensures Fresh(8).Valid() && Flushed(Run(Fresh(8), RecordsOf(es)), true).file == [es[8], es[9]]
  {
    assert Fresh(8).Valid() by { SmallPowers(3); assert Pow2(3) == 8; }
    OverrunWritesRemainder(8, es);
  }

  // --------------------------------------------------- when a record flushes

  /** How full the ring must look for a record to flush it: past three quarters, or past 2^29 where the product wraps. */
  predicate PastMark(used: nat, capacity: nat) {
    if capacity < 0x8000_0000 then 4 * used > 3 * capacity else used > 0x2000_0000
  }

  lemma ThresholdIsMark(c: nat, used: nat)
    requires 0 < c < U32 && IsPow2(c)
    ensures used > Threshold(c) <==> PastMark(used, c)
  {
    var k: nat :| c == Pow2(k);
    if k >= 32 {
      assert Pow2(32) == U32 by { U32IsPow2(); }
      Pow2Mono(32, k);
    } else if k == 31 {
      assert Pow2(31) == 0x8000_0000 by { U32IsPow2(); }
    } else {
      assert Pow2(30) == 0x4000_0000 by { U32IsPow2(); }
      Pow2Mono(k, 30);
      WordSmall(3 * c);
    }
  }

  /** A record whose file opens writes to the file if and only if the ring then looks past its mark. */
  lemma RecordFlushes(r: Ring, e: Entry)
    requires r.Valid()
    ensures Recorded(r, e, true).file != r.file <==> PastMark((r.Pending() + 1) % r.capacity, r.capacity)
  {
    var a := Appended(r, e);
    var used := a.Pending() % a.capacity;
    ThresholdIsMark(r.capacity, used);
    FlushWrites(a, true);
    if used != 0 {
      WordNonzero(a.Pending(), a.capacity);
    }
  }

  /** A capacity divides 2^32. */
  lemma Quotient(c: nat) returns (m: nat)
    requires 0 < c < U32 && IsPow2(c)
    ensures m > 0 && m * c == U32
  {
    var k: nat :| c == Pow2(k);
    assert Pow2(32) == U32 by { U32IsPow2(); }
    assert k <= 32 by {
      if k > 32 {
        Pow2Mono(32, k);
      }
    }
    m := Pow2(32 - k);
    assert Pow2(32 - k + k) == Pow2(32 - k) * Pow2(k) by { Pow2Add(32 - k, k); }
  }

  lemma ModOfMultiple(n: nat, m: nat, c: nat)
    requires m > 0 && c > 0 && m * c == U32
    ensures (n % U32) % c == n % c
  {
    var w, q := n % U32, n / U32;
    assert n == U32 * q + w;
    assert w == c * (w / c) + w % c;
    assert U32 * q == c * (m * q) by { assert (m * c) * q == c * (m * q); }
    assert n == c * (m * q + w / c) + w % c;
    ModUnique(n, c, m * q + w / c, w % c);
  }

  /** A count that is no multiple of the capacity is no multiple of 2^32. */
  lemma WordNonzero(n: nat, c: nat)
    requires 0 < c < U32 && IsPow2(c) && n % c != 0
    ensures Word(n) != 0
  {
    var m := Quotient(c);
    ModOfMultiple(n, m, c);
  }

  /** Below a full ring: the record flushes exactly from three quarters on. */
  lemma RecordFlushesAtThreeQuarters(r: Ring, e: Entry)
    requires r.Valid() && r.Pending() + 1 < r.capacity
    ensures r.capacity <= 0x4000_0000 ==>
              (Recorded(r, e, true).file == r.file <==> 4 * (r.Pending() + 1) <= 3 * r.capacity)
    ensures r.capacity == 0x8000_0000 ==>
              (Recorded(r, e, true).file == r.file <==> r.Pending() + 1 <= 0x2000_0000)
  {
    RecordFlushes(r, e);
    ModUnique(r.Pending() + 1, r.capacity, 0, r.Pending() + 1);
  }

  // ------------------------------------------------------ counted overflows

  /** The records of a run after which the positions were at least a full ring apart. */
  function FullMoments(r: Ring, vs: seq<Event>): nat
    requires r.Valid()
  {
    if vs == [] then 0
    else
      var last := |vs| - 1;
      FullMoments(r, vs[..last]) +
      if vs[last].Record? && Word(Run(r, vs).Pending()) >= r.capacity then 1 else 0
  }

  /** `overflow_count` counts exactly those records, before and after the first overflow. */
  lemma {:induction false} OverflowsAreFullMoments(r: Ring, vs: seq<Event>)
    requires r.Valid()
    ensures Run(r, vs).overflows == r.overflows + FullMoments(r, vs)
  {
    if vs != [] {
      OverflowsAreFullMoments(r, vs[..|vs| - 1]);
    }
  }

  lemma {:induction false} RunSplit(r: Ring, us: seq<Event>, vs: seq<Event>)
    requires r.Valid()
    ensures Run(r, us + vs) == Run(Run(r, us), vs)
    decreases |vs|
  {
    if vs == [] {
      assert us + vs == us;
    } else {
      var last := |vs| - 1;
      RunSplit(r, us, vs[..last]);
      assert (us + vs)[..|us| + last] == us + vs[..last];
    }
  }

  /** Every record into an unflushable ring of one entry overflows, for the first 2^32 - 1 after a flush. */
  lemma {:induction false} SingleEntryRing(r: Ring, e: Entry, n: nat)
    requires r.Valid() && r.capacity == 1 && r.Pending() == 0 && n < U32
    ensures var q := Run(r, Records(e, false, n));
            |q.log| == |r.log| + n && q.flushed == r.flushed && q.file == r.file && q.overflows == r.overflows + n
  {
    if n > 0 {
      SingleEntryRing(r, e, n - 1);
      RunOneMore(r, e, false, n - 1);
      WordSmall(n);
    }
  }

  /** One record into a ring of one entry, and a flush that writes it. */
  lemma OneEntryWritten(e: Entry)
    ensures Fresh(1).Valid() && Run(Fresh(1), [Record(e, false), Flush(true)]) == Ring(1, [e], 1, [e], 1)
  {
    assert Pow2(0) == 1;
    var vs := [Record(e, false), Flush(true)];
    assert vs[..1] == [Record(e, false)];
    WordSmall(1);
    assert Run(Fresh(1), [Record(e, false)]) == Ring(1, [e], 0, [], 1);
    assert [e][0..] == [e];
  }

  /**
   At 2^32 records the counter is no evidence any more: with one flush after the first, a
   ring of one entry that can then not be flushed counts 2^32 overflows and the counter
   reads zero, while all but two entries are gone.
   */
  lemma CounterWraps(e: Entry)
    ensures Fresh(1).Valid()
    ensures var r := Run(Fresh(1), [Record(e, false), Flush(true)] + Records(e, false, U32 - 1));
            Word(r.overflows) == 0 && |r.log| == U32 && r.file == [e] && !r.Lossless()
  {
    OneEntryWritten(e);
    RunSplit(Fresh(1), [Record(e, false), Flush(true)], Records(e, false, U32 - 1));
    SingleEntryRing(Ring(1, [e], 1, [e], 1), e, U32 - 1);
  }
}
