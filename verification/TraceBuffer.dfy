/** The trace buffer as the program keeps it: a power-of-two array with free-running 32-bit positions. */
module TraceBuffer {
  import opened Bits
  import opened TraceRing

  // ------------------------------------------------------ 32-bit arithmetic

  function Next(w: nat): nat {
    if w == U32 - 1 then 0 else w + 1
  }

  function Minus(a: nat, b: nat): nat
    requires b < U32
  {
    if a >= b then a - b else a + U32 - b
  }

  lemma NextWord(n: nat)
    ensures Next(Word(n)) == Word(n + 1)
  {
  }

  lemma MinusWord(a: nat, b: nat)
    requires b <= a
    ensures Minus(Word(a), Word(b)) == Word(a - b)
    ensures Word(a) == Word(b) <==> Word(a - b) == 0
  {
    var q, r := (a - b) / U32, (a - b) % U32;
    assert a == b + U32 * q + r;
    var p, s := b / U32, b % U32;
    assert a == U32 * (p + q) + (s + r);
    if s + r < U32 {
      ModUnique(a, U32, p + q, s + r);
    } else {
      ModUnique(a, U32, p + q + 1, s + r - U32);
    }
  }

  /** Masking a 32-bit position finds its place in the ring, across any wrap of the position. */
  lemma MaskWord(n: nat, capacity: nat)
    requires 0 < capacity < U32 && IsPow2(capacity)
    ensures And(Word(n), capacity - 1) == n % capacity < capacity
  {
    var k: nat :| capacity == Pow2(k);
    AndLowMask(Word(n), k);
    var m := Quotient(capacity);
    ModOfMultiple(n, m, capacity);
  }

  // --------------------------------------------------------------- the ring

  /** The ring holds the newest entries of the log, each at its position modulo the capacity. */
  predicate Holds(ring: seq<Entry>, log: seq<Entry>) {
    |ring| > 0 && forall p :: 0 <= p < |log| && |log| - |ring| <= p ==> ring[p % |ring|] == log[p]
  }

  lemma HoldsAppend(ring: seq<Entry>, log: seq<Entry>, e: Entry)
    requires Holds(ring, log)
    ensures Holds(ring[|log| % |ring| := e], log + [e])
  {
    var ring', log' := ring[|log| % |ring| := e], log + [e];
    forall p | 0 <= p < |log'| && |log'| - |ring'| <= p
      ensures ring'[p % |ring'|] == log'[p]
    {
      if p < |log| {
        DifferentPlaces(p, |log|, |ring|);
      }
    }
  }

  lemma DifferentPlaces(p: nat, n: nat, c: nat)
    requires 0 < n - p < c
    ensures p % c != n % c
  {
    if p % c == n % c {
      var d := n / c - p / c;
      assert n - p == c * d by {
        assert n == c * (n / c) + n % c && p == c * (p / c) + p % c;
        assert c * d == c * (n / c) - c * (p / c);
      }
      ModUnique(n - p, c, d, 0);
      ModUnique(n - p, c, 0, n - p);
    }
  }

  /** `count` entries of the ring from place `t` on, going round at the end. */
  function Slice(ring: seq<Entry>, t: nat, count: nat): seq<Entry>
    requires t < |ring| && count <= |ring|
  {
    if t + count <= |ring| then ring[t..t + count] else ring[t..] + ring[..t + count - |ring|]
  }

  lemma SliceIsNewest(ring: seq<Entry>, log: seq<Entry>, count: nat)
    requires Holds(ring, log) && count <= |ring| && count <= |log|
    ensures Slice(ring, (|log| - count) % |ring|, count) == log[|log| - count..]
  {
    var start := |log| - count;
    var s := Slice(ring, start % |ring|, count);
    forall j | 0 <= j < count
      ensures s[j] == log[start..][j]
    {
      PlaceAfter(start, j, |ring|);
      assert ring[(start + j) % |ring|] == log[start + j];
    }
  }

  lemma PlaceAfter(start: nat, j: nat, c: nat)
    requires 0 < c && j <= c
    ensures (start + j) % c == if start % c + j < c then start % c + j else start % c + j - c
  {
    var q, t := start / c, start % c;
    assert start == c * q + t;
    if t + j < c {
      ModUnique(start + j, c, q, t + j);
    } else {
      assert c * (q + 1) == c * q + c;
      ModUnique(start + j, c, q + 1, t + j - c);
    }
  }

  /** From the place of `f` on, `count` entries reach the place of `n`, going round at most once. */
  predicate Reaches(n: nat, f: nat, c: nat, count: nat)
    requires 0 < c && count <= n
  {
    && f % c + count == (if f % c < n % c then n % c else n % c + c)
    && (n - count) % c == f % c
  }

  /** Where a flush starts and how far it reaches, for a partial ring and for a whole one. */
  lemma FlushPlaces(n: nat, f: nat, c: nat, count: nat)
    requires 0 < c && f <= n
    requires count == (n - f) % c || (count == c && (n - f) % c == 0)
    requires 0 < count <= n
    ensures Reaches(n, f, c, count)
  {
    FlushStart(n, f, c, count);
    PlaceAfter(n - count, count, c);
  }

  lemma FlushStart(n: nat, f: nat, c: nat, count: nat)
    requires 0 < c && f <= n
    requires count == (n - f) % c || (count == c && (n - f) % c == 0)
    requires 0 < count <= n
    ensures (n - count) % c == f % c
  {
    var q, t := (n - f) / c, f % c;
    var k := if count == c then q - 1 else q;
    assert n - f - count == c * k by {
      assert n - f == c * q + (n - f) % c;
      assert c * (q - 1) == c * q - c;
    }
    assert n - count == c * (f / c + k) + t by {
      assert f == c * (f / c) + t;
      assert c * (f / c + k) == c * (f / c) + c * k;
    }
    ModUnique(n - count, c, f / c + k, t);
  }

  /** Both write paths give the newest entries in order. */
  lemma WritePaths(ring: seq<Entry>, log: seq<Entry>, f: nat, count: nat, t: nat, h: nat)
    requires Holds(ring, log) && 0 < count <= |ring| && count <= |log|
    requires t == f % |ring| && h == |log| % |ring| && Reaches(|log|, f, |ring|, count)
    ensures t < |ring| && h < |ring|
    ensures t < h ==> t + count <= |ring| && ring[t..t + count] == log[|log| - count..]
    ensures t >= h ==>
              0 <= count - (|ring| - t) <= |ring| && ring[t..] + ring[..count - (|ring| - t)] == log[|log| - count..]
  {
    SliceIsNewest(ring, log, count);
    if t + count == |ring| {
      assert ring[t..t + count] == ring[t..] + ring[..0];
    }
  }

  /** What the difference of the two positions tells about the pending count. */
  lemma PendingWords(n: nat, f: nat, c: nat)
    requires f <= n && 0 < c < U32 && IsPow2(c)
    ensures Minus(Word(n), Word(f)) == Word(n - f) && (Word(n) == Word(f) <==> Word(n - f) == 0)
    ensures And(Minus(Word(n), Word(f)), c - 1) == (n - f) % c
  {
    MinusWord(n, f);
    MaskWord(n - f, c);
  }

  /** With less than a full ring pending, the masked difference is the pending count. */
  lemma WindowPlaces(n: nat, f: nat, c: nat)
    requires f <= n && n - f < c && c < U32 && IsPow2(c)
    ensures And(Minus(Word(n), Word(f)), c - 1) == n - f && And(Word(f), c - 1) == f % c < c
  {
    PendingWords(n, f, c);
    ModUnique(n - f, c, 0, n - f);
    MaskWord(f, c);
  }

  lemma FlushReaches(r: Ring)
    requires r.Valid() && Word(r.Pending()) != 0 && FlushCount(r) != 0
    ensures 0 < FlushCount(r) <= r.capacity && FlushCount(r) <= |r.log|
    ensures Reaches(|r.log|, r.flushed, r.capacity, FlushCount(r))
  {
    FlushCountBounds(r);
    FlushPlaces(|r.log|, r.flushed, r.capacity, FlushCount(r));
  }

  // -------------------------------------------------------------- the class

  class Buffer {
    const capacity: nat
    const entries: array<Entry>
    var head: nat
    var tail: nat
    var overflowCount: nat
    var file: seq<Entry>
    ghost var log: seq<Entry>
    ghost var flushed: nat
    ghost var overflows: nat

    ghost function Model(): Ring
      reads this
    {
      Ring(capacity, log, flushed, file, overflows)
    }

    ghost predicate Valid()
      reads this, entries
    {
      && Model().Valid() && entries.Length == capacity
      && head == Word(|log|) && tail == Word(flushed) && overflowCount == Word(overflows)
      && Holds(entries[..], log)
    }

    constructor (capacity: nat)
      requires 0 < capacity < U32 && IsPow2(capacity)
      ensures Valid() && Model() == Fresh(capacity) && fresh(entries)
    {
      this.capacity := capacity;
      entries := new Entry[capacity](_ => Entry(0, 0, 0, 0, 0));
      head, tail, overflowCount, file := 0, 0, 0, [];
      log, flushed, overflows := [], 0, 0;
    }

    /** `anam_trace_buffer_flush`. */
    method Flush(canOpen: bool)
      requires Valid()
      modifies this
      ensures Valid() && Model() == Flushed(old(Model()), canOpen)
    {
      PendingWords(|log|, flushed, capacity);
      if head == tail {
        return;
      }
      if !canOpen {
        return;
      }
      var mask := capacity - 1;
      var count := And(Minus(head, tail), mask);
      if count == 0 && overflowCount > 0 {
        count := capacity;
      }
      assert count == FlushCount(Model());
      if count == 0 {
        return;
      }
      FlushReaches(Model());
      WriteOut(count);
      tail := head;
      flushed := |log|;
    }

    /** The contiguous and the wrapped write: either way the newest `count` entries in order. */
    method WriteOut(count: nat)
      requires Valid() && 0 < count <= capacity && count <= |log| && Reaches(|log|, flushed, capacity, count)
      modifies this`file
      ensures file == old(file) + log[|log| - count..]
    {
      var mask := capacity - 1;
      MaskWord(flushed, capacity);
      MaskWord(|log|, capacity);
      var tailIdx, headIdx := And(tail, mask), And(head, mask);
      WritePaths(entries[..], log, flushed, count, tailIdx, headIdx);
      if tailIdx < headIdx {
        file := file + entries[tailIdx..tailIdx + count];
      } else {
        var firstChunk := capacity - tailIdx;
        file := file + (entries[tailIdx..] + entries[..count - firstChunk]);
      }
    }

    /** `anam_trace_record` on an active buffer. */
    method Record(e: Entry, canOpen: bool)
      requires Valid()
      modifies this, entries
      ensures Valid() && Model() == Recorded(old(Model()), e, canOpen)
    {
      Store(e);
      Relieve(canOpen);
      CountOverflow();
    }

    /** The 75 per cent test of a record. */
    method Relieve(canOpen: bool)
      requires Valid()
      modifies this
      ensures Valid() && Model() == Relieved(old(Model()), canOpen)
    {
      PendingWords(|log|, flushed, capacity);
      var used := And(Minus(head, tail), capacity - 1);
      if used > (capacity * 3) % U32 / 4 {
        Flush(canOpen);
      }
    }

    /** The overflow test of a record. */
    method CountOverflow()
      requires Valid()
      modifies this`overflowCount, this`overflows
      ensures Valid() && Model() == Counted(old(Model()))
    {
      MinusWord(|log|, flushed);
      NextWord(overflows);
      if Minus(head, tail) >= capacity {
        overflowCount := Next(overflowCount);
        overflows := overflows + 1;
      }
    }

    method Store(e: Entry)
      requires Valid()
      modifies this`head, this`log, entries
      ensures Valid() && Model() == Appended(old(Model()), e)
    {
      MaskWord(|log|, capacity);
      var idx := And(head, capacity - 1);
      ghost var before := entries[..];
      HoldsAppend(before, log, e);
      NextWord(|log|);
      entries[idx] := e;
      assert entries[..] == before[idx := e];
      head := Next(head);
      log := log + [e];
    }

    /** What the ring still holds of the pending entries, read from the tail on. */
    method PendingWindow() returns (window: seq<Entry>)
      requires Valid() && |log| - flushed < capacity
      ensures window == log[flushed..]
    {
      WindowPlaces(|log|, flushed, capacity);
      var count := And(Minus(head, tail), capacity - 1);
      SliceIsNewest(entries[..], log, count);
      window := Slice(entries[..], And(tail, capacity - 1), count);
    }
  }

  /** `anam_trace_buffer_create`: null for a capacity that is not a power of two, or when memory runs out. */
  method Create(capacity: nat, memory: bool) returns (buffer: Buffer?)
    requires capacity < U32
    ensures buffer != null <==> IsPow2(capacity) && memory
    ensures buffer != null ==> fresh(buffer) && buffer.Valid() && buffer.Model() == Fresh(capacity)
  {
    if capacity == 0 || And(capacity, capacity - 1) != 0 {
      if capacity > 0 {
        PowerOfTwoTest(capacity);
      }
      return null;
    }
    PowerOfTwoTest(capacity);
    if !memory {
      return null;
    }
    buffer := new Buffer(capacity);
  }

  /** Whole runs on the class are the runs of the model. */
  method Execute(buffer: Buffer, vs: seq<Event>)
    requires buffer.Valid()
    modifies buffer, buffer.entries
    ensures buffer.Valid() && buffer.Model() == Run(old(buffer.Model()), vs)
  {
    ghost var start := buffer.Model();
    var k := 0;
    while k < |vs|
      invariant 0 <= k <= |vs| && buffer.Valid() && buffer.Model() == Run(start, vs[..k])
    {
      assert vs[..k + 1][..k] == vs[..k];
      match vs[k] {
        case Record(e, canOpen) => buffer.Record(e, canOpen);
        case Flush(canOpen) => buffer.Flush(canOpen);
      }
      k := k + 1;
    }
    assert vs[..|vs|] == vs;
  }
}
