/**
 The pool as one thread sees it, on the 64-bit words it really stores. `stack` and `inc`
 are the abstract free list and the unbounded incarnation numbers.
 */
module SequentialPool {
  import opened Bits
  import opened Lists
  import opened TaggedHandles
  import opened HandleCodec
  import opened SlotWords

  // ------------------------------------------------------------ acceptance

  /** The tests of `anam_get` and `anam_release` up to the generation: the word names a slot of the pool. */
  predicate NamesSlot(g: Geometry, strict: bool, word: nat)
    requires g.Valid()
  {
    word != NULL_WORD && StateOf(word) == LIVE && InPool(g, strict, DecodeAddr(word))
  }

  /** The slot whose header is read. An address inside a slot is rounded down to it. */
  function SlotOf(g: Geometry, word: nat): (i: nat)
    requires g.Valid() && g.base <= DecodeAddr(word) < g.End()
    ensures i < g.count
  {
    SlotBelowCount(g, word);
    WordSlot(g, word)
  }

  lemma SlotBelowCount(g: Geometry, word: nat)
    requires g.Valid() && g.base <= DecodeAddr(word) < g.End()
    ensures WordSlot(g, word) < g.count
  {
    QuotientBelow(DecodeAddr(word) - g.base, g.stride, g.count);
  }

  lemma QuotientBelow(off: nat, stride: nat, count: nat)
    requires stride > 0 && off < count * stride
    ensures off / stride < count
  {
    var i := off / stride;
    assert off == stride * i + off % stride;
    BelowCount(stride, i, count);
  }

  /** Outside strict mode callers must not forge addresses inside a slot: there the header read is not a header. */
  predicate OnBoundary(g: Geometry, word: nat)
    requires g.Valid()
  {
    g.base <= DecodeAddr(word) < g.End() ==> (DecodeAddr(word) - g.base) % g.stride == 0
  }

  lemma StrictNamesOnBoundary(g: Geometry, word: nat)
    requires g.Valid() && NamesSlot(g, true, word)
    ensures OnBoundary(g, word)
  {
    StrictPathsAgree(g, DecodeAddr(word));
  }

  /** The generation the word claims is the one the pool remembers. */
  predicate Accepts(g: Geometry, strict: bool, inc: seq<nat>, word: nat)
    requires g.Valid() && |inc| == g.count
  {
    NamesSlot(g, strict, word) && DecodeGen(word) == Gen(inc[SlotOf(g, word)])
  }

  /** The handle of the current incarnation of slot `i`, as `anam_alloc` returns it. */
  function LiveWord(g: Geometry, inc: seq<nat>, i: nat): nat
    requires i < |inc|
  {
    SlotWord(g, i, Gen(inc[i]), LIVE)
  }

  /** Slot `x` enters its next incarnation. */
  function Reborn(inc: seq<nat>, x: nat): seq<nat>
    requires x < |inc|
  {
    inc[x := inc[x] + 1]
  }

  /** The word is the handle of some slot's current incarnation: its address, its true generation and the LIVE bits. */
  ghost predicate CurrentHandle(g: Geometry, inc: seq<nat>, word: nat) {
    exists i: nat :: i < |inc| && word == LiveWord(g, inc, i)
  }

  /** Among all 64-bit words, exactly the current handles are accepted. */
  lemma AcceptedExactly(g: Geometry, strict: bool, inc: seq<nat>, word: nat)
    requires g.Valid() && |inc| == g.count && word < WORD_LIMIT && (strict || OnBoundary(g, word))
    ensures Accepts(g, strict, inc, word) <==> CurrentHandle(g, inc, word)
  {
    if Accepts(g, strict, inc, word) {
      if strict {
        StrictNamesOnBoundary(g, word);
      }
      AddressOfSlot(g, word);
      Reencode(word);
      assert word == LiveWord(g, inc, SlotOf(g, word));
    }
    if CurrentHandle(g, inc, word) {
      var i: nat :| i < |inc| && word == LiveWord(g, inc, i);
      LiveWordAccepted(g, strict, inc, i);
    }
  }

  // -------------------------------------------------------- the free list

  /** The word for position `i` of the free list `xs`. */
  function StackWord(g: Geometry, xs: seq<nat>, inc: seq<nat>, i: nat): nat
    requires forall j :: 0 <= j < |xs| ==> xs[j] < |inc|
  {
    if i < |xs| then SlotWord(g, xs[i], Gen(inc[xs[i]]), FREE) else NULL_WORD
  }

  /** From `head` along `next` the words spell out `xs`, each with its slot's true generation. */
  predicate IsList(g: Geometry, xs: seq<nat>, inc: seq<nat>, next: seq<nat>, head: nat) {
    && |next| == |inc|
    && (forall j :: 0 <= j < |xs| ==> xs[j] < |inc|)
    && NoDuplicates(xs)
    && head == StackWord(g, xs, inc, 0)
    && (forall i :: 0 <= i < |xs| ==> next[xs[i]] == StackWord(g, xs, inc, i + 1))
  }

  lemma PushList(g: Geometry, xs: seq<nat>, inc: seq<nat>, next: seq<nat>, head: nat, x: nat, k: nat)
    requires IsList(g, xs, inc, next, head) && x < |inc| && x !in xs
    ensures IsList(g, [x] + xs, inc[x := k], next[x := head], SlotWord(g, x, Gen(k), FREE))
  {
    var ys, inc', next' := [x] + xs, inc[x := k], next[x := head];
    forall i | 0 <= i < |ys|
      ensures next'[ys[i]] == StackWord(g, ys, inc', i + 1)
    {
      if i > 0 {
        assert ys[i] == xs[i - 1];
      }
      assert i + 1 < |ys| ==> ys[i + 1] == xs[i];
    }
  }

  lemma PopList(g: Geometry, xs: seq<nat>, inc: seq<nat>, next: seq<nat>, head: nat)
    requires IsList(g, xs, inc, next, head) && |xs| > 0
    ensures IsList(g, xs[1..], inc, next[xs[0] := NULL_WORD], next[xs[0]])
  {
    var ys := xs[1..];
    assert forall i :: 0 <= i < |ys| ==> ys[i] == xs[i + 1];
  }

  /** `size_t` increment and decrement. */
  function CountUp(n: nat): nat {
    if n == SIZE_T - 1 then 0 else n + 1
  }

  function CountDown(n: nat): nat {
    if n == 0 then SIZE_T - 1 else n - 1
  }

  // ------------------------------------------------------------- the class

  class Pool {
    const g: Geometry
    const strict: bool
    const next: array<nat>
    const gen: array<nat>
    var freeHead: nat
    var slotsFree: nat
    ghost var stack: seq<nat>
    ghost var inc: seq<nat>

    /** A link is null or points into the pool. */
    ghost predicate Link(word: nat) {
      g.Valid() && (word == NULL_WORD || g.base <= DecodeAddr(word) < g.End())
    }

    /** What holds however handles are misused: generations are counted and links stay inside the pool. */
    ghost predicate Sound()
      reads this, next, gen
    {
      && g.Valid() && g.count > 0
      && next.Length == gen.Length == |inc| == g.count && next != gen
      && (forall i :: 0 <= i < g.count ==> gen[i] == Gen(inc[i]))
      && Link(freeHead) && (forall i :: 0 <= i < g.count ==> Link(next[i]))
    }

    /** The words in memory spell out the abstract free list. */
    ghost predicate Valid()
      reads this, next, gen
    {
      Sound() && IsList(g, stack, inc, next[..], freeHead) && slotsFree == |stack|
    }

    /** Every slot goes onto the free list, the last one first. */
    constructor (g: Geometry, strict: bool)
      requires g.Valid() && g.count > 0
      ensures Valid() && this.g == g && this.strict == strict && fresh(next) && fresh(gen)
      ensures stack == Below(g.count) && inc == seq(g.count, _ => 0)
    {
      this.g, this.strict := g, strict;
      next, gen := new nat[g.count](_ => NULL_WORD), new nat[g.count](_ => 0);
      freeHead, slotsFree := NULL_WORD, g.count;
      stack, inc := [], seq(g.count, _ => 0);
      new;
      FillFreeList();
    }

    method FillFreeList()
      requires Sound() && inc == seq(g.count, _ => 0) && stack == [] && freeHead == NULL_WORD && slotsFree == g.count
      modifies this`freeHead, this`stack, next, gen
      ensures Valid() && stack == Below(g.count)
    {
      var i := g.count;
      while i > 0
        invariant 0 <= i <= g.count && Sound()
        invariant IsList(g, stack, inc, next[..], freeHead) && CountsFrom(stack, i, g.count)
      {
        i := i - 1;
        InitSlot(i);
      }
    }

    /** One round of the creation loop: reset the slot's generation and put it on top of the list. */
    method InitSlot(i: nat)
      requires Sound() && i < g.count && inc[i] == 0 && IsList(g, stack, inc, next[..], freeHead) && i !in stack
      modifies this`freeHead, this`stack, next, gen
      ensures Sound() && IsList(g, stack, inc, next[..], freeHead) && stack == [i] + old(stack)
    {
      var oldHead := freeHead;
      ghost var before := next[..];
      PushList(g, stack, inc, before, oldHead, i, 0);
      SlotWordFields(g, i, 0, FREE);
      gen[i] := 0;
      next[i] := oldHead;
      freeHead := SlotWord(g, i, 0, FREE);
      assert next[..] == before[i := oldHead];
      assert inc[i := 0] == inc;
      stack := [i] + stack;
    }

    /** One attempt of `anam_alloc`'s loop reads the head and its link; `spurious` weak exchanges fail first. */
    method Alloc(spurious: nat) returns (word: nat)
      requires Sound()
      modifies this, next
      ensures Sound() && inc == old(inc)
      ensures old(freeHead) == NULL_WORD ==>
                word == NULL_WORD && freeHead == NULL_WORD && stack == old(stack) &&
                next[..] == old(next[..]) && slotsFree == old(slotsFree)
      ensures old(freeHead) != NULL_WORD ==> var i := SlotOf(g, old(freeHead));
                word == LiveWord(g, inc, i) && freeHead == old(next[SlotOf(g, freeHead)]) &&
                next[..] == old(next[..])[i := NULL_WORD] && slotsFree == CountDown(old(slotsFree))
      ensures old(Valid()) ==> Valid()
      ensures old(Valid()) ==> (word == NULL_WORD <==> old(stack) == [])
      ensures old(Valid()) && old(stack) == [] ==> stack == []
      ensures old(Valid()) && old(stack) != [] ==>
                word == LiveWord(g, inc, old(stack[0])) && stack == old(stack[1..])
    {
      var failures := spurious;
      var oldHead, newHead := freeHead, NULL_WORD;
      while true
        invariant failures >= 0
        decreases failures
      {
        oldHead := freeHead;
        if oldHead == NULL_WORD {
          word := NULL_WORD;
          TopOfList(g, stack, inc, next[..], freeHead);
          return;
        }
        newHead := next[SlotOf(g, oldHead)];
        if failures == 0 {
          break;
        }
        failures := failures - 1;
      }
      var i := SlotOf(g, oldHead);
      ghost var before := next[..];
      freeHead := newHead;
      next[i] := NULL_WORD;
      slotsFree := CountDown(slotsFree);
      word := SlotWord(g, i, gen[i], LIVE);
      SlotWordFields(g, i, gen[i], LIVE);
      assert next[..] == before[i := NULL_WORD];
      if IsList(g, stack, inc, before, oldHead) {
        TopOfList(g, stack, inc, before, oldHead);
        PopList(g, stack, inc, before, oldHead);
        stack := stack[1..];
      }
    }

    /** `anam_release`: accepted exactly when the word names a slot with its true generation. */
    method Release(word: nat, spurious: nat) returns (ok: bool)
      requires Sound() && (strict || OnBoundary(g, word))
      modifies this, next, gen
      ensures Sound()
      ensures ok <==> Accepts(g, strict, old(inc), word)
      ensures word < WORD_LIMIT ==> (ok <==> CurrentHandle(g, old(inc), word))
      ensures !ok ==> inc == old(inc) && stack == old(stack) && freeHead == old(freeHead) && (old(Valid()) ==> Valid())
      ensures !ok ==> next[..] == old(next[..]) && slotsFree == old(slotsFree)
      ensures ok ==> var x := SlotOf(g, word);
                inc == Reborn(old(inc), x) && stack == [x] + old(stack) &&
                freeHead == SlotWord(g, x, Gen(inc[x]), FREE) && next[..] == old(next[..])[x := old(freeHead)] &&
                slotsFree == CountUp(old(slotsFree))
      ensures ok && old(Valid()) ==> (Valid() <==> SlotOf(g, word) !in old(stack))
    {
      ok := false;
      if word < WORD_LIMIT {
        AcceptedExactly(g, strict, inc, word);
      }
      if word == NULL_WORD || StateOf(word) != LIVE || !InPool(g, strict, DecodeAddr(word)) {
        return;
      }
      var x := SlotOf(g, word);
      var trueGen := gen[x];
      if DecodeGen(word) != trueGen {
        return;
      }
      Recycle(x, trueGen, spurious);
      ok := true;
    }

    /** The slot is reborn: its generation goes up by one and it returns to the free list. */
    method Recycle(x: nat, trueGen: nat, spurious: nat)
      requires Sound() && x < g.count && trueGen == gen[x]
      modifies this, next, gen
      ensures Sound()
      ensures inc == Reborn(old(inc), x) && stack == [x] + old(stack)
      ensures freeHead == SlotWord(g, x, Gen(inc[x]), FREE) && next[..] == old(next[..])[x := old(freeHead)]
      ensures slotsFree == CountUp(old(slotsFree))
      ensures old(Valid()) && x !in old(stack) ==> Valid()
      ensures x in old(stack) ==> !Valid()
    {
      var newGen := (trueGen + 1) % GENERATIONS;
      ghost var before, oldHead, k := next[..], freeHead, inc[x] + 1;
      GenSucc(inc[x]);
      PushedList(g, stack, inc, before, oldHead, x, k);
      SlotWordFields(g, x, newGen, FREE);
      gen[x] := newGen;
      PushFree(x, newGen, spurious);
      assert freeHead == SlotWord(g, x, Gen(k), FREE) && next[..] == before[x := oldHead];
      inc, stack := inc[x := k], [x] + stack;
    }

    /** The retry loop of `anam_release`: link the slot to the head, then exchange the head. */
    method PushFree(x: nat, newGen: nat, spurious: nat)
      requires x < next.Length
      modifies this`freeHead, this`slotsFree, next
      ensures next[..] == old(next[..])[x := old(freeHead)]
      ensures freeHead == SlotWord(g, x, newGen, FREE) && slotsFree == CountUp(old(slotsFree))
    {
      var failures, oldHead := spurious, freeHead;
      ghost var before := next[..];
      while true
        invariant failures >= 0 && oldHead == freeHead == old(freeHead)
        invariant next[..] == before || next[..] == before[x := oldHead]
        invariant slotsFree == old(slotsFree)
        decreases failures
      {
        oldHead := freeHead;
        next[x] := oldHead;
        assert next[..] == before[x := oldHead];
        if failures == 0 {
          break;
        }
        failures := failures - 1;
      }
      freeHead := SlotWord(g, x, newGen, FREE);
      slotsFree := CountUp(slotsFree);
    }

    /** `anam_get`: the slot's address for an accepted word, null otherwise. */
    method Get(word: nat) returns (address: nat)
      requires Sound() && (strict || OnBoundary(g, word))
      ensures address == if Accepts(g, strict, inc, word) then DecodeAddr(word) else 0
      ensures address != 0 ==> address == g.Addr(SlotOf(g, word))
      ensures word < WORD_LIMIT ==> (address != 0 <==> CurrentHandle(g, inc, word))
    {
      if word < WORD_LIMIT {
        AcceptedExactly(g, strict, inc, word);
      }
      if word == NULL_WORD || StateOf(word) != LIVE || !InPool(g, strict, DecodeAddr(word)) {
        return 0;
      }
      if strict {
        StrictNamesOnBoundary(g, word);
      }
      if DecodeGen(word) != gen[SlotOf(g, word)] {
        return 0;
      }
      AddressOfSlot(g, word);
      address := DecodeAddr(word);
    }

    /**
     The free-list walk of `anam_foreach`. It ends for arbitrary contents of `next`: each
     round marks a slot not marked before. `garbage` is what a read at an address inside a
     slot would give.
     */
    method MarkFree(garbage: nat -> nat) returns (isFree: array<bool>)
      requires g.Valid() && next.Length == |inc| == g.count
      ensures fresh(isFree) && isFree.Length == g.count
      ensures IsList(g, stack, inc, next[..], freeHead) ==> Marks(isFree[..], stack)
    {
      isFree := new bool[g.count](_ => false);
      var h: nat := freeHead;
      ghost var marked: seq<nat> := [];
      ghost var links := next[..];
      ghost var sound := IsList(g, stack, inc, links, freeHead);
      while h != NULL_WORD
        invariant Marks(isFree[..], marked)
        invariant sound ==> Walked(g, stack, inc, marked, h)
        decreases g.count - |marked|
      {
        if sound {
          WalkStep(g, strict, stack, inc, links, freeHead, marked, h);
        }
        if !InPool(g, strict, DecodeAddr(h)) {
          break;
        }
        var i := SlotOf(g, h);
        if isFree[i] {
          break;
        }
        MarkStep(isFree[..], marked, i);
        ghost var flags := isFree[..];
        isFree[i] := true;
        assert isFree[..] == flags[i := true];
        marked := marked + [i];
        h := if (DecodeAddr(h) - g.base) % g.stride == 0 then next[i] else garbage(DecodeAddr(h));
      }
      if sound {
        WalkEnd(g, stack, inc, marked, h);
      }
    }

    /** `anam_foreach` with a callback that answers `fn`. */
    method ForEach(fn: nat -> bool, garbage: nat -> nat) returns (visited: seq<nat>)
      requires Sound()
      ensures Valid() ==> VisitsUntil(visited, LiveWords(g, stack, inc, g.count), fn)
      ensures Valid() && (forall w: nat :: fn(w)) ==> VisitsExactly(visited, g, stack, inc)
    {
      var isFree := MarkFree(garbage);
      visited := VisitLive(isFree, fn, stack);
      if Valid() && forall w: nat :: fn(w) {
        AllVisited(visited, g, stack, inc, fn);
      }
    }

    /** The second loop of `anam_foreach`. */
    method VisitLive(isFree: array<bool>, fn: nat -> bool, ghost xs: seq<nat>) returns (visited: seq<nat>)
      requires Sound() && isFree.Length == g.count
      ensures Marks(isFree[..], xs) ==> VisitsUntil(visited, LiveWords(g, xs, inc, g.count), fn)
    {
      visited := [];
      var i := 0;
      while i < g.count
        invariant 0 <= i <= g.count
        invariant Marks(isFree[..], xs) ==> visited == LiveWords(g, xs, inc, i)
        invariant forall j :: 0 <= j < |visited| ==> fn(visited[j])
      {
        if !isFree[i] {
          var word := SlotWord(g, i, gen[i], LIVE);
          visited := visited + [word];
          if !fn(word) {
            LiveWordsPrefix(g, xs, inc, i + 1, g.count);
            return;
          }
        }
        i := i + 1;
      }
    }
  }

  /** `flags` marks exactly the distinct slots `xs`. */
  predicate Marks(flags: seq<bool>, xs: seq<nat>) {
    && NoDuplicates(xs)
    && (forall j :: 0 <= j < |xs| ==> xs[j] < |flags|)
    && (forall i :: 0 <= i < |flags| ==> (flags[i] <==> i in xs))
  }

  lemma MarkStep(flags: seq<bool>, xs: seq<nat>, i: nat)
    requires i < |flags| && Marks(flags, xs) && !flags[i]
    ensures Marks(flags[i := true], xs + [i]) && |xs| < |flags|
  {
    var ys := xs + [i];
    assert forall j :: 0 <= j < |ys| ==> ys[j] == if j < |xs| then xs[j] else i;
    assert NoDuplicates(ys);
    BoundedLength(ys, |flags|);
    assert forall j :: 0 <= j < |flags| ==> (j in ys <==> j in xs || j == i);
  }

  /** The walk has passed the first `|marked|` entries of the list and holds the next word. */
  predicate Walked(g: Geometry, xs: seq<nat>, inc: seq<nat>, marked: seq<nat>, h: nat) {
    && (forall j :: 0 <= j < |xs| ==> xs[j] < |inc|)
    && marked <= xs && h == StackWord(g, xs, inc, |marked|)
  }

  lemma WalkStep(g: Geometry, strict: bool, xs: seq<nat>, inc: seq<nat>, next: seq<nat>, head: nat, marked: seq<nat>, h: nat)
    requires g.Valid() && |inc| == g.count && IsList(g, xs, inc, next, head)
    requires Walked(g, xs, inc, marked, h) && h != NULL_WORD
    ensures InPool(g, strict, DecodeAddr(h)) && (DecodeAddr(h) - g.base) % g.stride == 0
    ensures |marked| < |xs| && SlotOf(g, h) == xs[|marked|]
    ensures xs[|marked|] !in marked && Walked(g, xs, inc, marked + [xs[|marked|]], next[xs[|marked|]])
  {
    MarkedSlot(g, xs, inc, |marked|, strict);
    WalkOn(g, xs, inc, next, head, marked);
  }

  lemma WalkOn(g: Geometry, xs: seq<nat>, inc: seq<nat>, next: seq<nat>, head: nat, marked: seq<nat>)
    requires IsList(g, xs, inc, next, head) && marked <= xs && |marked| < |xs|
    ensures xs[|marked|] !in marked && Walked(g, xs, inc, marked + [xs[|marked|]], next[xs[|marked|]])
  {
    NotYetMarked(xs, marked);
    assert next[xs[|marked|]] == StackWord(g, xs, inc, |marked| + 1);
  }

  lemma NotYetMarked(xs: seq<nat>, marked: seq<nat>)
    requires NoDuplicates(xs) && marked <= xs && |marked| < |xs|
    ensures xs[|marked|] !in marked && marked + [xs[|marked|]] <= xs
  {
  }

  lemma WalkEnd(g: Geometry, xs: seq<nat>, inc: seq<nat>, marked: seq<nat>, h: nat)
    requires g.Valid() && |inc| == g.count && Walked(g, xs, inc, marked, h) && h == NULL_WORD
    ensures marked == xs
  {
    MarkedSlot(g, xs, inc, |marked|, false);
  }

  predicate CountsFrom(xs: seq<nat>, i: nat, n: nat) {
    i <= n && |xs| == n - i && forall j :: 0 <= j < |xs| ==> xs[j] == i + j
  }

  /** The callback sees the handles in order and stops the iteration with its first false answer. */
  predicate VisitsUntil(visited: seq<nat>, all: seq<nat>, fn: nat -> bool) {
    && visited <= all
    && (forall j :: 0 <= j < |visited| - 1 ==> fn(visited[j]))
    && (visited == all || (visited != [] && !fn(visited[|visited| - 1])))
  }

  /** The visited words are the handles of exactly the slots not on the list, in ascending order of slots. */
  ghost predicate VisitsExactly(visited: seq<nat>, g: Geometry, xs: seq<nat>, inc: seq<nat>)
    requires |inc| == g.count
  {
    exists slots: seq<nat> :: ExactSlots(slots, xs, g.count) && WordsOf(visited, g, inc, slots)
  }

  /** `slots` lists the numbers below `n` that are not in `xs`, ascending. */
  predicate ExactSlots(slots: seq<nat>, xs: seq<nat>, n: nat) {
    && (forall j, k :: 0 <= j < k < |slots| ==> slots[j] < slots[k])
    && (forall j :: 0 <= j < |slots| ==> slots[j] < n)
    && (forall i :: 0 <= i < n ==> (i in slots <==> i !in xs))
  }

  predicate WordsOf(words: seq<nat>, g: Geometry, inc: seq<nat>, slots: seq<nat>) {
    |words| == |slots| && forall j :: 0 <= j < |slots| ==> slots[j] < |inc| && words[j] == LiveWord(g, inc, slots[j])
  }

  /** With a callback that always answers true, iteration visits every live slot once, ascending, and nothing else. */
  lemma AllVisited(visited: seq<nat>, g: Geometry, xs: seq<nat>, inc: seq<nat>, fn: nat -> bool)
    requires |inc| == g.count && VisitsUntil(visited, LiveWords(g, xs, inc, g.count), fn) && forall w: nat :: fn(w)
    ensures VisitsExactly(visited, g, xs, inc)
  {
    var slots := LiveSlots(xs, g.count);
    LiveSlotsExact(xs, g.count);
    LiveWordsAre(g, xs, inc, g.count);
    assert visited == LiveWords(g, xs, inc, g.count);
    assert ExactSlots(slots, xs, g.count) && WordsOf(visited, g, inc, slots);
  }

  /** The slots below `n` that are not on the free list, in ascending order. */
  function LiveSlots(xs: seq<nat>, n: nat): (r: seq<nat>)
    ensures forall j :: 0 <= j < |r| ==> r[j] < n
  {
    if n == 0 then [] else LiveSlots(xs, n - 1) + (if n - 1 in xs then [] else [n - 1])
  }

  /** The handles of the live slots below `n`. */
  function LiveWords(g: Geometry, xs: seq<nat>, inc: seq<nat>, n: nat): (r: seq<nat>)
    requires n <= |inc|
  {
    if n == 0 then [] else LiveWords(g, xs, inc, n - 1) + (if n - 1 in xs then [] else [LiveWord(g, inc, n - 1)])
  }

  lemma {:induction false} LiveWordsAre(g: Geometry, xs: seq<nat>, inc: seq<nat>, n: nat)
    requires n <= |inc|
    ensures |LiveWords(g, xs, inc, n)| == |LiveSlots(xs, n)|
    ensures forall j :: 0 <= j < |LiveSlots(xs, n)| ==> LiveWords(g, xs, inc, n)[j] == LiveWord(g, inc, LiveSlots(xs, n)[j])
  {
    if n > 0 {
      LiveWordsAre(g, xs, inc, n - 1);
    }
  }

  lemma {:induction false} LiveWordsPrefix(g: Geometry, xs: seq<nat>, inc: seq<nat>, m: nat, n: nat)
    requires m <= n <= |inc|
    ensures LiveWords(g, xs, inc, m) <= LiveWords(g, xs, inc, n)
    decreases n
  {
    if m < n {
      LiveWordsPrefix(g, xs, inc, m, n - 1);
    }
  }

  /** Live iteration is exact: a slot is visited if and only if it is live, once, in ascending order. */
  lemma {:induction false} LiveSlotsExact(xs: seq<nat>, n: nat)
    ensures forall i :: 0 <= i < n ==> (i in LiveSlots(xs, n) <==> i !in xs)
    ensures forall j, k :: 0 <= j < k < |LiveSlots(xs, n)| ==> LiveSlots(xs, n)[j] < LiveSlots(xs, n)[k]
  {
    if n > 0 {
      LiveSlotsExact(xs, n - 1);
      var front := LiveSlots(xs, n - 1);
      if n - 1 !in xs {
        assert LiveSlots(xs, n) == front + [n - 1];
        assert LiveSlots(xs, n)[|front|] == n - 1;
      } else {
        assert LiveSlots(xs, n) == front;
      }
    }
  }

  /** The handle of a live slot, as visited or as allocated, is accepted and names its slot. */
  lemma LiveWordAccepted(g: Geometry, strict: bool, inc: seq<nat>, i: nat)
    requires g.Valid() && |inc| == g.count && i < g.count
    ensures Accepts(g, strict, inc, LiveWord(g, inc, i)) && SlotOf(g, LiveWord(g, inc, i)) == i
    ensures OnBoundary(g, LiveWord(g, inc, i))
  {
    SlotWordFields(g, i, Gen(inc[i]), LIVE);
    OnSlot(g, i);
  }

  lemma MarkedSlot(g: Geometry, xs: seq<nat>, inc: seq<nat>, i: nat, strict: bool)
    requires g.Valid() && |inc| == g.count && forall j :: 0 <= j < |xs| ==> xs[j] < |inc|
    ensures i < |xs| ==>
              var w := StackWord(g, xs, inc, i);
              w != NULL_WORD && g.base <= DecodeAddr(w) < g.End() && InPool(g, strict, DecodeAddr(w)) &&
              SlotOf(g, w) == xs[i] && (DecodeAddr(w) - g.base) % g.stride == 0
  {
    if i < |xs| {
      SlotWordFields(g, xs[i], Gen(inc[xs[i]]), FREE);
      OnSlot(g, xs[i]);
    }
  }

  lemma AddressOfSlot(g: Geometry, word: nat)
    requires g.Valid() && g.base <= DecodeAddr(word) < g.End() && OnBoundary(g, word)
    ensures DecodeAddr(word) == g.Addr(SlotOf(g, word)) > 0
  {
    ExactQuotient(DecodeAddr(word) - g.base, g.stride);
  }

  lemma ExactQuotient(x: nat, d: nat)
    requires d > 0 && x % d == 0
    ensures x == (x / d) * d
  {
  }

  /** Pushing a slot keeps a list exactly when the slot was not on it. */
  lemma PushedList(g: Geometry, xs: seq<nat>, inc: seq<nat>, next: seq<nat>, head: nat, x: nat, k: nat)
    requires g.Valid() && |inc| == g.count && x < g.count
    ensures IsList(g, xs, inc, next, head) ==> |xs| + 1 < SIZE_T
    ensures IsList(g, xs, inc, next, head) && x !in xs ==>
              IsList(g, [x] + xs, inc[x := k], next[x := head], SlotWord(g, x, Gen(k), FREE))
    ensures x in xs ==> !NoDuplicates([x] + xs)
  {
    if IsList(g, xs, inc, next, head) {
      FreeCountFits(g, xs, inc, next, head);
      if x !in xs {
        PushList(g, xs, inc, next, head, x, k);
      }
    }
    Repeated(xs, x);
  }

  lemma Repeated(xs: seq<nat>, x: nat)
    ensures x in xs ==> !NoDuplicates([x] + xs)
  {
    if i :| 0 <= i < |xs| && xs[i] == x {
      var ys := [x] + xs;
      assert ys[0] == ys[i + 1];
    }
  }

  lemma FreeCountFits(g: Geometry, xs: seq<nat>, inc: seq<nat>, next: seq<nat>, head: nat)
    requires g.Valid() && |inc| == g.count && IsList(g, xs, inc, next, head)
    ensures |xs| + 1 < SIZE_T
  {
    BoundedLength(xs, g.count);
    assert g.count * g.stride >= g.count by {
      if g.count > 0 {
        MulAtLeast(g.count, g.stride);
      }
    }
  }

  /** A list is empty exactly when its head is null, and its head names its first slot. */
  lemma TopOfList(g: Geometry, xs: seq<nat>, inc: seq<nat>, next: seq<nat>, head: nat)
    requires g.Valid() && |inc| == g.count
    ensures IsList(g, xs, inc, next, head) ==>
              (head == NULL_WORD <==> xs == []) &&
              (xs != [] ==> g.base <= DecodeAddr(head) < g.End() && SlotOf(g, head) == xs[0])
  {
    if IsList(g, xs, inc, next, head) && xs != [] {
      SlotWordFields(g, xs[0], Gen(inc[xs[0]]), FREE);
    }
  }
}
