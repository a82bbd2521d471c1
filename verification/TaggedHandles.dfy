/**
 A handle as the pool and the queue store it, annotated with the unbounded number of
 times its slot had been released when the handle was made. The program sees only the
 low 16 bits of that number, so every comparison the program makes is `SameWord`.
 */
module TaggedHandles {

  const GENERATIONS: nat := 65536

  datatype Handle = Null | Handle(slot: nat, inc: nat, live: bool)

  /** The 16-bit generation the program reads out of an incarnation number. */
  function Gen(inc: nat): nat {
    inc % GENERATIONS
  }

  lemma GenSucc(k: nat)
    ensures (Gen(k) + 1) % GENERATIONS == Gen(k + 1) < GENERATIONS
  {
  }

  /** Equality of the two 64-bit words. */
  predicate SameWord(a: Handle, b: Handle) {
    if a.Null? || b.Null? then a.Null? && b.Null?
    else a.slot == b.slot && Gen(a.inc) == Gen(b.inc) && a.live == b.live
  }

  /** Inside a window of fewer than 65536 releases, equal words are equal handles. */
  lemma SameWordInWindow(a: Handle, b: Handle)
    requires SameWord(a, b)
    requires a.Handle? ==> a.inc <= b.inc < a.inc + GENERATIONS
    ensures a == b
  {
    if a.Handle? {
      var d := b.inc - a.inc;
      assert b.inc == a.inc + d;
      assert d % GENERATIONS == 0;
    }
  }
}
