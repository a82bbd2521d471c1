/** The 64-bit handle word: 16 bits of generation, 45 bits of address, 3 bits of state. */
module HandleCodec {
  import opened Bits
  import opened TaggedHandles

  const ADDR_MASK: nat := 0x0000_FFFF_FFFF_FFF8
  const STATE_MASK: nat := 0x7
  const ADDR_LIMIT: nat := 0x1_0000_0000_0000
  const WORD_LIMIT: nat := 0x1_0000_0000_0000_0000

  const NULL_WORD: nat := 0
  const FREE: nat := 0
  const LIVE: nat := 1

  function EncodeHandle(gen: nat, addr: nat, state: nat): nat {
    Or(Or(gen * ADDR_LIMIT, And(addr, ADDR_MASK)), And(state, STATE_MASK))
  }

  function DecodeAddr(word: nat): nat {
    And(word, ADDR_MASK)
  }

  function DecodeGen(word: nat): nat {
    (word / ADDR_LIMIT) % GENERATIONS
  }

  function StateOf(word: nat): nat {
    And(word, STATE_MASK)
  }

  lemma Constants()
    ensures Pow2(3) == 8 && Pow2(48) == ADDR_LIMIT
    ensures ADDR_MASK == Pow2(48) - Pow2(3) && STATE_MASK == Pow2(3) - 1
  {
    assert Pow2(3) == 8;
    assert Pow2(12) == 0x1000;
    Pow2Add(12, 12);
    Pow2Add(24, 24);
  }

  lemma MaskedAddr(addr: nat)
    ensures And(addr, ADDR_MASK) == addr % ADDR_LIMIT - addr % 8
    ensures And(addr, ADDR_MASK) % 8 == 0 && And(addr, ADDR_MASK) < ADDR_LIMIT
  {
    Constants();
    AndMidMask(addr, 3, 48);
    DropState(addr);
  }

  lemma DropState(x: nat)
    ensures 0 <= x % ADDR_LIMIT - x % 8 < ADDR_LIMIT && (x % ADDR_LIMIT - x % 8) % 8 == 0
  {
    var q, r := x / ADDR_LIMIT, x % ADDR_LIMIT;
    ModUnique(x, 8, q * (ADDR_LIMIT / 8) + r / 8, r % 8);
  }

  lemma MaskedState(state: nat)
    ensures And(state, STATE_MASK) == state % 8
  {
    Constants();
    AndLowMask(state, 3);
  }

  lemma JoinLow(high: nat, s: nat)
    requires high % 8 == 0 && s < 8
    ensures Or(high, s) == high + s
  {
    var q := high / 8;
    assert q * Pow2(3) == high by { Constants(); }
    assert s < Pow2(3) by { Constants(); }
    OrDisjoint(q, s, 3);
  }

  lemma JoinFields(gen: nat, m: nat, s: nat)
    requires m % 8 == 0 && m < ADDR_LIMIT && s < 8
    ensures Or(Or(gen * ADDR_LIMIT, m), s) == gen * ADDR_LIMIT + m + s
  {
    var high := gen * ADDR_LIMIT + m;
    assert Or(gen * ADDR_LIMIT, m) == high by {
      Constants();
      OrDisjoint(gen, m, 48);
    }
    assert high % 8 == 0;
    JoinLow(high, s);
  }

  /** What the masks and shifts amount to. */
  lemma EncodeSum(gen: nat, addr: nat, state: nat)
    ensures EncodeHandle(gen, addr, state) == gen * ADDR_LIMIT + (addr % ADDR_LIMIT - addr % 8) + state % 8
  {
    MaskedAddr(addr);
    MaskedState(state);
    JoinFields(gen, And(addr, ADDR_MASK), And(state, STATE_MASK));
  }

  lemma DecodeParts(word: nat)
    ensures DecodeAddr(word) == word % ADDR_LIMIT - word % 8
    ensures StateOf(word) == word % 8
    ensures DecodeAddr(word) % 8 == 0 && DecodeAddr(word) < ADDR_LIMIT
  {
    MaskedAddr(word);
    MaskedState(word);
  }

  lemma FieldsOfSum(gen: nat, addr: nat, state: nat)
    requires gen < GENERATIONS && addr < ADDR_LIMIT && addr % 8 == 0 && state < 8
    ensures var w := gen * ADDR_LIMIT + addr + state;
            w < WORD_LIMIT && w / ADDR_LIMIT == gen && w % ADDR_LIMIT == addr + state && w % 8 == state
  {
    var w := gen * ADDR_LIMIT + addr + state;
    ModUnique(w, ADDR_LIMIT, gen, addr + state);
    ModUnique(w, 8, gen * (ADDR_LIMIT / 8) + addr / 8, state);
  }

  /** Encoding then decoding gives back all three fields, for 8-aligned addresses below 2^48. */
  lemma RoundTrip(gen: nat, addr: nat, state: nat)
    requires gen < GENERATIONS && addr < ADDR_LIMIT && addr % 8 == 0 && state < 8
    ensures EncodeHandle(gen, addr, state) == gen * ADDR_LIMIT + addr + state < WORD_LIMIT
    ensures DecodeGen(EncodeHandle(gen, addr, state)) == gen
    ensures DecodeAddr(EncodeHandle(gen, addr, state)) == addr
    ensures StateOf(EncodeHandle(gen, addr, state)) == state
  {
    var w := gen * ADDR_LIMIT + addr + state;
    assert EncodeHandle(gen, addr, state) == w by {
      EncodeSum(gen, addr, state);
      ModUnique(addr, ADDR_LIMIT, 0, addr);
    }
    FieldsOfSum(gen, addr, state);
    DecodeParts(w);
  }

  /** Decoding a word and encoding it with the LIVE bits gives it back exactly when it carried the LIVE bits. */
  lemma Reencode(word: nat)
    requires word < WORD_LIMIT
    ensures EncodeHandle(DecodeGen(word), DecodeAddr(word), LIVE) == word <==> StateOf(word) == LIVE
  {
    DecodeParts(word);
    EncodeSum(DecodeGen(word), DecodeAddr(word), LIVE);
    var addr := DecodeAddr(word);
    assert addr % ADDR_LIMIT == addr;
    assert word == (word / ADDR_LIMIT) * ADDR_LIMIT + word % ADDR_LIMIT;
  }
}
