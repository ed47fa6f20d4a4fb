/** Sv39 page-table entries (RISC-V Privileged Architecture 20211203, section 4.4):
    the 64-bit word the kernel stores, and the fields the rest of the model works on.
    Every word expression of the kernel is shown to do to the word what the model
    does to the fields. */
module PteCodec {

  /** The flags of an entry, bits 0 to 9, and its page number, as a bit field of the
      word or as a plain number. */
  datatype PteOf<N> = Pte(v: bool, r: bool, w: bool, x: bool, u: bool, g: bool, a: bool, d: bool,
                          s0: bool, s1: bool, ppn: N)

  type Pte = PteOf<nat>

  /** A word of zeros. */
  const INVALID: Pte := Pte(false, false, false, false, false, false, false, false, false, false, 0)

  const PTE_V: bv64 := 1 << 0
  const PTE_R: bv64 := 1 << 1
  const PTE_W: bv64 := 1 << 2
  const PTE_X: bv64 := 1 << 3
  const PTE_U: bv64 := 1 << 4
  const PTE_G: bv64 := 1 << 5
  const PTE_A: bv64 := 1 << 6
  const PTE_D: bv64 := 1 << 7
  const FLAGS: bv64 := 0x3FF

  /** The largest page number an entry holds has 44 bits; physical addresses have 56. */
  const PA_LIMIT: bv64 := 1 << 56

  /** `(pa >> 12 << 10) | prot`. */
  function Encode(pa: bv64, prot: bv64): bv64 {
    ((pa >> 12) << 10) | prot
  }

  /** `(pte >> 10) << 12`. */
  function PhysOf(pte: bv64): bv64 {
    (pte >> 10) << 12
  }

  /** Encoding a page-aligned physical address and ten flag bits loses nothing, and
      the page number never leaks into the flags. */
  lemma EncodeDecode(pa: bv64, prot: bv64)
    requires pa & 0xFFF == 0 && pa < PA_LIMIT && prot <= FLAGS
    ensures PhysOf(Encode(pa, prot)) == pa
    ensures Encode(pa, prot) & FLAGS == prot
    ensures Encode(pa, prot) < (1 << 54)
  {
  }

  /** Decoding and encoding again gives back the word. */
  lemma DecodeEncode(pte: bv64)
    requires pte < (1 << 54)
    ensures Encode(PhysOf(pte), pte & FLAGS) == pte
    ensures PhysOf(pte) & 0xFFF == 0 && PhysOf(pte) < PA_LIMIT
  {
  }

  function Bit(word: bv64, mask: bv64): bool {
    word & mask != 0
  }

  /** The fields of a stored word. */
  function Decode(word: bv64): PteOf<bv64> {
    Pte(Bit(word, PTE_V), Bit(word, PTE_R), Bit(word, PTE_W), Bit(word, PTE_X),
        Bit(word, PTE_U), Bit(word, PTE_G), Bit(word, PTE_A), Bit(word, PTE_D),
        Bit(word, 0x100), Bit(word, 0x200), word >> 10)
  }

  /** The flags of an entry are those of a decoded word. */
  predicate SameFlags(e: Pte, w: PteOf<bv64>) {
    && e.v == w.v && e.r == w.r && e.w == w.w && e.x == w.x && e.u == w.u
    && e.g == w.g && e.a == w.a && e.d == w.d && e.s0 == w.s0 && e.s1 == w.s1
  }

  /** A stored word has no other reading: its fields determine it. */
  lemma DecodeInjective(w1: bv64, w2: bv64)
    requires Decode(w1) == Decode(w2)
    ensures w1 == w2
  {
    assert w1 & 0x3FF == w2 & 0x3FF;
  }

  /** `*pte &= ~PTE_W` clears the W flag of the entry and nothing else. */
  lemma ClearWord(pte: bv64)
    ensures Decode(pte & !PTE_W) == Decode(pte).(w := false)
  {
  }

  /** `*pte |= PTE_W` sets it. */
  lemma SetWord(pte: bv64)
    ensures Decode(pte | PTE_W) == Decode(pte).(w := true)
  {
  }

  /** The word written when a shared page is split,
      `(new >> 12 << 10) | (*pte & 0x3FF) | PTE_W`, moves the entry to the new page,
      makes it writable and keeps every other flag. */
  lemma SplitWord(pa: bv64, pte: bv64)
    requires pa & 0xFFF == 0 && pa < PA_LIMIT
    ensures Decode(((pa >> 12) << 10) | (pte & FLAGS) | PTE_W) == Decode(pte).(w := true, ppn := pa >> 12)
  {
  }

  /** The word that links a lower table, `(pa >> 12 << 10) | PTE_V`: valid, with none
      of R, W and X, and pointing at the table. */
  lemma LinkWord(pa: bv64)
    requires pa & 0xFFF == 0 && pa < PA_LIMIT
    ensures Decode(Encode(pa, PTE_V)) ==
      Pte(true, false, false, false, false, false, false, false, false, false, pa >> 12)
  {
  }

  /** The bits by their numbers: the word of a read-write user page, of a program page, of a
      table, and the two bits left to software. */
  lemma LiteralWords()
    ensures Decode(0x200000D7) == Pte(true, true, true, false, true, false, true, true, false, false, 0x80000)
    ensures Decode(0x200000DB) == Pte(true, true, false, true, true, false, true, true, false, false, 0x80000)
    ensures Decode(0x20000001) == Pte(true, false, false, false, false, false, false, false, false, false, 0x80000)
    ensures Decode(0x20000320) == Pte(false, false, false, false, false, true, false, false, true, true, 0x80000)
    ensures Encode(0x80000000, 0xD7) == 0x200000D7 && PhysOf(0x200000D7) == 0x80000000
  {
  }
}
