/** 32-bit unsigned words, as the kernel's `uint32_t`, `size_t` and pointers. */
module Words {
  const WORD_LIMIT := 0x1_0000_0000
  const PAGE_SIZE := 4096

  type word = x: int | 0 <= x < 0x1_0000_0000

  /** Unsigned 32-bit wrap-around. */
  function Wrap(x: int): (w: word)
    ensures 0 <= x < WORD_LIMIT ==> w == x
  {
    x % WORD_LIMIT
  }

  predicate Aligned(w: int) {
    w % PAGE_SIZE == 0
  }

  /** `w & 0xfffff000`: clears the twelve flag bits. */
  function Mask(w: word): (m: word)
    ensures Aligned(m) && m <= w < m + PAGE_SIZE
  {
    w - w % PAGE_SIZE
  }

  lemma MaskDropsFlags(a: word, flags: nat)
    requires Aligned(a) && flags < PAGE_SIZE
    ensures a + flags < WORD_LIMIT && Mask(a + flags) == a
  {
  }

  /** On machine words, clearing the low bits is subtracting the remainder ... */
  lemma MaskIsSubtraction(w: bv32)
    ensures w & 0xffff_f000 == w - w % 4096
  {
  }

  /** ... and or-ing flags into an aligned word is adding them. */
  lemma OrIsAddition(w: bv32, flags: bv32)
    requires w % 4096 == 0 && flags < 4096
    ensures w | flags == w + flags
  {
  }
}
