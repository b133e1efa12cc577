/** One round of the System V hash on 32-bit words. */
module SysvRound {
  /** The top nibble is folded into bits 4 to 7 and cleared. */
  function Fold(h: bv32): bv32 {
    var g := h & 0xF000_0000;
    (if g != 0 then h ^ (g >> 24) else h) & !g
  }

  function Round(h: bv32, c: bv32): bv32 { Fold((h << 4) + c) }

  lemma FoldNothing(h: bv32)
    requires h & 0xF000_0000 == 0
    ensures Fold(h) == h & 0x0FFF_FFFF
    ensures h & 0x0FFF_FFFF == (h & 0x0FFF_FFFF) ^ ((h >> 28) << 4)
  {
  }

  lemma FoldNibble(h: bv32)
    requires h & 0xF000_0000 != 0
    ensures Fold(h) == (h ^ ((h & 0xF000_0000) >> 24)) & !(h & 0xF000_0000)
  {
  }

  lemma NibbleMoves(h: bv32)
    ensures (h ^ ((h & 0xF000_0000) >> 24)) & !(h & 0xF000_0000) == (h & 0x0FFF_FFFF) ^ ((h >> 28) << 4)
  {
  }

  /** Without the branch: the low 28 bits, with the top nibble added without carry four bits up. */
  lemma FoldIs(h: bv32)
    ensures Fold(h) == (h & 0x0FFF_FFFF) ^ ((h >> 28) << 4)
  {
    if h & 0xF000_0000 == 0 {
      FoldNothing(h);
    } else {
      FoldNibble(h);
      NibbleMoves(h);
    }
  }

  /** A round multiplies by 16, adds the character and folds. */
  lemma RoundIs(h: bv32, c: bv32)
    ensures Round(h, c) == ((16 * h + c) & 0x0FFF_FFFF) ^ (((16 * h + c) >> 28) << 4)
  {
    FoldIs((h << 4) + c);
  }

  /** No bit is lost when a small word is narrowed. */
  lemma Narrows(h: bv32)
    requires h < 0x1000_0000
    ensures (h as bv28) as bv32 == h
  {
  }

  lemma FoldSmall(h: bv32)
    ensures Fold(h) & 0xF000_0000 == 0
  {
  }

  lemma Small(h: bv32)
    requires h & 0xF000_0000 == 0
    ensures h < 0x1000_0000
  {
  }
}
