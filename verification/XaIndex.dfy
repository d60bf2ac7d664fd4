/** Index arithmetic of the XArray: 64-bit indices cut into 6-bit digits.

    A node whose shift is 6 * level covers the indices that agree on all
    digits above that level.  Shr and Shl are the shifts by whole digits. */
module XaIndex {
  const CHUNK_SHIFT: nat := 6
  const CHUNK_SIZE: nat := 64
  const CHUNK_MASK: nat := 63
  const ULONG: nat := 0x1_0000_0000_0000_0000
  const ULONG_MAX: nat := ULONG - 1
  /** A 64-bit index has eleven digits, so the highest level is 10. */
  const TOP_LEVEL: nat := 10

  /** index >> (6 * level) */
  function Shr(index: nat, level: nat): nat {
    if level == 0 then index else Shr(index, level - 1) / CHUNK_SIZE
  }

  /** q << (6 * level), without truncation */
  function Shl(q: nat, level: nat): nat
    decreases level
  {
    if level == 0 then q else Shl(q * CHUNK_SIZE, level - 1)
  }

  /** get_offset: the digit of index at this level */
  function Digit(index: nat, level: nat): (o: nat)
    ensures o < CHUNK_SIZE
  {
    Shr(index, level) % CHUNK_SIZE
  }

  lemma {:induction false} ShrAtLeast(index: nat, level: nat, q: nat)
    ensures Shr(index, level) >= q <==> index >= Shl(q, level)
  {
    if level > 0 {
      ShrAtLeast(index, level - 1, q * CHUNK_SIZE);
    }
  }

  /** Shr(_, level) == q picks out one aligned block of indices. */
  lemma {:induction false} ShrBlock(index: nat, level: nat, q: nat)
    ensures Shr(index, level) == q <==> Shl(q, level) <= index < Shl(q + 1, level)
  {
    ShrAtLeast(index, level, q);
    ShrAtLeast(index, level, q + 1);
  }

  lemma {:induction false} ShlMonotone(p: nat, q: nat, level: nat)
    requires p <= q
    ensures Shl(p, level) <= Shl(q, level)
    ensures p < q ==> Shl(p, level) < Shl(q, level)
    decreases level
  {
    if level > 0 {
      ShlMonotone(p * CHUNK_SIZE, q * CHUNK_SIZE, level - 1);
    }
  }

  lemma {:induction false} ShrMonotone(a: nat, b: nat, level: nat)
    requires a <= b
    ensures Shr(a, level) <= Shr(b, level)
  {
    if level > 0 {
      ShrMonotone(a, b, level - 1);
    }
  }

  /** Shl in terms of multiplication by the power of two itself. */
  lemma {:induction false} ShlScale(q: nat, level: nat)
    ensures Shl(q, level) == q * Shl(1, level)
    decreases level
  {
    if level > 0 {
      ShlScale(q * CHUNK_SIZE, level - 1);
      ShlScale(CHUNK_SIZE, level - 1);
      assert q * CHUNK_SIZE * Shl(1, level - 1) == q * (CHUNK_SIZE * Shl(1, level - 1));
    }
  }

  lemma {:induction false} TopLevels()
    ensures Shl(1, 10) == 0x1000_0000_0000_0000
    ensures Shl(16, 10) == ULONG
    ensures Shl(1, 11) == 64 * Shl(1, 10)
    ensures forall index: nat | index <= ULONG_MAX :: Shr(index, 10) < 16 && Shr(index, 11) == 0
  {
    assert Shl(1, 10) == 0x1000_0000_0000_0000 by {
      assert Shl(1, 10) == Shl(64, 9) == Shl(4096, 8) == Shl(0x4_0000, 7) == Shl(0x100_0000, 6);
      assert Shl(0x100_0000, 6) == Shl(0x4000_0000, 5) == Shl(0x10_0000_0000, 4) == Shl(0x400_0000_0000, 3);
    }
    ShlScale(16, 10);
    ShlScale(64, 10);
    forall index: nat | index <= ULONG_MAX ensures Shr(index, 10) < 16 && Shr(index, 11) == 0 {
      ShrAtLeast(index, 10, 16);
    }
  }

  /** max_index for a head node at this level: (64 << shift) - 1 in unsigned long
      arithmetic, which wraps to ULONG_MAX at the top level. */
  function MaxIndexOf(level: nat): nat {
    (Shl(CHUNK_SIZE, level) % ULONG - 1) % ULONG
  }

  lemma {:induction false} MaxIndexCovers(level: nat, index: nat)
    requires level <= TOP_LEVEL && index <= ULONG_MAX
    ensures index <= MaxIndexOf(level) <==> Shr(index, level + 1) == 0
    ensures level == TOP_LEVEL ==> index <= MaxIndexOf(level)
    ensures MaxIndexOf(level) <= ULONG_MAX
    ensures level < TOP_LEVEL ==> MaxIndexOf(level) == Shl(CHUNK_SIZE, level) - 1
  {
    TopLevels();
    ShrAtLeast(index, level + 1, 1);
    assert Shl(1, level + 1) == Shl(CHUNK_SIZE, level);
    if level == TOP_LEVEL {
      ShlScale(64, 10);
      assert Shl(64, 10) == 4 * ULONG;
    } else {
      LevelBelowTop(level);
    }
  }

  lemma {:induction false} LevelBelowTop(level: nat)
    requires level < TOP_LEVEL
    ensures 0 < Shl(CHUNK_SIZE, level) <= Shl(1, 10) < ULONG
    decreases TOP_LEVEL - level
  {
    TopLevels();
    ShlScale(CHUNK_SIZE, level);
    ShlMonotone(0, 1, level);
    if level + 1 < TOP_LEVEL {
      LevelBelowTop(level + 1);
      ShlScale(CHUNK_SIZE, level + 1);
      assert Shl(CHUNK_SIZE, level + 1) == 64 * Shl(1, level + 1);
      assert Shl(1, level + 1) == Shl(CHUNK_SIZE, level);
    }
    assert Shl(0, level) == 0 by { ShlScale(0, level); }
  }
}
