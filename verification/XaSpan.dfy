/** The stretch of indices below one slot, and how a cursor's index follows its slot.

    A cursor may stand one past the last slot of a node, and then its index may have
    wrapped around 2^64.  Spot is the index without the wrap. */
module XaSpan {
  import opened XaIndex
  import opened XaNode
  import opened XaTree

  /** The first index below slot o of the node at k. */
  function Spot(k: Pos, o: nat): nat {
    Shl(k.prefix * CHUNK_SIZE + o, k.level)
  }

  /** Nothing is stored at lo up to, and not including, hi. */
  ghost predicate NoneIn(t: Tree, lo: nat, hi: nat) {
    forall i: nat {:trigger At(t, i)} | lo <= i < hi :: At(t, i).Null?
  }

  /** xas_move_index: the digits from the node's level down are replaced. */
  function MoveIndex(index: nat, shift: nat, offset: nat): (r: nat)
    ensures r < ULONG
  {
    var level := shift / CHUNK_SHIFT;
    (Shl(Shr(index, level + 1), level + 1) + Shl(offset, level) % ULONG) % ULONG
  }

  lemma SpotUp(k: Pos)
    ensures Spot(k, CHUNK_SIZE) == Spot(k.Up(), k.Slot() + 1)
  {
    assert (k.Up().prefix * CHUNK_SIZE + k.Slot() + 1) * CHUNK_SIZE == k.prefix * CHUNK_SIZE + CHUNK_SIZE;
  }

  lemma SpotDown(k: Pos, o: Offset)
    requires k.level > 0
    ensures Spot(k.Down(o), 0) == Spot(k, o)
  {
  }

  lemma SpotStep(k: Pos, o: nat)
    ensures Spot(k, o) < Spot(k, o + 1)
  {
    ShlMonotone(k.prefix * CHUNK_SIZE + o, k.prefix * CHUNK_SIZE + o + 1, k.level);
  }

  /** The slot of the path is where its index is. */
  lemma SpotOfPath(index: nat, level: nat)
    ensures Spot(PathPos(index, level), Digit(index, level)) <= index < Spot(PathPos(index, level), Digit(index, level) + 1)
    ensures level == 0 ==> Spot(PathPos(index, 0), Digit(index, 0)) == index
  {
    var q := Shr(index, level);
    assert q == PathPos(index, level).prefix * CHUNK_SIZE + Digit(index, level);
    ShrBlock(index, level, q);
  }

  /** No slot of the tree is beyond the reach of its head. */
  lemma {:induction false} SpotBound(t: STree, k: Pos, o: nat)
    requires k in t.nodes && o <= CHUNK_SIZE
    ensures t.top >= k.level && Spot(k, o) <= Shl(CHUNK_SIZE, t.top)
    decreases t.top - k.level
  {
    hide Shl, PlaceOk;
    PlaceAt(t, k);
    ShlMonotone(k.prefix * CHUNK_SIZE + o, k.prefix * CHUNK_SIZE + CHUNK_SIZE, k.level);
    if k.level < t.top {
      ParentAt(t, k);
      SpotUp(k);
      SpotBound(t, k.Up(), k.Slot() + 1);
    }
  }

  /** Which node and slot an index belongs to at a level. */
  lemma PathAt(k: Pos, o: Offset, index: nat)
    requires Spot(k, o) <= index < Spot(k, o + 1)
    ensures PathPos(index, k.level) == k && Digit(index, k.level) == o
  {
    ShrBlock(index, k.level, k.prefix * CHUNK_SIZE + o);
  }

  /** Below an empty slot nothing is stored. */
  lemma SpotEmpty(t: STree, k: Pos, o: Offset)
    requires k in t.nodes && t.nodes[k].slots[o].Null?
    ensures NoneIn(t, Spot(k, o), Spot(k, o + 1))
  {
    forall i: nat | Spot(k, o) <= i < Spot(k, o + 1) ensures At(t, i).Null? {
      PathAt(k, o, i);
      EmptyBelow(t, i, k.level);
    }
  }

  /** What is beyond the reach of the head is empty. */
  lemma NoneBeyond(t: STree, hi: nat)
    requires t.top >= 0
    ensures NoneIn(t, Shl(CHUNK_SIZE, t.top), hi)
  {
    forall i: nat | Shl(CHUNK_SIZE, t.top) <= i < hi ensures At(t, i).Null? {
      ShrAtLeast(i, t.top + 1, 1);
      OutOfRange(t, i);
    }
  }

  lemma {:induction false} ShlAdd(q: nat, a: nat, b: nat)
    ensures Shl(Shl(q, a), b) == Shl(q, a + b)
    decreases a
  {
    if a > 0 {
      ShlAdd(q * CHUNK_SIZE, a - 1, b);
    }
  }

  /** Below the top level, the blocks of indices fit the index space exactly. */
  lemma BlockFits(p: nat, l: nat)
    requires l <= TOP_LEVEL && p <= Shr(ULONG_MAX, l)
    ensures Shl(p + 1, l) <= ULONG
  {
    TopLevels();
    var q := Shl(16, TOP_LEVEL - l);
    ShlAdd(16, TOP_LEVEL - l, l);
    ShrAtLeast(ULONG_MAX, l, p);
    if p >= q {
      ShlMonotone(q, p, l);
    } else {
      ShlMonotone(p + 1, q, l);
    }
  }

  /** The slots of a block of indices lie within it. */
  lemma SlotWithin(p: nat, l: nat, o: nat)
    requires l < TOP_LEVEL && p <= Shr(ULONG_MAX, l + 1) && o <= CHUNK_SIZE
    ensures Shl(p * CHUNK_SIZE + o, l) <= ULONG && (o < CHUNK_SIZE ==> Shl(p * CHUNK_SIZE + o, l) < ULONG)
  {
    BlockFits(p, l + 1);
    assert Shl(p + 1, l + 1) == Shl(p * CHUNK_SIZE + CHUNK_SIZE, l);
    ShlMonotone(p * CHUNK_SIZE + o, p * CHUNK_SIZE + CHUNK_SIZE, l);
  }

  /** A node below the top level has no slot beyond the last index. */
  lemma SpotFits(t: STree, k: Pos, o: nat)
    requires k in t.nodes && k.level < TOP_LEVEL && o <= CHUNK_SIZE
    ensures Spot(k, o) <= ULONG && (o < CHUNK_SIZE ==> Spot(k, o) < ULONG)
  {
    hide Structure, Shl, Shr;
    PlaceAt(t, k);
    SlotWithin(k.prefix, k.level, o);
  }

  /** A slot in use is not beyond the last index. */
  lemma SpotInUse(t: STree, k: Pos, o: Offset)
    requires k in t.nodes && !t.nodes[k].slots[o].Null?
    ensures Spot(k, o) < ULONG
  {
    PlaceAt(t, k);
    if k.level < TOP_LEVEL {
      SpotFits(t, k, o);
    } else {
      SlotAt(t, k, o);
      PlaceAt(t, k.Down(o));
      ShrAtLeast(ULONG_MAX, k.level, k.Down(o).prefix);
    }
  }

  /** The digits above a cursor's node are those of the node. */
  lemma AboveSpot(t: STree, k: Pos, o: Offset)
    requires k in t.nodes
    ensures Shr(Spot(k, o) % ULONG, k.level + 1) == k.prefix
  {
    PlaceAt(t, k);
    if k.level == TOP_LEVEL {
      TopLevels();
    } else {
      SpotFits(t, k, o);
      PathSpot(k, o);
    }
  }

  /** A cursor in the tree keeps its index in step with its slot. */
  lemma MoveIs(t: STree, k: Pos, o: Offset, next: nat)
    requires k in t.nodes
    ensures MoveIndex(Spot(k, o) % ULONG, CHUNK_SHIFT * k.level, next) == Spot(k, next) % ULONG
  {
    AboveSpot(t, k, o);
    ShlSum(k.prefix * CHUNK_SIZE, next, k.level);
    WrapSum(Shl(k.prefix, k.level + 1), Shl(next, k.level));
  }

  lemma PathSpot(k: Pos, o: Offset)
    ensures Shr(Spot(k, o), k.level + 1) == k.prefix
  {
    SpotStep(k, o);
    PathAt(k, o, Spot(k, o));
  }

  lemma ShlSum(a: nat, b: nat, level: nat)
    ensures Shl(a + b, level) == Shl(a, level) + Shl(b, level)
  {
    ShlScale(a + b, level);
    ShlScale(a, level);
    ShlScale(b, level);
    assert (a + b) * Shl(1, level) == a * Shl(1, level) + b * Shl(1, level);
  }

  lemma WrapSum(a: nat, b: nat)
    ensures (a + b % ULONG) % ULONG == (a + b) % ULONG
  {
  }
}
