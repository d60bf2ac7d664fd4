/** The changes that keep the nodes: writing one entry, and setting or clearing one mark
    bit on the way up from an entry to the head flags. */
module XaEdit {
  import opened XaIndex
  import opened XaNode
  import opened XaTree

  // ---- Entries --------------------------------------------------------------------

  /** The slot of index exists: xas_create has made its leaf, or the head serves it. */
  ghost predicate HasSlot(t: Tree, index: nat) {
    if t.top < 0 then index == 0 else PathPos(index, 0) in t.nodes
  }

  /** A store has to make a node: the slot is not there, or the head may not hold the entry. */
  ghost predicate NeedsNode(t: Tree, index: nat, allowRoot: bool) {
    !HasSlot(t, index) || (t.top < 0 && t.head.Null? && !allowRoot)
  }

  /** Above a leaf of the path all nodes of the path are there. */
  lemma {:induction false} PathAbove(t: STree, index: nat, level: nat)
    requires PathPos(index, 0) in t.nodes && level <= t.top
    ensures PathPos(index, level) in t.nodes
  {
    if level > 0 {
      PathAbove(t, index, level - 1);
      ParentAt(t, PathPos(index, level - 1));
      assert PathPos(index, level - 1).Up() == PathPos(index, level);
    }
  }

  lemma LeafInRange(t: STree, index: nat)
    requires HasSlot(t, index)
    ensures InRange(t, index)
  {
    if t.top >= 0 {
      PlaceAt(t, PathPos(index, 0));
      PathAbove(t, index, t.top);
      PlaceAt(t, PathPos(index, t.top));
    }
  }

  function Weight(e: Entry): int { if e.Null? then 0 else 1 }
  function ValueWeight(e: Entry): int { if e.Value? then 1 else 0 }

  ghost function PutEntry(t: Tree, index: nat, e: Entry): Tree
    requires HasSlot(t, index)
  {
    if t.top < 0 then t.(head := e)
    else
      var v := t.nodes[PathPos(index, 0)];
      var slots := v.slots[Digit(index, 0) := e];
      t.(nodes := t.nodes[PathPos(index, 0) := v.(slots := slots, count := Used(slots), nrValues := Values(slots))])
  }

  /** An entry may be removed once its marks are those of an empty slot. */
  ghost predicate CanPut(t: Tree, index: nat, e: Entry) {
    && HasSlot(t, index) && e.Storable()
    && (e.Null? ==> forall m: Mark :: Marked(t, index, m) == FreeBit(t, m))
  }

  lemma PutCounts(t: STree, index: nat, e: Entry)
    requires t.top >= 0 && PathPos(index, 0) in t.nodes
    ensures var v := t.nodes[PathPos(index, 0)]; var slots := v.slots[Digit(index, 0) := e];
            && Used(slots) == v.count - Weight(v.slots[Digit(index, 0)]) + Weight(e)
            && Values(slots) == v.nrValues - ValueWeight(v.slots[Digit(index, 0)]) + ValueWeight(e)
  {
    FieldsAt(t, PathPos(index, 0));
    CountUpdate(t.nodes[PathPos(index, 0)].slots, Digit(index, 0), e);
  }

  lemma PutNode(t: STree, index: nat, e: Entry, l: Pos)
    requires CanPut(t, index, e) && l in PutEntry(t, index, e).nodes
    ensures FieldsOk(PutEntry(t, index, e), l) && ParentOk(PutEntry(t, index, e), l) && PlaceOk(PutEntry(t, index, e), l)
  {
    FieldsAt(t, l);
    ParentAt(t, l);
    PlaceAt(t, l);
  }

  lemma PutSlot(t: STree, index: nat, e: Entry, l: Pos, o: Offset)
    requires CanPut(t, index, e) && l in PutEntry(t, index, e).nodes
    ensures SlotOk(PutEntry(t, index, e), l, o)
  {
    SlotAt(t, l, o);
  }

  lemma PutMark(t: WTree, index: nat, e: Entry, l: Pos, o: Offset, m: Mark)
    requires CanPut(t, index, e) && l in PutEntry(t, index, e).nodes
    ensures MarkOk(PutEntry(t, index, e), l, o, m)
  {
    MarkAt(t, l, o, m);
    assert e.Null? ==> Marked(t, index, m) == FreeBit(t, m);
  }

  lemma PutHead(t: WTree, index: nat, e: Entry, m: Mark)
    requires CanPut(t, index, e)
    ensures HeadOk(PutEntry(t, index, e)) && FlagOk(PutEntry(t, index, e), m)
  {
    FlagAt(t, m);
    assert e.Null? ==> Marked(t, index, m) == FreeBit(t, m);
  }

  lemma PutWF(t: WTree, index: nat, e: Entry)
    requires CanPut(t, index, e)
    ensures WF(PutEntry(t, index, e))
  {
    var u := PutEntry(t, index, e);
    forall l | l in u.nodes { PutNode(t, index, e, l); }
    forall l, o: Offset | l in u.nodes { PutSlot(t, index, e, l, o); }
    forall l, o: Offset, m: Mark | l in u.nodes { PutMark(t, index, e, l, o, m); }
    forall m: Mark { PutHead(t, index, e, m); }
  }

  /** Two indices with the same leaf and the same digit are the same index. */
  lemma SameSlot(i: nat, j: nat)
    requires PathPos(i, 0) == PathPos(j, 0) && Digit(i, 0) == Digit(j, 0)
    ensures i == j
  {
    assert Shr(i, 1) == i / CHUNK_SIZE && Shr(j, 1) == j / CHUNK_SIZE;
  }

  lemma PutContent(t: STree, index: nat, e: Entry)
    requires CanPut(t, index, e)
    ensures forall i: nat :: At(PutEntry(t, index, e), i) == if i == index then e else At(t, i)
    ensures forall i: nat, m: Mark :: Marked(PutEntry(t, index, e), i, m) == Marked(t, i, m)
  {
    forall i: nat ensures At(PutEntry(t, index, e), i) == if i == index then e else At(t, i) {
      if PathPos(i, 0) == PathPos(index, 0) && Digit(i, 0) == Digit(index, 0) { SameSlot(i, index); }
    }
  }

  // ---- Mark bits ------------------------------------------------------------------

  ghost function PutBit(t: Tree, k: Pos, o: Offset, m: Mark, b: bool): Tree
    requires k in t.nodes
  {
    var v := t.nodes[k];
    t.(nodes := t.nodes[k := v.(marks := v.marks[m := v.marks[m][o := b]])])
  }

  /** The nodes and their entries are as they were; only marks may differ. */
  ghost predicate SameShape(t: Tree, u: Tree) {
    && u.head == t.head && u.top == t.top && u.nodes.Keys == t.nodes.Keys
    && forall k {:trigger u.nodes[k]} {:trigger t.nodes[k]} | k in t.nodes :: u.nodes[k] == t.nodes[k].(marks := u.nodes[k].marks)
  }

  lemma ShapeBit(t: Tree, u: Tree, k: Pos, o: Offset, m: Mark, b: bool)
    requires SameShape(t, u) && k in u.nodes
    ensures SameShape(t, PutBit(u, k, o, m, b))
  {
  }

  lemma ShapeJoin(t: Tree, u: Tree, w: Tree)
    requires SameShape(t, u) && SameShape(u, w)
    ensures SameShape(t, w)
  {
  }

  lemma ShapeSelf(t: Tree)
    ensures SameShape(t, t)
  {
  }

  ghost function PutFlag(t: Tree, m: Mark, b: bool): Tree {
    t.(flags := t.flags[m := b])
  }

  lemma PutBitStructure(t: STree, k: Pos, o: Offset, m: Mark, b: bool)
    requires k in t.nodes
    ensures Structure(PutBit(t, k, o, m, b))
  {
    var u := PutBit(t, k, o, m, b);
    forall l | l in u.nodes ensures FieldsOk(u, l) && PlaceOk(u, l) { FieldsAt(t, l); PlaceAt(t, l); }
    forall l | l in u.nodes ensures ParentOk(u, l) { ParentAt(t, l); }
    forall l, p: Offset | l in u.nodes ensures SlotOk(u, l, p) { SlotAt(t, l, p); }
  }

  /** The other marks are not affected. */
  lemma PutBitOthers(t: STree, k: Pos, o: Offset, m: Mark, b: bool, n: Mark)
    requires k in t.nodes && n != m && Summary(t, n, NoHole)
    ensures Summary(PutBit(t, k, o, m, b), n, NoHole)
  {
    var u := PutBit(t, k, o, m, b);
    forall l, p: Offset | l in u.nodes ensures MarkOk(u, l, p, n) {
      assert MarkOk(t, l, p, n);
    }
  }

  /** The value the summary asks for at a slot. */
  ghost predicate Wanted(t: Tree, k: Pos, o: Offset, m: Mark, b: bool) {
    && k in t.nodes
    && if t.nodes[k].slots[o].Null? then b == FreeBit(t, m)
       else k.level > 0 ==> k.Down(o) in t.nodes && b == AnyMark(t.nodes[k.Down(o)].marks[m])
  }

  ghost predicate WantedFlag(t: Tree, m: Mark, b: bool) {
    if t.top < 0 then t.head.Null? ==> b == FreeBit(t, m)
    else Root(t) in t.nodes && b == AnyMark(t.nodes[Root(t)].marks[m])
  }

  /** A hole whose bit already has the wanted value is none. */
  lemma FillHole(t: STree, k: Pos, o: Offset, m: Mark, b: bool)
    requires Summary(t, m, SlotHole(k, o)) && Wanted(t, k, o, m, b) && t.nodes[k].marks[m][o] == b
    ensures Summary(t, m, NoHole)
  {
    assert MarkOk(t, k, o, m);
  }

  lemma FillFlag(t: STree, m: Mark, b: bool)
    requires Summary(t, m, FlagHole) && WantedFlag(t, m, b)
    ensures Summary(PutFlag(t, m, b), m, NoHole)
    ensures forall n: Mark | n != m && Summary(t, n, NoHole) :: Summary(PutFlag(t, m, b), n, NoHole)
    ensures Structure(PutFlag(t, m, b))
  {
    var u := PutFlag(t, m, b);
    forall n: Mark, l, p: Offset | l in u.nodes && MarkOk(t, l, p, n) ensures MarkOk(u, l, p, n) {}
    forall l | l in u.nodes ensures FieldsOk(u, l) && ParentOk(u, l) && PlaceOk(u, l) { FieldsAt(t, l); ParentAt(t, l); PlaceAt(t, l); }
    forall l, p: Offset | l in u.nodes ensures SlotOk(u, l, p) { SlotAt(t, l, p); }
  }

  /** The place that summarises the node at k. */
  ghost function Above(t: Tree, k: Pos): Hole {
    if k.level == t.top then FlagHole else SlotHole(k.Up(), k.Slot())
  }

  /** After the bit at the hole is put right, only the summary of its node is in doubt. */
  lemma ClimbMark(t: STree, k: Pos, o: Offset, m: Mark, b: bool, l: Pos, p: Offset)
    requires Summary(t, m, SlotHole(k, o)) && Wanted(t, k, o, m, b)
    requires l in t.nodes && Above(t, k) != SlotHole(l, p)
    ensures MarkOk(PutBit(t, k, o, m, b), l, p, m)
  {
    assert SlotHole(l, p) != SlotHole(k, o) ==> MarkOk(t, l, p, m);
    if l.level > 0 { ChildPlace(l, p); }
    ParentAt(t, k);
    SlotAt(t, l, p);
    PlaceAt(t, l);
  }

  lemma Climb(t: STree, k: Pos, o: Offset, m: Mark, b: bool)
    requires Summary(t, m, SlotHole(k, o)) && Wanted(t, k, o, m, b)
    ensures Summary(PutBit(t, k, o, m, b), m, Above(t, k))
  {
    var u := PutBit(t, k, o, m, b);
    forall l, p: Offset | l in u.nodes && Above(t, k) != SlotHole(l, p) { ClimbMark(t, k, o, m, b, l, p); }
  }

  /** When the node's own summary is unchanged, nothing is in doubt any more. */
  lemma ClimbDone(t: STree, k: Pos, o: Offset, m: Mark, b: bool)
    requires Summary(t, m, SlotHole(k, o)) && Wanted(t, k, o, m, b)
    requires AnyMark(PutBit(t, k, o, m, b).nodes[k].marks[m]) == AnyMark(t.nodes[k].marks[m])
    ensures Summary(PutBit(t, k, o, m, b), m, NoHole)
  {
    var u := PutBit(t, k, o, m, b);
    Climb(t, k, o, m, b);
    if k.level < t.top {
      ParentAt(t, k);
      PlaceInverse(k);
      assert MarkOk(t, k.Up(), k.Slot(), m);
      SlotAt(t, k.Up(), k.Slot());
    } else {
      PlaceAt(t, k);
    }
  }

  /** What the place above asks for is the node's present summary. */
  lemma WantedAbove(t: STree, k: Pos, m: Mark)
    requires k in t.nodes
    ensures k.level < t.top ==> Wanted(t, k.Up(), k.Slot(), m, AnyMark(t.nodes[k].marks[m]))
    ensures k.level == t.top ==> WantedFlag(t, m, AnyMark(t.nodes[k].marks[m]))
    ensures k.level <= t.top
  {
    PlaceAt(t, k);
    ParentAt(t, k);
    PlaceInverse(k);
    if k.level < t.top { SlotAt(t, k.Up(), k.Slot()); }
  }

  /** A bit of an inner node is no index's mark; a bit of a leaf is that of one. */
  lemma PutBitContent(t: STree, k: Pos, o: Offset, m: Mark, b: bool)
    requires k in t.nodes
    ensures forall i: nat :: At(PutBit(t, k, o, m, b), i) == At(t, i)
    ensures forall i: nat, n: Mark :: Marked(PutBit(t, k, o, m, b), i, n)
              == if PathPos(i, 0) == k && Digit(i, 0) == o && n == m then b else Marked(t, i, n)
  {
    PlaceAt(t, k);
  }

  // ---- The climb of xas_set_mark and xas_clear_mark -------------------------------

  /** u is t with mark m of one index set to b. */
  ghost predicate MarkedAs(t: Tree, u: Tree, index: nat, m: Mark, b: bool) {
    && (forall i: nat :: At(u, i) == At(t, i))
    && (forall i: nat, n: Mark :: Marked(u, i, n) == if i == index && n == m then b else Marked(t, i, n))
  }

  ghost predicate SpotExists(t: Tree, spot: Hole) {
    spot.SlotHole? ==> spot.k in t.nodes
  }

  ghost function PutAt(t: Tree, spot: Hole, m: Mark, b: bool): Tree
    requires SpotExists(t, spot)
  {
    match spot
    case SlotHole(k, o) => PutBit(t, k, o, m, b)
    case _ => PutFlag(t, m, b)
  }

  ghost predicate WantedAt(t: Tree, spot: Hole, m: Mark, b: bool) {
    match spot
    case SlotHole(k, o) => Wanted(t, k, o, m, b)
    case FlagHole => WantedFlag(t, m, b)
    case NoHole => false
  }

  /** Half way up: putting b at the spot is all that the summaries and the goal still ask for. */
  ghost predicate Climbing(t: Tree, u: Tree, index: nat, spot: Hole, m: Mark, b: bool) {
    && (forall n: Mark | n != m :: Summary(u, n, NoHole))
    && Summary(u, m, spot) && WantedAt(u, spot, m, b)
    && SpotExists(u, spot) && MarkedAs(t, PutAt(u, spot, m, b), index, m, b)
  }

  ghost function StartSpot(t: Tree, index: nat): Hole {
    if t.top < 0 then FlagHole else SlotHole(PathPos(index, 0), Digit(index, 0))
  }

  lemma ClimbStart(t: WTree, index: nat, m: Mark, b: bool)
    requires HasSlot(t, index) && (At(t, index).Null? ==> b == FreeBit(t, m))
    ensures Climbing(t, t, index, StartSpot(t, index), m, b)
  {
    forall n: Mark ensures Summary(t, n, NoHole) {}
    assert Summary(t, m, NoHole) ==> Summary(t, m, StartSpot(t, index));
    if t.top >= 0 {
      PutBitContent(t, PathPos(index, 0), Digit(index, 0), m, b);
      forall i: nat | PathPos(i, 0) == PathPos(index, 0) && Digit(i, 0) == Digit(index, 0) ensures i == index {
        SameSlot(i, index);
      }
    }
  }

  lemma PutFlagContent(t: STree, m: Mark, b: bool)
    requires t.top >= 0
    ensures forall i: nat :: At(PutFlag(t, m, b), i) == At(t, i)
    ensures forall i: nat, n: Mark :: Marked(PutFlag(t, m, b), i, n) == Marked(t, i, n)
  {
  }

  lemma ClimbUp(t: Tree, u: STree, index: nat, k: Pos, o: Offset, m: Mark, b: bool)
    requires Climbing(t, u, index, SlotHole(k, o), m, b)
    requires AnyMark(PutBit(u, k, o, m, b).nodes[k].marks[m]) == b
    ensures Structure(PutBit(u, k, o, m, b))
    ensures Climbing(t, PutBit(u, k, o, m, b), index, Above(u, k), m, b)
  {
    var w := PutBit(u, k, o, m, b);
    PutBitStructure(u, k, o, m, b);
    forall n: Mark | n != m { PutBitOthers(u, k, o, m, b, n); }
    Climb(u, k, o, m, b);
    WantedAbove(w, k, m);
    if k.level < w.top {
      PutBitContent(w, k.Up(), k.Slot(), m, b);
    } else {
      PutFlagContent(w, m, b);
    }
  }

  lemma PutBitSame(t: Tree, k: Pos, o: Offset, m: Mark, b: bool)
    requires k in t.nodes && t.nodes[k].marks[m][o] == b
    ensures PutBit(t, k, o, m, b) == t
  {
    assert t.nodes[k].marks[m][o := b] == t.nodes[k].marks[m];
    assert t.nodes[k].marks[m := t.nodes[k].marks[m]] == t.nodes[k].marks;
    assert t.nodes[k := t.nodes[k]] == t.nodes;
  }

  /** The bit was as wanted. */
  lemma ClimbEnd(t: Tree, u: STree, index: nat, k: Pos, o: Offset, m: Mark, b: bool)
    requires Climbing(t, u, index, SlotHole(k, o), m, b) && u.nodes[k].marks[m][o] == b
    ensures WF(u) && MarkedAs(t, u, index, m, b)
  {
    FillHole(u, k, o, m, b);
    PutBitSame(u, k, o, m, b);
  }

  /** The bit has changed, but not the node's summary. */
  lemma ClimbStop(t: Tree, u: STree, index: nat, k: Pos, o: Offset, m: Mark, b: bool)
    requires Climbing(t, u, index, SlotHole(k, o), m, b)
    requires AnyMark(PutBit(u, k, o, m, b).nodes[k].marks[m]) == AnyMark(u.nodes[k].marks[m])
    ensures WF(PutBit(u, k, o, m, b)) && MarkedAs(t, PutBit(u, k, o, m, b), index, m, b)
  {
    PutBitStructure(u, k, o, m, b);
    forall n: Mark | n != m { PutBitOthers(u, k, o, m, b, n); }
    ClimbDone(u, k, o, m, b);
  }

  lemma ClimbFlag(t: Tree, u: STree, index: nat, m: Mark, b: bool)
    requires Climbing(t, u, index, FlagHole, m, b)
    ensures WF(PutFlag(u, m, b)) && MarkedAs(t, PutFlag(u, m, b), index, m, b)
  {
    FillFlag(u, m, b);
  }

  lemma MarkedCell(t: Tree, u: Tree, index: nat, m: Mark, b: bool)
    requires MarkedAs(t, u, index, m, b)
    ensures CellAt(u, index) == WithMark(CellAt(t, index), m, b)
  {
    forall n: Mark ensures CellAt(u, index).marks[n] == CellAt(t, index).marks[m := b][n] {
      CellMarks(t, index, n);
      CellMarks(u, index, n);
    }
  }

  lemma MarkedEdit(t: Tree, u: Tree, index: nat, m: Mark, b: bool)
    requires MarkedAs(t, u, index, m, b)
    ensures Edited(t, u, index, WithMark(CellAt(t, index), m, b))
  {
    MarkedCell(t, u, index, m, b);
    forall i: nat | i != index { SameCell(t, u, i); }
  }
}
