/** The XArray's tree of nodes as a value: what makes it well formed, and which entry
    and which marks it holds for each index.  Trees are compared by At and Marked, the
    abstract content. */
module XaTree {
  import opened XaIndex
  import opened XaNode

  /** head and flags are the xa_head and the mark bits of struct xarray.  nodes lists
      the nodes by place.  top is the level of the head node, or -1 when the head is
      not a node. */
  datatype Tree = Tree(head: Entry, flags: Flags, tracked: bool, top: int, nodes: map<Pos, NodeVal>)

  /** The entry stored for an index. */
  ghost function At(t: Tree, index: nat): Entry {
    if t.top < 0 then
      if index == 0 then t.head else Null
    else if PathPos(index, 0) in t.nodes then t.nodes[PathPos(index, 0)].slots[Digit(index, 0)]
    else Null
  }

  /** Whether mark m is on index.  In an array that tracks free entries the empty
      indices carry FREE_MARK; otherwise an empty index has no mark. */
  ghost predicate Marked(t: Tree, index: nat, m: Mark) {
    if t.top < 0 then
      if index == 0 then t.flags[m] else FreeBit(t, m)
    else if PathPos(index, 0) in t.nodes then t.nodes[PathPos(index, 0)].marks[m][Digit(index, 0)]
    else FreeBit(t, m)
  }

  ghost predicate FreeBit(t: Tree, m: Mark) {
    t.tracked && m == FREE_MARK
  }

  /** The tree is tall enough for index. */
  ghost predicate InRange(t: Tree, index: nat) {
    if t.top < 0 then index == 0 else Shr(index, t.top + 1) == 0
  }

  // ---- Structure -----------------------------------------------------------------

  /** What the slot o of the inner node at k must hold: its child, or nothing. */
  ghost function Child(t: Tree, k: Pos, o: Offset): Entry
    requires k.level > 0
  {
    if k.Down(o) in t.nodes then NodeEntry(t.nodes[k.Down(o)].self) else Null
  }

  ghost predicate SlotOk(t: Tree, k: Pos, o: Offset)
    requires k in t.nodes
  {
    var e := t.nodes[k].slots[o];
    if k.level == 0 then e.Storable() else e == Child(t, k, o)
  }

  /** Parent pointer and offset agree with the place; the head node has no parent. */
  ghost predicate ParentOk(t: Tree, k: Pos)
    requires k in t.nodes
  {
    var v := t.nodes[k];
    if k.level == t.top then v.parent == null
    else k.Up() in t.nodes && v.parent == t.nodes[k.Up()].self && v.offset == k.Slot()
  }

  ghost predicate FieldsOk(t: Tree, k: Pos)
    requires k in t.nodes
  {
    var v := t.nodes[k];
    && v.shift == CHUNK_SHIFT * k.level && v.life == Live
    && v.count == Used(v.slots) && v.nrValues == Values(v.slots)
  }

  ghost predicate PlaceOk(t: Tree, k: Pos)
    requires k in t.nodes
  {
    && t.nodes[k].pos == k && k.level <= t.top
    && (k.level == t.top ==> k.prefix == 0)
    && k.prefix <= Shr(ULONG_MAX, k.level + 1)
  }

  ghost predicate HeadOk(t: Tree) {
    && -1 <= t.top <= TOP_LEVEL
    && if t.top < 0 then t.nodes == map[] && t.head.Storable()
       else Root(t) in t.nodes && t.head == NodeEntry(t.nodes[Root(t)].self)
  }

  ghost function Root(t: Tree): Pos
    requires t.top >= 0
  {
    Pos(t.top, 0)
  }

  ghost predicate Structure(t: Tree) {
    && HeadOk(t)
    && (forall k {:trigger PlaceOk(t, k)} | k in t.nodes :: PlaceOk(t, k))
    && (forall k {:trigger FieldsOk(t, k)} | k in t.nodes :: FieldsOk(t, k))
    && (forall k {:trigger ParentOk(t, k)} | k in t.nodes :: ParentOk(t, k))
    && (forall k, o: Offset {:trigger SlotOk(t, k, o)} | k in t.nodes :: SlotOk(t, k, o))
  }

  // ---- Marks ---------------------------------------------------------------------

  /** The mark bit of a slot: a child's summary, the free mark of an empty slot, or
      the caller's own mark on an entry. */
  ghost predicate MarkOk(t: Tree, k: Pos, o: Offset, m: Mark)
    requires k in t.nodes
  {
    var bit := t.nodes[k].marks[m][o];
    if t.nodes[k].slots[o].Null? then bit == FreeBit(t, m)
    else k.level > 0 && k.Down(o) in t.nodes ==> bit == AnyMark(t.nodes[k.Down(o)].marks[m])
  }

  ghost predicate FlagOk(t: Tree, m: Mark) {
    if t.top < 0 then t.head.Null? ==> t.flags[m] == FreeBit(t, m)
    else Root(t) in t.nodes ==> t.flags[m] == AnyMark(t.nodes[Root(t)].marks[m])
  }

  /** The one place where a mark's summary may be out of date during a climb. */
  datatype Hole = NoHole | SlotHole(k: Pos, o: Offset) | FlagHole

  ghost predicate Summary(t: Tree, m: Mark, hole: Hole) {
    && (forall k, o: Offset {:trigger MarkOk(t, k, o, m)} | k in t.nodes && hole != SlotHole(k, o) :: MarkOk(t, k, o, m))
    && (hole != FlagHole ==> FlagOk(t, m))
  }

  /** The invariant kept by every operation of the advanced API. */
  ghost predicate WF(t: Tree) {
    Structure(t) && forall m: Mark :: Summary(t, m, NoHole)
  }

  type STree = t: Tree | Structure(t) witness Tree(Null, [false, false, false], false, -1, map[])
  type WTree = t: STree | WF(t) witness Tree(Null, [false, false, false], false, -1, map[])

  /** In a tracked array exactly the empty indices are free.  The normal API keeps
      this between calls. */
  ghost predicate FreeExact(t: Tree) {
    t.tracked ==> forall i: nat :: Marked(t, i, FREE_MARK) <==> At(t, i).Null?
  }

  // ---- Content -------------------------------------------------------------------

  /** What an array says about one index. */
  datatype Cell = Cell(entry: Entry, marks: Flags)

  ghost function CellAt(t: Tree, index: nat): Cell {
    Cell(At(t, index), [Marked(t, index, 0), Marked(t, index, 1), Marked(t, index, 2)])
  }

  /** u holds what t holds. */
  ghost predicate Same(t: Tree, u: Tree) {
    forall i: nat {:trigger CellAt(u, i)} :: CellAt(u, i) == CellAt(t, i)
  }

  /** u holds what t holds, except for one index. */
  ghost predicate Edited(t: Tree, u: Tree, index: nat, cell: Cell) {
    forall i: nat {:trigger CellAt(u, i)} :: CellAt(u, i) == if i == index then cell else CellAt(t, i)
  }

  ghost function WithMark(c: Cell, m: Mark, b: bool): Cell {
    c.(marks := c.marks[m := b])
  }

  ghost predicate SameContent(t: Tree, u: Tree) {
    && (forall i: nat :: At(u, i) == At(t, i))
    && (forall i: nat, m: Mark :: Marked(u, i, m) == Marked(t, i, m))
  }

  lemma CellMarks(t: Tree, index: nat, m: Mark)
    ensures CellAt(t, index).marks[m] == Marked(t, index, m)
  {
  }

  lemma SameCell(t: Tree, u: Tree, index: nat)
    requires At(t, index) == At(u, index) && forall m: Mark :: Marked(u, index, m) == Marked(t, index, m)
    ensures CellAt(t, index) == CellAt(u, index)
  {
    forall m: Mark ensures CellAt(t, index).marks[m] == CellAt(u, index).marks[m] {
      CellMarks(t, index, m);
      CellMarks(u, index, m);
    }
  }

  lemma SameCells(t: Tree, u: Tree)
    requires SameContent(t, u)
    ensures Same(t, u)
  {
    forall i: nat { SameCell(t, u, i); }
  }

  lemma SameJoin(t: Tree, u: Tree, w: Tree)
    requires Same(t, u) && Same(u, w)
    ensures Same(t, w)
  {
  }

  lemma SameSelf(t: Tree)
    ensures Same(t, t)
  {
  }

  // ---- Instances of the invariant ------------------------------------------------

  lemma SlotAt(t: STree, k: Pos, o: Offset)
    requires k in t.nodes
    ensures SlotOk(t, k, o)
  {
  }

  lemma ParentAt(t: STree, k: Pos)
    requires k in t.nodes
    ensures ParentOk(t, k)
  {
  }

  lemma FieldsAt(t: STree, k: Pos)
    requires k in t.nodes
    ensures FieldsOk(t, k)
  {
  }

  lemma PlaceAt(t: STree, k: Pos)
    requires k in t.nodes
    ensures PlaceOk(t, k)
  {
  }

  lemma MarkAt(t: WTree, k: Pos, o: Offset, m: Mark)
    requires k in t.nodes
    ensures MarkOk(t, k, o, m)
  {
    assert Summary(t, m, NoHole);
  }

  lemma FlagAt(t: WTree, m: Mark)
    ensures FlagOk(t, m)
  {
    assert Summary(t, m, NoHole);
  }

  // ---- Paths ---------------------------------------------------------------------

  /** Every ancestor of a node of the tree is in the tree. */
  lemma {:induction false} Ancestors(t: STree, index: nat, low: nat, high: nat)
    requires PathPos(index, low) in t.nodes && low <= high <= t.top
    ensures PathPos(index, high) in t.nodes
    ensures high == t.top ==> Shr(index, high + 1) == 0
    decreases high - low
  {
    ParentAt(t, PathPos(index, low));
    if low < high {
      assert PathPos(index, low).Up() == PathPos(index, low + 1);
      Ancestors(t, index, low + 1, high);
    } else {
      PlaceAt(t, PathPos(index, low));
    }
  }

  /** An index beyond the head node's range is empty. */
  lemma {:induction false} OutOfRange(t: STree, index: nat)
    requires !InRange(t, index)
    ensures PathPos(index, 0) !in t.nodes && At(t, index).Null?
    ensures forall m: Mark :: Marked(t, index, m) == FreeBit(t, m)
  {
    if PathPos(index, 0) in t.nodes {
      Ancestors(t, index, 0, t.top);
    }
  }

  /** A slot on the path holds the next node of the path, if that is in the tree. */
  lemma {:induction false} PathDown(t: STree, index: nat, level: nat)
    requires PathPos(index, level) in t.nodes && level > 0
    ensures t.nodes[PathPos(index, level)].slots[Digit(index, level)]
            == (if PathPos(index, level - 1) in t.nodes then NodeEntry(t.nodes[PathPos(index, level - 1)].self) else Null)
  {
    SlotAt(t, PathPos(index, level), Digit(index, level));
    assert PathPos(index, level).Down(Digit(index, level)) == PathPos(index, level - 1);
  }

  /** Below an empty slot nothing is stored. */
  lemma {:induction false} EmptyBelow(t: STree, index: nat, level: nat)
    requires PathPos(index, level) in t.nodes
    requires t.nodes[PathPos(index, level)].slots[Digit(index, level)].Null?
    ensures At(t, index).Null?
    ensures level > 0 ==> PathPos(index, 0) !in t.nodes
    ensures level > 0 ==> forall m: Mark :: Marked(t, index, m) == FreeBit(t, m)
  {
    PlaceAt(t, PathPos(index, level));
    if level > 0 {
      PathDown(t, index, level);
      if PathPos(index, 0) in t.nodes {
        Ancestors(t, index, 0, level - 1);
      }
    }
  }

  /** What a walk towards index sees below level + 1: the node of the path at this
      level, or the entry of the index when the path stops. */
  ghost function Seen(t: Tree, index: nat, level: int): Entry
    requires level >= -1
  {
    if level >= 0 && PathPos(index, level) in t.nodes then NodeEntry(t.nodes[PathPos(index, level)].self)
    else At(t, index)
  }

  lemma SeenAtHead(t: STree, index: nat)
    requires InRange(t, index)
    ensures Seen(t, index, t.top) == t.head
  {
  }

  /** The slot of the path node at this level shows what is below. */
  lemma SeenBelow(t: STree, index: nat, level: nat)
    requires PathPos(index, level) in t.nodes
    ensures t.nodes[PathPos(index, level)].slots[Digit(index, level)] == Seen(t, index, level - 1)
    ensures level == 0 ==> Seen(t, index, level - 1).Storable()
    ensures level > 0 && PathPos(index, level - 1) !in t.nodes ==> Seen(t, index, level - 1) == Null
  {
    SlotAt(t, PathPos(index, level), Digit(index, level));
    if level > 0 {
      PathDown(t, index, level);
      if PathPos(index, level - 1) !in t.nodes { EmptyBelow(t, index, level); }
    }
  }

  lemma SeenStorable(t: STree, index: nat)
    ensures At(t, index).Storable()
  {
    if t.top >= 0 && PathPos(index, 0) in t.nodes { SlotAt(t, PathPos(index, 0), Digit(index, 0)); }
  }
}
