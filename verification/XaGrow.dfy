/** The changes that add a node: a child under an empty slot, the first node of an
    empty array, and a new head above the present one.  None changes the content. */
module XaGrow {
  import opened XaIndex
  import opened XaNode
  import opened XaTree

  /** A node as xas_alloc and xas_create leave it, before it is linked. */
  ghost predicate Blank(t: Tree, v: NodeVal, k: Pos) {
    && v.pos == k && v.shift == CHUNK_SHIFT * k.level && v.count == 0 && v.nrValues == 0 && v.life == Live
    && v.slots == EmptySlots()
    && forall m: Mark :: v.marks[m] == Fill(FreeBit(t, m))
  }

  /** xas_alloc counts a child before its slot is filled. */
  ghost function Raise(t: Tree, k: Pos): Tree
    requires k in t.nodes
  {
    t.(nodes := t.nodes[k := t.nodes[k].(count := t.nodes[k].count + 1)])
  }

  ghost function AddChild(t: Tree, k: Pos, v: NodeVal): Tree
    requires k.Up() in t.nodes
  {
    var up := t.nodes[k.Up()];
    t.(nodes := t.nodes
         [k.Up() := up.(count := up.count + 1, slots := up.slots[k.Slot() := NodeEntry(v.self)])]
         [k := v])
  }

  ghost predicate CanAdd(t: Tree, k: Pos, v: NodeVal) {
    && k !in t.nodes && k.Up() in t.nodes
    && k.prefix <= Shr(ULONG_MAX, k.level + 1)
    && Blank(t, v, k) && v.parent == t.nodes[k.Up()].self && v.offset == k.Slot()
  }

  lemma AddChildSlot(t: STree, k: Pos, v: NodeVal, l: Pos, o: Offset)
    requires CanAdd(t, k, v) && l in AddChild(t, k, v).nodes
    ensures SlotOk(AddChild(t, k, v), l, o)
  {
    PlaceInverse(k);
    if l == k {
      if k.level > 0 && k.Down(o) in t.nodes {
        PlaceAt(t, k.Up());
        ParentAt(t, k.Down(o));
        ChildPlace(k, o);
      }
    } else {
      SlotAt(t, l, o);
      if l.level > 0 {
        ChildPlace(l, o);
        assert l.Down(o) == k <==> l == k.Up() && o == k.Slot();
      }
    }
  }

  lemma AddChildFields(t: STree, k: Pos, v: NodeVal, l: Pos)
    requires CanAdd(t, k, v) && l in AddChild(t, k, v).nodes
    ensures FieldsOk(AddChild(t, k, v), l) && ParentOk(AddChild(t, k, v), l) && PlaceOk(AddChild(t, k, v), l)
  {
    PlaceAt(t, k.Up());
    if l == k {
      EmptyCounts();
    } else {
      FieldsAt(t, l);
      ParentAt(t, l);
      PlaceAt(t, l);
      if l == k.Up() {
        PlaceInverse(k);
        SlotAt(t, l, k.Slot());
        CountUpdate(t.nodes[l].slots, k.Slot(), NodeEntry(v.self));
      }
    }
  }

  lemma AddChildStructure(t: STree, k: Pos, v: NodeVal)
    requires CanAdd(t, k, v)
    ensures Structure(AddChild(t, k, v))
  {
    var u := AddChild(t, k, v);
    forall l, o: Offset | l in u.nodes { AddChildSlot(t, k, v, l, o); }
    forall l | l in u.nodes { AddChildFields(t, k, v, l); }
  }

  lemma AddChildMark(t: WTree, k: Pos, v: NodeVal, l: Pos, o: Offset, m: Mark)
    requires CanAdd(t, k, v) && l in AddChild(t, k, v).nodes
    ensures MarkOk(AddChild(t, k, v), l, o, m)
  {
    if l != k {
      assert AnyMark(v.marks[m]) == FreeBit(t, m) by { assert FreeBit(t, m) ==> v.marks[m][0]; }
      MarkAt(t, l, o, m);
      SlotAt(t, l, o);
      PlaceInverse(k);
      if l.level > 0 {
        ChildPlace(l, o);
        assert l.Down(o) == k <==> l == k.Up() && o == k.Slot();
      }
    }
  }

  lemma AddChildContent(t: STree, k: Pos, v: NodeVal)
    requires CanAdd(t, k, v)
    ensures SameContent(t, AddChild(t, k, v))
  {
    var u := AddChild(t, k, v);
    forall i: nat ensures At(u, i) == At(t, i) {
      assert PathPos(i, 0) != k.Up();
    }
    forall i: nat, m: Mark ensures Marked(u, i, m) == Marked(t, i, m) {
      assert PathPos(i, 0) != k.Up();
    }
  }

  lemma AddChildWF(t: WTree, k: Pos, v: NodeVal)
    requires CanAdd(t, k, v)
    ensures WF(AddChild(t, k, v))
  {
    var u := AddChild(t, k, v);
    AddChildStructure(t, k, v);
    forall l, o: Offset, m: Mark | l in u.nodes { AddChildMark(t, k, v, l, o, m); }
    forall m: Mark ensures FlagOk(u, m) {
      FlagAt(t, m);
    }
  }

  // ---- The first node of an empty array -------------------------------------------

  ghost function AddRoot(t: Tree, v: NodeVal): Tree {
    t.(head := NodeEntry(v.self), top := v.pos.level, nodes := map[v.pos := v])
  }

  ghost predicate CanAddRoot(t: Tree, v: NodeVal) {
    && t.top == -1 && t.head.Null?
    && v.pos.prefix == 0 && v.pos.level <= TOP_LEVEL
    && Blank(t, v, v.pos) && v.parent == null
  }

  lemma AddRootContent(t: WTree, v: NodeVal)
    requires CanAddRoot(t, v)
    ensures SameContent(t, AddRoot(t, v))
  {
    var u := AddRoot(t, v);
    forall i: nat ensures At(u, i) == At(t, i) {}
    forall i: nat, m: Mark ensures Marked(u, i, m) == Marked(t, i, m) {
      FlagAt(t, m);
    }
  }

  lemma AddRootFlag(t: WTree, v: NodeVal, m: Mark)
    requires CanAddRoot(t, v)
    ensures FlagOk(AddRoot(t, v), m)
  {
    FlagAt(t, m);
    assert FreeBit(t, m) ==> v.marks[m][0];
  }

  lemma AddRootWF(t: WTree, v: NodeVal)
    requires CanAddRoot(t, v)
    ensures WF(AddRoot(t, v))
  {
    EmptyCounts();
    forall m: Mark { AddRootFlag(t, v, m); }
  }

  // ---- A new head above the present one: one turn of xas_expand -------------------

  /** The mark bits of the new head: slot 0 repeats the head flag, the others are
      empty and so free. */
  ghost function ExpandBits(t: Tree, m: Mark): Bits {
    Fill(FreeBit(t, m))[0 := t.flags[m]]
  }

  ghost function Expand(t: Tree, v: NodeVal): Tree {
    var below := if t.top >= 0 && Root(t) in t.nodes
                 then t.nodes[Root(t) := t.nodes[Root(t)].(parent := v.self, offset := 0)]
                 else map[];
    t.(head := NodeEntry(v.self), flags := if t.tracked then t.flags[FREE_MARK := true] else t.flags,
       top := t.top + 1, nodes := below[v.pos := v])
  }

  ghost predicate CanExpand(t: Tree, v: NodeVal) {
    && -1 <= t.top < TOP_LEVEL && !t.head.Null?
    && v.pos == Pos(t.top + 1, 0) && v.shift == CHUNK_SHIFT * (t.top + 1) && v.life == Live
    && v.parent == null && v.slots == EmptySlots()[0 := t.head]
    && v.count == 1 && v.nrValues == (if t.head.Value? then 1 else 0)
    && forall m: Mark :: v.marks[m] == ExpandBits(t, m)
  }

  lemma ExpandNode(t: STree, v: NodeVal, l: Pos)
    requires CanExpand(t, v) && l in Expand(t, v).nodes
    ensures FieldsOk(Expand(t, v), l) && ParentOk(Expand(t, v), l) && PlaceOk(Expand(t, v), l)
  {
    if l == v.pos {
      EmptyCounts();
      CountUpdate(EmptySlots(), 0, t.head);
    } else {
      FieldsAt(t, l);
      ParentAt(t, l);
      PlaceAt(t, l);
    }
  }

  lemma ExpandSlot(t: STree, v: NodeVal, l: Pos, o: Offset)
    requires CanExpand(t, v) && l in Expand(t, v).nodes
    ensures SlotOk(Expand(t, v), l, o)
  {
    if l != v.pos {
      SlotAt(t, l, o);
      PlaceAt(t, l);
    } else if l.level > 0 && l.Down(o) in t.nodes {
      PlaceAt(t, l.Down(o));
    }
  }

  lemma ExpandMark(t: WTree, v: NodeVal, l: Pos, o: Offset, m: Mark)
    requires CanExpand(t, v) && l in Expand(t, v).nodes
    ensures MarkOk(Expand(t, v), l, o, m)
  {
    if l != v.pos {
      MarkAt(t, l, o, m);
      SlotAt(t, l, o);
      PlaceAt(t, l);
    } else {
      FlagAt(t, m);
      assert v.marks[m] == ExpandBits(t, m);
    }
  }

  lemma ExpandFlag(t: WTree, v: NodeVal, m: Mark)
    requires CanExpand(t, v)
    ensures FlagOk(Expand(t, v), m)
  {
    assert v.marks[m] == ExpandBits(t, m);
    assert v.marks[m][1] == FreeBit(t, m) && v.marks[m][0] == t.flags[m];
  }

  lemma ExpandContent(t: STree, v: NodeVal)
    requires CanExpand(t, v)
    ensures SameContent(t, Expand(t, v))
  {
    var u := Expand(t, v);
    forall i: nat ensures At(u, i) == At(t, i) {}
    forall i: nat, m: Mark ensures Marked(u, i, m) == Marked(t, i, m) {
      assert v.marks[m] == ExpandBits(t, m);
    }
  }

  lemma ExpandWF(t: WTree, v: NodeVal)
    requires CanExpand(t, v)
    ensures WF(Expand(t, v))
  {
    var u := Expand(t, v);
    forall l | l in u.nodes { ExpandNode(t, v, l); }
    forall l, o: Offset | l in u.nodes { ExpandSlot(t, v, l, o); }
    forall l, o: Offset, m: Mark | l in u.nodes { ExpandMark(t, v, l, o, m); }
    forall m: Mark { ExpandFlag(t, v, m); }
  }

  // ---- Progress -------------------------------------------------------------------

  /** Path nodes of the index still absent below the given level. */
  ghost function Absent(t: Tree, index: nat, levels: nat): nat {
    if levels == 0 then 0
    else Absent(t, index, levels - 1) + if PathPos(index, levels - 1) in t.nodes then 0 else 1
  }

  /** How many nodes may still have to be added before the index has its slot. */
  ghost function Missing(t: Tree, index: nat): int {
    TOP_LEVEL - t.top + Absent(t, index, TOP_LEVEL + 1)
  }

  lemma {:induction false} AbsentLess(t: Tree, u: Tree, index: nat, levels: nat)
    requires t.nodes.Keys <= u.nodes.Keys
    ensures Absent(u, index, levels) <= Absent(t, index, levels)
    ensures forall l: nat | l < levels && PathPos(index, l) in u.nodes && PathPos(index, l) !in t.nodes ::
              Absent(u, index, levels) < Absent(t, index, levels)
  {
    if levels > 0 { AbsentLess(t, u, index, levels - 1); }
  }

  /** Every node that was there is still there, in its place. */
  ghost predicate Keeps(t: Tree, u: Tree) {
    forall k | k in t.nodes :: k in u.nodes && u.nodes[k].self == t.nodes[k].self
  }

  /** u is t with more nodes, and says the same. */
  ghost predicate Grown(t: Tree, u: Tree) {
    Same(t, u) && Keeps(t, u)
  }

  lemma GrownJoin(t: Tree, u: Tree, w: Tree)
    requires Grown(t, u) && Grown(u, w)
    ensures Grown(t, w)
  {
    SameJoin(t, u, w);
  }

  lemma GrownSelf(t: Tree)
    ensures Grown(t, t)
  {
    SameSelf(t);
  }

  lemma ExpandStep(t: WTree, v: NodeVal, index: nat)
    requires CanExpand(t, v)
    ensures WF(Expand(t, v)) && Grown(t, Expand(t, v))
    ensures Missing(Expand(t, v), index) < Missing(t, index)
  {
    ExpandWF(t, v);
    ExpandContent(t, v);
    SameCells(t, Expand(t, v));
    forall k | k in t.nodes ensures k != v.pos { PlaceAt(t, k); }
    AbsentLess(t, Expand(t, v), index, TOP_LEVEL + 1);
  }

  lemma AddRootStep(t: WTree, v: NodeVal, index: nat)
    requires CanAddRoot(t, v)
    ensures WF(AddRoot(t, v)) && Grown(t, AddRoot(t, v))
    ensures Missing(AddRoot(t, v), index) < Missing(t, index)
  {
    AddRootWF(t, v);
    AddRootContent(t, v);
    SameCells(t, AddRoot(t, v));
    AbsentLess(t, AddRoot(t, v), index, TOP_LEVEL + 1);
  }

  lemma AddChildStep(t: WTree, k: Pos, v: NodeVal, index: nat)
    requires CanAdd(t, k, v) && k == PathPos(index, k.level)
    ensures WF(AddChild(t, k, v)) && Grown(t, AddChild(t, k, v))
    ensures Missing(AddChild(t, k, v), index) < Missing(t, index)
  {
    AddChildWF(t, k, v);
    AddChildContent(t, k, v);
    SameCells(t, AddChild(t, k, v));
    AbsentLess(t, AddChild(t, k, v), index, TOP_LEVEL + 1);
    PlaceAt(t, k.Up());
  }
}
