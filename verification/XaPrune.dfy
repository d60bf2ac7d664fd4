/** The changes that remove a node: an empty node below the head, an empty head, and a
    head that only holds slot 0.  None changes the content. */
module XaPrune {
  import opened XaIndex
  import opened XaNode
  import opened XaTree

  ghost predicate AllEmpty(v: NodeVal) {
    forall o: Offset :: v.slots[o].Null?
  }

  lemma CountZero(v: NodeVal)
    requires Used(v.slots) == 0
    ensures AllEmpty(v) && Values(v.slots) == 0
  {
    CountBounds(v.slots);
  }

  /** An empty node's marks are those of its empty slots. */
  lemma EmptySummary(t: WTree, k: Pos, m: Mark)
    requires k in t.nodes && AllEmpty(t.nodes[k])
    ensures AnyMark(t.nodes[k].marks[m]) == FreeBit(t, m)
  {
    forall o: Offset ensures t.nodes[k].marks[m][o] == FreeBit(t, m) {
      MarkAt(t, k, o, m);
    }
    assert t.nodes[k].marks[m][0] == FreeBit(t, m);
  }

  // ---- An empty node below the head: one turn of xas_delete_node ------------------

  ghost function RemoveChild(t: Tree, k: Pos): Tree
    requires k.Up() in t.nodes && t.nodes[k.Up()].count > 0
  {
    var up := t.nodes[k.Up()];
    t.(nodes := t.nodes[k.Up() := up.(count := up.count - 1, slots := up.slots[k.Slot() := Null])] - {k})
  }

  ghost predicate CanRemove(t: Tree, k: Pos) {
    && k in t.nodes && k.level < t.top && AllEmpty(t.nodes[k])
    && k.Up() in t.nodes && t.nodes[k.Up()].count > 0
  }

  lemma RemoveChildFields(t: STree, k: Pos, l: Pos)
    requires CanRemove(t, k) && l in RemoveChild(t, k).nodes
    ensures FieldsOk(RemoveChild(t, k), l) && PlaceOk(RemoveChild(t, k), l)
  {
    FieldsAt(t, l);
    PlaceAt(t, l);
    if l == k.Up() {
      PlaceInverse(k);
      SlotAt(t, l, k.Slot());
      CountUpdate(t.nodes[l].slots, k.Slot(), Null);
    }
  }

  lemma RemoveChildParent(t: STree, k: Pos, l: Pos)
    requires CanRemove(t, k) && l in RemoveChild(t, k).nodes
    ensures ParentOk(RemoveChild(t, k), l)
  {
    ParentAt(t, l);
    PlaceInverse(l);
    if l.level < t.top && l.Up() == k {
      SlotAt(t, k, l.Slot());
    }
  }

  lemma RemoveChildSlot(t: STree, k: Pos, l: Pos, o: Offset)
    requires CanRemove(t, k) && l in RemoveChild(t, k).nodes
    ensures SlotOk(RemoveChild(t, k), l, o)
  {
    SlotAt(t, l, o);
    PlaceInverse(k);
    if l.level > 0 {
      ChildPlace(l, o);
      assert l.Down(o) == k <==> l == k.Up() && o == k.Slot();
    }
  }

  lemma RemoveChildMark(t: WTree, k: Pos, l: Pos, o: Offset, m: Mark)
    requires CanRemove(t, k) && l in RemoveChild(t, k).nodes
    ensures MarkOk(RemoveChild(t, k), l, o, m)
  {
    MarkAt(t, l, o, m);
    SlotAt(t, l, o);
    PlaceInverse(k);
    EmptySummary(t, k, m);
    if l.level > 0 {
      ChildPlace(l, o);
      assert l.Down(o) == k <==> l == k.Up() && o == k.Slot();
    }
  }

  lemma RemoveChildFlag(t: WTree, k: Pos, m: Mark)
    requires CanRemove(t, k)
    ensures FlagOk(RemoveChild(t, k), m) && HeadOk(RemoveChild(t, k))
  {
    FlagAt(t, m);
  }

  lemma RemoveChildContent(t: WTree, k: Pos)
    requires CanRemove(t, k)
    ensures SameContent(t, RemoveChild(t, k))
  {
    var u := RemoveChild(t, k);
    forall i: nat ensures At(u, i) == At(t, i) {
      assert PathPos(i, 0) != k.Up();
    }
    forall i: nat, m: Mark ensures Marked(u, i, m) == Marked(t, i, m) {
      assert PathPos(i, 0) != k.Up();
      if PathPos(i, 0) == k { MarkAt(t, k, Digit(i, 0), m); }
    }
  }

  lemma RemoveChildWF(t: WTree, k: Pos)
    requires CanRemove(t, k)
    ensures WF(RemoveChild(t, k))
  {
    var u := RemoveChild(t, k);
    forall l | l in u.nodes { RemoveChildFields(t, k, l); }
    forall l | l in u.nodes { RemoveChildParent(t, k, l); }
    forall l, o: Offset | l in u.nodes { RemoveChildSlot(t, k, l, o); }
    forall l, o: Offset, m: Mark | l in u.nodes { RemoveChildMark(t, k, l, o, m); }
    forall m: Mark { RemoveChildFlag(t, k, m); }
  }

  // ---- An empty head --------------------------------------------------------------

  /** Every node other than the head hangs below one of the head's slots. */
  lemma {:induction false} UnderHead(t: STree, k: Pos) returns (o: Offset)
    requires k in t.nodes && k.level < t.top
    ensures Root(t) in t.nodes && !t.nodes[Root(t)].slots[o].Null?
    ensures k.level == t.top - 1 ==> o == k.prefix
    decreases t.top - k.level
  {
    ParentAt(t, k);
    PlaceAt(t, k.Up());
    PlaceInverse(k);
    if k.level == t.top - 1 {
      o := k.Slot();
      SlotAt(t, k.Up(), o);
    } else {
      o := UnderHead(t, k.Up());
    }
  }

  ghost function RemoveRoot(t: Tree): Tree {
    t.(head := Null, top := -1, nodes := map[])
  }

  lemma OnlyHead(t: STree, k: Pos)
    requires t.top >= 0 && AllEmpty(t.nodes[Root(t)]) && k in t.nodes
    ensures k == Root(t)
  {
    PlaceAt(t, k);
    if k.level < t.top { var o := UnderHead(t, k); }
  }

  lemma RemoveRootContent(t: WTree)
    requires t.top >= 0 && AllEmpty(t.nodes[Root(t)])
    ensures SameContent(t, RemoveRoot(t))
  {
    var u := RemoveRoot(t);
    forall i: nat ensures At(u, i) == At(t, i) {
      if PathPos(i, 0) in t.nodes { OnlyHead(t, PathPos(i, 0)); }
    }
    forall i: nat, m: Mark ensures Marked(u, i, m) == Marked(t, i, m) {
      if PathPos(i, 0) in t.nodes {
        OnlyHead(t, PathPos(i, 0));
        MarkAt(t, Root(t), Digit(i, 0), m);
      }
      EmptySummary(t, Root(t), m);
      FlagAt(t, m);
    }
  }

  lemma RemoveRootWF(t: WTree)
    requires t.top >= 0 && AllEmpty(t.nodes[Root(t)])
    ensures WF(RemoveRoot(t))
  {
    forall m: Mark ensures FlagOk(RemoveRoot(t), m) {
      EmptySummary(t, Root(t), m);
      FlagAt(t, m);
    }
  }

  // ---- A head with only slot 0 in use: one turn of xas_shrink ---------------------

  ghost predicate CanShrink(t: Tree) {
    && t.top >= 0 && Root(t) in t.nodes
    && t.nodes[Root(t)].count == 1 && !t.nodes[Root(t)].slots[0].Null?
  }

  // ---- Trees without needless nodes ---------------------------------------------------

  /** No node is empty, but for one perhaps. */
  ghost predicate LeanBut(t: Tree, k: Pos) {
    forall l {:trigger t.nodes[l]} | l in t.nodes && l != k :: t.nodes[l].count > 0
  }

  /** No node is empty. */
  ghost predicate Lean(t: Tree) {
    forall l {:trigger t.nodes[l]} | l in t.nodes :: t.nodes[l].count > 0
  }

  /** Taking nodes away has left none that is needless: no empty one, and no head that could
      be replaced by its only entry, unless there was such a one before. */
  ghost predicate Pruned(t: Tree, u: Tree) {
    (Lean(t) ==> Lean(u)) && (!CanShrink(t) ==> !CanShrink(u))
  }

  /** The head node is as it was. */
  ghost predicate HeadKept(t: Tree, u: Tree) {
    t.top >= 0 && u.top == t.top && Root(t) in t.nodes && Root(t) in u.nodes && u.nodes[Root(t)] == t.nodes[Root(t)]
  }

  lemma RemoveChildLean(t: Tree, k: Pos)
    requires CanRemove(t, k) && LeanBut(t, k)
    ensures LeanBut(RemoveChild(t, k), k.Up())
  {
  }

  lemma ShrinkLean(t: Tree)
    requires CanShrink(t) && Lean(t)
    ensures Lean(Shrink(t))
  {
  }

  lemma BusyIsLean(t: Tree, k: Pos)
    requires LeanBut(t, k) && (k in t.nodes ==> t.nodes[k].count > 0)
    ensures Lean(t)
  {
  }

  /** In a tracked array the head's free mark becomes that of slot 0. */
  ghost function ShrinkFlags(t: Tree): Flags
    requires CanShrink(t)
  {
    if t.tracked && !t.nodes[Root(t)].marks[FREE_MARK][0] then t.flags[FREE_MARK := false] else t.flags
  }

  ghost function Promote(nodes: map<Pos, NodeVal>, c: Pos): map<Pos, NodeVal> {
    if c in nodes then nodes[c := nodes[c].(parent := null)] else nodes
  }

  ghost function Shrink(t: Tree): Tree
    requires CanShrink(t)
  {
    Tree(t.nodes[Root(t)].slots[0], ShrinkFlags(t), t.tracked, t.top - 1,
         if t.top == 0 then map[] else Promote(t.nodes - {Root(t)}, Pos(t.top - 1, 0)))
  }

  lemma ShrinkAlone(t: STree, o: Offset)
    requires CanShrink(t) && o > 0
    ensures t.nodes[Root(t)].slots[o].Null?
  {
    FieldsAt(t, Root(t));
    CountOne(t.nodes[Root(t)].slots, 0);
  }

  /** After shrinking, the head flags are the mark bits slot 0 had. */
  lemma ShrinkFlag(t: WTree, m: Mark)
    requires CanShrink(t)
    ensures ShrinkFlags(t)[m] == t.nodes[Root(t)].marks[m][0]
  {
    var bits := t.nodes[Root(t)].marks[m];
    FlagAt(t, m);
    MarkAt(t, Root(t), 1, m);
    ShrinkAlone(t, 1);
    forall o: Offset | o > 0 ensures bits[o] == FreeBit(t, m) {
      ShrinkAlone(t, o);
      MarkAt(t, Root(t), o, m);
    }
    assert bits[1] == FreeBit(t, m);
  }

  lemma ShrinkNode(t: STree, l: Pos)
    requires CanShrink(t) && t.top > 0 && l in Shrink(t).nodes
    ensures FieldsOk(Shrink(t), l) && PlaceOk(Shrink(t), l)
  {
    FieldsAt(t, l);
    PlaceAt(t, l);
    if l.level == t.top - 1 {
      var o := UnderHead(t, l);
      if o > 0 { ShrinkAlone(t, o); }
    }
  }

  lemma ShrinkParent(t: STree, l: Pos)
    requires CanShrink(t) && t.top > 0 && l in Shrink(t).nodes
    ensures ParentOk(Shrink(t), l)
  {
    ShrinkNode(t, l);
    ParentAt(t, l);
  }

  lemma ShrinkSlot(t: STree, l: Pos, o: Offset)
    requires CanShrink(t) && t.top > 0 && l in Shrink(t).nodes
    ensures SlotOk(Shrink(t), l, o)
  {
    SlotAt(t, l, o);
    PlaceAt(t, l);
  }

  lemma ShrinkMark(t: WTree, l: Pos, o: Offset, m: Mark)
    requires CanShrink(t) && t.top > 0 && l in Shrink(t).nodes
    ensures MarkOk(Shrink(t), l, o, m)
  {
    MarkAt(t, l, o, m);
    SlotAt(t, l, o);
    PlaceAt(t, l);
  }

  lemma ShrinkHead(t: STree)
    requires CanShrink(t)
    ensures HeadOk(Shrink(t))
  {
    SlotAt(t, Root(t), 0);
  }

  lemma ShrinkSummary(t: WTree, m: Mark)
    requires CanShrink(t)
    ensures FlagOk(Shrink(t), m)
  {
    ShrinkFlag(t, m);
    SlotAt(t, Root(t), 0);
    MarkAt(t, Root(t), 0, m);
  }

  lemma ShrinkAt(t: STree, i: nat)
    requires CanShrink(t)
    ensures At(Shrink(t), i) == At(t, i)
  {
    if t.top == 0 {
      if 0 < i < CHUNK_SIZE { ShrinkAlone(t, i); }
      if PathPos(i, 0) in t.nodes { PlaceAt(t, PathPos(i, 0)); }
    }
  }

  lemma ShrinkMarked(t: WTree, i: nat, m: Mark)
    requires CanShrink(t)
    ensures Marked(Shrink(t), i, m) == Marked(t, i, m)
  {
    if t.top == 0 {
      ShrinkFlag(t, m);
      if 0 < i < CHUNK_SIZE { ShrinkAlone(t, i); MarkAt(t, Root(t), i, m); }
      if PathPos(i, 0) in t.nodes { PlaceAt(t, PathPos(i, 0)); }
    }
  }

  lemma ShrinkContent(t: WTree)
    requires CanShrink(t)
    ensures SameContent(t, Shrink(t))
  {
    forall i: nat { ShrinkAt(t, i); }
    forall i: nat, m: Mark { ShrinkMarked(t, i, m); }
  }

  lemma ShrinkWF(t: WTree)
    requires CanShrink(t)
    ensures WF(Shrink(t))
  {
    var u := Shrink(t);
    ShrinkHead(t);
    forall m: Mark { ShrinkSummary(t, m); }
    if t.top > 0 {
      forall l | l in u.nodes { ShrinkNode(t, l); }
      forall l | l in u.nodes { ShrinkParent(t, l); }
      forall l, o: Offset | l in u.nodes { ShrinkSlot(t, l, o); }
      forall l, o: Offset, m: Mark | l in u.nodes { ShrinkMark(t, l, o, m); }
    }
  }

  // ---- The steps with all they keep -----------------------------------------------

  lemma RemoveChildStep(t: WTree, k: Pos)
    requires CanRemove(t, k)
    ensures WF(RemoveChild(t, k)) && Same(t, RemoveChild(t, k)) && |RemoveChild(t, k).nodes| < |t.nodes|
  {
    RemoveChildWF(t, k);
    RemoveChildContent(t, k);
    SameCells(t, RemoveChild(t, k));
    var nodes := t.nodes[k.Up() := RemoveChild(t, k).nodes[k.Up()]];
    assert nodes.Keys == t.nodes.Keys && (nodes - {k}).Keys == t.nodes.Keys - {k};
    assert |nodes| == |nodes.Keys| && |t.nodes| == |t.nodes.Keys|;
  }

  lemma RemoveRootStep(t: WTree)
    requires t.top >= 0 && AllEmpty(t.nodes[Root(t)])
    ensures WF(RemoveRoot(t)) && Same(t, RemoveRoot(t))
  {
    RemoveRootWF(t);
    RemoveRootContent(t);
    SameCells(t, RemoveRoot(t));
  }

  lemma ShrinkStep(t: WTree)
    requires CanShrink(t)
    ensures WF(Shrink(t)) && Same(t, Shrink(t))
  {
    ShrinkWF(t);
    ShrinkContent(t);
    SameCells(t, Shrink(t));
  }
}
