/** xas_store: writing one entry, with its node's counts and, for an erased entry, its marks
    and its node. */
module XArrayStore {
  import opened XaIndex
  import opened XaNode
  import opened XaTree
  import opened XaGrow
  import opened XaEdit
  import opened XaPrune
  import opened XArrayWalk
  import opened XArrayCreate
  import opened XArraySlot
  import opened XArrayMark
  import opened XArrayDelete

  /** What an index says after an entry is stored: an erased index also loses its marks. */
  ghost function Stored(c: Cell, entry: Entry, tracked: bool): Cell {
    Cell(entry, if entry.Null? then FreeMarks(tracked) else c.marks)
  }

  /** An index without an entry has the marks of an empty one. */
  lemma EmptyCell(t: WTree, index: nat)
    requires At(t, index).Null?
    ensures CellAt(t, index) == Cell(Null, FreeMarks(t.tracked))
  {
    forall m: Mark ensures Marked(t, index, m) == FreeBit(t, m) {
      FlagAt(t, m);
      if t.top >= 0 && PathPos(index, 0) in t.nodes { MarkAt(t, PathPos(index, 0), Digit(index, 0), m); }
    }
  }

  /** The tree once the slot is written, before its node's counts are put right. */
  ghost function Written(t: Tree, index: nat, e: Entry): Tree
    requires HasSlot(t, index)
  {
    if t.top < 0 then t.(head := e)
    else
      var v := t.nodes[PathPos(index, 0)];
      t.(nodes := t.nodes[PathPos(index, 0) := v.(slots := v.slots[Digit(index, 0) := e])])
  }

  /** rcu_assign_pointer of the slot the cursor stands at. */
  method WriteSlot(xa: XArray, xas: XaState, entry: Entry, ghost t: WTree)
    requires xa.Snap() == t && AtSlot(t, xas)
    modifies xa`head, if xas.node.AtNode? then {xas.node.node} else {}
    ensures xa.Snap() == Written(t, xas.index, entry)
  {
    ReadBack(xa, t);
    Places(t);
    if xas.node.AtNode? {
      var node := xas.node.node;
      node.slots := node.slots[xas.offset := entry];
    } else {
      xa.head := entry;
    }
    SnapIs(xa, Written(t, xas.index, entry));
  }

  /** Changing the counts of one node. */
  method RaiseCounts(xa: XArray, node: Node, count: int, values: int, ghost w: Tree, ghost k: Pos)
    requires xa.Snap() == w && k in w.nodes && node == w.nodes[k].self && forall l | l in w.nodes :: w.nodes[l].pos == l
    requires w.nodes[k].count + count >= 0 && w.nodes[k].nrValues + values >= 0
    modifies node`count, node`nrValues
    ensures var v := w.nodes[k];
      xa.Snap() == w.(nodes := w.nodes[k := v.(count := v.count + count, nrValues := v.nrValues + values)])
  {
    ReadBack(xa, w);
    ghost var v := w.nodes[k].(count := w.nodes[k].count + count, nrValues := w.nodes[k].nrValues + values);
    assert forall l | l in w.nodes && l != k :: xa.nodes[l] != node;
    node.count := node.count + count;
    node.nrValues := node.nrValues + values;
    assert node.Val() == v;
    SnapIs(xa, w.(nodes := w.nodes[k := v]));
  }

  /** The counts of update_node. */
  method AdjustCounts(xa: XArray, node: Node, count: int, values: int, ghost t: WTree, ghost index: nat, ghost entry: Entry)
    requires t.top >= 0 && HasSlot(t, index) && xa.Snap() == Written(t, index, entry)
    requires node == t.nodes[PathPos(index, 0)].self
    requires count == Weight(entry) - Weight(At(t, index)) && values == ValueWeight(entry) - ValueWeight(At(t, index))
    modifies node`count, node`nrValues
    ensures xa.Snap() == PutEntry(t, index, entry)
  {
    hide Structure, WF;
    WrittenNode(t, index, entry);
    Places(t);
    RaiseCounts(xa, node, count, values, Written(t, index, entry), PathPos(index, 0));
  }

  /** How the written node's counts differ from what they have to be. */
  lemma WrittenNode(t: STree, index: nat, entry: Entry)
    requires t.top >= 0 && PathPos(index, 0) in t.nodes
    ensures var w, u := Written(t, index, entry).nodes[PathPos(index, 0)], PutEntry(t, index, entry).nodes[PathPos(index, 0)];
      u == w.(count := u.count, nrValues := u.nrValues)
      && u.count == w.count + Weight(entry) - Weight(At(t, index))
      && u.nrValues == w.nrValues + ValueWeight(entry) - ValueWeight(At(t, index))
  {
    PutCounts(t, index, entry);
  }

  lemma PutEdited(t: WTree, index: nat, e: Entry)
    requires CanPut(t, index, e)
    ensures WF(PutEntry(t, index, e)) && Edited(t, PutEntry(t, index, e), index, CellAt(t, index).(entry := e))
    ensures PutEntry(t, index, e).nodes.Keys == t.nodes.Keys
    ensures t.top < 0 ==> Written(t, index, e) == PutEntry(t, index, e)
  {
    PutWF(t, index, e);
    PutContent(t, index, e);
    var u := PutEntry(t, index, e);
    forall i: nat | i != index { SameCell(t, u, i); }
    forall m: Mark ensures CellAt(u, index).marks[m] == CellAt(t, index).marks[m] {
      CellMarks(t, index, m);
      CellMarks(u, index, m);
    }
  }

  lemma PutStays(t: WTree, xas: XaState, e: Entry)
    requires AtSlot(t, xas)
    ensures AtSlot(PutEntry(t, xas.index, e), xas)
    ensures Missing(PutEntry(t, xas.index, e), xas.index) == Missing(t, xas.index)
  {
    AbsentLess(t, PutEntry(t, xas.index, e), xas.index, TOP_LEVEL + 1);
    AbsentLess(PutEntry(t, xas.index, e), t, xas.index, TOP_LEVEL + 1);
  }

  /** The write of xas_store and its effect on the node's counts. */
  method PutAtCursor(xa: XArray, xas: XaState, first: Entry, entry: Entry, ghost t: WTree) returns (count: int, ghost u: WTree)
    requires xa.Snap() == t && AtSlot(t, xas) && first == At(t, xas.index) && CanPut(t, xas.index, entry)
    modifies xa`head, if xas.node.AtNode? then {xas.node.node} else {}
    ensures xa.Snap() == u == PutEntry(t, xas.index, entry)
    ensures xas.node.AtNode? ==> count == Weight(entry) - Weight(first)
    ensures xas.node == NoNode ==> count == 0
  {
    PutEdited(t, xas.index, entry);
    u := PutEntry(t, xas.index, entry);
    WriteSlot(xa, xas, entry, t);
    if !xas.node.AtNode? {
      return 0, u;
    }
    count := (if first.Null? then 1 else 0) - (if entry.Null? then 1 else 0);
    var values := (if first.Value? then 0 else 1) - (if entry.Value? then 0 else 1);
    if count != 0 || values != 0 {
      AdjustCounts(xa, xas.node.node, count, values, t, xas.index, entry);
    } else {
      PutCounts(t, xas.index, entry);
    }
  }

  /** The marks go first, then the entry. */
  method ClearAtCursor(xa: XArray, xas: XaState, first: Entry, ghost t: WTree) returns (count: int, ghost u: WTree)
    requires xa.Snap() == t && AtSlot(t, xas) && first == At(t, xas.index) && !first.Null?
    modifies xa`head, xa`marks, xa.nodes.Values
    ensures xa.Snap() == u && Edited(t, u, xas.index, Stored(CellAt(t, xas.index), Null, t.tracked))
    ensures if xas.node.AtNode? then count < 0 && AtGap(u, xas, 0) else count == 0 && u.top < 0
    ensures SlotLeft(t, u, xas.index)
  {
    ghost var w := XasInitMarks(xa, xas, t);
    CanErase(t, w, xas.index);
    ReadBack(xa, w);
    PutEdited(w, xas.index, Null);
    if xas.node.AtNode? { ErasedGap(w, xas); }
    count, u := PutAtCursor(xa, xas, first, Null, w);
    PutLeaves(t, w, xas.index);
  }

  /** Only the leaf of an index may have become empty, and a head above it is needless only if
      it was before. */
  ghost predicate SlotLeft(t: Tree, u: Tree, index: nat) {
    && u.top == t.top && (Lean(t) ==> LeanBut(u, PathPos(index, 0)))
    && (t.top > 0 && !CanShrink(t) ==> !CanShrink(u))
  }

  lemma PutLeaves(t: Tree, w: STree, index: nat)
    requires SameShape(t, w) && HasSlot(w, index)
    ensures SlotLeft(t, PutEntry(w, index, Null), index)
  {
  }

  /** Once the empty nodes above a slot have gone, none is left. */
  lemma PrunedAfter(t: Tree, w: STree, u: Tree, index: nat)
    requires SlotLeft(t, w, index) && (LeanBut(w, PathPos(index, 0)) ==> Lean(u))
    requires !CanShrink(u) || (0 < w.top && HeadKept(w, u))
    ensures Pruned(t, u)
  {
    hide Lean, LeanBut;
  }

  lemma NothingPruned(t: Tree, u: STree)
    requires u.top < 0
    ensures Pruned(t, u)
  {
  }

  /** The part of xas_store that erases the entry at the cursor. */
  method EraseAtCursor(xa: XArray, xas: XaState, first: Entry, ghost t: WTree, ghost before: set<Node>)
    returns (out: XaState, ghost u: WTree)
    requires xa.Snap() == t && AtSlot(t, xas) && first == At(t, xas.index) && !first.Null? && Accounted(xa, before)
    modifies xa`head, xa`marks, xa`top, xa`nodes, xa.nodes.Values
    ensures xa.Snap() == u && Edited(t, u, xas.index, Stored(CellAt(t, xas.index), Null, t.tracked)) && Accounted(xa, before)
    ensures out.index == xas.index && out.alloc == xas.alloc && !out.node.Error?
    ensures xa.nodes.Values <= old(xa.nodes.Values) && Pruned(t, u)
  {
    hide SlotLeft, LeanBut, Lean, CanShrink, HeadKept, Pruned;
    out := xas;
    var count;
    count, u := ClearAtCursor(xa, xas, first, t);
    if count < 0 {
      ghost var w := u;
      out, u := XasDeleteNode(xa, xas, u, 0, before);
      PrunedAfter(t, w, u, xas.index);
    } else {
      NothingPruned(t, u);
    }
  }

  lemma CanErase(t: WTree, w: WTree, index: nat)
    requires HasSlot(w, index) && Edited(t, w, index, CellAt(t, index).(marks := FreeMarks(w.tracked)))
    ensures CanPut(w, index, Null) && At(w, index) == At(t, index)
  {
    assert CellAt(w, index) == CellAt(t, index).(marks := FreeMarks(w.tracked));
    forall m: Mark ensures Marked(w, index, m) == FreeBit(w, m) { CellMarks(w, index, m); }
  }

  lemma ErasedGap(t: STree, xas: XaState)
    requires xas.node.AtNode? && AtSlot(t, xas)
    ensures AtGap(PutEntry(t, xas.index, Null), xas, 0)
  {
  }

  /** The part of xas_store that writes an entry at the cursor. */
  method StoreAtCursor(xa: XArray, xas: XaState, first: Entry, entry: Entry, ghost t: WTree) returns (ghost u: WTree)
    requires xa.Snap() == t && AtSlot(t, xas) && first == At(t, xas.index) && !entry.Null? && entry.Storable()
    modifies xa`head, xa.nodes.Values
    ensures xa.Snap() == u && Edited(t, u, xas.index, Stored(CellAt(t, xas.index), entry, t.tracked))
    ensures AtSlot(u, xas) && Missing(u, xas.index) == Missing(t, xas.index)
  {
    ReadBack(xa, t);
    PutEdited(t, xas.index, entry);
    PutStays(t, xas, entry);
    var count;
    count, u := PutAtCursor(xa, xas, first, entry, t);
  }

  /** A cursor whose walk ended at an entry stands at its slot. */
  lemma SettledAtEntry(t: STree, xas: XaState, level: int)
    requires Settled(t, xas, level) && !At(t, xas.index).Null?
    ensures AtSlot(t, xas)
  {
    if level > 0 { EmptyBelow(t, xas.index, level); }
  }

  /** Storing what is already there changes nothing. */
  lemma StoreAgain(t: WTree, u: WTree, index: nat, entry: Entry)
    requires Same(t, u) && At(t, index) == entry
    ensures Edited(t, u, index, Stored(CellAt(t, index), entry, t.tracked))
  {
    if entry.Null? { EmptyCell(t, index); }
  }

  /** The first half of xas_store: finding or making the slot. */
  method FindSlot(xa: XArray, xas: XaState, entry: Entry, ghost t: WTree, ghost from: int)
    returns (first: Entry, out: XaState, ghost u: WTree)
    requires xa.Snap() == t && SpareOk(xa.nodes, xas.alloc) && xas.index <= ULONG_MAX
    requires !xas.node.Invalid() ==> Settled(t, xas, from)
    modifies xa`head, xa`marks, xa`top, xa`nodes, xa.nodes.Values, xas.alloc
    ensures xa.Snap() == u && Same(t, u) && SpareOk(xa.nodes, out.alloc)
    ensures out.index == xas.index && (out.alloc == null || out.alloc == xas.alloc)
    ensures xas.node.Error? ==> u == t && out == xas && first == Null
    ensures out.node.Error? ==> first == Null && (xas.node.Error? || (!entry.Null? && out.node == Error(ENOMEM) && out.alloc == null))
    ensures out.node.Error? && !xas.node.Error? ==> NeedsNode(t, xas.index, !entry.Zero?)
    ensures u != t ==> NeedsNode(t, xas.index, !entry.Zero?)
    ensures !out.node.Error? ==> first == At(t, xas.index) == At(u, xas.index)
    ensures !out.node.Error? && (!first.Null? || !entry.Null?) ==> AtSlot(u, out)
    ensures entry.Null? ==> u == t && xa.nodes == old(xa.nodes) && forall n | n in xa.nodes.Values :: n.life == old(n.life)
    ensures Missing(u, xas.index) <= Missing(t, xas.index) - Consumed(xas.alloc, out.alloc)
    ensures fresh(xa.nodes.Values - old(xa.nodes.Values) - {xas.alloc})
  {
    if !entry.Null? {
      first, out, u := XasCreate(xa, xas, !entry.Zero?, t, from);
      assert CellAt(u, xas.index) == CellAt(t, xas.index);
      return;
    }
    ghost var level;
    first, out, level := XasLoad(xa, xas, t, from);
    u := t;
    if !out.node.Error? && !first.Null? {
      if out.node.Bounds? { OutOfRange(t, xas.index); }
      SettledAtEntry(t, out, level);
    }
  }

  /** The second half of xas_store: writing to the slot. */
  method StoreFound(xa: XArray, xas: XaState, first: Entry, entry: Entry, ghost t: WTree, ghost w: WTree)
    returns (out: XaState, ghost u: WTree)
    requires xa.Snap() == w && Same(t, w) && t.tracked == w.tracked && !xas.node.Error? && first == At(w, xas.index) && entry.Storable()
    requires !first.Null? || !entry.Null? ==> AtSlot(w, xas)
    modifies xa`head, xa`marks, xa`top, xa`nodes, xa.nodes.Values
    ensures xa.Snap() == u && out.alloc == xas.alloc && out.index == xas.index && !out.node.Error?
    ensures Edited(t, u, xas.index, Stored(CellAt(t, xas.index), entry, t.tracked))
    ensures !entry.Null? ==> out == xas && AtSlot(u, out) && Missing(u, xas.index) == Missing(w, xas.index)
    ensures entry.Null? ==> Accounted(xa, old(xa.nodes.Values)) && Pruned(w, u)
    ensures xa.nodes.Values <= old(xa.nodes.Values)
  {
    assert CellAt(w, xas.index) == CellAt(t, xas.index);
    if xas.node.Invalid() || first == entry {
      StoreAgain(t, w, xas.index, entry);
      return xas, w;
    }
    if entry.Null? {
      out, u := EraseAtCursor(xa, xas, first, w, xa.nodes.Values);
    } else {
      out := xas;
      u := StoreAtCursor(xa, xas, first, entry, w);
    }
  }

  /** xas_store: either the entry is stored for the index, and nothing else changes; or
      memory ran out for a node that had to be made, and nothing changes. */
  method XasStore(xa: XArray, xas: XaState, entry: Entry, ghost t: WTree, ghost from: int)
    returns (first: Entry, out: XaState, ghost u: WTree)
    requires xa.Snap() == t && SpareOk(xa.nodes, xas.alloc) && xas.index <= ULONG_MAX && entry.Storable()
    requires !xas.node.Invalid() ==> Settled(t, xas, from)
    modifies xa`head, xa`marks, xa`top, xa`nodes, xa.nodes.Values, xas.alloc
    ensures xa.Snap() == u && (out.alloc == null || out.alloc == xas.alloc) && out.index == xas.index
    ensures xas.node.Error? ==> u == t && out == xas && first == Null
    ensures SpareOk(xa.nodes, out.alloc) && (out.node.Error? ==> Same(t, u) && first == Null)
    ensures out.node.Error? && !xas.node.Error? ==> NeedsNode(t, xas.index, !entry.Zero?)
    ensures !xas.node.Error? && out.node.Error? ==> !entry.Null? && out.node == Error(ENOMEM) && out.alloc == null
    ensures !out.node.Error? ==> first == At(t, xas.index) && Edited(t, u, xas.index, Stored(CellAt(t, xas.index), entry, t.tracked))
    ensures !out.node.Error? && !entry.Null? ==> AtSlot(u, out)
    ensures !entry.Null? ==> Missing(u, xas.index) <= Missing(t, xas.index) - Consumed(xas.alloc, out.alloc)
    ensures entry.Null? ==> xa.nodes.Values <= old(xa.nodes.Values) && Accounted(xa, old(xa.nodes.Values)) && Pruned(t, u)
    ensures fresh(xa.nodes.Values - old(xa.nodes.Values) - {xas.alloc})
  {
    first, out, u := FindSlot(xa, xas, entry, t, from);
    if out.node.Error? {
      return;
    }
    out, u := StoreFound(xa, out, first, entry, t, u);
  }
}
