/** xas_set_mark, xas_clear_mark and xas_init_marks. */
module XArrayMark {
  import opened XaIndex
  import opened XaNode
  import opened XaTree
  import opened XaEdit
  import opened XArrayWalk

  /** node_set_mark and node_clear_mark */
  method PutNodeMark(xa: XArray, node: Node, offset: Offset, mark: Mark, b: bool, ghost t: STree, ghost k: Pos)
    returns (was: bool)
    requires xa.Snap() == t && k in t.nodes && node == t.nodes[k].self
    modifies node`marks
    ensures was == t.nodes[k].marks[mark][offset] && xa.Snap() == PutBit(t, k, offset, mark, b)
    ensures node.marks == PutBit(t, k, offset, mark, b).nodes[k].marks
  {
    hide Structure;
    ReadBack(xa, t);
    Places(t);
    was := node.marks[mark][offset];
    node.marks := node.marks[mark := node.marks[mark][offset := b]];
    SnapIs(xa, PutBit(t, k, offset, mark, b));
  }

  /** node and offset stand for the spot of a climb. */
  ghost predicate ClimbAt(t: Tree, u: Tree, index: nat, node: Node?, offset: nat, k: Pos, mark: Mark, b: bool) {
    if node == null then Climbing(t, u, index, FlagHole, mark, b)
    else
      && offset < CHUNK_SIZE && k in u.nodes && u.nodes[k].self == node
      && Climbing(t, u, index, SlotHole(k, offset), mark, b)
  }

  lemma StartClimb(t: WTree, xas: XaState, mark: Mark, b: bool) returns (k: Pos)
    requires AtSlot(t, xas) && (At(t, xas.index).Null? ==> b == FreeBit(t, mark))
    ensures xas.node.AtNode? ==> k.level <= t.top
    ensures ClimbAt(t, t, xas.index, if xas.node.AtNode? then xas.node.node else null, xas.offset, k, mark, b)
  {
    k := PathPos(xas.index, 0);
    ClimbStart(t, xas.index, mark, b);
  }

  /** The parent's slot for this node is where the climb goes on. */
  lemma NextClimb(xa: XArray, t: Tree, u: STree, index: nat, node: Node, offset: Offset, k: Pos, mark: Mark, b: bool)
    returns (up: Pos)
    requires ClimbAt(t, u, index, node, offset, k, mark, b) && xa.Snap() == PutBit(u, k, offset, mark, b)
    requires AnyMark(PutBit(u, k, offset, mark, b).nodes[k].marks[mark]) == b
    ensures Structure(PutBit(u, k, offset, mark, b))
    ensures ClimbAt(t, PutBit(u, k, offset, mark, b), index, node.parent, node.offset, up, mark, b)
    ensures node.parent != null ==> up == k.Up() && k.level < u.top
  {
    ClimbUp(t, u, index, k, offset, mark, b);
    var w := PutBit(u, k, offset, mark, b);
    ReadBack(xa, w);
    ParentAt(w, k);
    PlaceAt(w, k);
    up := k.Up();
  }

  lemma SetBitShows(w: STree, k: Pos, offset: Offset, mark: Mark)
    requires k in w.nodes
    ensures k in PutBit(w, k, offset, mark, true).nodes && AnyMark(PutBit(w, k, offset, mark, true).nodes[k].marks[mark])
  {
    assert PutBit(w, k, offset, mark, true).nodes[k].marks[mark][offset];
  }

  /** xas_set_mark marks the index the cursor is at, and every summary above it.  The
      climb may stop at the first bit that is already set. */
  method XasSetMark(xa: XArray, xas: XaState, mark: Mark, ghost t: WTree) returns (ghost u: WTree)
    requires xa.Snap() == t
    requires xas.node.Invalid() || AtSlot(t, xas)
    requires !xas.node.Invalid() ==> !At(t, xas.index).Null? || FreeBit(t, mark)
    modifies xa`marks, xa.nodes.Values
    ensures xa.Snap() == u && if xas.node.Invalid() then u == t else Edited(t, u, xas.index, WithMark(CellAt(t, xas.index), mark, true))
    ensures SameShape(t, u)
  {
    hide Climbing, Structure, FlagOk;
    hide CellAt, Edited, SameShape;
    ShapeSelf(t);
    if xas.node.Invalid() {
      return t;
    }
    ghost var w: STree := t;
    ghost var k := StartClimb(t, xas, mark, true);
    var node := if xas.node.AtNode? then xas.node.node else null;
    var offset := xas.offset;
    while node != null
      invariant xa.Snap() == w && SameShape(t, w) && ClimbAt(t, w, xas.index, node, offset, k, mark, true)
      invariant xa.nodes == old(xa.nodes) && w.top == t.top && (node != null ==> k.level <= t.top)
      decreases if node == null then -1 else t.top - k.level
    {
      SetBitShows(w, k, offset, mark);
      var was := PutNodeMark(xa, node, offset, mark, true, w, k);
      ShapeBit(t, w, k, offset, mark, true);
      if was {
        EndClimb(t, w, xas.index, k, offset, mark, true);
        return w;
      }
      ghost var up := NextClimb(xa, t, w, xas.index, node, offset, k, mark, true);
      w := PutBit(w, k, offset, mark, true);
      offset, node, k := node.offset, node.parent, up;
    }
    u := PutHeadMark(xa, mark, true, t, w, xas.index, offset, k);
  }

  /** xas_clear_mark clears the mark of the index the cursor is at, and every summary that
      no other index keeps.  The climb stops at a bit that was clear, or at a node that
      still has the mark. */
  method XasClearMark(xa: XArray, xas: XaState, mark: Mark, ghost t: WTree) returns (ghost u: WTree)
    requires xa.Snap() == t
    requires xas.node.Invalid() || AtSlot(t, xas)
    requires !xas.node.Invalid() ==> !At(t, xas.index).Null? || !FreeBit(t, mark)
    modifies xa`marks, xa.nodes.Values
    ensures xa.Snap() == u && if xas.node.Invalid() then u == t else Edited(t, u, xas.index, WithMark(CellAt(t, xas.index), mark, false))
    ensures SameShape(t, u)
  {
    hide Climbing, Structure, WF, SameShape;
    ShapeSelf(t);
    if xas.node.Invalid() {
      return t;
    }
    ghost var w: STree := t;
    ghost var k := StartClimb(t, xas, mark, false);
    var node := if xas.node.AtNode? then xas.node.node else null;
    var offset := xas.offset;
    while node != null
      invariant xa.Snap() == w && SameShape(t, w) && ClimbAt(t, w, xas.index, node, offset, k, mark, false)
      invariant xa.nodes == old(xa.nodes) && w.top == t.top && (node != null ==> k.level <= t.top)
      decreases if node == null then -1 else t.top - k.level
    {
      var was := PutNodeMark(xa, node, offset, mark, false, w, k);
      ShapeBit(t, w, k, offset, mark, false);
      if !was {
        EndClimb(t, w, xas.index, k, offset, mark, false);
        return w;
      }
      if AnyMark(node.marks[mark]) {
        StillMarked(t, w, xas.index, k, offset, mark);
        return PutBit(w, k, offset, mark, false);
      }
      ghost var up := NextClimb(xa, t, w, xas.index, node, offset, k, mark, false);
      w := PutBit(w, k, offset, mark, false);
      offset, node, k := node.offset, node.parent, up;
    }
    u := PutHeadMark(xa, mark, false, t, w, xas.index, offset, k);
  }

  lemma StillMarked(t: Tree, u: STree, index: nat, k: Pos, o: Offset, m: Mark)
    requires Climbing(t, u, index, SlotHole(k, o), m, false) && u.nodes[k].marks[m][o]
    requires AnyMark(PutBit(u, k, o, m, false).nodes[k].marks[m])
    ensures WF(PutBit(u, k, o, m, false)) && Edited(t, PutBit(u, k, o, m, false), index, WithMark(CellAt(t, index), m, false))
  {
    assert AnyMark(u.nodes[k].marks[m]);
    ClimbStop(t, u, index, k, o, m, false);
    MarkedEdit(t, PutBit(u, k, o, m, false), index, m, false);
  }

  lemma EndClimb(t: Tree, u: STree, index: nat, k: Pos, o: Offset, m: Mark, b: bool)
    requires Climbing(t, u, index, SlotHole(k, o), m, b) && u.nodes[k].marks[m][o] == b
    ensures WF(u) && Edited(t, u, index, WithMark(CellAt(t, index), m, b)) && PutBit(u, k, o, m, b) == u
  {
    ClimbEnd(t, u, index, k, o, m, b);
    PutBitSame(u, k, o, m, b);
    MarkedEdit(t, u, index, m, b);
  }

  /** xa_mark_set and xa_mark_clear, at the end of a climb. */
  method PutHeadMark(xa: XArray, mark: Mark, b: bool, ghost t: Tree, ghost w: STree, ghost index: nat, ghost offset: nat, ghost k: Pos)
    returns (ghost u: WTree)
    requires xa.Snap() == w && ClimbAt(t, w, index, null, offset, k, mark, b)
    modifies xa`marks
    ensures xa.Snap() == u && Edited(t, u, index, WithMark(CellAt(t, index), mark, b))
    ensures SameShape(t, w) ==> SameShape(t, u)
  {
    ClimbFlag(t, w, index, mark, b);
    u := PutFlag(w, mark, b);
    MarkedEdit(t, u, index, mark, b);
    if xa.marks[mark] != b {
      xa.marks := xa.marks[mark := b];
    }
    assert xa.marks == u.flags;
  }

  /** The marks of an index no entry is stored for. */
  function FreeMarks(tracked: bool): Flags {
    [tracked, false, false]
  }

  /** The marks with those below a bound reset. */
  function ResetFlags(flags: Flags, tracked: bool, bound: nat): Flags
    requires bound <= 3
  {
    if bound == 0 then flags
    else ResetFlags(flags, tracked, bound - 1)[bound - 1 := tracked && bound - 1 == FREE_MARK]
  }

  lemma ResetAll(flags: Flags, tracked: bool)
    ensures ResetFlags(flags, tracked, 3) == FreeMarks(tracked)
  {
    assert ResetFlags(flags, tracked, 1)[0] == tracked;
    assert ResetFlags(flags, tracked, 2)[1] == false;
  }

  /** The node places and their nodes are those of the same map in memory. */
  lemma SameNodes(xa: XArray, t: Tree, u: Tree, nodes: map<Pos, Node>)
    requires xa.Snap() == u && xa.nodes == nodes
    requires t.nodes.Keys == nodes.Keys && forall k | k in nodes :: t.nodes[k].self == nodes[k]
    ensures u.nodes.Keys == t.nodes.Keys && forall k | k in u.nodes :: u.nodes[k].self == t.nodes[k].self
  {
    ReadBack(xa, u);
  }

  /** One turn of xas_init_marks. */
  method InitMark(xa: XArray, xas: XaState, mark: Mark, ghost t: WTree) returns (ghost u: WTree)
    requires xa.Snap() == t && !At(t, xas.index).Null? && AtSlot(t, xas)
    modifies xa`marks, xa.nodes.Values
    ensures xa.Snap() == u && Edited(t, u, xas.index, WithMark(CellAt(t, xas.index), mark, xa.trackFree && mark == FREE_MARK))
    ensures AtSlot(u, xas) && SameShape(t, u)
  {
    ReadBack(xa, t);
    if xa.trackFree && mark == FREE_MARK {
      u := XasSetMark(xa, xas, mark, t);
    } else {
      u := XasClearMark(xa, xas, mark, t);
    }
    SameNodes(xa, t, u, xa.nodes);
  }

  /** xas_init_marks gives an index the marks of an empty one. */
  method XasInitMarks(xa: XArray, xas: XaState, ghost t: WTree) returns (ghost u: WTree)
    requires xa.Snap() == t && !At(t, xas.index).Null? && AtSlot(t, xas)
    modifies xa`marks, xa.nodes.Values
    ensures xa.Snap() == u && Edited(t, u, xas.index, CellAt(t, xas.index).(marks := FreeMarks(xa.trackFree)))
    ensures AtSlot(u, xas) && SameShape(t, u)
  {
    hide xa.Snap, Structure, WF, SameShape, At;
    ShapeSelf(t);
    u := t;
    var mark: nat := 0;
    ghost var cell := CellAt(t, xas.index);
    ghost var flags := cell.marks;
    while true
      invariant mark <= MARK_MAX && xa.Snap() == u && xa.nodes == old(xa.nodes)
      invariant Edited(t, u, xas.index, cell.(marks := flags)) && flags == ResetFlags(cell.marks, xa.trackFree, mark)
      invariant AtSlot(u, xas) && SameShape(t, u)
      decreases MARK_MAX - mark
    {
      assert CellAt(u, xas.index).entry == cell.entry;
      ghost var w := u;
      u := InitMark(xa, xas, mark, u);
      ShapeJoin(t, w, u);
      flags := flags[mark := xa.trackFree && mark == FREE_MARK];
      if mark == MARK_MAX {
        break;
      }
      mark := mark + 1;
    }
    ResetAll(cell.marks, xa.trackFree);
  }
}
