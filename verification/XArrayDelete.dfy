/** xas_delete_node and xas_shrink: giving back the nodes an erased entry leaves empty. */
module XArrayDelete {
  import opened XaIndex
  import opened XaNode
  import opened XaTree
  import opened XaPrune
  import opened XArrayWalk

  /** xa_node_free; a node may be freed only once. */
  method XaNodeFree(node: Node)
    requires node.life == Live
    modifies node`life
    ensures node.life == RcuFreed
  {
    node.life := RcuFreed;
  }

  /** Every node of before that is no longer in the tree has been freed. */
  ghost predicate Accounted(xa: XArray, before: set<Node>)
    reads xa, before
  {
    forall n | n in before :: n in xa.nodes.Values || n.life == RcuFreed
  }

  lemma ValuesRemove<K, V>(m: map<K, V>, k: K)
    requires k in m && forall l | l in m && l != k :: m[l] != m[k]
    ensures (m - {k}).Values == m.Values - {m[k]}
  {
    forall x | x in m.Values && x != m[k] ensures x in (m - {k}).Values {
      var l :| l in m && m[l] == x;
      assert (m - {k})[l] == x;
    }
  }

  /** xa_node_free of a node that leaves the tree. */
  method DropNode(xa: XArray, node: Node, ghost k: Pos)
    requires k in xa.nodes && xa.nodes[k] == node && node.life == Live
    requires forall l | l in xa.nodes :: xa.nodes[l].pos == l
    modifies xa`nodes, node`life
    ensures xa.Snap() == old(xa.Snap()).(nodes := old(xa.Snap()).nodes - {k}) && node.life == RcuFreed
    ensures xa.nodes == old(xa.nodes) - {k} && xa.nodes.Values == old(xa.nodes.Values) - {node}
  {
    ghost var u := xa.Snap();
    XaNodeFree(node);
    ValuesRemove(xa.nodes, k);
    xa.nodes := xa.nodes - {k};
    SnapIs(xa, u.(nodes := u.nodes - {k}));
  }

  /** The tree with the slot of k empty, and k still there. */
  ghost function ClearSlot(t: Tree, k: Pos): Tree
    requires k.Up() in t.nodes && t.nodes[k.Up()].count > 0
  {
    var up := t.nodes[k.Up()];
    t.(nodes := t.nodes[k.Up() := up.(count := up.count - 1, slots := up.slots[k.Slot() := Null])])
  }

  lemma UpThere(t: Tree, k: Pos)
    requires CanRemove(t, k)
    ensures k.Up() in t.nodes && t.nodes[k.Up()].count > 0
  {
  }

  method EmptySlot(xa: XArray, parent: Node, offset: Offset, ghost t: WTree, ghost k: Pos)
    requires xa.Snap() == t && CanRemove(t, k) && parent == t.nodes[k.Up()].self && offset == k.Slot()
    modifies parent`slots, parent`count
    ensures xa.Snap() == ClearSlot(t, k)
  {
    hide Structure, CanRemove;
    UpThere(t, k);
    ReadBack(xa, t);
    Places(t);
    assert xa.nodes[k.Up()] == parent;
    parent.slots := parent.slots[offset := Null];
    parent.count := parent.count - 1;
    SnapIs(xa, ClearSlot(t, k));
  }

  /** One turn of xas_delete_node, for a node below the head. */
  method UnlinkChild(xa: XArray, node: Node, parent: Node, offset: Offset, ghost t: WTree, ghost k: Pos)
    requires xa.Snap() == t && CanRemove(t, k) && node == t.nodes[k].self
    requires parent == t.nodes[k.Up()].self && offset == k.Slot()
    modifies xa`nodes, node`life, parent`slots, parent`count
    ensures xa.Snap() == RemoveChild(t, k) && node.life == RcuFreed
    ensures xa.nodes == old(xa.nodes) - {k} && xa.nodes.Values == old(xa.nodes.Values) - {node}
  {
    ReadBack(xa, t);
    Places(t);
    FieldsAt(t, k);
    EmptySlot(xa, parent, offset, t, k);
    DropNode(xa, node, k);
  }

  /** The last turn of xas_delete_node, for an empty head. */
  method UnlinkHead(xa: XArray, node: Node, ghost t: WTree)
    requires xa.Snap() == t && t.top >= 0 && AllEmpty(t.nodes[Root(t)]) && node == t.nodes[Root(t)].self
    modifies xa`head, xa`top, xa`nodes, node`life
    ensures xa.Snap() == RemoveRoot(t) && node.life == RcuFreed
    ensures old(xa.nodes.Values) == {node} && xa.nodes == map[]
  {
    ReadBack(xa, t);
    forall k | k in t.nodes ensures k == Root(t) { OnlyHead(t, k); }
    FieldsAt(t, Root(t));
    assert xa.nodes == map[Root(t) := node];
    XaNodeFree(node);
    xa.head := Null;
    xa.top := -1;
    xa.nodes := map[];
    SnapIs(xa, RemoveRoot(t));
  }

  /** The old head of xas_shrink, on its way out. */
  method ReleaseHead(xa: XArray, node: Node, entry: Entry, ghost t: STree)
    requires xa.Snap().nodes == t.nodes && t.top >= 0 && node == t.nodes[Root(t)].self
    modifies xa`nodes, node`count, node`nrValues, node`slots, node`life
    ensures xa.Snap() == old(xa.Snap()).(nodes := t.nodes - {Root(t)}) && node.life == RcuFreed
    ensures xa.nodes.Values == old(xa.nodes.Values) - {node}
  {
    ghost var u := xa.Snap();
    ReadBack(xa, u);
    Places(t);
    FieldsAt(t, Root(t));
    assert xa.nodes[Root(t)] == node;
    node.count := 0;
    node.nrValues := 0;
    if !entry.NodeEntry? {
      node.slots := node.slots[0 := Retry];
    }
    XaNodeFree(node);
    ValuesRemove(xa.nodes, Root(t));
    xa.nodes := xa.nodes - {Root(t)};
    SnapIs(xa, u.(nodes := t.nodes - {Root(t)}));
  }

  /** The new head of xas_shrink has no parent. */
  method ClearParent(xa: XArray, child: Node, ghost c: Pos)
    requires c in xa.nodes && xa.nodes[c] == child && forall l | l in xa.nodes :: xa.nodes[l].pos == l
    modifies child`parent
    ensures xa.Snap() == old(xa.Snap()).(nodes := Promote(old(xa.Snap()).nodes, c))
  {
    ghost var u := xa.Snap();
    child.parent := null;
    SnapIs(xa, u.(nodes := Promote(u.nodes, c)));
  }

  /** The array's own fields in xas_shrink. */
  method ReplaceHead(xa: XArray, node: Node, entry: Entry, ghost t: WTree)
    requires xa.Snap() == t && CanShrink(t) && node == t.nodes[Root(t)].self
    modifies xa`head, xa`marks, xa`top
    ensures xa.Snap() == t.(head := entry, flags := ShrinkFlags(t), top := t.top - 1)
  {
    ReadBack(xa, t);
    xa.head := entry;
    if xa.trackFree && !node.marks[FREE_MARK][0] {
      xa.marks := xa.marks[FREE_MARK := false];
    }
    xa.top := xa.top - 1;
    SnapIs(xa, t.(head := entry, flags := ShrinkFlags(t), top := t.top - 1));
  }

  /** One turn of xas_shrink: the head is replaced by its only entry. */
  method ShrinkHeadOnce(xa: XArray, node: Node, entry: Entry, ghost t: WTree)
    requires xa.Snap() == t && CanShrink(t) && node == t.nodes[Root(t)].self && entry == t.nodes[Root(t)].slots[0]
    modifies xa`head, xa`marks, xa`top, xa`nodes, node, if entry.NodeEntry? then {entry.node} else {}
    ensures xa.Snap() == Shrink(t) && node.life == RcuFreed
    ensures xa.nodes.Values == old(xa.nodes.Values) - {node}
  {
    ShrinkOthers(t);
    Places(t);
    ReplaceHead(xa, node, entry, t);
    ReleaseHead(xa, node, entry, t);
    if entry.NodeEntry? {
      ReadBack(xa, xa.Snap());
      ClearParent(xa, entry.node, Pos(t.top - 1, 0));
    }
  }

  /** A head at level 0 is the only node. */
  lemma ShrinkOthers(t: STree)
    requires CanShrink(t)
    ensures t.top == 0 ==> t.nodes.Keys == {Root(t)}
    ensures t.nodes[Root(t)].slots[0].NodeEntry? <==> t.top > 0
    ensures t.top > 0 ==> Pos(t.top - 1, 0) in t.nodes && t.nodes[Root(t)].slots[0] == NodeEntry(t.nodes[Pos(t.top - 1, 0)].self)
  {
    forall k | k in t.nodes && t.top == 0 ensures k == Root(t) { PlaceAt(t, k); }
    SlotAt(t, Root(t), 0);
  }

  lemma NotNeedless(xa: XArray, t: WTree, node: Node, entry: Entry)
    requires xa.Snap() == t && t.top >= 0 && node == t.nodes[Root(t)].self && entry == node.slots[0]
    requires node.count != 1 || entry.Null? || (!entry.NodeEntry? && node.shift != 0)
    ensures !CanShrink(t)
  {
    ReadBack(xa, t);
    FieldsAt(t, Root(t));
    if CanShrink(t) { ShrinkOthers(t); }
  }

  /** One turn of xas_shrink, if there is anything to take off. */
  method ShrinkTurn(xa: XArray, node: Node, ghost t: WTree, ghost before: set<Node>)
    returns (stop: bool, entry: Entry, ghost u: WTree)
    requires xa.Snap() == t && t.top >= 0 && node == t.nodes[Root(t)].self && Accounted(xa, before)
    modifies xa`head, xa`marks, xa`top, xa`nodes, xa.nodes.Values
    ensures xa.Snap() == u && Same(t, u) && Accounted(xa, before)
    ensures stop ==> u == t && xa.nodes == old(xa.nodes) && !CanShrink(t)
    ensures Lean(t) ==> Lean(u)
    ensures !stop ==> u.top == t.top - 1 && entry == u.head && xa.nodes.Values <= old(xa.nodes.Values)
  {
    ReadBack(xa, t);
    FieldsAt(t, Root(t));
    entry := node.slots[0];
    if node.count != 1 || entry.Null? || (!entry.NodeEntry? && node.shift != 0) {
      NotNeedless(xa, t, node, entry);
      return true, entry, t;
    }
    ShrinkOthers(t);
    ShrinkHeadOnce(xa, node, entry, t);
    ShrinkStep(t);
    if Lean(t) { ShrinkLean(t); }
    return false, entry, Shrink(t);
  }

  /** xas_shrink takes off heads that only hold slot 0, until there is none.  A cursor that
      stood in one of them is out of bounds afterwards. */
  method XasShrink(xa: XArray, xas: XaState, start: Node, ghost t: WTree, ghost before: set<Node>)
    returns (out: XaState, ghost u: WTree)
    requires xa.Snap() == t && t.top >= 0 && start == t.nodes[Root(t)].self && Accounted(xa, before)
    modifies xa`head, xa`marks, xa`top, xa`nodes, xa.nodes.Values
    ensures xa.Snap() == u && Same(t, u) && Accounted(xa, before)
    ensures (out == xas && u == t) || out == xas.(node := Bounds)
    ensures xa.nodes.Values <= old(xa.nodes.Values)
    ensures !CanShrink(u) && (Lean(t) ==> Lean(u))
  {
    hide CanShrink, Lean;
    out, u := xas, t;
    var node := start;
    while true
      invariant xa.Snap() == u && Same(t, u) && Accounted(xa, before)
      invariant u.top >= 0 && u.head == NodeEntry(node)
      invariant (out == xas && u == t) || out == xas.(node := Bounds)
      invariant xa.nodes.Values <= old(xa.nodes.Values) && (Lean(t) ==> Lean(u))
      decreases u.top
    {
      var stop, entry;
      stop, entry, u := ShrinkTurn(xa, node, u, before);
      if stop {
        break;
      }
      out := out.(node := Bounds);
      if !entry.NodeEntry? {
        NoHeadLeft(u);
        break;
      }
      node := entry.node;
    }
  }

  lemma NoHeadLeft(t: STree)
    requires !t.head.NodeEntry?
    ensures t.top < 0 && !CanShrink(t)
  {
  }

  /** The cursor stands in a node, at an empty slot. */
  ghost predicate AtGap(t: Tree, xas: XaState, level: nat) {
    Stands(t, xas, level) && t.nodes[PathPos(xas.index, level)].slots[Digit(xas.index, level)].Null?
  }

  /** Below the head, the cursor's empty node can go, and the cursor can move up. */
  lemma DeleteReady(xa: XArray, t: WTree, xas: XaState, node: Node, parent: Node, level: nat)
    requires xa.Snap() == t && AtGap(t, xas, level) && xas.node == AtNode(node)
    requires node.count == 0 && parent == node.parent
    ensures node in xa.nodes.Values && parent in xa.nodes.Values
    ensures CanRemove(t, PathPos(xas.index, level)) && node == t.nodes[PathPos(xas.index, level)].self
    ensures PathPos(xas.index, level).Up() == PathPos(xas.index, level + 1)
    ensures parent == t.nodes[PathPos(xas.index, level + 1)].self
    ensures node.offset == PathPos(xas.index, level).Slot() == Digit(xas.index, level + 1)
  {
    var k := PathPos(xas.index, level);
    ReadBack(xa, t);
    FieldsAt(t, k);
    ParentAt(t, k);
    PlaceAt(t, k);
    CountZero(t.nodes[k]);
    UpCount(t, xas.index, level);
  }

  /** The empty node at k leaves the tree. */
  method DeleteChild(xa: XArray, node: Node, parent: Node, offset: Offset, ghost t: WTree, ghost k: Pos, ghost before: set<Node>)
    returns (ghost u: WTree)
    requires xa.Snap() == t && CanRemove(t, k) && node == t.nodes[k].self && Accounted(xa, before)
    requires parent == t.nodes[k.Up()].self && offset == k.Slot()
    modifies xa`nodes, node`life, parent`slots, parent`count
    ensures u == RemoveChild(t, k) && xa.Snap() == u && Same(t, u) && Accounted(xa, before) && |u.nodes| < |t.nodes|
    ensures xa.nodes.Values <= old(xa.nodes.Values)
  {
    RemoveChildStep(t, k);
    u := RemoveChild(t, k);
    UnlinkChild(xa, node, parent, offset, t, k);
  }

  lemma GapAbove(t: WTree, xas: XaState, parent: Node, level: nat)
    requires CanRemove(t, PathPos(xas.index, level)) && PathPos(xas.index, level).Up() == PathPos(xas.index, level + 1)
    requires parent == t.nodes[PathPos(xas.index, level + 1)].self && PathPos(xas.index, level).Slot() == Digit(xas.index, level + 1)
    ensures AtGap(RemoveChild(t, PathPos(xas.index, level)), xas.(node := AtNode(parent), offset := Digit(xas.index, level + 1)), level + 1)
  {
  }

  /** One turn of xas_delete_node below the head, for an empty node. */
  method DeleteTurn(xa: XArray, xas: XaState, node: Node, parent: Node, ghost t: WTree, ghost level: nat, ghost before: set<Node>)
    returns (out: XaState, ghost u: WTree)
    requires xa.Snap() == t && AtGap(t, xas, level) && xas.node == AtNode(node) && Accounted(xa, before)
    requires node.count == 0 && parent == node.parent
    modifies xa`nodes, node`life, parent`slots, parent`count
    ensures xa.Snap() == u && Same(t, u) && Accounted(xa, before) && |u.nodes| < |t.nodes|
    ensures AtGap(u, out, level + 1) && out == xas.(node := AtNode(parent), offset := out.offset)
    ensures xa.nodes.Values <= old(xa.nodes.Values)
    ensures LeanBut(t, PathPos(xas.index, level)) ==> LeanBut(u, PathPos(xas.index, level + 1))
    ensures level + 1 < t.top ==> HeadKept(t, u)
  {
    hide LeanBut;
    DeleteReady(xa, t, xas, node, parent, level);
    GapAbove(t, xas, parent, level);
    out := xas.(node := AtNode(parent), offset := node.offset);
    u := DeleteChild(xa, node, parent, node.offset, t, PathPos(xas.index, level), before);
    if level + 1 < t.top { HeadAbove(t, PathPos(xas.index, level)); }
    if LeanBut(t, PathPos(xas.index, level)) { RemoveChildLean(t, PathPos(xas.index, level)); }
  }

  lemma HeadAbove(t: STree, k: Pos)
    requires CanRemove(t, k) && k.level + 1 < t.top
    ensures HeadKept(t, RemoveChild(t, k))
  {
  }

  lemma UpCount(t: STree, index: nat, level: nat)
    requires PathPos(index, level) in t.nodes && level < t.top
    ensures PathPos(index, level).Up() == PathPos(index, level + 1) && PathPos(index, level).Slot() == Digit(index, level + 1)
    ensures PathPos(index, level + 1) in t.nodes && t.nodes[PathPos(index, level + 1)].count > 0
  {
    ParentAt(t, PathPos(index, level));
    PathDown(t, index, level + 1);
    FieldsAt(t, PathPos(index, level + 1));
    CountBounds(t.nodes[PathPos(index, level + 1)].slots);
  }

  /** The last turn of xas_delete_node, for an empty head. */
  method DeleteHead(xa: XArray, node: Node, ghost t: WTree, ghost before: set<Node>) returns (ghost u: WTree)
    requires xa.Snap() == t && t.top >= 0 && node == t.nodes[Root(t)].self && node.count == 0 && Accounted(xa, before)
    modifies xa`head, xa`top, xa`nodes, xa.nodes.Values
    ensures xa.Snap() == u && Same(t, u) && Accounted(xa, before) && xa.nodes == map[]
  {
    ReadBack(xa, t);
    FieldsAt(t, Root(t));
    CountZero(t.nodes[Root(t)]);
    UnlinkHead(xa, node, t);
    RemoveRootStep(t);
    u := RemoveRoot(t);
  }

  /** The cursor's node is the head, and the array is empty without it. */
  method DeleteLast(xa: XArray, node: Node, xas: XaState, ghost t: Tree, ghost w: WTree, ghost level: nat, ghost before: set<Node>)
    returns (ghost u: WTree)
    requires xa.Snap() == w && Same(t, w) && AtGap(w, xas, level) && xas.node == AtNode(node) && Accounted(xa, before)
    requires node.parent == null && node.count == 0
    modifies xa`head, xa`top, xa`nodes, xa.nodes.Values
    ensures xa.Snap() == u && Same(t, u) && Accounted(xa, before) && xa.nodes.Values <= old(xa.nodes.Values)
    ensures Lean(u) && !CanShrink(u)
  {
    hide Lean, CanShrink, PathPos, Structure, Same;
    GapInside(w, xas, level);
    NodeIsHead(xa, w, PathPos(xas.index, level));
    u := DeleteHead(xa, node, w, before);
    NoNodes(xa, u);
    SameOn(t, w, u);
  }

  /** One turn of the loop of xas_delete_node, below the head. */
  method DeleteOnce(xa: XArray, xas: XaState, node: Node, parent: Node, ghost t: Tree, ghost w: WTree, ghost from: nat, ghost level: nat, ghost before: set<Node>)
    returns (out: XaState, ghost u: WTree)
    requires xa.Snap() == w && Same(t, w) && AtGap(w, xas, level) && xas.node == AtNode(node) && Accounted(xa, before)
    requires node.parent == parent && node.count == 0 && Deleting(t, w, xas.index, from, level)
    modifies xa`nodes, xa.nodes.Values
    ensures xa.Snap() == u && Same(t, u) && Accounted(xa, before) && xa.nodes.Values <= old(xa.nodes.Values)
    ensures AtGap(u, out, level + 1) && out == xas.(node := AtNode(parent), offset := out.offset) && |u.nodes| < |w.nodes|
    ensures Deleting(t, u, xas.index, from, level + 1)
  {
    hide Lean, LeanBut, HeadKept, Deleting, PathPos, Structure, Same;
    DeleteReady(xa, w, xas, node, parent, level);
    out, u := DeleteTurn(xa, xas, node, parent, w, level, before);
    DeletingOn(t, w, u, from, level, xas, out);
    SameOn(t, w, u);
  }

  lemma SameSelf(t: Tree)
    ensures Same(t, t)
  {
  }

  lemma SameOn(t: Tree, w: Tree, u: Tree)
    requires Same(t, w) && Same(w, u)
    ensures Same(t, u)
  {
    forall i: nat ensures CellAt(u, i) == CellAt(t, i) {
      assert CellAt(u, i) == CellAt(w, i);
    }
  }

  /** The loop of xas_delete_node. */
  method DeleteUp(xa: XArray, xas: XaState, ghost t: WTree, ghost from: nat, ghost before: set<Node>)
    returns (gone: bool, node: Node, out: XaState, ghost u: WTree, ghost level: nat)
    requires xa.Snap() == t && AtGap(t, xas, from) && Accounted(xa, before)
    modifies xa`head, xa`marks, xa`top, xa`nodes, xa.nodes.Values
    ensures xa.Snap() == u && Same(t, u) && Accounted(xa, before) && xa.nodes.Values <= old(xa.nodes.Values)
    ensures out.index == xas.index && out.alloc == xas.alloc
    ensures gone ==> out.node == Bounds && Lean(u) && !CanShrink(u)
    ensures !gone ==> out.node == AtNode(node) && AtGap(u, out, level) && node.count != 0 && Deleting(t, u, xas.index, from, level)
  {
    hide Lean, LeanBut, CanShrink, HeadKept, Deleting, PathPos, Structure, Same, WF, Accounted;
    gone, out, u, level := false, xas, t, from;
    GapInside(t, xas, from);
    SameSelf(t);
    node := xas.node.node;
    while true
      invariant xa.Snap() == u && Same(t, u) && Accounted(xa, before)
      invariant out == xas.(node := AtNode(node), offset := out.offset) && AtGap(u, out, level)
      invariant xa.nodes.Values <= old(xa.nodes.Values)
      invariant Deleting(t, u, xas.index, from, level)
      decreases |u.nodes|
    {
      if node.count != 0 {
        return;
      }
      var parent := node.parent;
      if parent == null {
        u := DeleteLast(xa, node, out, t, u, level, before);
        out := out.(node := Bounds);
        gone := true;
        return;
      }
      out, u := DeleteOnce(xa, out, node, parent, t, u, from, level, before);
      level := level + 1;
      node := parent;
    }
  }

  /** xas_delete_node gives back the cursor's node if it is empty, then its ancestors as
      they become empty, and then the heads that have become needless.  Every node given
      back is freed, once.  If no other node was empty, none is now; and either the head node
      is as it was, the cursor having been below it, or it is not needless. */
  method XasDeleteNode(xa: XArray, xas: XaState, ghost t: WTree, ghost from: nat, ghost before: set<Node>)
    returns (out: XaState, ghost u: WTree)
    requires xa.Snap() == t && AtGap(t, xas, from) && Accounted(xa, before)
    modifies xa`head, xa`marks, xa`top, xa`nodes, xa.nodes.Values
    ensures xa.Snap() == u && Same(t, u) && Accounted(xa, before)
    ensures out.index == xas.index && out.alloc == xas.alloc
    ensures out.node == Bounds || exists level: nat :: AtGap(u, out, level)
    ensures xa.nodes.Values <= old(xa.nodes.Values)
    ensures LeanBut(t, PathPos(xas.index, from)) ==> Lean(u)
    ensures !CanShrink(u) || (from < t.top && HeadKept(t, u))
  {
    hide Lean, LeanBut, CanShrink, HeadKept, Deleting, PathPos, Structure;
    var gone, node;
    ghost var level;
    gone, node, out, u, level := DeleteUp(xa, xas, t, from, before);
    if gone {
      return;
    }
    StillBusy(xa, t, u, xas.index, from, level, node);
    if node.parent == null {
      NodeIsHead(xa, u, PathPos(out.index, level));
      out, u := XasShrink(xa, out, node, u, before);
    } else {
      NodeIsBelow(xa, t, u, xas.index, from, level);
    }
  }

  /** The state of the loop of xas_delete_node: only the node at this level may be empty, and
      below the head's level the head is as it was. */
  ghost predicate Deleting(t: Tree, u: Tree, index: nat, from: nat, level: nat) {
    && from <= level <= t.top == u.top && (level < t.top ==> HeadKept(t, u))
    && (LeanBut(t, PathPos(index, from)) ==> LeanBut(u, PathPos(index, level)))
  }

  lemma NodeIsBelow(xa: XArray, t: Tree, u: STree, index: nat, from: nat, level: nat)
    requires xa.Snap() == u && Deleting(t, u, index, from, level)
    requires PathPos(index, level) in u.nodes && u.nodes[PathPos(index, level)].self.parent != null
    ensures from < t.top && HeadKept(t, u)
  {
    hide HeadKept, LeanBut;
    ReadBack(xa, u);
    ParentAt(u, PathPos(index, level));
  }

  lemma GapInside(t: STree, xas: XaState, level: nat)
    requires AtGap(t, xas, level)
    ensures Deleting(t, t, xas.index, level, level)
  {
    PlaceAt(t, PathPos(xas.index, level));
  }

  lemma StillBusy(xa: XArray, t: Tree, u: STree, index: nat, from: nat, level: nat, node: Node)
    requires xa.Snap() == u && Deleting(t, u, index, from, level) && node.count != 0
    requires PathPos(index, level) in u.nodes && node == u.nodes[PathPos(index, level)].self
    ensures LeanBut(t, PathPos(index, from)) ==> Lean(u)
  {
    ReadBack(xa, u);
    if LeanBut(u, PathPos(index, level)) { BusyIsLean(u, PathPos(index, level)); }
  }

  lemma NoNodes(xa: XArray, t: STree)
    requires xa.Snap() == t && xa.nodes == map[]
    ensures Lean(t) && !CanShrink(t)
  {
    ReadBack(xa, t);
  }

  lemma DeletingOn(t: Tree, w: Tree, u: STree, from: nat, level: nat, xas: XaState, out: XaState)
    requires Deleting(t, w, xas.index, from, level) && out.index == xas.index && AtGap(u, out, level + 1) && u.top == w.top
    requires LeanBut(w, PathPos(xas.index, level)) ==> LeanBut(u, PathPos(xas.index, level + 1))
    requires level + 1 < w.top ==> HeadKept(w, u)
    ensures Deleting(t, u, xas.index, from, level + 1)
  {
    hide LeanBut;
    PlaceAt(u, PathPos(xas.index, level + 1));
  }

  lemma NodeIsHead(xa: XArray, t: STree, k: Pos)
    requires xa.Snap() == t && k in t.nodes && t.nodes[k].self.parent == null
    ensures t.top >= 0 && k == Root(t)
  {
    ReadBack(xa, t);
    ParentAt(t, k);
    PlaceAt(t, k);
  }
}
