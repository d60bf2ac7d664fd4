/** xas_create: walking down to the slot of an index, adding the nodes that are absent. */
module XArraySlot {
  import opened XaIndex
  import opened XaNode
  import opened XaTree
  import opened XaGrow
  import opened XaEdit
  import opened XArrayWalk
  import opened XArrayCreate

  /** xas_create's node_mark_all: an empty node of a tracked array is all free. */
  method MarkFree(xa: XArray, node: Node)
    requires node.marks == NoMarks()
    modifies node`marks
    ensures forall m: Mark :: node.marks[m] == Fill(xa.trackFree && m == FREE_MARK)
  {
    if xa.trackFree {
      node.marks := node.marks[FREE_MARK := Fill(true)];
    }
  }

  /** The node takes its place in the tree. */
  ghost method Place(xa: XArray, node: Node, k: Pos, t: Tree)
    requires xa.Snap() == t && k !in xa.nodes && node !in xa.nodes.Values
    modifies xa`nodes, node`pos
    ensures node.Val() == old(node.Val()).(pos := k) && xa.Snap() == t.(nodes := t.nodes[k := node.Val()])
    ensures xa.nodes.Values == old(xa.nodes.Values) + {node}
  {
    ReadBack(xa, t);
    node.pos := k;
    ValuesInsert(xa.nodes, k, node);
    xa.nodes := xa.nodes[k := node];
    SnapIs(xa, t.(nodes := t.nodes[k := node.Val()]));
  }

  /** rcu_assign_pointer of an empty slot of a parent whose count is already raised. */
  method LinkChild(xa: XArray, parent: Node, offset: Offset, node: Node, ghost t: WTree, ghost k: Pos)
    requires k.Up() in t.nodes && parent == t.nodes[k.Up()].self && offset == k.Slot() && k !in t.nodes
    requires xa.Snap() == Raise(t, k.Up()) && node !in xa.nodes.Values
    modifies xa`nodes, parent`slots, node`pos
    ensures node.Val() == old(node.Val()).(pos := k)
    ensures xa.Snap() == AddChild(t, k, node.Val())
    ensures xa.nodes.Values == old(xa.nodes.Values) + {node}
  {
    ReadBack(xa, Raise(t, k.Up()));
    Places(t);
    assert xa.nodes[k.Up()] == parent;
    parent.slots := parent.slots[offset := NodeEntry(node)];
    ghost var up := Raise(t, k.Up()).nodes[k.Up()];
    ghost var w := t.(nodes := t.nodes[k.Up() := up.(slots := up.slots[offset := NodeEntry(node)])]);
    SnapIs(xa, w);
    Place(xa, node, k, w);
  }

  /** xas_alloc for the node below the cursor. */
  method AllocChild(xa: XArray, xas: XaState, shift: nat, parent: Node, ghost t: WTree, ghost k: Pos)
    returns (node: Node?, out: XaState)
    requires xa.Snap() == t && SpareOk(xa.nodes, xas.alloc)
    requires k in t.nodes && parent == t.nodes[k].self && xas.node == AtNode(parent)
    modifies parent, xas.alloc
    ensures node == null ==> xa.Snap() == t && xas.alloc == null && out == xas.(node := Error(ENOMEM))
    ensures node != null ==> xa.Snap() == Raise(t, k) && out == xas.(alloc := null) && (node == xas.alloc || fresh(node))
    ensures node != null ==> node !in xa.nodes.Values && NewNode(node, shift, parent) && node.offset == xas.offset
  {
    ReadBack(xa, t);
    Places(t);
    assert xa.nodes[k] == parent;
    node, out := XasAlloc(xas, shift);
    SnapIs(xa, if node == null then t else Raise(t, k));
  }

  /** The node of place k, marked and linked. */
  method GrowChild(xa: XArray, xas: XaState, shift: nat, parent: Node, ghost t: WTree, ghost k: Pos)
    returns (node: Node?, out: XaState)
    requires xa.Snap() == t && SpareOk(xa.nodes, xas.alloc)
    requires k.Up() in t.nodes && k !in t.nodes && parent == t.nodes[k.Up()].self
    requires xas.node == AtNode(parent) && xas.offset == k.Slot() && shift == CHUNK_SHIFT * k.level
    modifies xa`nodes, parent, xas.alloc
    ensures node == null ==> xa.Snap() == t && xa.nodes == old(xa.nodes) && xas.alloc == null && out == xas.(node := Error(ENOMEM))
    ensures node != null ==> out == xas.(alloc := null) && (node == xas.alloc || fresh(node))
    ensures node != null ==> xa.Snap() == AddChild(t, k, node.Val())
    ensures node != null ==> Blank(t, node.Val(), k) && node.parent == parent && node.offset == k.Slot()
    ensures node != null ==> xa.nodes.Values == old(xa.nodes.Values) + {node}
  {
    hide Structure, WF;
    node, out := AllocChild(xa, xas, shift, parent, t, k.Up());
    if node != null {
      MarkFree(xa, node);
      assert xa.Snap() == Raise(t, k.Up());
      LinkChild(xa, parent, xas.offset, node, t, k);
    }
  }

  lemma ChildOfPath(index: nat, level: nat)
    ensures PathPos(index, level).Up() == PathPos(index, level + 1)
    ensures PathPos(index, level).Slot() == Digit(index, level + 1)
  {
  }

  lemma ChildFits(t: STree, index: nat, level: nat, v: NodeVal)
    requires index <= ULONG_MAX && PathPos(index, level) !in t.nodes && PathPos(index, level + 1) in t.nodes
    requires Blank(t, v, PathPos(index, level)) && v.parent == t.nodes[PathPos(index, level + 1)].self
    requires v.offset == Digit(index, level + 1)
    ensures CanAdd(t, PathPos(index, level), v)
  {
    assert PathPos(index, level).Up() == PathPos(index, level + 1);
    ShrMonotone(index, ULONG_MAX, level + 1);
  }

  /** A new node below the empty slot the cursor stands at. */
  method NewChild(xa: XArray, xas: XaState, shift: nat, ghost t: WTree, ghost level: nat)
    returns (node: Node?, out: XaState, ghost u: WTree)
    requires xa.Snap() == t && SpareOk(xa.nodes, xas.alloc) && xas.index <= ULONG_MAX
    requires Stands(t, xas, level + 1) && Seen(t, xas.index, level) == Null && shift == CHUNK_SHIFT * level
    modifies xa`nodes, xa.nodes.Values, xas.alloc
    ensures xa.Snap() == u && Grown(t, u)
    ensures node == null ==> u == t && xas.alloc == null && out == xas.(node := Error(ENOMEM))
    ensures node != null ==> Seen(u, xas.index, level) == NodeEntry(node) && out == xas.(alloc := null)
    ensures node != null ==> Missing(u, xas.index) < Missing(t, xas.index)
    ensures fresh(xa.nodes.Values - old(xa.nodes.Values) - {xas.alloc})
  {
    hide Grown, Missing, WF;
    GrownSelf(t);
    u := t;
    ghost var k := PathPos(xas.index, level);
    ChildOfPath(xas.index, level);
    ReadBack(xa, t);
    node, out := GrowChild(xa, xas, shift, xas.node.node, t, k);
    if node != null {
      ChildFits(t, xas.index, level, node.Val());
      AddChildStep(t, k, node.Val(), xas.index);
      u := AddChild(t, k, node.Val());
    }
  }

  /** The first node of an empty array. */
  method NewRoot(xa: XArray, xas: XaState, shift: nat, ghost t: WTree, ghost level: nat)
    returns (node: Node?, out: XaState, ghost u: WTree)
    requires xa.Snap() == t && SpareOk(xa.nodes, xas.alloc) && xas.node == NoNode
    requires t.top == -1 && t.head.Null? && level <= TOP_LEVEL && Shr(xas.index, level + 1) == 0
    requires shift == CHUNK_SHIFT * level
    modifies xa`head, xa`top, xa`nodes, xas.alloc
    ensures xa.Snap() == u && Grown(t, u)
    ensures node == null ==> u == t && xas.alloc == null && out == xas.(node := Error(ENOMEM))
    ensures node != null ==> Seen(u, xas.index, level) == NodeEntry(node) && out == xas.(alloc := null)
    ensures node != null ==> Missing(u, xas.index) < Missing(t, xas.index)
    ensures fresh(xa.nodes.Values - old(xa.nodes.Values) - {xas.alloc})
  {
    hide Missing, CanAddRoot, Grown;
    GrownSelf(t);
    u := t;
    ReadBack(xa, t);
    node, out := XasAlloc(xas, shift);
    if node != null {
      MarkFree(xa, node);
      SetHead(xa, node, level);
      assert xa.Snap().nodes == AddRoot(t, node.Val()).nodes;
      AddRootStep(t, node.Val(), xas.index);
      u := AddRoot(t, node.Val());
    }
  }

  /** Where the loop of xas_create is: entry is what the walk sees below this level, and
      the slot it was read from is the cursor's, or the head. */
  ghost predicate Creating(t: Tree, xas: XaState, entry: Entry, level: nat) {
    && entry == Seen(t, xas.index, level - 1)
    && (entry.Null? && level > 0 ==>
          if xas.node == NoNode then t.top == -1 && t.head.Null? && level - 1 <= TOP_LEVEL && Shr(xas.index, level) == 0
          else Stands(t, xas, level))
    && (level == 0 ==> AtSlot(t, xas))
    && (!entry.Null? && !entry.NodeEntry? && level > 0 ==> t.top < 0 && xas.index == 0 && xas.node == NoNode)
  }

  /** The cursor stands at the slot of its index, and entry is what the slot holds. */
  ghost predicate Created(t: Tree, xas: XaState, entry: Entry) {
    HasSlot(t, xas.index) && entry == At(t, xas.index) && AtSlot(t, xas)
  }

  /** The next node of the path, made if need be. */
  method StepDown(xa: XArray, xas: XaState, entry: Entry, shift: nat, ghost t: WTree, ghost level: nat)
    returns (node: Node?, out: XaState, ghost u: WTree)
    requires xa.Snap() == t && SpareOk(xa.nodes, xas.alloc) && xas.index <= ULONG_MAX
    requires Creating(t, xas, entry, level + 1) && (entry.Null? || entry.NodeEntry?) && shift == CHUNK_SHIFT * level
    modifies xa`head, xa`top, xa`nodes, xa.nodes.Values, xas.alloc
    ensures xa.Snap() == u && Grown(t, u) && SpareOk(xa.nodes, out.alloc)
    ensures node == null ==> out == xas.(node := Error(ENOMEM), alloc := null)
    ensures entry.NodeEntry? ==> node != null && u == t
    ensures node != null ==> Seen(u, xas.index, level) == NodeEntry(node)
    ensures node != null ==> out == xas.(alloc := out.alloc) && (out.alloc == null || out.alloc == xas.alloc)
    ensures Missing(u, xas.index) <= Missing(t, xas.index) - Consumed(xas.alloc, out.alloc)
    ensures fresh(xa.nodes.Values - old(xa.nodes.Values) - {xas.alloc})
  {
    GrownSelf(t);
    if entry.NodeEntry? {
      return entry.node, xas, t;
    }
    if xas.node == NoNode {
      node, out, u := NewRoot(xa, xas, shift, t, level);
    } else {
      node, out, u := NewChild(xa, xas, shift, t, level);
    }
  }

  lemma SeenNode(t: STree, index: nat, level: nat)
    requires Seen(t, index, level).NodeEntry?
    ensures PathPos(index, level) in t.nodes && t.top >= 0
  {
    SeenStorable(t, index);
    PlaceAt(t, PathPos(index, level));
  }

  lemma DescendStage(xa: XArray, t: WTree, xas: XaState, node: Node, next: Entry, level: nat)
    requires xa.Snap() == t && Seen(t, xas.index, level) == NodeEntry(node)
    requires xas.node == AtNode(node) && xas.offset == GetOffset(xas.index, node.shift) && next == node.slots[xas.offset]
    ensures Creating(t, xas, next, level)
  {
    SeenNode(t, xas.index, level);
    NodeFields(xa, t, PathPos(xas.index, level));
    SeenBelow(t, xas.index, level);
  }

  /** One turn of the loop of xas_create. */
  method CreateStep(xa: XArray, xas: XaState, entry: Entry, shift: nat, ghost t: WTree, ghost level: nat)
    returns (next: Entry, out: XaState, ghost u: WTree)
    requires xa.Snap() == t && SpareOk(xa.nodes, xas.alloc) && xas.index <= ULONG_MAX
    requires Creating(t, xas, entry, level + 1) && (entry.Null? || entry.NodeEntry?) && shift == CHUNK_SHIFT * level
    modifies xa`head, xa`top, xa`nodes, xa.nodes.Values, xas.alloc
    ensures xa.Snap() == u && Grown(t, u) && SpareOk(xa.nodes, out.alloc)
    ensures out.node.Error? ==> out == xas.(node := Error(ENOMEM), alloc := null) && next == Null
    ensures !out.node.Error? ==> Creating(u, out, next, level)
    ensures entry.NodeEntry? ==> u == t && !out.node.Error?
    ensures out.index == xas.index && (out.alloc == null || out.alloc == xas.alloc)
    ensures Missing(u, xas.index) <= Missing(t, xas.index) - Consumed(xas.alloc, out.alloc)
    ensures fresh(xa.nodes.Values - old(xa.nodes.Values) - {xas.alloc})
  {
    hide Structure, Seen, Creating;
    var node;
    node, out, u := StepDown(xa, xas, entry, shift, t, level);
    if node == null {
      return Null, out, u;
    }
    next, out := XasDescend(out, node);
    DescendStage(xa, u, out, node, next, level);
  }

  /** The cursor of xas_create once there is nothing to descend to. */
  lemma CreateDone(t: STree, xas: XaState, entry: Entry, level: nat)
    requires Creating(t, xas, entry, level) && (level == 0 || (!entry.Null? && !entry.NodeEntry?))
    ensures Created(t, xas, entry)
  {
  }

  lemma HeadSeen(t: STree, index: nat)
    ensures InRange(t, index) ==> t.head == Seen(t, index, t.top)
    ensures t.top < 0 ==> !t.head.NodeEntry? && forall l | l >= -1 :: Seen(t, index, l) == if index == 0 then t.head else Null
  {
  }

  /** There is nothing to be made below this level. */
  ghost predicate Ready(t: Tree, index: nat, entry: Entry, level: nat) {
    level == 0 || (!entry.Null? && (entry.NodeEntry? ==> PathPos(index, 0) in t.nodes && level <= t.top + 1))
  }

  lemma ReadyBelow(t: STree, xas: XaState, entry: Entry, level: nat)
    requires PathPos(xas.index, 0) in t.nodes && level <= t.top + 1 && Creating(t, xas, entry, level)
    ensures Ready(t, xas.index, entry, level)
  {
    if level > 0 { PathAbove(t, xas.index, level - 1); }
  }

  lemma ReadyNode(t: STree, index: nat, entry: Entry, level: nat)
    requires level > 0
    ensures Ready(t, index, entry, level) ==> !entry.Null? && (entry.NodeEntry? ==> PathPos(index, 0) in t.nodes && level <= t.top + 1)
  {
  }

  /** xas_create from the head: the tree grows first, if need be. */
  method CreateFromHead(xa: XArray, xas: XaState, allowRoot: bool, ghost t: WTree)
    returns (entry: Entry, shift: nat, out: XaState, ghost u: WTree)
    requires xa.Snap() == t && SpareOk(xa.nodes, xas.alloc) && xas.index <= ULONG_MAX && xas.node == NoNode
    modifies xa`head, xa`marks, xa`top, xa`nodes, xa.nodes.Values, xas.alloc
    ensures xa.Snap() == u && Grown(t, u) && SpareOk(xa.nodes, out.alloc)
    ensures out.node.Error? ==> out.node == Error(ENOMEM) && out.alloc == null
    ensures !out.node.Error? ==> shift % CHUNK_SHIFT == 0 && Creating(u, out, entry, shift / CHUNK_SHIFT)
    ensures !NeedsNode(t, xas.index, allowRoot) ==> u == t && !out.node.Error? && Ready(t, xas.index, entry, shift / CHUNK_SHIFT)
    ensures out.index == xas.index && (out.alloc == null || out.alloc == xas.alloc)
    ensures Missing(u, xas.index) <= Missing(t, xas.index) - Consumed(xas.alloc, out.alloc)
    ensures fresh(xa.nodes.Values - old(xa.nodes.Values) - {xas.alloc})
  {
    if HasSlot(t, xas.index) { LeafInRange(t, xas.index); }
    entry := xa.head;
    var ret;
    ret, out, u := XasExpand(xa, xas, entry, t);
    if ret < 0 {
      return Null, 0, out, u;
    }
    HeadSeen(u, xas.index);
    shift := if ret == 0 && !allowRoot then CHUNK_SHIFT else ret;
    entry := xa.head;
  }

  /** xas_create from a node the cursor stands in. */
  method CreateFromNode(xa: XArray, xas: XaState, ghost t: WTree, ghost from: int) returns (entry: Entry, shift: nat)
    requires xa.Snap() == t && xas.node.AtNode? && Settled(t, xas, from)
    ensures shift % CHUNK_SHIFT == 0 && Creating(t, xas, entry, shift / CHUNK_SHIFT)
    ensures HasSlot(t, xas.index) ==> Ready(t, xas.index, entry, shift / CHUNK_SHIFT)
  {
    PlaceAt(t, PathPos(xas.index, from));
    NodeFields(xa, t, PathPos(xas.index, from));
    SeenBelow(t, xas.index, from);
    shift := xas.node.node.shift;
    entry := xas.node.node.slots[xas.offset];
    if HasSlot(t, xas.index) { ReadyBelow(t, xas, entry, from); }
  }

  /** The loop of xas_create. */
  method CreateLoop(xa: XArray, xas: XaState, start: Entry, height: nat, ghost t: WTree, ghost levels: nat)
    returns (entry: Entry, out: XaState, ghost u: WTree)
    requires xa.Snap() == t && SpareOk(xa.nodes, xas.alloc) && xas.index <= ULONG_MAX && !xas.node.Error?
    requires height == CHUNK_SHIFT * levels && Creating(t, xas, start, levels)
    modifies xa`head, xa`top, xa`nodes, xa.nodes.Values, xas.alloc
    ensures xa.Snap() == u && Grown(t, u) && SpareOk(xa.nodes, out.alloc)
    ensures out.node.Error? ==> out.node == Error(ENOMEM) && out.alloc == null && entry == Null
    ensures !out.node.Error? ==> Created(u, out, entry)
    ensures Ready(t, xas.index, start, levels) ==> u == t && !out.node.Error?
    ensures out.index == xas.index && (out.alloc == null || out.alloc == xas.alloc)
    ensures Missing(u, xas.index) <= Missing(t, xas.index) - Consumed(xas.alloc, out.alloc)
    ensures fresh(xa.nodes.Values - old(xa.nodes.Values) - {xas.alloc})
  {
    hide Missing, Created, SpareOk, xa.Snap, Ready, Grown, Creating, Structure;
    GrownSelf(t);
    entry, out, u := start, xas, t;
    var shift: nat := height;
    ghost var level := levels;
    while shift > 0
      invariant xa.Snap() == u && Grown(t, u) && SpareOk(xa.nodes, out.alloc)
      invariant shift == CHUNK_SHIFT * level && !out.node.Error? && Creating(u, out, entry, level)
      invariant Ready(t, xas.index, start, levels) ==> u == t && Ready(t, xas.index, entry, level)
      invariant out.index == xas.index && (out.alloc == null || out.alloc == xas.alloc)
      invariant Missing(u, xas.index) <= Missing(t, xas.index) - Consumed(xas.alloc, out.alloc)
      invariant fresh(xa.nodes.Values - old(xa.nodes.Values) - {xas.alloc})
    {
      if !entry.Null? && !entry.NodeEntry? {
        break;
      }
      shift := shift - CHUNK_SHIFT;
      level := level - 1;
      ghost var before, above := u, entry;
      entry, out, u := CreateStep(xa, out, entry, shift, u, level);
      GrownJoin(t, before, u);
      ReadyNode(before, xas.index, above, level + 1);
      if out.node.Error? {
        return;
      }
      if above.NodeEntry? && PathPos(xas.index, 0) in u.nodes && level <= u.top { ReadyBelow(u, out, entry, level); }
    }
    CreateDone(u, out, entry, level);
  }

  /** xas_create either leaves the cursor at the slot of its index, or fails for want of
      memory, which it does only if there was a node to be made.  The content is the same in both
      cases, and every node is still there, though nodes may have been added. */
  method XasCreate(xa: XArray, xas: XaState, allowRoot: bool, ghost t: WTree, ghost from: int)
    returns (entry: Entry, out: XaState, ghost u: WTree)
    requires xa.Snap() == t && SpareOk(xa.nodes, xas.alloc) && xas.index <= ULONG_MAX
    requires xas.node.AtNode? ==> Settled(t, xas, from)
    modifies xa`head, xa`marks, xa`top, xa`nodes, xa.nodes.Values, xas.alloc
    ensures xa.Snap() == u && Grown(t, u) && SpareOk(xa.nodes, out.alloc)
    ensures xas.node.Error? ==> u == t && out == xas && entry == Null
    ensures !xas.node.Error? && out.node.Error? ==> out.node == Error(ENOMEM) && out.alloc == null && entry == Null
    ensures !out.node.Error? ==> Created(u, out, entry)
    ensures !xas.node.Error? && !NeedsNode(t, xas.index, allowRoot) ==> u == t && !out.node.Error?
    ensures out.index == xas.index && (out.alloc == null || out.alloc == xas.alloc)
    ensures Missing(u, xas.index) <= Missing(t, xas.index) - Consumed(xas.alloc, out.alloc)
    ensures fresh(xa.nodes.Values - old(xa.nodes.Values) - {xas.alloc})
  {
    hide Structure, Creating, Missing, Grown, Ready;
    GrownSelf(t);
    var shift;
    if xas.node.Top() {
      entry, shift, out, u := CreateFromHead(xa, xas.(node := NoNode), allowRoot, t);
      if out.node.Error? {
        return Null, out, u;
      }
    } else if xas.node.Error? {
      return Null, xas, t;
    } else {
      out, u := xas, t;
      entry, shift := CreateFromNode(xa, xas, t, from);
    }
    ghost var before := u;
    entry, out, u := CreateLoop(xa, out, entry, shift, u, shift / CHUNK_SHIFT);
    GrownJoin(t, before, u);
  }
}
