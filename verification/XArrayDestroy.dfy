/** xas_free_nodes and xa_destroy. */
module XArrayDestroy {
  import opened XaIndex
  import opened XaNode
  import opened XaTree
  import opened XaSpan
  import opened XArrayWalk
  import opened XArrayMark
  import opened XArrayDelete

  /** The index after the last below the node at k. */
  function End(k: Pos): nat {
    Spot(k, CHUNK_SIZE)
  }

  /** The walk at slot o of the node at c has left the node at k behind for good. */
  ghost predicate Behind(k: Pos, c: Pos, o: nat) {
    End(k) < Spot(c, o) || (End(k) == Spot(c, o) && (o < CHUNK_SIZE || k.level < c.level))
  }

  /** A node no lower than c can only end where c ends, if it ends below c at all. */
  lemma EndsTogether(k: Pos, c: Pos, o: Offset)
    requires k.level >= c.level && Spot(c, o) < End(k) <= Spot(c, o + 1)
    ensures o + 1 == CHUNK_SIZE && End(k) == End(c)
  {
    var q := Shl(k.prefix + 1, k.level - c.level);
    ShlAdd(k.prefix + 1, k.level - c.level, c.level + 1);
    assert End(k) == Shl(k.prefix + 1, k.level + 1) == Shl(q, c.level + 1);
    assert Spot(c, 0) == Shl(c.prefix, c.level + 1) && End(c) == Shl(c.prefix + 1, c.level + 1);
    ShlMonotone(c.prefix * CHUNK_SIZE, c.prefix * CHUNK_SIZE + o, c.level);
    if q <= c.prefix {
      ShlMonotone(q, c.prefix, c.level + 1);
    } else {
      ShlMonotone(c.prefix + 1, q, c.level + 1);
      if o + 1 < CHUNK_SIZE { ShlMonotone(c.prefix * CHUNK_SIZE + o + 1, c.prefix * CHUNK_SIZE + CHUNK_SIZE, c.level); }
    }
  }

  lemma SameEnd(k: Pos, c: Pos)
    requires k.level == c.level && End(k) == End(c)
    ensures k == c
  {
    if k.prefix < c.prefix {
      ShlMonotone(k.prefix + 1, c.prefix + 1, c.level + 1);
    } else if c.prefix < k.prefix {
      ShlMonotone(c.prefix + 1, k.prefix + 1, c.level + 1);
    }
  }

  /** No node ends below an empty slot, or below a slot of a leaf. */
  lemma NoneEnds(t: STree, k: Pos, c: Pos, o: Offset)
    requires k in t.nodes && c in t.nodes && k.level < c.level && t.nodes[c].slots[o].Null?
    ensures !(Spot(c, o) < End(k) <= Spot(c, o + 1))
  {
    if Spot(c, o) < End(k) <= Spot(c, o + 1) {
      var i := End(k) - 1;
      ShlMonotone(k.prefix * CHUNK_SIZE + 63, k.prefix * CHUNK_SIZE + 64, k.level);
      PathAt(k, 63, i);
      PathAt(c, o, i);
      PlaceAt(t, c);
      Ancestors(t, i, k.level, c.level - 1);
      PathDown(t, i, c.level);
    }
  }

  /** Passing a slot with nothing below it leaves no node behind. */
  lemma BehindStep(t: STree, k: Pos, c: Pos, o: Offset)
    requires k in t.nodes && c in t.nodes && (c.level == 0 || t.nodes[c].slots[o].Null?)
    ensures Behind(k, c, o + 1) <==> Behind(k, c, o)
  {
    SpotStep(c, o);
    if k.level < c.level {
      NoneEnds(t, k, c, o);
    } else if Spot(c, o) < End(k) <= Spot(c, o + 1) {
      EndsTogether(k, c, o);
    }
  }

  /** Leaving a node leaves that node behind, and no other. */
  lemma BehindUp(k: Pos, c: Pos)
    ensures Behind(k, c.Up(), c.Slot() + 1) <==> Behind(k, c, CHUNK_SIZE) || k == c
  {
    SpotUp(c);
    SpotStep(c.Up(), c.Slot());
    if End(k) == End(c) {
      if k.level == c.level {
        SameEnd(k, c);
      } else if k.level > c.level {
        EndsTogether(k, c.Up(), c.Slot());
      }
    }
  }

  /** What the walk, now at slot o of the node at c, has done to the node at k: freed it, or
      kept what it will still read of it. */
  ghost predicate Fate(t: Tree, node: Node, k: Pos, c: Pos, o: nat)
    requires k in t.nodes
    reads node
  {
    node.pos == k && if Behind(k, c, o) then node.life == RcuFreed
    else
      && node.life == Live && node.parent == t.nodes[k].parent && node.offset == t.nodes[k].offset && node.shift == t.nodes[k].shift
      && forall p: Offset | Spot(c, o) <= Spot(k, p) :: node.slots[p] == t.nodes[k].slots[p]
  }

  /** nodes are the nodes of the tree in memory, each in the state the walk leaves it in. */
  ghost predicate Walked(t: Tree, nodes: map<Pos, Node>, c: Pos, o: nat)
    reads nodes.Values
  {
    && nodes.Keys == t.nodes.Keys && c in t.nodes
    && forall k {:trigger nodes[k]} | k in t.nodes :: nodes[k] == t.nodes[k].self && Fate(t, nodes[k], k, c, o)
  }

  lemma SlotLater(c: Pos, o: Offset, p: Offset)
    ensures Spot(c, o + 1) <= Spot(c, p) <==> o < p
    ensures Spot(c, o) <= Spot(c, o)
  {
    if o < p {
      ShlMonotone(c.prefix * CHUNK_SIZE + o + 1, c.prefix * CHUNK_SIZE + p, c.level);
    } else {
      ShlMonotone(c.prefix * CHUNK_SIZE + p, c.prefix * CHUNK_SIZE + o, c.level);
      SpotStep(c, o);
    }
  }

  lemma NotBehind(c: Pos, o: Offset)
    ensures !Behind(c, c, o) && !Behind(c, c, CHUNK_SIZE)
  {
    ShlMonotone(c.prefix * CHUNK_SIZE + o, c.prefix * CHUNK_SIZE + CHUNK_SIZE, c.level);
  }

  /** What the walk reads of its node, and how far it still has to go. */
  lemma Here(t: STree, nodes: map<Pos, Node>, c: Pos, o: Offset)
    requires Walked(t, nodes, c, o)
    ensures nodes[c].slots[o] == t.nodes[c].slots[o] && nodes[c].pos == c && (nodes[c].shift == 0 <==> c.level == 0)
    ensures var entry := t.nodes[c].slots[o]; if c.level == 0 then !entry.NodeEntry? else entry.Null? || entry.NodeEntry?
    ensures Spot(c, o) < Spot(c, o + 1) <= Shl(CHUNK_SIZE, t.top)
  {
    assert Fate(t, nodes[c], c, c, o);
    NotBehind(c, o);
    FieldsAt(t, c);
    SlotAt(t, c, o);
    SpotStep(c, o);
    SpotBound(t, c, o + 1);
  }

  /** A slot that is no child's becomes a retry entry, unless it is empty. */
  method PassSlot(node: Node, offset: Offset, entry: Entry, ghost t: STree, ghost nodes: map<Pos, Node>, ghost c: Pos)
    requires Walked(t, nodes, c, offset) && node == nodes[c]
    requires entry == t.nodes[c].slots[offset] && (c.level == 0 || entry.Null?)
    modifies node`slots
    ensures Walked(t, nodes, c, offset + 1)
  {
    forall k | k in t.nodes { BehindStep(t, k, c, offset); }
    forall p: Offset { SlotLater(c, offset, p); }
    NotBehind(c, offset);
    SpotStep(c, offset);
    assert forall k {:trigger nodes[k]} | k in t.nodes :: Fate(t, nodes[k], k, c, offset);
    if !entry.Null? {
      node.slots := node.slots[offset := Retry];
    }
  }

  /** A node whose slots have all been passed is freed. */
  method LeaveNode(node: Node, ghost t: STree, ghost nodes: map<Pos, Node>, ghost c: Pos)
    returns (parent: Node?, offset: nat)
    requires Walked(t, nodes, c, CHUNK_SIZE) && node == nodes[c]
    modifies node`count, node`nrValues, node`life
    ensures c.level < t.top ==> parent != null && c.Up() in t.nodes && parent == nodes[c.Up()] && offset == c.Slot() + 1
    ensures c.level < t.top ==> Walked(t, nodes, c.Up(), c.Slot() + 1)
    ensures c.level == t.top ==> forall k | k in t.nodes :: nodes[k].life == RcuFreed
  {
    assert forall k {:trigger nodes[k]} | k in t.nodes :: Fate(t, nodes[k], k, c, CHUNK_SIZE);
    NotBehind(c, 0);
    ParentAt(t, c);
    PlaceAt(t, c);
    forall k { BehindUp(k, c); }
    SpotUp(c);
    forall k | k in t.nodes && c.level == t.top ensures Behind(k, c, CHUNK_SIZE) || k == c { BehindRoot(t, k, c); }
    parent := node.parent;
    offset := node.offset + 1;
    node.count := 0;
    node.nrValues := 0;
    XaNodeFree(node);
  }

  lemma BehindRoot(t: STree, k: Pos, c: Pos)
    requires k in t.nodes && c in t.nodes && c.level == t.top
    ensures Behind(k, c, CHUNK_SIZE) || k == c
  {
    PlaceAt(t, k);
    PlaceAt(t, c);
    SpotBound(t, k, CHUNK_SIZE);
    if k.level == c.level && End(k) == End(c) { SameEnd(k, c); }
  }

  lemma DownHere(t: STree, nodes: map<Pos, Node>, c: Pos, o: Offset)
    requires Walked(t, nodes, c, o) && t.nodes[c].slots[o].NodeEntry?
    ensures c.level > 0 && c.Down(o) in t.nodes && t.nodes[c].slots[o].node == nodes[c.Down(o)]
    ensures Walked(t, nodes, c.Down(o), 0) && Spot(c.Down(o), 0) == Spot(c, o)
  {
    SlotAt(t, c, o);
    SpotDown(c, o);
    assert forall k {:trigger nodes[k]} | k in t.nodes :: Fate(t, nodes[k], k, c, o);
  }

  /** The climb from past a node's last slot, freeing it and every ancestor that is at its
      last slot too. */
  method Retire(start: Node, top: Node, ghost t: STree, ghost nodes: map<Pos, Node>, ghost from: Pos)
    returns (done: bool, node: Node, offset: nat, ghost c: Pos)
    requires t.top >= 0 && Walked(t, nodes, from, CHUNK_SIZE) && start == nodes[from] && top == t.nodes[Root(t)].self
    modifies nodes.Values
    ensures done ==> forall k | k in t.nodes :: nodes[k].life == RcuFreed
    ensures !done ==> Walked(t, nodes, c, offset) && node == nodes[c] && offset < CHUNK_SIZE
    ensures !done ==> Spot(c, offset) == Spot(from, CHUNK_SIZE)
  {
    node, offset, c := start, CHUNK_SIZE, from;
    while offset == CHUNK_SIZE
      invariant offset <= CHUNK_SIZE && Walked(t, nodes, c, offset) && node == nodes[c]
      invariant Spot(c, offset) == Spot(from, CHUNK_SIZE)
      decreases t.top - c.level, offset
    {
      PlaceAt(t, c);
      TopIsRoot(t, nodes, c, offset);
      var last := node;
      var parent;
      parent, offset := LeaveNode(node, t, nodes, c);
      if last == top {
        return true, node, offset, c;
      }
      SpotUp(c);
      node := parent;
      c := c.Up();
      PlaceAt(t, c);
    }
    done := false;
  }

  lemma TopIsRoot(t: STree, nodes: map<Pos, Node>, c: Pos, o: nat)
    requires Walked(t, nodes, c, o) && t.top >= 0
    ensures nodes[c] == t.nodes[Root(t)].self <==> c.level == t.top
  {
    PlaceAt(t, c);
    assert Fate(t, nodes[Root(t)], Root(t), c, o) && Fate(t, nodes[c], c, c, o);
  }

  /** One turn of the outer loop of xas_free_nodes: down into a child, or past a slot and up
      as far as that was the last one. */
  method FreeTurn(from: Node, slot: Offset, top: Node, ghost t: STree, ghost nodes: map<Pos, Node>, ghost at: Pos)
    returns (done: bool, node: Node, offset: nat, ghost c: Pos)
    requires t.top >= 0 && Walked(t, nodes, at, slot) && from == nodes[at] && top == t.nodes[Root(t)].self
    modifies nodes.Values
    ensures done ==> forall k | k in t.nodes :: nodes[k].life == RcuFreed
    ensures !done ==> Walked(t, nodes, c, offset) && node == nodes[c] && offset < CHUNK_SIZE
    ensures !done ==> Spot(at, slot) < Spot(c, offset) || (Spot(at, slot) == Spot(c, offset) && c.level < at.level)
  {
    Here(t, nodes, at, slot);
    node, offset, c := from, slot, at;
    var entry := node.slots[offset];
    if node.shift != 0 && entry.NodeEntry? {
      DownHere(t, nodes, at, slot);
      return false, entry.node, 0, at.Down(slot);
    }
    PassSlot(node, offset, entry, t, nodes, at);
    offset := offset + 1;
    done := false;
    if offset == CHUNK_SIZE {
      done, node, offset, c := Retire(node, top, t, nodes, at);
    }
  }

  /** xas_free_nodes, given a tree that nothing refers to any more, frees every node of it, and
      none twice, without a stack: it follows the children down and the parents up. */
  method XasFreeNodes(top: Node, ghost t: STree, ghost nodes: map<Pos, Node>)
    requires t.top >= 0 && top == t.nodes[Root(t)].self && Walked(t, nodes, Root(t), 0)
    modifies nodes.Values
    ensures forall k | k in t.nodes :: nodes[k].life == RcuFreed
  {
    var offset: nat := 0;
    var node := top;
    ghost var c := Root(t);
    var done := false;
    while !done
      invariant if done then forall k | k in t.nodes :: nodes[k].life == RcuFreed
                else offset < CHUNK_SIZE && Walked(t, nodes, c, offset) && node == nodes[c]
      decreases !done, Shl(CHUNK_SIZE, t.top) - Spot(c, offset), c.level
    {
      Here(t, nodes, c, offset);
      done, node, offset, c := FreeTurn(node, offset, top, t, nodes, c);
    }
  }

  /** xas_init_marks at the head of an array that holds nothing. */
  method InitHeadMarks(xa: XArray)
    modifies xa`marks
    ensures xa.marks == FreeMarks(xa.trackFree)
  {
    ghost var flags := xa.marks;
    var mark: nat := 0;
    while true
      invariant mark <= MARK_MAX && xa.marks == ResetFlags(flags, xa.trackFree, mark)
      decreases MARK_MAX - mark
    {
      xa.marks := xa.marks[mark := xa.trackFree && mark == FREE_MARK];
      if mark == MARK_MAX {
        break;
      }
      mark := mark + 1;
    }
    ResetAll(flags, xa.trackFree);
  }

  /** Before the walk has freed anything. */
  lemma WalkStart(xa: XArray, t: WTree)
    requires xa.Snap() == t && t.top >= 0
    ensures Walked(t, xa.nodes, Root(t), 0)
  {
    ReadBack(xa, t);
    forall k | k in t.nodes ensures xa.nodes[k] == t.nodes[k].self && Fate(t, xa.nodes[k], k, Root(t), 0) {
      PlaceAt(t, k);
      FieldsAt(t, k);
      ShlScale(0, t.top);
      SpotStep(k, 63);
    }
  }

  ghost function EmptyTree(tracked: bool): Tree {
    Tree(Null, FreeMarks(tracked), tracked, -1, map[])
  }

  lemma EmptyTreeHolds(tracked: bool)
    ensures WF(EmptyTree(tracked)) && FreeExact(EmptyTree(tracked))
    ensures forall i: nat :: At(EmptyTree(tracked), i).Null?
  {
  }

  /** xa_destroy leaves an empty array, and every node it had has been freed, once. */
  method XaDestroy(xa: XArray, ghost t: WTree) returns (ghost u: WTree)
    requires xa.Snap() == t
    modifies xa`head, xa`marks, xa`top, xa`nodes, xa.nodes.Values
    ensures xa.Snap() == u && FreeExact(u) && forall i: nat :: At(u, i).Null?
    ensures xa.nodes == map[] && forall n | n in old(xa.nodes.Values) :: n.life == RcuFreed
  {
    EmptyTreeHolds(xa.trackFree);
    u := EmptyTree(xa.trackFree);
    ReadBack(xa, t);
    if t.top >= 0 { WalkStart(xa, t); }
    ghost var nodes := xa.nodes;
    var entry := xa.head;
    xa.head := Null;
    xa.top := -1;
    xa.nodes := map[];
    InitHeadMarks(xa);
    if entry.NodeEntry? {
      XasFreeNodes(entry.node, t, nodes);
    }
    SnapIs(xa, u);
  }
}
