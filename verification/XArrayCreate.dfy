/** xas_alloc and xas_expand: nodes for the tree, and heads that make it taller. */
module XArrayCreate {
  import opened XaIndex
  import opened XaNode
  import opened XaTree
  import opened XaGrow
  import opened XArrayWalk

  /** A preallocated node must be blank and outside the tree. */
  ghost predicate SpareOk(nodes: map<Pos, Node>, alloc: Node?)
    reads alloc
  {
    alloc != null ==> alloc !in nodes.Values && BlankNode(alloc)
  }

  /** 1 when the preallocated node has been used. */
  ghost function Consumed(before: Node?, after: Node?): nat {
    if before != null && after == null then 1 else 0
  }

  /** A node as the slab hands it out. */
  ghost predicate BlankNode(node: Node)
    reads node
  {
    node.life == Live && node.slots == EmptySlots() && node.marks == NoMarks()
  }

  /** A node as xas_alloc returns it. */
  ghost predicate NewNode(node: Node, shift: nat, parent: Node?)
    reads node
  {
    BlankNode(node) && node.shift == shift && node.count == 0 && node.nrValues == 0 && node.parent == parent
  }

  /** kmem_cache_alloc may fail. */
  method KmemCacheAlloc() returns (node: Node?)
    ensures node != null ==> fresh(node) && BlankNode(node)
  {
    if * {
      node := new Node();
    } else {
      node := null;
    }
  }

  /** kmem_cache_free, of a node that was never in a tree. */
  method KmemCacheFree(node: Node)
    requires node.life == Live
    modifies node`life
    ensures node.life == Freed
  {
    node.life := Freed;
  }

  /** The node xas_alloc works with: the preallocated one, or one from the slab. */
  method TakeNode(xas: XaState) returns (node: Node?, out: XaState)
    requires xas.alloc != null ==> BlankNode(xas.alloc)
    ensures node == null ==> xas.alloc == null && out == xas.(node := Error(ENOMEM))
    ensures node != null ==> (node == xas.alloc || fresh(node)) && BlankNode(node) && out == xas.(alloc := null)
  {
    node := xas.alloc;
    if node != null {
      out := xas.(alloc := null);
    } else {
      node := KmemCacheAlloc();
      out := if node == null then xas.(node := Error(ENOMEM)) else xas;
    }
  }

  /** xas_alloc: a node for the given shift, its parent's count already raised.  The
      slot in the parent is still to be filled.  Callers hold a valid cursor. */
  method XasAlloc(xas: XaState, shift: nat) returns (node: Node?, out: XaState)
    requires !xas.node.Invalid() && (xas.alloc != null ==> BlankNode(xas.alloc))
    requires xas.node.AtNode? ==> xas.node.node != xas.alloc
    modifies xas.alloc
    modifies if xas.node.AtNode? then {xas.node.node} else {}
    ensures node == null ==> xas.alloc == null && out == xas.(node := Error(ENOMEM))
    ensures node != null ==> (node == xas.alloc || fresh(node)) && out == xas.(alloc := null)
    ensures node != null ==> NewNode(node, shift, if xas.node.AtNode? then xas.node.node else null)
    ensures node != null && xas.node.AtNode? ==> node.offset == xas.offset
    ensures xas.node.AtNode? ==> xas.node.node != node
    ensures xas.node.AtNode? ==> var parent := xas.node.node;
      parent.Val() == old(parent.Val()).(count := old(parent.count) + if node != null then 1 else 0)
  {
    node, out := TakeNode(xas);
    if node == null {
      return;
    }
    var parent: Node? := null;
    if xas.node.AtNode? {
      parent := xas.node.node;
      node.offset := xas.offset;
      parent.count := parent.count + 1;
    }
    node.shift := shift;
    node.count := 0;
    node.nrValues := 0;
    node.parent := parent;
  }

  lemma ValuesInsert<K, V>(m: map<K, V>, k: K, v: V)
    requires k !in m
    ensures m[k := v].Values == m.Values + {v}
  {
    forall x | x in m.Values ensures x in m[k := v].Values {
      var l :| l in m && m[l] == x;
      assert m[k := v][l] == x;
    }
    assert m[k := v][k] == v;
  }

  // ---- One turn of the loop of xas_expand -----------------------------------------

  /** The mark loop of xas_expand: the aggregated marks of the array become the mark
      bits of slot 0 of the new head. */
  method PropagateMarks(xa: XArray, node: Node, ghost t: Tree)
    requires xa.marks == t.flags && xa.trackFree == t.tracked && node.marks == NoMarks()
    modifies xa`marks, node`marks
    ensures forall m: Mark :: node.marks[m] == ExpandBits(t, m)
    ensures xa.marks == if t.tracked then t.flags[FREE_MARK := true] else t.flags
  {
    var mark: nat := 0;
    while true
      invariant mark <= MARK_MAX
      invariant forall m: Mark :: node.marks[m] == if m < mark then ExpandBits(t, m) else Fill(false)
      invariant xa.marks == if t.tracked && mark > 0 then t.flags[FREE_MARK := true] else t.flags
      decreases MARK_MAX - mark
    {
      if xa.trackFree && mark == FREE_MARK {
        node.marks := node.marks[FREE_MARK := Fill(true)];
        if !xa.marks[FREE_MARK] {
          node.marks := node.marks[FREE_MARK := node.marks[FREE_MARK][0 := false]];
          xa.marks := xa.marks[FREE_MARK := true];
        }
      } else if xa.marks[mark] {
        node.marks := node.marks[mark := node.marks[mark][0 := true]];
      }
      if mark == MARK_MAX {
        break;
      }
      mark := mark + 1;
    }
  }

  /** Filling a new head before it is linked. */
  method FillHead(xa: XArray, node: Node, head: Entry, ghost t: WTree)
    requires xa.Snap() == t && node !in xa.nodes.Values && head == t.head && !head.Null?
    requires NewNode(node, CHUNK_SHIFT * (t.top + 1), null)
    modifies xa`marks, node`count, node`nrValues, node`slots, node`marks
    ensures xa.Snap() == t.(flags := if t.tracked then t.flags[FREE_MARK := true] else t.flags)
    ensures node.count == 1 && node.nrValues == (if head.Value? then 1 else 0) && node.slots == EmptySlots()[0 := head]
    ensures forall m: Mark :: node.marks[m] == ExpandBits(t, m)
  {
    ReadBack(xa, t);
    node.count := 1;
    if head.Value? {
      node.nrValues := 1;
    }
    node.slots := node.slots[0 := head];
    PropagateMarks(xa, node, t);
    SnapIs(xa, t.(flags := if t.tracked then t.flags[FREE_MARK := true] else t.flags));
  }

  /** rcu_assign_pointer of the head node's parent, with its offset. */
  method SetHeadParent(xa: XArray, child: Node, parent: Node, ghost t: STree)
    requires xa.Snap().nodes == t.nodes && xa.top == t.top >= 0 && xa.head == t.head == NodeEntry(child)
    modifies child`offset, child`parent
    ensures xa.Snap() == old(xa.Snap()).(nodes := t.nodes[Root(t) := t.nodes[Root(t)].(parent := parent, offset := 0)])
  {
    ReadBack(xa, xa.Snap());
    Places(t);
    child.offset := 0;
    child.parent := parent;
    SnapIs(xa, old(xa.Snap()).(nodes := t.nodes[Root(t) := t.nodes[Root(t)].(parent := parent, offset := 0)]));
  }

  /** rcu_assign_pointer of xa_head to a new head. */
  method SetHead(xa: XArray, node: Node, ghost level: nat)
    requires Pos(level, 0) !in xa.nodes && node !in xa.nodes.Values
    modifies xa`head, xa`top, xa`nodes, node`pos
    ensures node.Val() == old(node.Val()).(pos := Pos(level, 0))
    ensures xa.Snap() == old(xa.Snap()).(head := NodeEntry(node), top := level,
                                         nodes := old(xa.Snap()).nodes[Pos(level, 0) := node.Val()])
    ensures xa.nodes.Values == old(xa.nodes.Values) + {node}
  {
    ghost var nodes := xa.Snap().nodes;
    xa.head := NodeEntry(node);
    xa.top := level;
    node.pos := Pos(level, 0);
    ValuesInsert(xa.nodes, node.pos, node);
    xa.nodes := xa.nodes[node.pos := node];
    SnapIs(xa, old(xa.Snap()).(head := NodeEntry(node), top := level, nodes := nodes[node.pos := node.Val()]));
  }

  /** Linking a filled node above the present head. */
  method LinkHead(xa: XArray, node: Node, head: Entry, ghost t: STree)
    requires xa.Snap() == t.(flags := if t.tracked then t.flags[FREE_MARK := true] else t.flags)
    requires node !in xa.nodes.Values && head == t.head && -1 <= t.top < TOP_LEVEL
    modifies xa`head, xa`top, xa`nodes, xa.nodes.Values, node`pos
    ensures node.Val() == old(node.Val()).(pos := Pos(t.top + 1, 0))
    ensures xa.Snap() == Expand(t, node.Val())
    ensures xa.nodes.Values == old(xa.nodes.Values) + {node}
  {
    Places(t);
    assert Pos(t.top + 1, 0) !in t.nodes;
    ReadBack(xa, xa.Snap());
    if head.NodeEntry? {
      SetHeadParent(xa, head.node, node, t);
    }
    SetHead(xa, node, t.top + 1);
  }

  /** A new head above the present one, once its node is allocated. */
  method AddHead(xa: XArray, node: Node, head: Entry, ghost t: WTree)
    requires xa.Snap() == t && node !in xa.nodes.Values && head == t.head && !head.Null?
    requires -1 <= t.top < TOP_LEVEL && NewNode(node, CHUNK_SHIFT * (t.top + 1), null)
    modifies xa`head, xa`marks, xa`top, xa`nodes, xa.nodes.Values, node
    ensures CanExpand(t, node.Val()) && xa.Snap() == Expand(t, node.Val())
    ensures xa.nodes.Values == old(xa.nodes.Values) + {node}
  {
    FillHead(xa, node, head, t);
    LinkHead(xa, node, head, t);
  }

  // ---- max_index ------------------------------------------------------------------

  /** The largest index of a tree whose head is at this level. */
  ghost function MaxAt(top: int): nat {
    if top < 0 then 0 else MaxIndexOf(top)
  }

  ghost function MaxOf(t: Tree): nat {
    MaxAt(t.top)
  }

  lemma MaxCovers(t: STree, index: nat)
    requires index <= ULONG_MAX
    ensures index <= MaxOf(t) <==> InRange(t, index)
    ensures t.top == TOP_LEVEL ==> index <= MaxOf(t)
  {
    if t.top >= 0 { MaxIndexCovers(t.top, index); }
  }

  /** max_index */
  method MaxIndex(xa: XArray, head: Entry, ghost t: STree) returns (max: nat)
    requires xa.Snap() == t && head == t.head
    ensures max == MaxOf(t)
  {
    if !head.NodeEntry? {
      return 0;
    }
    NodeFields(xa, t, Root(t));
    max := MaxIndexOf(head.node.shift / CHUNK_SHIFT);
  }

  // ---- xas_expand -----------------------------------------------------------------

  /** The height an empty array is given for its first index: the least that reaches it. */
  ghost predicate FirstShift(index: nat, shift: nat) {
    if index == 0 then shift == 0
    else
      && shift % CHUNK_SHIFT == 0 && 0 < shift <= CHUNK_SHIFT * (TOP_LEVEL + 1)
      && Shr(index, shift / CHUNK_SHIFT) == 0 && Shr(index, shift / CHUNK_SHIFT - 1) > 0
  }

  /** The first branch of xas_expand: how tall an empty array has to become. */
  method FirstHeight(max: nat) returns (ret: nat)
    requires max <= ULONG_MAX
    ensures FirstShift(max, ret)
  {
    if max == 0 {
      return 0;
    }
    TopLevels();
    var shift: nat := 0;
    while Shr(max, shift / CHUNK_SHIFT) >= CHUNK_SIZE
      invariant shift % CHUNK_SHIFT == 0 && shift / CHUNK_SHIFT <= TOP_LEVEL && Shr(max, shift / CHUNK_SHIFT) > 0
      decreases TOP_LEVEL - shift / CHUNK_SHIFT
    {
      shift := shift + CHUNK_SHIFT;
    }
    ret := shift + CHUNK_SHIFT;
  }

  /** The head node, the shift of the next head above it, and max_index. */
  method HeadShape(xa: XArray, head: Entry, ghost t: WTree) returns (node: Node?, shift: nat, limit: nat)
    requires xa.Snap() == t && head == t.head
    ensures shift == CHUNK_SHIFT * (t.top + 1) && limit == MaxOf(t) && t.top <= TOP_LEVEL
    ensures if t.top < 0 then node == null else node != null && head == NodeEntry(node)
  {
    limit := MaxIndex(xa, head, t);
    if head.NodeEntry? {
      NodeFields(xa, t, Root(t));
      return head.node, head.node.shift + CHUNK_SHIFT, limit;
    }
    return null, 0, limit;
  }

  /** A new head above the present one, if there is memory for it. */
  method GrowHead(xa: XArray, xas: XaState, head: Entry, shift: nat, ghost t: WTree)
    returns (node: Node?, out: XaState, ghost u: WTree)
    requires xa.Snap() == t && SpareOk(xa.nodes, xas.alloc) && xas.node == NoNode
    requires t.top < TOP_LEVEL && head == t.head && !head.Null? && shift == CHUNK_SHIFT * (t.top + 1)
    modifies xa`head, xa`marks, xa`top, xa`nodes, xa.nodes.Values, xas.alloc
    ensures xa.Snap() == u && Grown(t, u)
    ensures node == null ==> u == t && xas.alloc == null && out == xas.(node := Error(ENOMEM))
    ensures node != null ==> out == xas.(alloc := null) && u.top == t.top + 1 && u.head == NodeEntry(node)
    ensures node != null ==> Missing(u, xas.index) < Missing(t, xas.index)
    ensures fresh(xa.nodes.Values - old(xa.nodes.Values) - {xas.alloc})
  {
    hide Structure;
    u := t;
    node, out := XasAlloc(xas, shift);
    if node != null {
      AddHead(xa, node, head, t);
      ExpandStep(t, node.Val(), xas.index);
      u := Expand(t, node.Val());
    }
  }

  /** One turn of the loop of xas_expand. */
  method ExpandOnce(xa: XArray, xas: XaState, head: Entry, shift: nat, ghost t: WTree)
    returns (node: Node?, out: XaState, limit: nat, ghost u: WTree)
    requires xa.Snap() == t && SpareOk(xa.nodes, xas.alloc) && xas.node == NoNode
    requires MaxOf(t) < xas.index <= ULONG_MAX && head == t.head && !head.Null? && shift == CHUNK_SHIFT * (t.top + 1)
    modifies xa`head, xa`marks, xa`top, xa`nodes, xa.nodes.Values, xas.alloc
    ensures xa.Snap() == u && Grown(t, u)
    ensures node == null ==> u == t && xas.alloc == null && out == xas.(node := Error(ENOMEM))
    ensures node != null ==> out == xas.(alloc := null) && u.top == t.top + 1 <= TOP_LEVEL && u.head == NodeEntry(node)
    ensures node != null ==> Missing(u, xas.index) < Missing(t, xas.index) && limit == MaxOf(u)
    ensures fresh(xa.nodes.Values - old(xa.nodes.Values) - {xas.alloc})
  {
    limit := 0;
    MaxCovers(t, xas.index);
    node, out, u := GrowHead(xa, xas, head, shift, t);
    if node != null {
      limit := MaxIndex(xa, xa.head, u);
    }
  }

  /** The loop of xas_expand, for an array that is not empty. */
  method ExpandLoop(xa: XArray, xas: XaState, head: Entry, ghost t: WTree)
    returns (node: Node?, shift: nat, out: XaState, ghost u: WTree)
    requires xa.Snap() == t && head == t.head && !head.Null? && xas.index <= ULONG_MAX
    requires SpareOk(xa.nodes, xas.alloc) && xas.node == NoNode
    modifies xa`head, xa`marks, xa`top, xa`nodes, xa.nodes.Values, xas.alloc
    ensures xa.Snap() == u && Grown(t, u) && SpareOk(xa.nodes, out.alloc)
    ensures out.node.Error? ==> out == xas.(node := Error(ENOMEM), alloc := null)
    ensures !out.node.Error? ==> out == xas.(alloc := out.alloc) && (out.alloc == null || out.alloc == xas.alloc)
    ensures !out.node.Error? ==> xas.index <= MaxOf(u) && !u.head.Null? && shift == CHUNK_SHIFT * (u.top + 1)
    ensures !out.node.Error? ==> if u.top < 0 then node == null else node != null && u.head == NodeEntry(node)
    ensures t.top < u.top ==> xas.index > MaxAt(u.top - 1)
    ensures xas.index <= MaxOf(t) ==> u == t && !out.node.Error?
    ensures Missing(u, xas.index) <= Missing(t, xas.index) - Consumed(xas.alloc, out.alloc)
    ensures fresh(xa.nodes.Values - old(xa.nodes.Values) - {xas.alloc})
  {
    hide WF, Structure, Missing, MaxAt, Grown, xa.Snap;
    GrownSelf(t);
    u, out := t, xas;
    var top, limit := head, 0;
    node, shift, limit := HeadShape(xa, top, t);
    while xas.index > limit
      invariant xa.Snap() == u && Grown(t, u) && SpareOk(xa.nodes, out.alloc)
      invariant out == xas.(alloc := out.alloc) && (out.alloc == null || out.alloc == xas.alloc)
      invariant top == u.head && !top.Null? && shift == CHUNK_SHIFT * (u.top + 1) && limit == MaxOf(u) && u.top <= TOP_LEVEL
      invariant Missing(u, xas.index) <= Missing(t, xas.index) - Consumed(xas.alloc, out.alloc)
      invariant fresh(xa.nodes.Values - old(xa.nodes.Values) - {xas.alloc})
      invariant if u.top < 0 then node == null else node != null && u.head == NodeEntry(node)
      invariant t.top < u.top ==> xas.index > MaxAt(u.top - 1)
      invariant xas.index <= MaxOf(t) ==> u == t
      decreases TOP_LEVEL - u.top
    {
      ghost var before := u;
      node, out, limit, u := ExpandOnce(xa, out, top, shift, u);
      GrownJoin(t, before, u);
      if node == null {
        return;
      }
      top := NodeEntry(node);
      shift := shift + CHUNK_SHIFT;
    }
  }

  /** xas_expand makes the tree tall enough for the index, and no taller.  It may fail half
      way; the heads added by then stay, and the content is the same in any case. */
  method XasExpand(xa: XArray, xas: XaState, head: Entry, ghost t: WTree)
    returns (ret: int, out: XaState, ghost u: WTree)
    requires xa.Snap() == t && head == t.head && xas.index <= ULONG_MAX
    requires SpareOk(xa.nodes, xas.alloc) && xas.node == NoNode
    modifies xa`head, xa`marks, xa`top, xa`nodes, xa.nodes.Values, xas.alloc
    ensures xa.Snap() == u && Grown(t, u) && SpareOk(xa.nodes, out.alloc)
    ensures out.index == xas.index && (out.alloc == null || out.alloc == xas.alloc)
    ensures head.Null? ==> u == t && out == xas && ret >= 0 && FirstShift(xas.index, ret)
    ensures !head.Null? && ret >= 0 ==> InRange(u, xas.index) && !u.head.Null? && ret == CHUNK_SHIFT * (u.top + 1)
    ensures !head.Null? && ret >= 0 ==> out.node == if u.top < 0 then NoNode else AtNode(u.head.node)
    ensures t.top < u.top ==> xas.index > MaxAt(u.top - 1)
    ensures ret < 0 ==> out.node == Error(ENOMEM) && out.alloc == null
    ensures InRange(t, xas.index) ==> u == t && ret >= 0
    ensures Missing(u, xas.index) <= Missing(t, xas.index) - Consumed(xas.alloc, out.alloc)
    ensures fresh(xa.nodes.Values - old(xa.nodes.Values) - {xas.alloc})
  {
    hide Structure, WF;
    if head.Null? {
      ret := FirstHeight(xas.index);
      return ret, xas, t;
    }
    MaxCovers(t, xas.index);
    var node, shift;
    node, shift, out, u := ExpandLoop(xa, xas, head, t);
    if out.node.Error? {
      return -ENOMEM, out, u;
    }
    MaxCovers(u, xas.index);
    out := out.(node := if node == null then NoNode else AtNode(node));
    ret := shift;
  }
}
