/** struct xarray, struct xa_state, and the walk that loads an entry. */
module XArrayWalk {
  import opened XaIndex
  import opened XaNode
  import opened XaTree

  const ENOMEM: int := 12
  const EBUSY: int := 16

  class XArray {
    var head: Entry
    /** The mark bits of xa_flags. */
    var marks: Flags
    /** XA_FLAGS_TRACK_FREE */
    const trackFree: bool
    /** XA_FLAGS_ALLOC_WRAPPED */
    var allocWrapped: bool
    /** The level of the head node, or -1; and every node, by place. */
    ghost var top: int
    ghost var nodes: map<Pos, Node>

    /** xa_init_flags with 0 or XA_FLAGS_ALLOC */
    constructor (trackFree: bool)
      ensures this.trackFree == trackFree && nodes == map[] && !allocWrapped
      ensures WF(Snap()) && FreeExact(Snap())
      ensures forall i: nat :: At(Snap(), i).Null?
    {
      this.trackFree := trackFree;
      head := Null;
      marks := [trackFree, false, false];
      allocWrapped := false;
      top := -1;
      nodes := map[];
    }

    /** The tree in memory, as a value. */
    ghost function Snap(): Tree
      reads this, nodes.Values
    {
      Tree(head, marks, trackFree, top, map k | k in nodes :: nodes[k].Val())
    }
  }

  /** The values of xa_node in a cursor: NULL, a node, XAS_BOUNDS, XAS_RESTART, an error. */
  datatype Cursor = NoNode | AtNode(node: Node) | Bounds | Restart | Error(errno: int)
  {
    /** xas_invalid */
    predicate Invalid() { Bounds? || Restart? || Error? }
    /** xas_top */
    predicate Top() { NoNode? || Bounds? || Restart? }
    /** xas_not_node */
    predicate NotNode() { !AtNode? }
  }

  /** A cursor lives on its caller's stack and is not shared; the functions that move it
      are given it and give it back. */
  datatype XaState = XaState(index: nat, offset: nat, node: Cursor, alloc: Node?)

  /** XA_STATE */
  function NewState(index: nat): XaState {
    XaState(index, 0, Restart, null)
  }

  /** The cursor stands in the path node of its index at this level; at level -1 the
      head entry serves the index. */
  ghost predicate Stands(t: Tree, xas: XaState, level: int) {
    if level == -1 then xas.node == NoNode && t.top < 0 && xas.index == 0
    else
      && level >= 0 && PathPos(xas.index, level) in t.nodes
      && xas.node == AtNode(t.nodes[PathPos(xas.index, level)].self) && xas.offset == Digit(xas.index, level)
  }

  /** The cursor stands where the tree ends for its index: in a leaf, above an empty
      slot, or at the head entry. */
  ghost predicate Settled(t: Tree, xas: XaState, level: int) {
    && Stands(t, xas, level)
    && (level > 0 ==> t.nodes[PathPos(xas.index, level)].slots[Digit(xas.index, level)].Null?)
  }

  /** The cursor stands at the slot of its index: in its leaf, or at the head entry. */
  ghost predicate AtSlot(t: Tree, xas: XaState) {
    Stands(t, xas, if t.top < 0 then -1 else 0)
  }

  /** get_offset */
  function GetOffset(index: nat, shift: nat): Offset {
    Digit(index, shift / CHUNK_SHIFT)
  }

  // ---- From memory to values and back ---------------------------------------------

  /** A node of the tree in memory. */
  lemma NodeFields(xa: XArray, t: STree, k: Pos)
    requires xa.Snap() == t && k in t.nodes
    ensures k in xa.nodes && t.nodes[k].self == xa.nodes[k] && t.nodes[k] == xa.nodes[k].Val()
    ensures xa.nodes[k].shift == CHUNK_SHIFT * k.level && xa.nodes[k].shift / CHUNK_SHIFT == k.level
    ensures xa.nodes[k].pos == k && k.level <= xa.top <= TOP_LEVEL
  {
    FieldsAt(t, k);
    PlaceAt(t, k);
  }

  /** All nodes of the tree in memory. */
  lemma ReadBack(xa: XArray, u: Tree)
    requires xa.Snap() == u
    ensures xa.nodes.Keys == u.nodes.Keys
    ensures forall k | k in u.nodes :: xa.nodes[k].Val() == u.nodes[k]
  {
    assert xa.Snap().nodes.Keys == xa.nodes.Keys;
  }

  lemma Places(t: STree)
    ensures forall k | k in t.nodes :: t.nodes[k].pos == k && k.level <= t.top
  {
    forall k | k in t.nodes ensures t.nodes[k].pos == k && k.level <= t.top { PlaceAt(t, k); }
  }

  /** The tree in memory after some of its nodes have changed. */
  lemma SnapIs(xa: XArray, u: Tree)
    requires xa.head == u.head && xa.marks == u.flags && xa.trackFree == u.tracked && xa.top == u.top
    requires xa.nodes.Keys == u.nodes.Keys
    requires forall k | k in u.nodes :: xa.nodes[k].Val() == u.nodes[k]
    ensures xa.Snap() == u
  {
    assert xa.Snap().nodes == u.nodes;
  }

  // ---- xas_load -------------------------------------------------------------------

  /** The state of the loop of xas_load: entry is what the walk sees at this level, and
      the cursor stands one level up, or has not moved yet. */
  ghost predicate Loading(t: Tree, xas: XaState, entry: Entry, level: int) {
    && !xas.node.Invalid() && -1 <= level && entry == Seen(t, xas.index, level)
    && (entry.NodeEntry? || if t.top < 0 then Stands(t, xas, -1) else Settled(t, xas, level + 1))
  }

  /** xas_start, for a cursor that is in error, fresh, or on the right path. */
  method XasStart(xa: XArray, xas: XaState, ghost t: WTree, ghost level: int) returns (entry: Entry, out: XaState)
    requires xa.Snap() == t && xas.index <= ULONG_MAX
    requires !xas.node.Invalid() ==> Stands(t, xas, level)
    ensures xas.node.Error? ==> out == xas && entry == Null
    ensures !xas.node.Invalid() ==> out == xas && Loading(t, out, entry, if level == -1 then -1 else level - 1)
    ensures xas.node.Bounds? || xas.node.Restart? ==>
              if InRange(t, xas.index) then out == xas.(node := NoNode) && Loading(t, out, entry, t.top)
              else out == xas.(node := Bounds) && entry == Null
  {
    if !xas.node.Invalid() {
      // xas_reload
      if xas.node.AtNode? {
        NodeFields(xa, t, PathPos(xas.index, level));
        SeenBelow(t, xas.index, level);
        return xas.node.node.slots[xas.offset], xas;
      }
      return xa.head, xas;
    }
    if xas.node.Error? {
      return Null, xas;
    }
    entry := xa.head;
    if !entry.NodeEntry? {
      if xas.index != 0 {
        return Null, xas.(node := Bounds);
      }
    } else {
      NodeFields(xa, t, Root(t));
      if Shr(xas.index, entry.node.shift / CHUNK_SHIFT) > CHUNK_MASK {
        return Null, xas.(node := Bounds);
      }
    }
    SeenAtHead(t, xas.index);
    out := xas.(node := NoNode);
  }

  method XasDescend(xas: XaState, node: Node) returns (entry: Entry, out: XaState)
    ensures out == xas.(node := AtNode(node), offset := GetOffset(xas.index, node.shift))
    ensures entry == node.slots[out.offset]
  {
    var offset := GetOffset(xas.index, node.shift);
    entry := node.slots[offset];
    out := xas.(node := AtNode(node), offset := offset);
  }

  lemma LoadStep(xa: XArray, xas: XaState, t: WTree, node: Node, entry: Entry, level: int)
    requires xa.Snap() == t && level >= -1 && Seen(t, xas.index, level) == NodeEntry(node)
    requires xas.node == AtNode(node) && xas.offset == GetOffset(xas.index, node.shift) && entry == node.slots[xas.offset]
    ensures level >= 0 && Loading(t, xas, entry, level - 1)
    ensures node.shift == 0 <==> level == 0
    ensures level == 0 ==> !entry.NodeEntry?
  {
    SeenStorable(t, xas.index);
    NodeFields(xa, t, PathPos(xas.index, level));
    SeenBelow(t, xas.index, level);
  }

  lemma LoadDone(t: WTree, xas: XaState, entry: Entry, level: int)
    requires Loading(t, xas, entry, level) && !entry.NodeEntry?
    ensures entry == At(t, xas.index) && Settled(t, xas, if t.top < 0 then -1 else level + 1)
  {
  }

  /** xas_load finds the entry of the index, and leaves the cursor where the tree ends
      for that index, or out of bounds. */
  method XasLoad(xa: XArray, xas: XaState, ghost t: WTree, ghost from: int)
    returns (entry: Entry, out: XaState, ghost level: int)
    requires xa.Snap() == t && xas.index <= ULONG_MAX
    requires !xas.node.Invalid() ==> Stands(t, xas, from)
    ensures xas.node.Error? ==> out == xas && entry == Null
    ensures !xas.node.Error? ==> entry == At(t, xas.index) && entry.Storable()
    ensures !xas.node.Error? ==> out.index == xas.index && out.alloc == xas.alloc
    ensures !xas.node.Error? ==> if out.node.Bounds? then !InRange(t, xas.index) else Settled(t, out, level)
  {
    hide Seen, Structure, Settled, WF;
    level := if xas.node.Invalid() then t.top else if from == -1 then -1 else from - 1;
    entry, out := XasStart(xa, xas, t, from);
    ghost var walking := !out.node.Invalid();
    while entry.NodeEntry?
      invariant out.index == xas.index && out.alloc == xas.alloc
      invariant !walking ==> entry == Null && out.node == (if xas.node.Error? then xas.node else Bounds)
      invariant !walking && xas.node.Error? ==> out == xas
      invariant walking ==> Loading(t, out, entry, level)
      decreases level
    {
      var node := entry.node;
      entry, out := XasDescend(out, node);
      LoadStep(xa, out, t, node, entry, level);
      level := level - 1;
      if node.shift == 0 {
        break;
      }
    }
    SeenStorable(t, xas.index);
    if walking {
      LoadDone(t, out, entry, level);
      level := if t.top < 0 then -1 else level + 1;
    } else if !xas.node.Error? {
      OutOfRange(t, xas.index);
    }
  }
}
