/** xas_find and xas_next_entry: the next present entry. */
module XArrayFind {
  import opened XaIndex
  import opened XaNode
  import opened XaTree
  import opened XaSpan
  import opened XArrayWalk
  import opened XArrayStore

  /** The state of the loop of xas_find: the cursor is at a slot of the node at k, possibly
      one past its last, and nothing is stored from lo up to there. */
  ghost predicate Scanning(t: Tree, xas: XaState, k: Pos, lo: nat) {
    && k in t.nodes && xas.node == AtNode(t.nodes[k].self) && xas.offset <= CHUNK_SIZE
    && xas.index == Spot(k, xas.offset) % ULONG && lo <= Spot(k, xas.offset) && NoneIn(t, lo, Spot(k, xas.offset))
  }

  /** xas_advance */
  method XasAdvance(xas: XaState) returns (out: XaState)
    requires xas.node.AtNode?
    ensures out == xas.(offset := xas.offset + 1, index := MoveIndex(xas.index, xas.node.node.shift, xas.offset + 1))
  {
    out := xas.(offset := xas.offset + 1);
    out := out.(index := MoveIndex(out.index, out.node.node.shift, out.offset));
  }

  /** Past an empty slot, or past an entry already processed. */
  lemma ScanNext(xa: XArray, t: STree, xas: XaState, k: Pos, lo: nat)
    requires xa.Snap() == t && k in t.nodes && xas.node == AtNode(t.nodes[k].self) && xas.offset < CHUNK_SIZE
    requires xas.index == Spot(k, xas.offset) % ULONG && lo <= Spot(k, xas.offset + 1)
    requires NoneIn(t, lo, Spot(k, xas.offset + 1))
    ensures Scanning(t, xas.(offset := xas.offset + 1, index := MoveIndex(xas.index, xas.node.node.shift, xas.offset + 1)), k, lo)
  {
    NodeFields(xa, t, k);
    MoveIs(t, k, xas.offset, xas.offset + 1);
  }

  lemma ScanPast(xa: XArray, t: STree, xas: XaState, k: Pos, lo: nat)
    requires xa.Snap() == t && Scanning(t, xas, k, lo) && xas.offset < CHUNK_SIZE
    requires t.nodes[k].slots[xas.offset].Null?
    ensures Scanning(t, xas.(offset := xas.offset + 1, index := MoveIndex(xas.index, xas.node.node.shift, xas.offset + 1)), k, lo)
  {
    SpotEmpty(t, k, xas.offset);
    SpotStep(k, xas.offset);
    assert forall i: nat {:trigger At(t, i)} | lo <= i < Spot(k, xas.offset + 1) ::
      i < Spot(k, xas.offset) || Spot(k, xas.offset) <= i < Spot(k, xas.offset + 1);
    ScanNext(xa, t, xas, k, lo);
  }

  /** From one past the last slot of a node to the next slot of its parent. */
  lemma ScanUp(xa: XArray, t: STree, xas: XaState, k: Pos, lo: nat)
    requires xa.Snap() == t && t.top >= 0 && Scanning(t, xas, k, lo) && xas.offset == CHUNK_SIZE
    ensures var node := xas.node.node;
      if node.parent == null then NoneIn(t, lo, ULONG) && xas.index == Spot(Root(t), CHUNK_SIZE) % ULONG
      else Scanning(t, xas.(offset := node.offset + 1, node := AtNode(node.parent)), k.Up(), lo) && k.level < t.top
    ensures xas.node.node.parent != null ==> Spot(k.Up(), xas.node.node.offset + 1) == Spot(k, CHUNK_SIZE)
  {
    NodeFields(xa, t, k);
    ParentAt(t, k);
    PlaceAt(t, k);
    SpotUp(k);
    NoneBeyond(t, ULONG);
  }

  /** Into a child. */
  lemma ScanDown(xa: XArray, t: STree, xas: XaState, k: Pos, lo: nat, node: Node)
    requires xa.Snap() == t && Scanning(t, xas, k, lo) && xas.offset < CHUNK_SIZE
    requires t.nodes[k].slots[xas.offset] == NodeEntry(node)
    ensures k.level > 0 && Scanning(t, xas.(offset := 0, node := AtNode(node)), k.Down(xas.offset), lo)
    ensures Spot(k.Down(xas.offset), 0) == Spot(k, xas.offset)
  {
    SlotAt(t, k, xas.offset);
    SpotDown(k, xas.offset);
  }

  /** The cursor is at the first present entry from lo on. */
  ghost predicate FoundFrom(t: Tree, xas: XaState, entry: Entry, lo: nat) {
    && lo <= xas.index <= ULONG_MAX && entry == At(t, xas.index) && !entry.Null?
    && NoneIn(t, lo, xas.index) && AtSlot(t, xas)
  }

  lemma ScanFound(t: STree, xas: XaState, k: Pos, lo: nat, entry: Entry)
    requires Scanning(t, xas, k, lo) && xas.offset < CHUNK_SIZE
    requires entry == t.nodes[k].slots[xas.offset] && !entry.Null? && !entry.NodeEntry?
    ensures FoundFrom(t, xas, entry, lo)
  {
    SlotAt(t, k, xas.offset);
    SpotInUse(t, k, xas.offset);
    SpotStep(k, xas.offset);
    PathAt(k, xas.offset, xas.index);
    PlaceAt(t, k);
  }

  /** How far the loop of xas_find still has to go: indices first, and then, at one index,
      the climb before the descent. */
  ghost function ScanRank(t: Tree, xas: XaState, k: Pos): int {
    if xas.offset == CHUNK_SIZE then 20 + t.top - k.level else k.level
  }

  /** The indices that the loop of xas_find has still to pass. */
  ghost function ScanLeft(t: Tree, xas: XaState, k: Pos): int
    requires t.top >= 0
  {
    Shl(CHUNK_SIZE, t.top) - Spot(k, xas.offset)
  }

  lemma ScanBound(t: STree, xas: XaState, k: Pos, lo: nat)
    requires Scanning(t, xas, k, lo)
    ensures 0 <= k.level <= t.top && ScanLeft(t, xas, k) >= 0
  {
    SpotBound(t, k, xas.offset);
  }

  /** The search has come out above the head: its index is the first beyond its reach. */
  ghost predicate Passed(t: Tree, xas: XaState, lo: nat) {
    NoneIn(t, lo, ULONG) && t.top >= 0 && xas.index == Spot(Root(t), CHUNK_SIZE) % ULONG
  }

  /** One turn of the loop of xas_find. */
  method FindTurn(xa: XArray, xas: XaState, ghost t: WTree, ghost k: Pos, ghost lo: nat)
    returns (entry: Entry, out: XaState, ghost next: Pos)
    requires xa.Snap() == t && t.top >= 0 && Scanning(t, xas, k, lo)
    ensures out.alloc == xas.alloc && !entry.NodeEntry?
    ensures !entry.Null? ==> FoundFrom(t, out, entry, lo) && out == xas
    ensures entry.Null? ==> if out.node == NoNode then Passed(t, out, lo) else Scanning(t, out, next, lo)
    ensures entry.Null? && out.node != NoNode ==>
      ScanLeft(t, out, next) < ScanLeft(t, xas, k) || (ScanLeft(t, out, next) == ScanLeft(t, xas, k) && ScanRank(t, out, next) < ScanRank(t, xas, k))
  {
    var node := xas.node.node;
    ScanBound(t, xas, k, lo);
    next := k;
    if xas.offset == CHUNK_SIZE {
      ScanUp(xa, t, xas, k, lo);
      return Null, xas.(offset := node.offset + 1, node := if node.parent == null then NoNode else AtNode(node.parent)), k.Up();
    }
    NodeFields(xa, t, k);
    entry := node.slots[xas.offset];
    if entry.NodeEntry? {
      ScanDown(xa, t, xas, k, lo, entry.node);
      return Null, xas.(node := AtNode(entry.node), offset := 0), k.Down(xas.offset);
    }
    if !entry.Null? {
      ScanFound(t, xas, k, lo, entry);
      return entry, xas, k;
    }
    ScanPast(xa, t, xas, k, lo);
    SpotStep(k, xas.offset);
    out := XasAdvance(xas);
  }

  /** The loop of xas_find. */
  method FindLoop(xa: XArray, xas: XaState, max: nat, ghost t: WTree, ghost from: Pos, ghost lo: nat)
    returns (entry: Entry, out: XaState)
    requires xa.Snap() == t && t.top >= 0 && max <= ULONG_MAX && Scanning(t, xas, from, lo)
    ensures if entry.Null? then NoneIn(t, lo, max + 1) else FoundFrom(t, out, entry, lo) && out.index <= max
    ensures out.alloc == xas.alloc && !out.node.Error?
    ensures entry.Null? && Shl(CHUNK_SIZE, t.top) <= max ==> out.node == Bounds && out.index == Shl(CHUNK_SIZE, t.top)
  {
    out := xas;
    ghost var k := from;
    while out.node.AtNode? && out.index <= max
      invariant if out.node.AtNode? then Scanning(t, out, k, lo) else Passed(t, out, lo) && out.node == NoNode
      invariant out.alloc == xas.alloc
      decreases out.node.AtNode?, ScanLeft(t, out, k), ScanRank(t, out, k)
    {
      ScanBound(t, out, k, lo);
      entry, out, k := FindTurn(xa, out, t, k, lo);
      if !entry.Null? {
        return;
      }
      if out.node.AtNode? { ScanBound(t, out, k, lo); }
    }
    entry := Null;
    if !out.node.AtNode? {
      out := out.(node := Bounds);
    } else {
      ScanBound(t, out, k, lo);
    }
  }

  /** Where a search with this cursor begins: an entry the cursor is at has been processed. */
  ghost function SearchFrom(xas: XaState): nat {
    if xas.node == Restart then xas.index else xas.index + 1
  }

  /** What xas_find promises: the first present entry, if there is one up to max. */
  ghost predicate FindResult(t: Tree, xas: XaState, max: nat, entry: Entry, out: XaState) {
    if entry.Null? then NoneIn(t, SearchFrom(xas), max + 1)
    else FoundFrom(t, out, entry, SearchFrom(xas)) && out.index <= max
  }

  /** The cursor at an empty slot or at an entry moves on. */
  lemma FirstAdvance(xa: XArray, t: WTree, xas: XaState, level: nat, lo: nat)
    requires xa.Snap() == t && Settled(t, xas, level) && xas.index <= ULONG_MAX
    requires lo == xas.index + 1 || (lo == xas.index && At(t, lo).Null?)
    ensures t.top >= 0
    ensures Scanning(t, xas.(offset := xas.offset + 1, index := MoveIndex(xas.index, xas.node.node.shift, xas.offset + 1)),
                     PathPos(xas.index, level), lo)
  {
    hide Structure;
    var k := PathPos(xas.index, level);
    PlaceAt(t, k);
    NodeFields(xa, t, k);
    SpotOfPath(xas.index, level);
    if level > 0 {
      SpotEmpty(t, k, xas.offset);
      MoveFrom(t, k, xas.index, xas.offset, xas.offset + 1);
    } else {
      ScanNext(xa, t, xas, k, lo);
    }
  }

  /** An index inside the stretch of a slot moves as the first index of that stretch does. */
  lemma MoveFrom(t: STree, k: Pos, index: nat, o: Offset, next: nat)
    requires k in t.nodes && index <= ULONG_MAX && Spot(k, o) <= index < Spot(k, o + 1)
    ensures MoveIndex(index, CHUNK_SHIFT * k.level, next) == Spot(k, next) % ULONG
  {
    PathAt(k, o, index);
    MoveIs(t, k, o, next);
    AboveSpot(t, k, o);
    assert CHUNK_SHIFT * k.level / CHUNK_SHIFT == k.level;
  }

  /** The entry of the first index, or nothing at all, settles the search. */
  lemma LoadedResult(t: WTree, xas: XaState, max: nat, entry: Entry, out: XaState, level: int)
    requires xas.node == Restart && xas.index <= max <= ULONG_MAX && out.index == xas.index && entry == At(t, xas.index)
    requires if out.node.Bounds? then !InRange(t, xas.index) else Settled(t, out, level)
    requires !entry.Null? || out.node.NotNode()
    ensures FindResult(t, xas, max, entry, out)
  {
    if !entry.Null? {
      if out.node.Bounds? { OutOfRange(t, xas.index); }
      SettledAtEntry(t, out, level);
    } else {
      forall i: nat | xas.index <= i < max + 1 ensures At(t, i).Null? {
        if t.top >= 0 {
          ShrMonotone(xas.index, i, t.top + 1);
          OutOfRange(t, i);
        }
      }
    }
  }

  /** The search is to go on beyond what the array can hold at its present height. */
  ghost predicate Exhausts(t: Tree, xas: XaState, max: nat) {
    && !xas.node.Error? && !xas.node.Bounds? && InRange(t, xas.index) && t.top >= 0
    && xas.index <= max && Shl(CHUNK_SIZE, t.top) <= max
  }

  /** xas_find.  A search that exhausts the array leaves the first index it cannot hold. */
  method XasFind(xa: XArray, xas: XaState, max: nat, ghost t: WTree, ghost from: int) returns (entry: Entry, out: XaState)
    requires xa.Snap() == t && xas.index <= ULONG_MAX && max <= ULONG_MAX
    requires !xas.node.Invalid() ==> Settled(t, xas, from)
    ensures xas.node.Error? || xas.node.Bounds? ==> entry == Null && out == xas
    ensures !xas.node.Error? && !xas.node.Bounds? ==> FindResult(t, xas, max, entry, out) && !out.node.Error?
    ensures out.alloc == xas.alloc
    ensures Exhausts(t, xas, max) && entry.Null? ==> out.node == Bounds && out.index == Shl(CHUNK_SIZE, t.top)
  {
    if xas.node.Error? || xas.node.Bounds? {
      return Null, xas;
    }
    if xas.index > max {
      return Null, xas.(node := Bounds);
    }
    out := xas;
    ghost var level := from;
    if xas.node.AtNode? { NodeFields(xa, t, PathPos(xas.index, from)); }
    if xas.node == NoNode {
      return Null, xas.(index := 1, node := Bounds);
    } else if xas.node == Restart {
      entry, out, level := XasLoad(xa, xas, t, from);
      if !entry.Null? || out.node.NotNode() {
        LoadedResult(t, xas, max, entry, out, level);
        return;
      }
    } else if xas.node.node.shift == 0 && xas.offset != xas.index % CHUNK_SIZE {
      out := out.(offset := (xas.index - 1) % CHUNK_SIZE + 1);
    }
    FirstAdvance(xa, t, out, level, SearchFrom(xas));
    out := XasAdvance(out);
    entry, out := FindLoop(xa, out, max, t, PathPos(xas.index, level), SearchFrom(xas));
  }

  /** Two searches with the same promise agree. */
  lemma FindUnique(t: Tree, xas: XaState, max: nat, entry: Entry, out: XaState, entry': Entry, out': XaState)
    requires FindResult(t, xas, max, entry, out) && FindResult(t, xas, max, entry', out')
    ensures entry == entry' && (!entry.Null? ==> out.index == out'.index)
  {
    if !entry.Null? { assert !At(t, out.index).Null?; }
    if !entry'.Null? { assert !At(t, out'.index).Null?; }
  }

  lemma StepRight(t: STree, xas: XaState)
    requires Stands(t, xas, 0) && xas.offset < CHUNK_MASK
    ensures Stands(t, xas.(offset := xas.offset + 1, index := xas.index + 1), 0)
    ensures t.nodes[PathPos(xas.index, 0)].slots[xas.offset + 1] == At(t, xas.index + 1)
  {
    assert Shr(xas.index, 1) == xas.index / CHUNK_SIZE && Shr(xas.index + 1, 1) == (xas.index + 1) / CHUNK_SIZE;
    PlaceAt(t, PathPos(xas.index, 0));
  }

  lemma FindLater(t: Tree, xas: XaState, mid: XaState, max: nat, entry: Entry, out: XaState)
    requires xas.index <= mid.index && NoneIn(t, xas.index + 1, mid.index + 1) && xas.node != Restart && mid.node != Restart
    requires FindResult(t, mid, max, entry, out)
    ensures FindResult(t, xas, max, entry, out)
  {
    assert forall i: nat {:trigger At(t, i)} | xas.index < i :: i < mid.index + 1 || mid.index + 1 <= i;
  }

  /** xas_next_entry looks at the slots that follow in the same leaf, and leaves all else to
      xas_find; its result is that of xas_find. */
  method XasNextEntry(xa: XArray, xas: XaState, max: nat, ghost t: WTree, ghost from: int) returns (entry: Entry, out: XaState)
    requires xa.Snap() == t && xas.index <= ULONG_MAX && max <= ULONG_MAX
    requires !xas.node.Invalid() ==> Settled(t, xas, from)
    ensures xas.node.Error? || xas.node.Bounds? ==> entry == Null && out == xas
    ensures !xas.node.Error? && !xas.node.Bounds? ==> FindResult(t, xas, max, entry, out) && !out.node.Error?
    ensures out.alloc == xas.alloc
  {
    if xas.node.AtNode? { NodeFields(xa, t, PathPos(xas.index, from)); }
    if xas.node.NotNode() || xas.node.node.shift != 0 || xas.offset != xas.index % CHUNK_SIZE {
      entry, out := XasFind(xa, xas, max, t, from);
      return;
    }
    var node := xas.node.node;
    out := xas;
    while true
      invariant out == xas.(index := out.index, offset := out.offset) && out.offset <= CHUNK_MASK && xas.index <= out.index <= ULONG_MAX
      invariant Stands(t, out, 0) && NoneIn(t, xas.index + 1, out.index + 1)
      decreases CHUNK_MASK - out.offset
    {
      if out.index >= max || out.offset == CHUNK_MASK {
        break;
      }
      NodeFields(xa, t, PathPos(out.index, 0));
      StepRight(t, out);
      entry := node.slots[out.offset + 1];
      if entry.Zero? || entry.Retry? || entry.NodeEntry? {
        break;
      }
      out := out.(offset := out.offset + 1, index := out.index + 1);
      if !entry.Null? {
        PlaceAt(t, PathPos(out.index, 0));
        return;
      }
    }
    ghost var mid := out;
    entry, out := XasFind(xa, out, max, t, 0);
    FindLater(t, xas, mid, max, entry, out);
  }
}
