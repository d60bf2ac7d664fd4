/** xas_find_marked: the next index with a mark; with the free mark of an allocating array,
    the next free index. */
module XArrayFindMarked {
  import opened XaIndex
  import opened XaNode
  import opened XaTree
  import opened XaSpan
  import opened XArrayWalk
  import opened XArrayCreate
  import opened XArrayMark
  import opened XArrayApi
  import opened XArrayFind

  /** No index from lo up to, and not including, hi has the mark. */
  ghost predicate NoMark(t: Tree, m: Mark, lo: nat, hi: nat) {
    forall i: nat {:trigger Marked(t, i, m)} | lo <= i < hi :: !Marked(t, i, m)
  }

  /** xas_find_chunk: the first set bit at or after the offset, or 64. */
  method XasFindChunk(node: Node, offset: nat, advance: bool, mark: Mark) returns (next: nat)
    ensures next <= CHUNK_SIZE && (next < CHUNK_SIZE ==> node.marks[mark][next])
    ensures var start := if advance then offset + 1 else offset;
      (start <= CHUNK_SIZE ==> start <= next) && forall o: Offset | start <= o < next :: !node.marks[mark][o]
  {
    next := if advance then offset + 1 else offset;
    while next < CHUNK_SIZE && !node.marks[mark][next]
      invariant (if advance then offset + 1 else offset) <= next
      invariant next <= CHUNK_SIZE || next == if advance then offset + 1 else offset
      invariant forall o: Offset | (if advance then offset + 1 else offset) <= o < next :: !node.marks[mark][o]
    {
      next := next + 1;
    }
    if next > CHUNK_SIZE {
      next := CHUNK_SIZE;
    }
  }

  /** The search is at this slot: nothing from lo up to the cursor's index is marked, and the
      index lies below the slot, or starts what follows the node's last slot. */
  ghost predicate Seeking(t: Tree, xas: XaState, k: Pos, m: Mark, lo: nat) {
    && k in t.nodes && xas.node == AtNode(t.nodes[k].self) && xas.offset <= CHUNK_SIZE
    && lo <= xas.index <= ULONG_MAX && NoMark(t, m, lo, xas.index)
    && Spot(k, xas.offset) <= xas.index
    && (if xas.offset < CHUNK_SIZE then xas.index < Spot(k, xas.offset + 1) else xas.index == Spot(k, CHUNK_SIZE))
  }

  /** Slots whose bits are clear have no marked index below them. */
  lemma {:induction false} ClearSlots(t: WTree, k: Pos, from: nat, to: nat, m: Mark)
    requires k in t.nodes && from <= to <= CHUNK_SIZE
    requires forall o: Offset | from <= o < to :: !t.nodes[k].marks[m][o]
    ensures NoMark(t, m, Spot(k, from), Spot(k, to))
    decreases if from < to then to - from else 0
  {
    if from < to {
      ClearSlots(t, k, from + 1, to, m);
      forall i: nat | Spot(k, from) <= i < Spot(k, from + 1) ensures !Marked(t, i, m) {
        PathAt(k, from, i);
        ClearBelow(t, i, k.level, m);
      }
    }
  }

  /** At the top level the slots beyond the index space are empty, so that a search for a bit
      either stops inside it or exactly where the index wraps to zero. */
  lemma WrapsToZero(t: WTree, k: Pos, start: nat, next: nat, m: Mark)
    requires k in t.nodes && start <= next <= CHUNK_SIZE && (k.level == TOP_LEVEL ==> start <= 16)
    requires next < CHUNK_SIZE ==> t.nodes[k].marks[m][next]
    requires forall o: Offset | start <= o < next :: !t.nodes[k].marks[m][o]
    ensures Spot(k, next) < ULONG || Spot(k, next) % ULONG == 0
  {
    PlaceAt(t, k);
    TopLevels();
    if k.level < TOP_LEVEL {
      SpotFits(t, k, next);
    } else {
      ShlScale(next, TOP_LEVEL);
      ShlScale(16, TOP_LEVEL);
      if next < CHUNK_SIZE {
        MarkAt(t, k, next, m);
        MarkAt(t, k, 16, m);
        if !t.nodes[k].slots[next].Null? { SpotInUse(t, k, next); }
        if !t.nodes[k].slots[16].Null? { SpotInUse(t, k, 16); }
      }
    }
  }

  lemma StartInside(t: STree, k: Pos, o: Offset, index: nat)
    requires k in t.nodes && Spot(k, o) <= index <= ULONG_MAX
    ensures k.level == TOP_LEVEL ==> o < 16
  {
    PlaceAt(t, k);
    TopLevels();
    ShrAtLeast(index, k.level, k.prefix * CHUNK_SIZE + o);
  }

  /** What xas_find_marked leaves in its cursor: at the first marked index from lo on; out of
      bounds, at the first index beyond the reach of the head, when none below that is
      marked; or to be restarted, when none up to max is. */
  ghost predicate MarkedResult(t: Tree, xas: XaState, entry: Entry, lo: nat, max: nat, m: Mark) {
    if xas.node == Restart then entry == Null && NoMark(t, m, lo, max + 1)
    else
      && lo <= xas.index <= max && NoMark(t, m, lo, xas.index)
      && if xas.node == Bounds then entry == Null && !InRange(t, xas.index)
         else entry == At(t, xas.index) && Marked(t, xas.index, m) && !xas.node.Invalid()
              && exists level :: Settled(t, xas, level)
  }

  /** The search may begin at or, when the present slot is done with, after this slot. */
  ghost predicate Seekable(t: Tree, xas: XaState, advance: bool, k: Pos, m: Mark, lo: nat) {
    if advance then
      && xas.index <= ULONG_MAX && k == PathPos(xas.index, 0) && k in t.nodes && xas.node == AtNode(t.nodes[k].self)
      && xas.offset == Digit(xas.index, 0) && lo == xas.index + 1
    else Seeking(t, xas, k, m, lo)
  }

  lemma SeekableSpot(t: STree, xas: XaState, advance: bool, k: Pos, m: Mark, lo: nat)
    requires Seekable(t, xas, advance, k, m, lo) && xas.offset < CHUNK_SIZE
    ensures k in t.nodes && xas.node == AtNode(t.nodes[k].self) && xas.index <= ULONG_MAX
    ensures Spot(k, xas.offset) <= xas.index < Spot(k, xas.offset + 1) && lo <= Spot(k, xas.offset + 1)
    ensures k.level == TOP_LEVEL ==> xas.offset < 16
  {
    if advance { SpotOfPath(xas.index, 0); }
    StartInside(t, k, xas.offset, xas.index);
  }

  /** The bits passed over have no marked index below them. */
  lemma SoughtBit(t: WTree, xas: XaState, advance: bool, m: Mark, k: Pos, lo: nat, next: nat)
    requires Seekable(t, xas, advance, k, m, lo) && xas.offset < next <= CHUNK_SIZE
    requires next < CHUNK_SIZE ==> t.nodes[k].marks[m][next]
    requires forall o: Offset | (if advance then xas.offset + 1 else xas.offset) <= o < next :: !t.nodes[k].marks[m][o]
    ensures NoMark(t, m, lo, Spot(k, next)) && lo <= Spot(k, next) && xas.index < Spot(k, next)
    ensures Spot(k, next) < ULONG || Spot(k, next) % ULONG == 0
  {
    SeekableSpot(t, xas, advance, k, m, lo);
    var start := if advance then xas.offset + 1 else xas.offset;
    ClearSlots(t, k, start, next, m);
    WrapsToZero(t, k, start, next, m);
    ShlMonotone(k.prefix * CHUNK_SIZE + xas.offset + 1, k.prefix * CHUNK_SIZE + next, k.level);
    if advance {
      SpotOfPath(xas.index, 0);
    } else {
      assert forall i: nat {:trigger Marked(t, i, m)} | lo <= i < Spot(k, next) :: i < xas.index || Spot(k, start) <= i;
    }
  }

  /** An index that may only have wrapped to zero is compared with max as it would be
      without the wrap. */
  lemma WrapTest(spot: nat, max: nat)
    requires 0 < spot && (spot < ULONG || spot % ULONG == 0) && max <= ULONG_MAX
    ensures if spot % ULONG == 0 || spot % ULONG - 1 >= max then max + 1 <= spot else spot % ULONG == spot <= max
  {
    if spot < ULONG {
      assert spot % ULONG == spot;
    }
  }

  lemma NoMarkPart(t: Tree, m: Mark, lo: nat, hi: nat, part: nat)
    requires NoMark(t, m, lo, hi) && part <= hi
    ensures NoMark(t, m, lo, part)
  {
  }

  /** The move to that bit, unless it is beyond max. */
  lemma SoughtMove(xa: XArray, t: WTree, xas: XaState, advance: bool, max: nat, m: Mark, k: Pos, lo: nat, next: nat)
    requires xa.Snap() == t && max <= ULONG_MAX
    requires Seekable(t, xas, advance, k, m, lo) && xas.offset < next <= CHUNK_SIZE
    requires next < CHUNK_SIZE ==> t.nodes[k].marks[m][next]
    requires forall o: Offset | (if advance then xas.offset + 1 else xas.offset) <= o < next :: !t.nodes[k].marks[m][o]
    ensures var index := MoveIndex(xas.index, xas.node.node.shift, next);
      if index == 0 || index - 1 >= max then NoMark(t, m, lo, max + 1)
      else Seeking(t, xas.(index := index, offset := next), k, m, lo) && xas.index < index
  {
    SeekableSpot(t, xas, advance, k, m, lo);
    NodeFields(xa, t, k);
    SoughtBit(t, xas, advance, m, k, lo, next);
    MoveFrom(t, k, xas.index, xas.offset, next);
    var spot := Spot(k, next);
    WrapTest(spot, max);
    if spot % ULONG == 0 || spot % ULONG - 1 >= max {
      NoMarkPart(t, m, lo, spot, max + 1);
    } else {
      SpotStep(k, next);
    }
  }

  /** The chunk search and the move of one turn: the cursor is at a set bit, or past the
      node's last slot, or beyond max. */
  method SeekBit(xa: XArray, xas: XaState, advance: bool, max: nat, mark: Mark, ghost t: WTree, ghost k: Pos, ghost lo: nat)
    returns (done: bool, out: XaState)
    requires xa.Snap() == t && max <= ULONG_MAX && xas.offset < CHUNK_SIZE
    requires Seekable(t, xas, advance, k, mark, lo) && xas.index <= max
    ensures if done then NoMark(t, mark, lo, max + 1) else Seeking(t, out, k, mark, lo) && out.index <= max
    ensures out.alloc == xas.alloc
    ensures !done && out.offset < CHUNK_SIZE ==> t.nodes[k].marks[mark][out.offset]
    ensures !done ==> (out == xas && !advance) || xas.index < out.index
  {
    SeekableSpot(t, xas, advance, k, mark, lo);
    NodeFields(xa, t, k);
    var offset := XasFindChunk(xas.node.node, xas.offset, advance, mark);
    out := xas;
    if offset > xas.offset {
      SoughtMove(xa, t, xas, advance, max, mark, k, lo, offset);
      out := out.(index := MoveIndex(out.index, out.node.node.shift, offset));
      // the index may have wrapped to zero
      if out.index == 0 || out.index - 1 >= max {
        return true, out;
      }
      out := out.(offset := offset);
    }
    done := false;
  }

  /** From past the last slot of a node to the next slot of its parent, or out of the tree. */
  lemma SeekUp(xa: XArray, t: STree, xas: XaState, k: Pos, m: Mark, lo: nat)
    requires xa.Snap() == t && Seeking(t, xas, k, m, lo) && xas.offset == CHUNK_SIZE
    ensures var node := xas.node.node;
      if node.parent == null then !InRange(t, xas.index)
      else Seeking(t, xas.(offset := node.offset + 1, node := AtNode(node.parent)), k.Up(), m, lo) && k.level < t.top
  {
    NodeFields(xa, t, k);
    ParentAt(t, k);
    PlaceAt(t, k);
    SpotUp(k);
    if k.level < t.top {
      SpotStep(k.Up(), k.Slot() + 1);
    } else {
      ShrAtLeast(xas.index, t.top + 1, 1);
    }
  }

  /** Into a child, at the slot of the index. */
  lemma SeekDown(xa: XArray, t: STree, xas: XaState, k: Pos, m: Mark, lo: nat, node: Node)
    requires xa.Snap() == t && Seeking(t, xas, k, m, lo) && xas.offset < CHUNK_SIZE
    requires t.nodes[k].slots[xas.offset] == NodeEntry(node)
    ensures k.level > 0
    ensures Seeking(t, xas.(offset := GetOffset(xas.index, node.shift), node := AtNode(node)), k.Down(xas.offset), m, lo)
  {
    hide Structure, NoMark;
    SlotAt(t, k, xas.offset);
    PathAt(k, xas.offset, xas.index);
    assert k.Down(xas.offset) == PathPos(xas.index, k.level - 1);
    NodeFields(xa, t, k.Down(xas.offset));
    SpotOfPath(xas.index, k.level - 1);
  }

  /** At a set bit that is no child's. */
  lemma SeekHit(t: WTree, xas: XaState, k: Pos, m: Mark, lo: nat, entry: Entry)
    requires Seeking(t, xas, k, m, lo) && xas.offset < CHUNK_SIZE && t.nodes[k].marks[m][xas.offset]
    requires entry == t.nodes[k].slots[xas.offset] && !entry.NodeEntry?
    ensures entry.Null? ==> FreeBit(t, m)
    ensures entry == At(t, xas.index) && Marked(t, xas.index, m) && Settled(t, xas, k.level)
  {
    PathAt(k, xas.offset, xas.index);
    SlotAt(t, k, xas.offset);
    MarkAt(t, k, xas.offset, m);
    PlaceAt(t, k);
    if entry.Null? { EmptyBelow(t, xas.index, k.level); }
  }

  datatype Sought = More | Hit | GoMax | GoOut

  /** How far the loop still has to go at one index: the climb before the descent. */
  ghost function SeekRank(t: Tree, xas: XaState, k: Pos): int {
    if xas.offset == CHUNK_SIZE then 20 + t.top - k.level else k.level
  }

  /** One turn of the loop of xas_find_marked. */
  method SeekTurn(xa: XArray, xas: XaState, advance: bool, max: nat, mark: Mark, ghost t: WTree, ghost k: Pos, ghost lo: nat)
    returns (sought: Sought, entry: Entry, out: XaState, ghost next: Pos)
    requires xa.Snap() == t && max <= ULONG_MAX && xas.index <= max && (advance ==> xas.offset < CHUNK_SIZE)
    requires Seekable(t, xas, advance, k, mark, lo) && xas.offset <= CHUNK_SIZE && k.level <= t.top
    ensures out.alloc == xas.alloc
    ensures sought == More ==> Seeking(t, out, next, mark, lo) && next.level <= t.top
    ensures sought == More ==> xas.index < out.index || (xas.index == out.index && SeekRank(t, out, next) < SeekRank(t, xas, k))
    ensures sought == Hit ==> MarkedResult(t, out, entry, lo, max, mark) && !out.node.Invalid()
    ensures sought == GoMax ==> NoMark(t, mark, lo, max + 1)
    ensures sought == GoOut ==> lo <= out.index <= max && NoMark(t, mark, lo, out.index) && !InRange(t, out.index)
  {
    if xas.offset == CHUNK_SIZE {
      SeekUp(xa, t, xas, k, mark, lo);
      var node := xas.node.node;
      out := xas.(offset := node.offset + 1, node := if node.parent == null then NoNode else AtNode(node.parent));
      return if node.parent == null then GoOut else More, Null, out, k.Up();
    }
    var done;
    done, out := SeekBit(xa, xas, advance, max, mark, t, k, lo);
    if done {
      return GoMax, Null, out, k;
    }
    if out.offset == CHUNK_SIZE {
      return More, Null, out, k;
    }
    NodeFields(xa, t, k);
    entry := out.node.node.slots[out.offset];
    if !entry.NodeEntry? {
      SeekHit(t, out, k, mark, lo, entry);
      return Hit, entry, out, k;
    }
    SeekDown(xa, t, out, k, mark, lo, entry.node);
    next := k.Down(out.offset);
    out := out.(node := AtNode(entry.node), offset := GetOffset(out.index, entry.node.shift));
    sought := More;
  }

  /** The loop of xas_find_marked, up to its return or its two gotos. */
  method SeekLoop(xa: XArray, xas: XaState, first: bool, max: nat, mark: Mark, ghost t: WTree, ghost from: Pos, ghost lo: nat)
    returns (sought: Sought, entry: Entry, out: XaState)
    requires xa.Snap() == t && max <= ULONG_MAX && xas.offset < CHUNK_SIZE && xas.index <= max
    requires Seekable(t, xas, first, from, mark, lo)
    ensures out.alloc == xas.alloc && sought != More
    ensures sought == Hit ==> MarkedResult(t, out, entry, lo, max, mark) && !out.node.Invalid()
    ensures sought == GoMax ==> NoMark(t, mark, lo, max + 1)
    ensures sought == GoOut ==> lo <= out.index <= max && NoMark(t, mark, lo, out.index) && !InRange(t, out.index)
  {
    out := xas;
    var advance := first;
    ghost var k := from;
    PlaceAt(t, k);
    while out.index <= max
      invariant Seekable(t, out, advance, k, mark, lo) && out.offset <= CHUNK_SIZE && k.level <= t.top
      invariant (advance ==> out.offset < CHUNK_SIZE) && out.alloc == xas.alloc
      decreases ULONG - out.index, SeekRank(t, out, k)
    {
      sought, entry, out, k := SeekTurn(xa, out, advance, max, mark, t, k, lo);
      if sought != More {
        return;
      }
      advance := false;
    }
    return GoMax, Null, out;
  }

  /** The first index a search for a mark looks at. */
  ghost function SeekFrom(xas: XaState): nat {
    if xas.node == Restart || xas.node == Bounds then xas.index else xas.index + 1
  }

  /** The label out of xas_find_marked. */
  method SeekEnd(xas: XaState, max: nat, mark: Mark, ghost t: WTree, ghost lo: nat) returns (entry: Entry, out: XaState)
    requires lo <= xas.index && NoMark(t, mark, lo, xas.index) && (xas.index <= max ==> !InRange(t, xas.index))
    ensures out.alloc == xas.alloc && MarkedResult(t, out, entry, lo, max, mark)
  {
    if xas.index > max {
      return Null, xas.(node := Restart);
    }
    return Null, xas.(node := Bounds);
  }

  /** xas_find_marked, for a cursor that is fresh, out of bounds, or at an entry. */
  method XasFindMarked(xa: XArray, xas: XaState, max: nat, mark: Mark, ghost t: WTree) returns (entry: Entry, out: XaState)
    requires xa.Snap() == t && xas.index <= ULONG_MAX && max <= ULONG_MAX
    requires !xas.node.Invalid() ==> AtSlot(t, xas)
    ensures out.alloc == xas.alloc
    ensures if xas.node.Error? then entry == Null && out == xas else MarkedResult(t, out, entry, SeekFrom(xas), max, mark)
  {
    if xas.node.Error? {
      return Null, xas;
    }
    if xas.index > max {
      return Null, xas.(node := Restart);
    }
    out := xas;
    var advance := true;
    ghost var k := PathPos(xas.index, 0);
    if xas.node == NoNode {
      entry, out := SeekEnd(xas.(index := 1), max, mark, t, 1);
      return;
    } else if xas.node.Top() {
      advance := false;
      var head := xa.head;
      out := out.(node := NoNode);
      var limit := MaxIndex(xa, head, t);
      MaxCovers(t, xas.index);
      if out.index > limit {
        entry, out := SeekEnd(out, max, mark, t, xas.index);
        return;
      }
      if !head.NodeEntry? {
        if xa.marks[mark] {
          assert Settled(t, out, -1);
          return head, out;
        }
        entry, out := SeekEnd(out.(index := 1), max, mark, t, 0);
        return;
      }
      k := Root(t);
      out := HeadSlot(xa, out, head.node, mark, t);
    }
    var sought;
    sought, entry, out := SeekLoop(xa, out, advance, max, mark, t, k, SeekFrom(xas));
    match sought
    case Hit =>
    case GoMax => entry, out := Null, out.(node := Restart);
    case GoOut => entry, out := SeekEnd(out, max, mark, t, SeekFrom(xas));
  }

  /** The head node, at the slot of the index. */
  method HeadSlot(xa: XArray, xas: XaState, node: Node, mark: Mark, ghost t: WTree) returns (out: XaState)
    requires xa.Snap() == t && t.head == NodeEntry(node) && InRange(t, xas.index) && xas.index <= ULONG_MAX
    ensures t.top >= 0 && Seeking(t, out, Root(t), mark, xas.index) && out.offset < CHUNK_SIZE
    ensures out.alloc == xas.alloc && out.index == xas.index
  {
    hide Spot, WF;
    NodeFields(xa, t, Root(t));
    out := xas.(node := AtNode(node), offset := Shr(xas.index, node.shift / CHUNK_SHIFT));
    SpotOfPath(xas.index, t.top);
    assert PathPos(xas.index, t.top) == Root(t);
  }
}
