/** The normal API on one index: xa_load, xa_store, xa_erase and the mark calls. */
module XArrayApi {
  import opened XaIndex
  import opened XaNode
  import opened XaTree
  import opened XaGrow
  import opened XaEdit
  import opened XaPrune
  import opened XArrayWalk
  import opened XArrayCreate
  import opened XArrayMark
  import opened XArrayDelete
  import opened XArrayStore

  const EINVAL: int := 22

  /** An entry, or xa_err. */
  datatype Answer = Entry(entry: Entry) | Failed(errno: int)

  /** What xa_store leaves for an index: NULL reserves it in a tracked array, and no stored
      index of a tracked array is free. */
  ghost function StoredByApi(c: Cell, entry: Entry, tracked: bool): Cell {
    if tracked then Cell(if entry.Null? then Zero else entry, c.marks[FREE_MARK := false])
    else Stored(c, entry, false)
  }

  lemma FreeKept(t: Tree, u: Tree, index: nat, cell: Cell)
    requires FreeExact(t) && t.tracked == u.tracked
    requires Edited(t, u, index, cell) && (t.tracked ==> cell.marks[FREE_MARK] == cell.entry.Null?)
    ensures FreeExact(u)
  {
    if t.tracked {
      forall i: nat ensures Marked(u, i, FREE_MARK) <==> At(u, i).Null? {
        CellMarks(t, i, FREE_MARK);
        CellMarks(u, i, FREE_MARK);
      }
    }
  }

  lemma SameFree(t: Tree, u: Tree)
    requires FreeExact(t) && Same(t, u) && t.tracked == u.tracked
    ensures FreeExact(u)
  {
    CellMarks(t, 0, FREE_MARK);
    FreeKept(t, u, 0, CellAt(t, 0));
  }

  /** xa_load shows the entry stored for the index. */
  method XaLoad(xa: XArray, index: nat, ghost t: WTree) returns (entry: Entry)
    requires xa.Snap() == t && index <= ULONG_MAX
    ensures entry == At(t, index).Visible()
  {
    var xas := NewState(index);
    ghost var level;
    entry, xas, level := XasLoad(xa, xas, t, -1);
    if entry.Zero? {
      entry := Null;
    }
  }

  /** kmem_cache_alloc with the caller's flags: gfp tells whether such allocations always
      succeed, as those that may sleep do while there is memory. */
  method KmemCacheAllocGfp(gfp: bool) returns (node: Node?)
    ensures node != null ==> fresh(node) && BlankNode(node)
    ensures gfp ==> node != null
  {
    if gfp {
      node := new Node();
    } else {
      node := KmemCacheAlloc();
    }
  }

  /** __xas_nomem: whether to try again, with a node in hand.  If not, a node that was left over
      is freed.  After a lack of memory it is tried again unless the caller's flags do not get
      a node either. */
  method XasNomem(xa: XArray, xas: XaState, gfp: bool) returns (again: bool, out: XaState)
    requires (xas.node == Error(ENOMEM) ==> xas.alloc == null) && SpareOk(xa.nodes, xas.alloc)
    modifies if xas.alloc != null then {xas.alloc} else {}
    ensures out.index == xas.index && xa.Snap() == old(xa.Snap())
    ensures again ==> xas.node == Error(ENOMEM) && out.node == Restart
    ensures gfp && xas.node == Error(ENOMEM) ==> again
    ensures again ==> out.alloc != null && fresh(out.alloc) && SpareOk(xa.nodes, out.alloc)
    ensures !again ==> out.node == xas.node && out.alloc == null && (xas.alloc != null ==> xas.alloc.life == Freed)
  {
    ghost var t := xa.Snap();
    ReadBack(xa, t);
    if xas.node != Error(ENOMEM) {
      // xas_destroy
      if xas.alloc != null {
        KmemCacheFree(xas.alloc);
        SnapIs(xa, t);
      }
      return false, xas.(alloc := null);
    }
    var node := KmemCacheAllocGfp(gfp);
    if node == null {
      return false, xas;
    }
    return true, xas.(alloc := node, node := Restart);
  }

  /** What one attempt to store leaves: the entry, in a slot of its own; or an error, where a
      node had to be made, the same content, and no spare node, though what it was spent on
      remains. */
  ghost predicate Tried(t: WTree, u: WTree, xas: XaState, out: XaState, curr: Entry, entry: Entry) {
    && FreeExact(u) && out.index == xas.index
    && if xas.node.Error? then out == xas && u == t && curr == Null
       else if !out.node.Error? then curr == At(t, xas.index) && Edited(t, u, xas.index, StoredByApi(CellAt(t, xas.index), entry, t.tracked))
       else
         && Same(t, u) && curr == Null && out.node == Error(ENOMEM) && out.alloc == null && NeedsNode(t, xas.index, !entry.Zero?)
         && Missing(u, xas.index) <= Missing(t, xas.index) - Consumed(xas.alloc, null)
  }

  /** A stored index of a tracked array is not free any more. */
  method TakeFree(xa: XArray, xas: XaState, entry: Entry, ghost t: WTree, ghost w: WTree) returns (ghost u: WTree)
    requires xa.Snap() == w && FreeExact(t) && t.tracked == w.tracked && (t.tracked ==> !entry.Null?)
    requires if xas.node.Error? then Same(t, w) else Edited(t, w, xas.index, Stored(CellAt(t, xas.index), entry, t.tracked))
    requires !xas.node.Error? && !entry.Null? ==> AtSlot(w, xas)
    modifies xa`marks, xa.nodes.Values
    ensures xa.Snap() == u && FreeExact(u)
    ensures if xas.node.Error? then u == w else Edited(t, u, xas.index, StoredByApi(CellAt(t, xas.index), entry, t.tracked))
  {
    u := w;
    if !xas.node.Error? { ApiCell(t, w, xas.index, entry); }
    if xa.trackFree {
      u := XasClearMark(xa, xas, FREE_MARK, u);
    }
    StoreDone(t, w, u, xas.index, entry, xas.node.Error?);
  }

  /** One attempt of __xa_store, and of __xa_alloc once it has looked for an index. */
  method StoreOnce(xa: XArray, xas: XaState, entry: Entry, ghost t: WTree, ghost from: int)
    returns (curr: Entry, out: XaState, ghost u: WTree)
    requires xa.Snap() == t && FreeExact(t) && SpareOk(xa.nodes, xas.alloc) && xas.index <= ULONG_MAX
    requires (!xas.node.Invalid() ==> Settled(t, xas, from)) && entry.Storable() && (t.tracked ==> !entry.Null?)
    modifies xa`head, xa`marks, xa`top, xa`nodes, xa.nodes.Values, xas.alloc
    ensures xa.Snap() == u && Tried(t, u, xas, out, curr, entry)
    ensures (out.alloc == null || out.alloc == xas.alloc) && SpareOk(xa.nodes, out.alloc)
    ensures fresh(xa.nodes.Values - old(xa.nodes.Values) - {xas.alloc})
  {
    hide Structure, Edited, NeedsNode;
    curr, out, u := XasStore(xa, xas, entry, t, from);
    u := TakeFree(xa, out, entry, t, u);
  }

  lemma ApiCell(t: WTree, w: WTree, index: nat, entry: Entry)
    requires Edited(t, w, index, Stored(CellAt(t, index), entry, t.tracked))
    ensures At(w, index) == entry
  {
    assert CellAt(w, index) == Stored(CellAt(t, index), entry, t.tracked);
  }

  lemma StoreDone(t: WTree, w: WTree, u: WTree, index: nat, entry: Entry, failed: bool)
    requires FreeExact(t) && t.tracked == w.tracked == u.tracked && (t.tracked ==> !entry.Null?)
    requires if failed then Same(t, w) else Edited(t, w, index, Stored(CellAt(t, index), entry, t.tracked))
    requires if failed || !t.tracked then u == w else Edited(w, u, index, WithMark(CellAt(w, index), FREE_MARK, false))
    ensures if failed then Same(t, u) else Edited(t, u, index, StoredByApi(CellAt(t, index), entry, t.tracked))
    ensures FreeExact(u)
  {
    if failed {
      SameFree(t, u);
    } else {
      assert CellAt(w, index) == Stored(CellAt(t, index), entry, t.tracked);
      FreeKept(t, u, index, StoredByApi(CellAt(t, index), entry, t.tracked));
    }
  }

  /** xas_result */
  function XasResult(xas: XaState, curr: Entry): Answer {
    if curr.Zero? then Answer.Entry(Null)
    else if xas.node.Error? then Failed(-xas.node.errno)
    else Answer.Entry(curr)
  }

  /** The loop of __xa_store: still to be tried, or done, or out of memory. */
  ghost predicate Storing(t: WTree, u: WTree, xas: XaState, again: bool, curr: Entry, index: nat, entry: Entry) {
    && FreeExact(u) && xas.index == index
    && if again then xas.node == Restart && Same(t, u) && (u == t || NeedsNode(t, index, !entry.Zero?))
       else if xas.node.Error? then Same(t, u) && curr == Null && xas.node == Error(ENOMEM) && NeedsNode(t, index, !entry.Zero?)
       else curr == At(t, index) && Edited(t, u, index, StoredByApi(CellAt(t, index), entry, t.tracked))
  }

  lemma StoringNext(t: WTree, u: WTree, w: WTree, xas: XaState, mid: XaState, out: XaState, again: bool, curr: Entry, index: nat, entry: Entry)
    requires Storing(t, u, xas, true, Null, index, entry) && t.tracked == u.tracked
    requires Tried(u, w, xas, mid, curr, entry)
    requires out.index == mid.index && if again then mid.node == Error(ENOMEM) && out.node == Restart else out.node == mid.node
    ensures Storing(t, w, out, again, curr, index, entry)
    ensures again ==> Missing(w, index) <= Missing(u, index) - Consumed(xas.alloc, null)
  {
    assert CellAt(u, index) == CellAt(t, index);
  }

  /** One turn of the loop of __xa_store. */
  method StoreTurn(xa: XArray, xas: XaState, entry: Entry, gfp: bool, ghost t: WTree, ghost u: WTree, ghost index: nat)
    returns (again: bool, curr: Entry, out: XaState, ghost w: WTree)
    requires xa.Snap() == u && t.tracked == u.tracked && SpareOk(xa.nodes, xas.alloc) && index <= ULONG_MAX
    requires Storing(t, u, xas, true, Null, index, entry) && entry.Storable() && (t.tracked ==> !entry.Null?)
    modifies xa`head, xa`marks, xa`top, xa`nodes, xa.nodes.Values, xas.alloc
    ensures xa.Snap() == w && Storing(t, w, out, again, curr, index, entry) && (gfp && !again ==> !out.node.Error?)
    ensures again ==> out.alloc != null && SpareOk(xa.nodes, out.alloc) && fresh(out.alloc)
    ensures again ==> Missing(w, index) <= Missing(u, index) - Consumed(xas.alloc, null)
    ensures fresh(xa.nodes.Values - old(xa.nodes.Values) - {xas.alloc})
  {
    curr, out, w := StoreOnce(xa, xas, entry, u, -1);
    ghost var mid := out;
    again, out := XasNomem(xa, out, gfp);
    StoringNext(t, u, w, xas, mid, out, again, curr, index, entry);
  }

  /** __xa_store: the index now holds the entry and shows what it held before; or there was
      no memory for a node that had to be made, and nothing has changed.  It is tried again as
      often as a node could be allocated, and every node so allocated brings the slot nearer;
      so with flags that always get one it does not fail. */
  method XaStore(xa: XArray, index: nat, entry: Entry, gfp: bool, ghost t: WTree) returns (answer: Answer, ghost u: WTree)
    requires xa.Snap() == t && FreeExact(t) && index <= ULONG_MAX && !entry.NodeEntry?
    modifies xa`head, xa`marks, xa`top, xa`nodes, xa.nodes.Values
    ensures xa.Snap() == u && FreeExact(u)
    ensures answer.Failed? ==> Same(t, u) && answer.errno == if entry.Retry? then -EINVAL else -ENOMEM
    ensures gfp && !entry.Retry? ==> answer.Entry?
    ensures answer.Failed? && !entry.Retry? ==> NeedsNode(t, index, !entry.Zero? && (t.tracked ==> !entry.Null?))
    ensures answer.Entry? ==> answer.entry == At(t, index).Visible()
    ensures answer.Entry? ==> Edited(t, u, index, StoredByApi(CellAt(t, index), entry, t.tracked))
    ensures entry.Retry? ==> answer.Failed?
    ensures fresh(xa.nodes.Values - old(xa.nodes.Values))
  {
    u := t;
    if entry.Retry? {
      return Failed(-EINVAL), u;
    }
    var stored := if xa.trackFree && entry.Null? then Zero else entry;
    var xas := NewState(index);
    var curr, again := Null, true;
    while again
      invariant xa.Snap() == u && Storing(t, u, xas, again, if again then Null else curr, index, stored)
      invariant gfp && !again ==> !xas.node.Error?
      invariant again ==> SpareOk(xa.nodes, xas.alloc) && (xas.alloc != null ==> fresh(xas.alloc))
      invariant fresh(xa.nodes.Values - old(xa.nodes.Values))
      decreases again, Missing(u, index) + if xas.alloc == null then 1 else 0
    {
      again, curr, xas, u := StoreTurn(xa, xas, stored, gfp, t, u, index);
    }
    answer := XasResult(xas, curr);
  }

  /** __xa_erase: the index holds nothing any more, and shows what it held before.  Every
      node that has left the tree has been freed, once, and none is left that is needless. */
  method XaErase(xa: XArray, index: nat, ghost t: WTree) returns (answer: Answer, ghost u: WTree)
    requires xa.Snap() == t && FreeExact(t) && index <= ULONG_MAX
    modifies xa`head, xa`marks, xa`top, xa`nodes, xa.nodes.Values
    ensures xa.Snap() == u && FreeExact(u) && Edited(t, u, index, Cell(Null, FreeMarks(t.tracked)))
    ensures answer == Answer.Entry(At(t, index).Visible())
    ensures xa.nodes.Values <= old(xa.nodes.Values) && Accounted(xa, old(xa.nodes.Values)) && Pruned(t, u)
  {
    var xas := NewState(index);
    var curr;
    curr, xas, u := XasStore(xa, xas, Null, t, -1);
    FreeKept(t, u, index, Cell(Null, FreeMarks(t.tracked)));
    answer := XasResult(xas, curr);
  }

  /** What __xa_set_mark and __xa_clear_mark leave for an index: an empty index has no mark
      to set or clear. */
  ghost function MarkedByApi(c: Cell, mark: Mark, b: bool): Cell {
    if c.entry.Null? then c else WithMark(c, mark, b)
  }

  lemma MarkKept(t: Tree, u: Tree, index: nat, mark: Mark, b: bool)
    requires FreeExact(t) && t.tracked == u.tracked && !FreeBit(t, mark)
    requires Edited(t, u, index, MarkedByApi(CellAt(t, index), mark, b))
    ensures FreeExact(u)
  {
    CellMarks(t, index, FREE_MARK);
    FreeKept(t, u, index, MarkedByApi(CellAt(t, index), mark, b));
  }

  /** The walk that __xa_set_mark and __xa_clear_mark begin with. */
  method FindEntry(xa: XArray, index: nat, ghost t: WTree) returns (entry: Entry, xas: XaState)
    requires xa.Snap() == t && index <= ULONG_MAX
    ensures entry == At(t, index) && xas.index == index
    ensures !entry.Null? ==> AtSlot(t, xas)
  {
    ghost var level;
    entry, xas, level := XasLoad(xa, NewState(index), t, -1);
    if !entry.Null? {
      if xas.node.Bounds? { OutOfRange(t, index); }
      SettledAtEntry(t, xas, level);
    }
  }

  /** __xa_set_mark */
  method XaSetMark(xa: XArray, index: nat, mark: Mark, ghost t: WTree) returns (ghost u: WTree)
    requires xa.Snap() == t && index <= ULONG_MAX
    modifies xa`marks, xa.nodes.Values
    ensures xa.Snap() == u && Edited(t, u, index, MarkedByApi(CellAt(t, index), mark, true))
    ensures FreeExact(t) && !FreeBit(t, mark) ==> FreeExact(u)
  {
    u := t;
    var entry, xas := FindEntry(xa, index, t);
    if !entry.Null? {
      u := XasSetMark(xa, xas, mark, t);
    }
    if FreeExact(t) && !FreeBit(t, mark) { MarkKept(t, u, index, mark, true); }
  }

  /** __xa_clear_mark */
  method XaClearMark(xa: XArray, index: nat, mark: Mark, ghost t: WTree) returns (ghost u: WTree)
    requires xa.Snap() == t && index <= ULONG_MAX
    modifies xa`marks, xa.nodes.Values
    ensures xa.Snap() == u && Edited(t, u, index, MarkedByApi(CellAt(t, index), mark, false))
    ensures FreeExact(t) && !FreeBit(t, mark) ==> FreeExact(u)
  {
    u := t;
    var entry, xas := FindEntry(xa, index, t);
    if !entry.Null? {
      u := XasClearMark(xa, xas, mark, t);
    }
    if FreeExact(t) && !FreeBit(t, mark) { MarkKept(t, u, index, mark, false); }
  }

  /** A summary bit that is clear says that no index below it has the mark. */
  lemma {:induction false} ClearBelow(t: WTree, index: nat, level: nat, mark: Mark)
    requires PathPos(index, level) in t.nodes && !t.nodes[PathPos(index, level)].marks[mark][Digit(index, level)]
    ensures !Marked(t, index, mark)
    decreases level
  {
    PlaceAt(t, PathPos(index, level));
    MarkAt(t, PathPos(index, level), Digit(index, level), mark);
    if level > 0 {
      PathDown(t, index, level);
      assert PathPos(index, level).Down(Digit(index, level)) == PathPos(index, level - 1);
      if PathPos(index, level - 1) in t.nodes {
        ClearBelow(t, index, level - 1, mark);
      } else {
        EmptyBelow(t, index, level);
      }
    }
  }

  /** A mark on the index shows in the head flags. */
  lemma ClearHead(t: WTree, index: nat, mark: Mark)
    requires InRange(t, index) && !t.flags[mark]
    ensures !Marked(t, index, mark)
  {
    FlagAt(t, mark);
    if t.top >= 0 {
      assert PathPos(index, t.top) == Root(t);
      ClearBelow(t, index, t.top, mark);
    }
  }

  /** xas_get_mark */
  method XasGetMark(xa: XArray, xas: XaState, mark: Mark) returns (b: bool)
    requires xas.node.AtNode? ==> xas.offset < CHUNK_SIZE
    ensures b == (!xas.node.Invalid() && if xas.node.AtNode? then xas.node.node.marks[mark][xas.offset] else xa.marks[mark])
  {
    if xas.node.Invalid() {
      return false;
    }
    if !xas.node.AtNode? {
      return xa.marks[mark];
    }
    return xas.node.node.marks[mark][xas.offset];
  }

  /** Where the walk of xa_get_mark is: as in xas_load, or still at the head. */
  ghost predicate Asking(t: Tree, xas: XaState, entry: Entry, level: int) {
    && -1 <= level <= t.top && entry == Seen(t, xas.index, level)
    && if level == t.top then xas.node == NoNode else Stands(t, xas, level + 1)
  }

  lemma AskMark(xa: XArray, xas: XaState, t: WTree, entry: Entry, mark: Mark, bit: bool, level: int)
    requires xa.Snap() == t && Asking(t, xas, entry, level) && InRange(t, xas.index)
    requires bit == if xas.node.AtNode? then xas.offset < CHUNK_SIZE && xas.node.node.marks[mark][xas.offset] else t.flags[mark]
    ensures xas.node.AtNode? ==> xas.offset < CHUNK_SIZE
    ensures !bit ==> !Marked(t, xas.index, mark)
    ensures bit && !entry.NodeEntry? ==> Marked(t, xas.index, mark)
  {
    if level == t.top {
      SeenAtHead(t, xas.index);
      if !bit { ClearHead(t, xas.index, mark); }
    } else {
      NodeFields(xa, t, PathPos(xas.index, level + 1));
      if !bit { ClearBelow(t, xas.index, level + 1, mark); }
      MarkAt(t, PathPos(xas.index, level + 1), Digit(xas.index, level + 1), mark);
      SeenBelow(t, xas.index, level + 1);
      if level >= 0 && entry.Null? { EmptyBelow(t, xas.index, level + 1); }
    }
  }

  lemma AskDown(xa: XArray, xas: XaState, next: XaState, t: WTree, node: Node, entry: Entry, level: int)
    requires xa.Snap() == t && Asking(t, xas, NodeEntry(node), level)
    requires next == xas.(node := AtNode(node), offset := GetOffset(xas.index, node.shift)) && entry == node.slots[next.offset]
    ensures Asking(t, next, entry, level - 1)
  {
    SeenStorable(t, xas.index);
    NodeFields(xa, t, PathPos(xas.index, level));
    SeenBelow(t, xas.index, level);
  }

  /** xa_get_mark follows the summary bits down, and stops at the first that is clear.  It
      tells whether the index is marked, except that it knows no marks beyond the reach of
      the head. */
  method XaGetMark(xa: XArray, index: nat, mark: Mark, ghost t: WTree) returns (b: bool)
    requires xa.Snap() == t && index <= ULONG_MAX
    ensures b == (InRange(t, index) && Marked(t, index, mark))
    ensures !FreeBit(t, mark) ==> b == Marked(t, index, mark)
  {
    var xas := NewState(index);
    var entry;
    entry, xas := XasStart(xa, xas, t, -1);
    ghost var level: int := t.top;
    if !InRange(t, index) { OutOfRange(t, index); }
    while true
      invariant xas.index == index && if InRange(t, index) then Asking(t, xas, entry, level) else xas.node == Bounds
      decreases level
    {
      b := XasGetMark(xa, xas, mark);
      if InRange(t, index) { AskMark(xa, xas, t, entry, mark, b, level); }
      if !b {
        return false;
      }
      if !entry.NodeEntry? {
        return true;
      }
      var node := entry.node;
      ghost var before := xas;
      entry, xas := XasDescend(xas, node);
      AskDown(xa, before, xas, t, node, entry, level);
      level := level - 1;
    }
  }
}
