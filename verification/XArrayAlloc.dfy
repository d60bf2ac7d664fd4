/** The ID allocator: __xa_alloc and __xa_alloc_cyclic. */
module XArrayAlloc {
  import opened XaIndex
  import opened XaNode
  import opened XaTree
  import opened XaGrow
  import opened XaEdit
  import opened XArrayWalk
  import opened XArrayCreate
  import opened XArrayApi
  import opened XArrayFindMarked

  const UINT_MAX: nat := 0xFFFF_FFFF

  ghost predicate Full(t: Tree, min: nat, max: nat) {
    forall i: nat {:trigger At(t, i)} | min <= i <= max :: !At(t, i).Null?
  }

  ghost predicate LeastFree(t: Tree, min: nat, max: nat, id: nat) {
    min <= id <= max && At(t, id).Null? && forall i: nat {:trigger At(t, i)} | min <= i < id :: !At(t, i).Null?
  }

  lemma LeastUnique(t: Tree, u: Tree, min: nat, max: nat, id: nat, id': nat)
    requires Same(t, u) && LeastFree(t, min, max, id) && LeastFree(u, min, max, id')
    ensures id == id'
  {
    assert CellAt(u, id) == CellAt(t, id) && CellAt(u, id') == CellAt(t, id');
  }

  lemma SameFull(t: Tree, u: Tree, min: nat, max: nat, id: nat)
    requires Same(t, u)
    ensures Full(u, min, max) <==> Full(t, min, max)
    ensures LeastFree(u, min, max, id) <==> LeastFree(t, min, max, id)
  {
    forall i: nat ensures At(u, i) == At(t, i) { assert CellAt(u, i) == CellAt(t, i); }
  }

  /** In a tracked array a search for the free mark finds the least free index. */
  lemma FreeSearch(t: WTree, xas: XaState, entry: Entry, min: nat, max: nat)
    requires t.tracked && FreeExact(t) && MarkedResult(t, xas, entry, min, max, FREE_MARK)
    ensures if xas.node == Restart then Full(t, min, max) else LeastFree(t, min, max, xas.index)
  {
    if xas.node != Restart {
      assert !NoMark(t, FREE_MARK, xas.index, xas.index + 1) || xas.node == Bounds;
      if xas.node == Bounds { OutOfRange(t, xas.index); }
    }
  }

  /** The loop of __xa_alloc: still to be tried, or done, or failed.  Once a node has been
      allocated for it, the index is settled. */
  ghost predicate Allocating(t: WTree, u: WTree, xas: XaState, again: bool, id: nat, min: nat, max: nat, entry: Entry) {
    && FreeExact(u)
    && if again then xas.node == Restart && Same(t, u) && (xas.alloc != null ==> LeastFree(t, min, max, id))
       else if xas.node.Error? then
         && Same(t, u) && xas.node.errno == (if Full(t, min, max) then EBUSY else ENOMEM)
         && (xas.node.errno == ENOMEM ==> LeastFree(t, min, max, id))
       else LeastFree(t, min, max, id) && Edited(t, u, id, StoredByApi(CellAt(t, id), entry, true))
  }

  /** The search of one turn of __xa_alloc. */
  method FindFree(xa: XArray, xas: XaState, min: nat, max: nat, before: nat, ghost t: WTree)
    returns (id: nat, out: XaState, ghost level: int)
    requires xa.Snap() == t && FreeExact(t) && t.tracked && min <= ULONG_MAX && max <= ULONG_MAX && xas.node == Restart
    ensures out.alloc == xas.alloc && out.index <= ULONG_MAX && !out.node.Restart?
    ensures if out.node.Error? then out.node == Error(EBUSY) && Full(t, min, max) && id == before
            else out.index == id && LeastFree(t, min, max, id)
    ensures !out.node.Invalid() ==> Settled(t, out, level)
  {
    id := before;
    var entry;
    entry, out := XasFindMarked(xa, xas.(index := min), max, FREE_MARK, t);
    FreeSearch(t, out, entry, min, max);
    if out.node == Restart {
      out := out.(node := Error(EBUSY), index := min);
      level := 0;
    } else {
      id := out.index;
      level :| !out.node.Invalid() ==> Settled(t, out, level);
    }
  }

  lemma AllocatingNext(t: WTree, u: WTree, w: WTree, found: XaState, mid: XaState, out: XaState, again: bool,
                       id: nat, curr: Entry, min: nat, max: nat, entry: Entry)
    requires Same(t, u) && t.tracked && u.tracked && !found.node.Restart?
    requires if found.node.Error? then found.node == Error(EBUSY) && Full(u, min, max) else found.index == id && LeastFree(u, min, max, id)
    requires Tried(u, w, found, mid, curr, entry)
    requires if again then mid.node == Error(ENOMEM) && out.node == Restart else out.node == mid.node
    ensures Allocating(t, w, out, again, id, min, max, entry)
    ensures again ==> LeastFree(t, min, max, id) && Missing(w, id) <= Missing(u, id) - Consumed(found.alloc, null)
  {
    SameFull(t, u, min, max, id);
    assert CellAt(u, id) == CellAt(t, id);
    if !found.node.Error? { assert At(t, id).Null?; }
  }

  /** One turn of the loop of __xa_alloc. */
  method AllocTurn(xa: XArray, xas: XaState, entry: Entry, min: nat, max: nat, before: nat, gfp: bool, ghost t: WTree, ghost u: WTree)
    returns (again: bool, id: nat, out: XaState, ghost w: WTree)
    requires xa.Snap() == u && t.tracked && u.tracked && SpareOk(xa.nodes, xas.alloc)
    requires min <= ULONG_MAX && max <= ULONG_MAX && entry.Storable() && !entry.Null?
    requires Allocating(t, u, xas, true, before, min, max, entry)
    modifies xa`head, xa`marks, xa`top, xa`nodes, xa.nodes.Values, xas.alloc
    ensures xa.Snap() == w && Allocating(t, w, out, again, id, min, max, entry)
    ensures gfp && !again ==> out.node != Error(ENOMEM)
    ensures again ==> out.alloc != null && SpareOk(xa.nodes, out.alloc) && fresh(out.alloc)
    ensures again ==> LeastFree(t, min, max, id) && Missing(w, id) <= Missing(u, id) - Consumed(xas.alloc, null)
    ensures fresh(xa.nodes.Values - old(xa.nodes.Values) - {xas.alloc})
  {
    hide xa.Snap, Structure;
    var curr;
    ghost var level;
    id, out, level := FindFree(xa, xas, min, max, before, u);
    ghost var found := out;
    curr, out, w := StoreOnce(xa, out, entry, u, level);
    ghost var mid := out;
    again, out := XasNomem(xa, out, gfp);
    AllocatingNext(t, u, w, found, mid, out, again, id, curr, min, max, entry);
  }

  /** __xa_alloc stores the entry at the least free index of the range.  It fails with EBUSY
      exactly when the range is full, for want of memory only if the caller's flags do not
      always get it, and nothing has changed when it fails. */
  method XaAlloc(xa: XArray, was: nat, entry: Entry, min: nat, max: nat, gfp: bool, ghost t: WTree)
    returns (err: int, id: nat, ghost u: WTree)
    requires xa.Snap() == t && FreeExact(t) && min <= UINT_MAX && max <= UINT_MAX && !entry.NodeEntry?
    modifies xa`head, xa`marks, xa`top, xa`nodes, xa.nodes.Values
    ensures xa.Snap() == u && FreeExact(u) && (err == 0 || err == -EINVAL || err == -EBUSY || err == -ENOMEM)
    ensures err == -EINVAL <==> entry.Retry? || !t.tracked
    ensures err == -EBUSY <==> !entry.Retry? && t.tracked && Full(t, min, max)
    ensures err == -ENOMEM ==> !gfp && LeastFree(t, min, max, id)
    ensures err == 0 ==> LeastFree(t, min, max, id) && Edited(t, u, id, StoredByApi(CellAt(t, id), entry, true))
    ensures err != 0 ==> Same(t, u)
    ensures fresh(xa.nodes.Values - old(xa.nodes.Values))
  {
    id, u := was, t;
    if entry.Retry? || !xa.trackFree {
      return -EINVAL, id, u;
    }
    var stored := if entry.Null? then Zero else entry;
    var xas := NewState(0);
    var again := true;
    while again
      invariant xa.Snap() == u && Allocating(t, u, xas, again, id, min, max, stored)
      invariant gfp && !again ==> xas.node != Error(ENOMEM)
      invariant again ==> SpareOk(xa.nodes, xas.alloc) && (xas.alloc != null ==> fresh(xas.alloc))
      invariant fresh(xa.nodes.Values - old(xa.nodes.Values))
      decreases again, if xas.alloc == null then 1 else 0, Missing(u, id)
    {
      ghost var before := id;
      ghost var settled := xas.alloc != null;
      again, id, xas, u := AllocTurn(xa, xas, stored, min, max, id, gfp, t, u);
      if again && settled { LeastUnique(t, t, min, max, before, id); }
    }
    err := if xas.node.Error? then -xas.node.errno else 0;
  }

  /** What __xa_alloc_cyclic hands out: the first free index of the range that is not below
      next, where the last call left off, or, once it has come round, the first of them all. */
  ghost predicate CyclicChoice(t: Tree, min: nat, max: nat, next: nat, round: bool, id: nat) {
    && min <= id <= max && At(t, id).Null? && (!round ==> next <= id)
    && forall i | min <= i < id && (round || next <= i) :: !At(t, i).Null?
  }

  lemma SameEdit(t: Tree, w: Tree, u: Tree, index: nat, entry: Entry)
    requires Same(t, w) && Edited(w, u, index, StoredByApi(CellAt(w, index), entry, true))
    ensures Edited(t, u, index, StoredByApi(CellAt(t, index), entry, true))
  {
    assert CellAt(w, index) == CellAt(t, index);
  }

  /** The XA_FLAGS_ALLOC_WRAPPED bit, which is no part of the tree. */
  method SetWrapped(xa: XArray, wrapped: bool, ghost t: WTree)
    requires xa.Snap() == t
    modifies xa`allocWrapped
    ensures xa.Snap() == t && xa.allocWrapped == wrapped
  {
    ReadBack(xa, t);
    xa.allocWrapped := wrapped;
    SnapIs(xa, t);
  }

  /** The first attempt of __xa_alloc_cyclic, from where the last call left off. */
  method AllocForward(xa: XArray, was: nat, entry: Entry, start: nat, max: nat, gfp: bool, ghost t: WTree)
    returns (ret: int, id: nat, ghost u: WTree)
    requires xa.Snap() == t && FreeExact(t) && start <= UINT_MAX && max <= UINT_MAX && !entry.NodeEntry?
    modifies xa`head, xa`marks, xa`top, xa`nodes, xa.nodes.Values, xa`allocWrapped
    ensures xa.Snap() == u && FreeExact(u)
    ensures ret == 0 || ret == 1 || ret == -EINVAL || ret == -EBUSY || ret == -ENOMEM
    ensures ret == -EINVAL <==> entry.Retry? || !t.tracked
    ensures ret == -EBUSY <==> !entry.Retry? && t.tracked && Full(t, start, max)
    ensures gfp ==> ret != -ENOMEM
    ensures ret >= 0 ==> LeastFree(t, start, max, id) && Edited(t, u, id, StoredByApi(CellAt(t, id), entry, true))
    ensures ret < 0 ==> Same(t, u)
    ensures ret >= 0 ==> ret == (if old(xa.allocWrapped) then 1 else 0) && !xa.allocWrapped
    ensures ret < 0 ==> xa.allocWrapped == old(xa.allocWrapped)
    ensures fresh(xa.nodes.Values - old(xa.nodes.Values))
  {
    ret, id, u := XaAlloc(xa, was, entry, start, max, gfp, t);
    if xa.allocWrapped && ret == 0 {
      SetWrapped(xa, false, u);
      ret := 1;
    }
  }

  /** The second attempt of __xa_alloc_cyclic, over the whole range. */
  method AllocAround(xa: XArray, was: nat, entry: Entry, min: nat, max: nat, gfp: bool, ghost t: WTree, ghost w: WTree)
    returns (ret: int, id: nat, ghost u: WTree)
    requires xa.Snap() == w && FreeExact(w) && Same(t, w) && min <= UINT_MAX && max <= UINT_MAX && !entry.NodeEntry?
    modifies xa`head, xa`marks, xa`top, xa`nodes, xa.nodes.Values
    ensures xa.Snap() == u && FreeExact(u)
    ensures ret == 1 || ret == -EINVAL || ret == -EBUSY || ret == -ENOMEM
    ensures ret == -EINVAL <==> entry.Retry? || !w.tracked
    ensures ret == -EBUSY <==> !entry.Retry? && w.tracked && Full(t, min, max)
    ensures gfp ==> ret != -ENOMEM
    ensures ret == 1 ==> LeastFree(t, min, max, id) && Edited(t, u, id, StoredByApi(CellAt(t, id), entry, true))
    ensures ret < 0 ==> Same(t, u)
    ensures fresh(xa.nodes.Values - old(xa.nodes.Values))
  {
    ret, id, u := XaAlloc(xa, was, entry, min, max, gfp, w);
    SameFull(t, w, min, max, id);
    if ret == 0 {
      SameEdit(t, w, u, id, entry);
      ret := 1;
    }
  }

  /** __xa_alloc_cyclic never hands out an index in use, and fails with EBUSY exactly when the
      whole range is full.  It searches the whole range exactly when next lies within it and
      there is no free index from next on, or no memory was had for the first one (starved).  It
      returns 1 if it has come round now or had passed the last index before. */
  method XaAllocCyclic(xa: XArray, was: nat, entry: Entry, min: nat, max: nat, next: nat, gfp: bool, ghost t: WTree)
    returns (ret: int, id: nat, after: nat, ghost round: bool, ghost starved: bool, ghost u: WTree)
    requires xa.Snap() == t && FreeExact(t) && min <= UINT_MAX && max <= UINT_MAX && next <= UINT_MAX && !entry.NodeEntry?
    modifies xa`head, xa`marks, xa`top, xa`nodes, xa.nodes.Values, xa`allocWrapped
    ensures xa.Snap() == u && FreeExact(u)
    ensures ret == 0 || ret == 1 || ret == -EINVAL || ret == -EBUSY || ret == -ENOMEM
    ensures ret == -EINVAL <==> entry.Retry? || !t.tracked
    ensures ret == -EBUSY <==> !entry.Retry? && t.tracked && Full(t, min, max)
    ensures gfp ==> ret != -ENOMEM && !starved
    ensures ret >= 0 ==> CyclicChoice(t, min, max, next, round, id) && Edited(t, u, id, StoredByApi(CellAt(t, id), entry, true))
    ensures ret >= 0 ==> (round <==> min < next && (starved || Full(t, next, max)))
    ensures ret >= 0 ==> (ret == 1 <==> round || old(xa.allocWrapped))
    ensures xa.allocWrapped == if ret < 0 then old(xa.allocWrapped) else id == UINT_MAX || (round && old(xa.allocWrapped))
    ensures ret < 0 ==> Same(t, u)
    ensures after == if ret >= 0 then (id + 1) % (UINT_MAX + 1) else next
    ensures fresh(xa.nodes.Values - old(xa.nodes.Values))
  {
    hide Same, Edited;
    after := next;
    var start := if min < next then next else min;
    ret, id, u := AllocForward(xa, was, entry, start, max, gfp, t);
    round, starved := false, ret == -ENOMEM;
    if ret < 0 && start > min {
      round := true;
      ret, id, u := AllocAround(xa, id, entry, min, max, gfp, t, u);
    }
    if ret >= 0 {
      after := (id + 1) % (UINT_MAX + 1);
      if after == 0 {
        SetWrapped(xa, true, u);
      }
    }
  }

  /** The index handed out was not in use. */
  lemma ChoiceIsFree(t: Tree, min: nat, max: nat, next: nat, round: bool, id: nat)
    requires CyclicChoice(t, min, max, next, round, id)
    ensures min <= id <= max && At(t, id).Null? && !Full(t, min, max)
  {
  }
}
