/** xa_find, xa_find_after and xa_for_each_range. */
module XArrayIterate {
  import opened XaIndex
  import opened XaNode
  import opened XaTree
  import opened XaSpan
  import opened XArrayWalk
  import opened XArrayStore
  import opened XArrayFind
  import opened XArrayFindMarked

  /** XA_PRESENT, or a mark. */
  datatype Filter = Present | MarkedWith(mark: Mark)

  /** An entry, zero entries included, that the filter lets through. */
  ghost predicate Passes(t: Tree, index: nat, filter: Filter) {
    !At(t, index).Null? && (filter.MarkedWith? ==> Marked(t, index, filter.mark))
  }

  /** An entry that the normal API shows for the filter. */
  ghost predicate Matches(t: Tree, index: nat, filter: Filter) {
    Passes(t, index, filter) && !At(t, index).Zero?
  }

  ghost predicate NonePasses(t: Tree, filter: Filter, lo: nat, hi: nat) {
    forall i: nat {:trigger Passes(t, i, filter)} | lo <= i < hi :: !Passes(t, i, filter)
  }

  ghost predicate NoneMatches(t: Tree, filter: Filter, lo: nat, hi: nat) {
    forall i: nat {:trigger Matches(t, i, filter)} | lo <= i < hi :: !Matches(t, i, filter)
  }

  /** The first index a search looks at: an entry the cursor is at has been processed. */
  ghost function From(xas: XaState): nat {
    if xas.node == Restart then xas.index else xas.index + 1
  }

  /** xas_find or xas_find_marked, as the filter asks. */
  method FindOnce(xa: XArray, xas: XaState, max: nat, filter: Filter, ghost t: WTree) returns (entry: Entry, out: XaState)
    requires xa.Snap() == t && FreeExact(t) && xas.index <= ULONG_MAX && max <= ULONG_MAX
    requires xas.node == Restart || (!xas.node.Invalid() && AtSlot(t, xas))
    ensures if entry.Null? then NonePasses(t, filter, From(xas), max + 1)
            else From(xas) <= out.index <= max && entry == At(t, out.index) && Passes(t, out.index, filter)
                 && NonePasses(t, filter, From(xas), out.index) && !out.node.Invalid() && AtSlot(t, out)
  {
    if filter.MarkedWith? {
      entry, out := XasFindMarked(xa, xas, max, filter.mark, t);
      MarkedPasses(t, out, entry, From(xas), max, filter.mark);
    } else {
      ghost var level := if t.top < 0 then -1 else 0;
      entry, out := XasFind(xa, xas, max, t, level);
    }
  }

  /** Free indices have no entry, so a search for the free mark lets nothing through. */
  lemma MarkedPasses(t: WTree, xas: XaState, entry: Entry, lo: nat, max: nat, m: Mark)
    requires FreeExact(t) && MarkedResult(t, xas, entry, lo, max, m)
    ensures if entry.Null? then NonePasses(t, MarkedWith(m), lo, max + 1)
            else lo <= xas.index <= max && entry == At(t, xas.index) && Passes(t, xas.index, MarkedWith(m))
                 && NonePasses(t, MarkedWith(m), lo, xas.index) && !xas.node.Invalid() && AtSlot(t, xas)
  {
    if entry.Null? {
      forall i: nat | lo <= i <= max ensures !Passes(t, i, MarkedWith(m)) {
        if xas.node != Restart && i >= xas.index { UnmarkedFrom(t, xas, entry, lo, max, m, i); }
      }
    } else {
      var level :| Settled(t, xas, level);
      SettledAtEntry(t, xas, level);
    }
  }

  lemma UnmarkedFrom(t: WTree, xas: XaState, entry: Entry, lo: nat, max: nat, m: Mark, i: nat)
    requires FreeExact(t) && MarkedResult(t, xas, entry, lo, max, m) && entry.Null? && xas.node != Restart && i >= xas.index
    ensures !Passes(t, i, MarkedWith(m))
  {
    if xas.node == Bounds {
      if t.top >= 0 { ShrMonotone(xas.index, i, t.top + 1); }
      OutOfRange(t, i);
    } else {
      NullMark(t, xas.index, m);
    }
  }

  /** A mark on an empty index is the free mark. */
  lemma NullMark(t: WTree, index: nat, m: Mark)
    requires At(t, index).Null? && Marked(t, index, m)
    ensures FreeBit(t, m)
  {
    EmptyCell(t, index);
    CellMarks(t, index, m);
  }

  /** Zero entries are passed over. */
  lemma PassZero(t: Tree, filter: Filter, lo: nat, at: nat, next: nat)
    requires lo <= at && NoneMatches(t, filter, lo, at) && NonePasses(t, filter, at, next)
    ensures NoneMatches(t, filter, lo, next)
    ensures Passes(t, next, filter) && At(t, next).Zero? ==> NoneMatches(t, filter, lo, next + 1)
  {
    forall i: nat | lo <= i < next ensures !Matches(t, i, filter) {
      if i >= at { assert !Passes(t, i, filter); }
    }
  }

  /** xa_find shows the first matching entry of the range, and tells its index. */
  method XaFind(xa: XArray, index: nat, max: nat, filter: Filter, ghost t: WTree) returns (entry: Entry, indexp: nat)
    requires xa.Snap() == t && FreeExact(t) && index <= ULONG_MAX && max <= ULONG_MAX
    ensures if entry.Null? then indexp == index && NoneMatches(t, filter, index, max + 1)
            else index <= indexp <= max && entry == At(t, indexp) && Matches(t, indexp, filter) && NoneMatches(t, filter, index, indexp)
  {
    var xas := NewState(index);
    while true
      invariant xas.index <= ULONG_MAX && (xas.node == Restart || (!xas.node.Invalid() && AtSlot(t, xas)))
      invariant index <= From(xas) && NoneMatches(t, filter, index, From(xas))
      decreases ULONG - From(xas)
    {
      ghost var at := From(xas);
      entry, xas := FindOnce(xa, xas, max, filter, t);
      PassZero(t, filter, index, at, if entry.Null? then max + 1 else xas.index);
      // xas_retry
      if !entry.Zero? {
        break;
      }
    }
    indexp := if !entry.Null? then xas.index else index;
  }

  /** xa_find_after shows the first matching entry above an index. */
  method XaFindAfter(xa: XArray, index: nat, max: nat, filter: Filter, ghost t: WTree) returns (entry: Entry, indexp: nat)
    requires xa.Snap() == t && FreeExact(t) && index <= ULONG_MAX && max <= ULONG_MAX
    ensures if entry.Null? then indexp == index && NoneMatches(t, filter, index + 1, max + 1)
            else index < indexp <= max && entry == At(t, indexp) && Matches(t, indexp, filter) && NoneMatches(t, filter, index + 1, indexp)
  {
    var xas := NewState((index + 1) % ULONG);
    if xas.index == 0 {
      return Null, index;
    }
    while true
      invariant xas.index <= ULONG_MAX && (xas.node == Restart || (!xas.node.Invalid() && AtSlot(t, xas)))
      invariant index < From(xas) && NoneMatches(t, filter, index + 1, From(xas))
      decreases ULONG - From(xas)
    {
      ghost var at := From(xas);
      entry, xas := FindOnce(xa, xas, max, filter, t);
      PassZero(t, filter, index + 1, at, if entry.Null? then max + 1 else xas.index);
      // xas_invalid, or not xas_retry
      if xas.node.Invalid() || !entry.Zero? {
        break;
      }
    }
    indexp := if !entry.Null? then xas.index else index;
  }

  /** The indices that match, in ascending order and each once. */
  ghost predicate Visits(t: Tree, filter: Filter, lo: nat, hi: nat, visited: seq<nat>) {
    && (forall i, j | 0 <= i < j < |visited| :: visited[i] < visited[j])
    && (forall i | 0 <= i < |visited| :: lo <= visited[i] < hi && Matches(t, visited[i], filter))
    && (forall i: nat {:trigger Matches(t, i, filter)} | lo <= i < hi && Matches(t, i, filter) :: i in visited)
  }

  lemma VisitNext(t: Tree, filter: Filter, lo: nat, at: nat, next: nat, visited: seq<nat>)
    requires lo <= at <= next && Visits(t, filter, lo, at, visited) && NoneMatches(t, filter, at, next) && Matches(t, next, filter)
    ensures Visits(t, filter, lo, next + 1, visited + [next])
  {
    var more := visited + [next];
    forall i: nat | lo <= i < next + 1 && Matches(t, i, filter) ensures i in more {
      if i < at {
        assert i in visited;
      } else if i == next {
        assert more[|visited|] == next;
      }
    }
  }

  lemma VisitEnd(t: Tree, filter: Filter, lo: nat, at: nat, hi: nat, visited: seq<nat>)
    requires Visits(t, filter, lo, at, visited) && NoneMatches(t, filter, at, hi) && (visited == [] || at <= hi)
    ensures Visits(t, filter, lo, hi, visited)
  {
    forall i: nat | lo <= i < hi && Matches(t, i, filter) ensures i in visited {
      assert i < at;
    }
  }

  /** xa_for_each_range, collecting the indices it visits: every matching index of the range,
      once, in ascending order. */
  method XaForEachRange(xa: XArray, start: nat, last: nat, filter: Filter, ghost t: WTree) returns (visited: seq<nat>)
    requires xa.Snap() == t && FreeExact(t) && start <= ULONG_MAX && last <= ULONG_MAX
    ensures Visits(t, filter, start, last + 1, visited)
  {
    visited := [];
    var entry, index := XaFind(xa, start, last, filter, t);
    ghost var at := start;
    while !entry.Null?
      invariant start <= at && Visits(t, filter, start, at, visited) && (visited == [] || at <= last + 1)
      invariant if entry.Null? then NoneMatches(t, filter, at, last + 1)
                else at <= index <= last && Matches(t, index, filter) && NoneMatches(t, filter, at, index)
      decreases !entry.Null?, last + 1 - at
    {
      VisitNext(t, filter, start, at, index, visited);
      visited := visited + [index];
      at := index + 1;
      entry, index := XaFindAfter(xa, index, last, filter, t);
    }
    VisitEnd(t, filter, start, at, last + 1, visited);
  }
}
