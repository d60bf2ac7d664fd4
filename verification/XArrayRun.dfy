/** Any run of calls of the normal API behaves as on a plain map from indices to entries with
    marks. */
module XArrayRun {
  import opened XaIndex
  import opened XaNode
  import opened XaTree
  import opened XArrayWalk
  import opened XArrayMark
  import opened XArrayStore
  import opened XArrayApi
  import opened XArrayAlloc
  import opened XArrayIterate
  import opened XArrayDestroy

  datatype Op =
    | Load(index: nat)
    | Store(index: nat, entry: Entry)
    | Erase(index: nat)
    | Alloc(entry: Entry, min: nat, max: nat)
    | AllocCyclic(entry: Entry, min: nat, max: nat, next: nat)
    | SetMark(index: nat, mark: Mark)
    | ClearMark(index: nat, mark: Mark)
    | GetMark(index: nat, mark: Mark)
    | Find(index: nat, max: nat, filter: Filter)
    | FindAfter(index: nat, max: nat, filter: Filter)
    | Destroy

  datatype Reply =
    | Shown(entry: Entry)
    | Id(id: nat)
    | Cycled(id: nat, ret: int, next: nat)
    | Refused(errno: int)
    | Flag(on: bool)
    | Hit(at: nat, found: Entry)
    | Missed
    | Done

  // ---- The plain map ---------------------------------------------------------------

  /** The indices in use, with their entries and marks. */
  type Contents = map<nat, Cell>

  /** The map, and whether a cyclic search has passed the last index. */
  datatype World = World(used: Contents, wrapped: bool)

  /** A call the API may be given: 64-bit indices, 32-bit limits, no node for an entry, and
      hands off the mark that an allocating array keeps for itself. */
  predicate Callable(op: Op, tracked: bool) {
    match op
    case Load(i) => i <= ULONG_MAX
    case Store(i, e) => i <= ULONG_MAX && !e.NodeEntry?
    case Erase(i) => i <= ULONG_MAX
    case Alloc(e, min, max) => min <= UINT_MAX && max <= UINT_MAX && !e.NodeEntry?
    case AllocCyclic(e, min, max, next) => min <= UINT_MAX && max <= UINT_MAX && next <= UINT_MAX && !e.NodeEntry?
    case SetMark(i, k) => i <= ULONG_MAX && !(tracked && k == FREE_MARK)
    case ClearMark(i, k) => i <= ULONG_MAX && !(tracked && k == FREE_MARK)
    case GetMark(i, k) => i <= ULONG_MAX && !(tracked && k == FREE_MARK)
    case Find(i, max, _) => i <= ULONG_MAX && max <= ULONG_MAX
    case FindAfter(i, max, _) => i <= ULONG_MAX && max <= ULONG_MAX
    case Destroy => true
  }

  function Lookup(m: Contents, i: nat): Entry {
    if i in m then m[i].entry else Null
  }

  /** An allocating array reserves an index for which NULL is stored. */
  function Kept(e: Entry, tracked: bool): Entry {
    if tracked && e.Null? then Zero else e
  }

  /** An entry stored over another keeps its marks; a new one has none. */
  function Put(m: Contents, i: nat, e: Entry): Contents {
    if e.Null? then m - {i} else m[i := Cell(e, if i in m then m[i].marks else [false, false, false])]
  }

  function SetBit(m: Contents, i: nat, k: Mark, b: bool): Contents {
    if i in m then m[i := Cell(m[i].entry, m[i].marks[k := b])] else m
  }

  predicate AllUsed(m: Contents, min: nat, max: nat) {
    forall i | min <= i <= max :: i in m
  }

  predicate LeastUnused(m: Contents, min: nat, max: nat, id: nat) {
    min <= id <= max && id !in m && forall i | min <= i < id :: i in m
  }

  /** The first unused index of the range that is not below next, or, once come round, of all. */
  predicate FirstUnused(m: Contents, min: nat, max: nat, next: nat, round: bool, id: nat) {
    && min <= id <= max && id !in m && (!round ==> next <= id)
    && forall i | min <= i < id && (round || next <= i) :: i in m
  }

  predicate Hits(m: Contents, filter: Filter, i: nat) {
    i in m && !m[i].entry.Zero? && (filter.MarkedWith? ==> m[i].marks[filter.mark])
  }

  /** The answer of a search from lo up to max. */
  predicate FirstHit(m: Contents, filter: Filter, lo: nat, max: nat, reply: Reply) {
    if reply.Hit? then
      && lo <= reply.at <= max && Hits(m, filter, reply.at) && reply.found == Lookup(m, reply.at)
      && forall i | lo <= i < reply.at :: !Hits(m, filter, i)
    else reply == Missed && forall i | lo <= i <= max :: !Hits(m, filter, i)
  }

  /** A cyclic search that is answered, be it at once or after it has come round to the
      beginning of its range; it comes round if it finds nothing, and may for want of memory. */
  predicate Cycles(w: World, e: Entry, min: nat, max: nat, next: nat, reply: Reply, after: World, round: bool) {
    && reply.Cycled? && FirstUnused(w.used, min, max, next, round, reply.id)
    && (min < next && AllUsed(w.used, next, max) ==> round) && (round ==> min < next)
    && reply.ret == (if round || w.wrapped then 1 else 0) && reply.next == (reply.id + 1) % (UINT_MAX + 1)
    && after == World(Put(w.used, reply.id, Kept(e, true)), reply.id == UINT_MAX || (round && w.wrapped))
  }

  /** What a plain map would answer, and what it would then be.  Only for want of memory may
      a call be refused that the map would serve, and only if gfp, the caller's flags, do not
      always get it. */
  predicate Serves(tracked: bool, gfp: bool, w: World, op: Op, reply: Reply, after: World) {
    var m := w.used;
    match op
    case Load(i) => reply == Shown(Lookup(m, i).Visible()) && after == w
    case Store(i, e) =>
      if e.Retry? then reply == Refused(-EINVAL) && after == w
      else (reply == Shown(Lookup(m, i).Visible()) && after == w.(used := Put(m, i, Kept(e, tracked)))) || (!gfp && reply == Refused(-ENOMEM) && after == w)
    case Erase(i) => reply == Shown(Lookup(m, i).Visible()) && after == w.(used := Put(m, i, Null))
    case Alloc(e, min, max) =>
      if e.Retry? || !tracked then reply == Refused(-EINVAL) && after == w
      else if AllUsed(m, min, max) then reply == Refused(-EBUSY) && after == w
      else (reply.Id? && LeastUnused(m, min, max, reply.id) && after == w.(used := Put(m, reply.id, Kept(e, true)))) || (!gfp && reply == Refused(-ENOMEM) && after == w)
    case AllocCyclic(e, min, max, next) =>
      if e.Retry? || !tracked then reply == Refused(-EINVAL) && after == w
      else if AllUsed(m, min, max) then reply == Refused(-EBUSY) && after == w
      else Cycles(w, e, min, max, next, reply, after, false) || Cycles(w, e, min, max, next, reply, after, true) || (!gfp && reply == Refused(-ENOMEM) && after == w)
    case SetMark(i, k) => reply == Done && after == w.(used := SetBit(m, i, k, true))
    case ClearMark(i, k) => reply == Done && after == w.(used := SetBit(m, i, k, false))
    case GetMark(i, k) => reply == Flag(i in m && m[i].marks[k]) && after == w
    case Find(i, max, filter) => FirstHit(m, filter, i, max, reply) && after == w
    case FindAfter(i, max, filter) => FirstHit(m, filter, i + 1, max, reply) && after == w
    case Destroy => reply == Done && after == w.(used := map[])
  }

  // ---- The array and the map -------------------------------------------------------

  /** What the map says about an index. */
  function Told(m: Contents, i: nat, tracked: bool): Cell {
    if i in m then m[i] else Cell(Null, FreeMarks(tracked))
  }

  /** The array holds what the map holds. */
  ghost predicate Holds(t: Tree, m: Contents) {
    forall i: nat {:trigger CellAt(t, i)} {:trigger Told(m, i, t.tracked)} ::
      CellAt(t, i) == Told(m, i, t.tracked) && (i in m ==> !m[i].entry.Null?)
  }

  lemma HoldsAt(t: Tree, m: Contents, i: nat)
    requires Holds(t, m)
    ensures CellAt(t, i) == Told(m, i, t.tracked) && At(t, i) == Lookup(m, i) && (i in m <==> !At(t, i).Null?)
    ensures forall k: Mark :: Marked(t, i, k) == Told(m, i, t.tracked).marks[k]
  {
    forall k: Mark { CellMarks(t, i, k); }
  }

  lemma HoldsSame(t: Tree, u: Tree, m: Contents)
    requires Holds(t, m) && Same(t, u) && t.tracked == u.tracked
    ensures Holds(u, m)
  {
    forall i: nat ensures CellAt(u, i) == Told(m, i, t.tracked) { HoldsAt(t, m, i); }
  }

  /** One index is edited in the array and in the map. */
  lemma HoldsEdited(t: Tree, u: Tree, m: Contents, after: Contents, index: nat, cell: Cell)
    requires Holds(t, m) && Edited(t, u, index, cell) && t.tracked == u.tracked
    requires if cell.entry.Null? then cell == Cell(Null, FreeMarks(t.tracked)) && after == m - {index} else after == m[index := cell]
    ensures Holds(u, after)
  {
    forall i: nat ensures CellAt(u, i) == Told(after, i, t.tracked) && (i in after ==> !after[i].entry.Null?) {
      HoldsAt(t, m, i);
      assert CellAt(u, i) == if i == index then cell else CellAt(t, i);
    }
  }

  /** What __xa_store leaves for an index is what the map then says. */
  lemma StoredIsPut(t: Tree, u: Tree, m: Contents, index: nat, entry: Entry)
    requires FreeExact(t) && Holds(t, m) && t.tracked == u.tracked
    requires Edited(t, u, index, StoredByApi(CellAt(t, index), entry, t.tracked))
    ensures Holds(u, Put(m, index, Kept(entry, t.tracked)))
  {
    var cell := StoredByApi(CellAt(t, index), entry, t.tracked);
    HoldsAt(t, m, index);
    if t.tracked {
      assert Marked(t, index, FREE_MARK) <==> index !in m;
      assert cell.marks == if index in m then m[index].marks else [false, false, false];
    }
    HoldsEdited(t, u, m, Put(m, index, Kept(entry, t.tracked)), index, cell);
  }

  lemma MarkedIsSet(t: Tree, u: Tree, m: Contents, index: nat, mark: Mark, b: bool)
    requires Holds(t, m) && t.tracked == u.tracked
    requires Edited(t, u, index, MarkedByApi(CellAt(t, index), mark, b))
    ensures Holds(u, SetBit(m, index, mark, b))
  {
    var cell := MarkedByApi(CellAt(t, index), mark, b);
    HoldsAt(t, m, index);
    if index !in m { assert m - {index} == m; }
    HoldsEdited(t, u, m, SetBit(m, index, mark, b), index, cell);
  }

  lemma UsedAsFull(t: Tree, m: Contents, min: nat, max: nat, id: nat)
    requires Holds(t, m)
    ensures AllUsed(m, min, max) <==> Full(t, min, max)
    ensures LeastUnused(m, min, max, id) <==> LeastFree(t, min, max, id)
  {
    forall i: nat ensures i in m <==> !At(t, i).Null? { HoldsAt(t, m, i); }
  }

  lemma UnusedAsChoice(t: Tree, m: Contents, min: nat, max: nat, next: nat, round: bool, id: nat)
    requires Holds(t, m)
    ensures FirstUnused(m, min, max, next, round, id) <==> CyclicChoice(t, min, max, next, round, id)
    ensures FirstUnused(m, min, max, next, round, id) ==> !AllUsed(m, min, max)
  {
    forall i: nat ensures i in m <==> !At(t, i).Null? { HoldsAt(t, m, i); }
  }

  lemma HitsAsMatches(t: Tree, m: Contents, filter: Filter, i: nat)
    requires Holds(t, m)
    ensures Hits(m, filter, i) <==> Matches(t, i, filter)
  {
    HoldsAt(t, m, i);
  }

  lemma NoneHits(t: Tree, m: Contents, filter: Filter, lo: nat, hi: nat)
    requires Holds(t, m) && NoneMatches(t, filter, lo, hi)
    ensures forall i: nat | lo <= i < hi :: !Hits(m, filter, i)
  {
    forall i: nat | lo <= i < hi ensures !Hits(m, filter, i) {
      HitsAsMatches(t, m, filter, i);
      assert !Matches(t, i, filter);
    }
  }

  // ---- The calls -------------------------------------------------------------------

  method DoStore(xa: XArray, index: nat, entry: Entry, gfp: bool, ghost t: WTree, ghost w: World)
    returns (reply: Reply, ghost u: WTree, ghost after: World)
    requires xa.Snap() == t && FreeExact(t) && Holds(t, w.used) && Callable(Store(index, entry), xa.trackFree)
    modifies xa`head, xa`marks, xa`top, xa`nodes, xa.nodes.Values
    ensures xa.Snap() == u && FreeExact(u) && Holds(u, after.used) && Serves(xa.trackFree, gfp, w, Store(index, entry), reply, after)
    ensures fresh(xa.nodes.Values - old(xa.nodes.Values)) && after.wrapped == w.wrapped
  {
    hide Holds, FreeExact, Same, Edited;
    var answer;
    answer, u := XaStore(xa, index, entry, gfp, t);
    HoldsAt(t, w.used, index);
    if answer.Failed? {
      HoldsSame(t, u, w.used);
      return Refused(answer.errno), u, w;
    }
    StoredIsPut(t, u, w.used, index, entry);
    return Shown(answer.entry), u, w.(used := Put(w.used, index, Kept(entry, xa.trackFree)));
  }

  method DoErase(xa: XArray, index: nat, gfp: bool, ghost t: WTree, ghost w: World)
    returns (reply: Reply, ghost u: WTree, ghost after: World)
    requires xa.Snap() == t && FreeExact(t) && Holds(t, w.used) && Callable(Erase(index), xa.trackFree)
    modifies xa`head, xa`marks, xa`top, xa`nodes, xa.nodes.Values
    ensures xa.Snap() == u && FreeExact(u) && Holds(u, after.used) && Serves(xa.trackFree, gfp, w, Erase(index), reply, after)
    ensures xa.nodes.Values <= old(xa.nodes.Values) && after.wrapped == w.wrapped
  {
    hide Holds, FreeExact, Edited;
    var answer;
    answer, u := XaErase(xa, index, t);
    HoldsAt(t, w.used, index);
    HoldsEdited(t, u, w.used, Put(w.used, index, Null), index, Cell(Null, FreeMarks(t.tracked)));
    return Shown(answer.entry), u, w.(used := Put(w.used, index, Null));
  }

  method DoAlloc(xa: XArray, entry: Entry, min: nat, max: nat, gfp: bool, ghost t: WTree, ghost w: World)
    returns (reply: Reply, ghost u: WTree, ghost after: World)
    requires xa.Snap() == t && FreeExact(t) && Holds(t, w.used) && Callable(Alloc(entry, min, max), xa.trackFree)
    modifies xa`head, xa`marks, xa`top, xa`nodes, xa.nodes.Values
    ensures xa.Snap() == u && FreeExact(u) && Holds(u, after.used) && Serves(xa.trackFree, gfp, w, Alloc(entry, min, max), reply, after)
    ensures fresh(xa.nodes.Values - old(xa.nodes.Values)) && after.wrapped == w.wrapped
  {
    hide Holds, FreeExact, Same, Edited;
    var err, id;
    err, id, u := XaAlloc(xa, 0, entry, min, max, gfp, t);
    UsedAsFull(t, w.used, min, max, id);
    if err != 0 {
      HoldsSame(t, u, w.used);
      return Refused(err), u, w;
    }
    StoredIsPut(t, u, w.used, id, entry);
    return Id(id), u, w.(used := Put(w.used, id, Kept(entry, true)));
  }

  method DoAllocCyclic(xa: XArray, entry: Entry, min: nat, max: nat, next: nat, gfp: bool, ghost t: WTree, ghost w: World)
    returns (reply: Reply, ghost u: WTree, ghost after: World)
    requires xa.Snap() == t && FreeExact(t) && Holds(t, w.used) && xa.allocWrapped == w.wrapped
    requires Callable(AllocCyclic(entry, min, max, next), xa.trackFree)
    modifies xa`head, xa`marks, xa`top, xa`nodes, xa.nodes.Values, xa`allocWrapped
    ensures xa.Snap() == u && FreeExact(u) && Holds(u, after.used) && xa.allocWrapped == after.wrapped
    ensures Serves(xa.trackFree, gfp, w, AllocCyclic(entry, min, max, next), reply, after)
    ensures fresh(xa.nodes.Values - old(xa.nodes.Values))
  {
    hide Holds, FreeExact, Same, Edited, Full, LeastFree, CyclicChoice, FirstUnused, AllUsed;
    var ret, id, follow;
    ghost var round, starved;
    ret, id, follow, round, starved, u := XaAllocCyclic(xa, 0, entry, min, max, next, gfp, t);
    UsedAsFull(t, w.used, min, max, id);
    UsedAsFull(t, w.used, next, max, id);
    if ret < 0 {
      HoldsSame(t, u, w.used);
      return Refused(ret), u, w;
    }
    StoredIsPut(t, u, w.used, id, entry);
    reply := Cycled(id, ret, follow);
    after := World(Put(w.used, id, Kept(entry, true)), xa.allocWrapped);
    UnusedAsChoice(t, w.used, min, max, next, round, id);
    if !round && min < next { UsedAsFull(t, w.used, next, max, id); }
    assert Cycles(w, entry, min, max, next, reply, after, round);
  }

  method DoMark(xa: XArray, index: nat, mark: Mark, b: bool, ghost t: WTree, ghost m: Contents)
    returns (ghost u: WTree)
    requires xa.Snap() == t && FreeExact(t) && Holds(t, m) && Callable(SetMark(index, mark), xa.trackFree)
    modifies xa`marks, xa.nodes.Values
    ensures xa.Snap() == u && FreeExact(u) && Holds(u, SetBit(m, index, mark, b))
  {
    hide Holds, FreeExact, Edited;
    if b {
      u := XaSetMark(xa, index, mark, t);
    } else {
      u := XaClearMark(xa, index, mark, t);
    }
    MarkedIsSet(t, u, m, index, mark, b);
  }

  method DoFind(xa: XArray, index: nat, max: nat, filter: Filter, after: bool, ghost t: WTree, ghost m: Contents)
    returns (reply: Reply)
    requires xa.Snap() == t && FreeExact(t) && Holds(t, m) && index <= ULONG_MAX && max <= ULONG_MAX
    ensures FirstHit(m, filter, if after then index + 1 else index, max, reply)
  {
    hide Holds, FreeExact, NoneMatches;
    ghost var lo := if after then index + 1 else index;
    var entry, at;
    if after {
      entry, at := XaFindAfter(xa, index, max, filter, t);
    } else {
      entry, at := XaFind(xa, index, max, filter, t);
    }
    if entry.Null? {
      NoneHits(t, m, filter, lo, max + 1);
      return Missed;
    }
    NoneHits(t, m, filter, lo, at);
    HitsAsMatches(t, m, filter, at);
    HoldsAt(t, m, at);
    return Hit(at, entry);
  }

  method DoGetMark(xa: XArray, index: nat, mark: Mark, ghost t: WTree, ghost m: Contents) returns (reply: Reply)
    requires xa.Snap() == t && Holds(t, m) && Callable(GetMark(index, mark), xa.trackFree)
    ensures reply == Flag(index in m && m[index].marks[mark])
  {
    var b := XaGetMark(xa, index, mark, t);
    HoldsAt(t, m, index);
    return Flag(b);
  }

  /** The array is what the map is. */
  ghost predicate Mirrors(xa: XArray, t: WTree, w: World)
    reads xa, xa.nodes.Values
  {
    xa.Snap() == t && FreeExact(t) && Holds(t, w.used) && xa.allocWrapped == w.wrapped
  }

  method Do(xa: XArray, op: Op, gfp: bool, ghost t: WTree, ghost w: World)
    returns (reply: Reply, ghost u: WTree, ghost after: World)
    requires Mirrors(xa, t, w) && Callable(op, xa.trackFree)
    modifies xa`head, xa`marks, xa`top, xa`nodes, xa.nodes.Values, xa`allocWrapped
    ensures Mirrors(xa, u, after) && Serves(xa.trackFree, gfp, w, op, reply, after)
    ensures fresh(xa.nodes.Values - old(xa.nodes.Values))
  {
    hide Holds, FreeExact, WF, Structure, FirstHit, Cycles;
    reply, u, after := Done, t, w;
    match op
    case Load(index) =>
      var entry := XaLoad(xa, index, t);
      HoldsAt(t, w.used, index);
      reply := Shown(entry);
    case Store(index, entry) =>
      reply, u, after := DoStore(xa, index, entry, gfp, t, w);
    case Erase(index) =>
      reply, u, after := DoErase(xa, index, gfp, t, w);
    case Alloc(entry, min, max) =>
      reply, u, after := DoAlloc(xa, entry, min, max, gfp, t, w);
    case AllocCyclic(entry, min, max, next) =>
      reply, u, after := DoAllocCyclic(xa, entry, min, max, next, gfp, t, w);
    case SetMark(index, mark) =>
      u := DoMark(xa, index, mark, true, t, w.used);
      after := w.(used := SetBit(w.used, index, mark, true));
    case ClearMark(index, mark) =>
      u := DoMark(xa, index, mark, false, t, w.used);
      after := w.(used := SetBit(w.used, index, mark, false));
    case GetMark(index, mark) =>
      reply := DoGetMark(xa, index, mark, t, w.used);
    case Find(index, max, filter) =>
      reply := DoFind(xa, index, max, filter, false, t, w.used);
    case FindAfter(index, max, filter) =>
      reply := DoFind(xa, index, max, filter, true, t, w.used);
    case Destroy =>
      u := XaDestroy(xa, t);
      after := w.(used := map[]);
      EmptyHolds(u);
  }

  lemma EmptyHolds(t: WTree)
    requires forall i: nat :: At(t, i).Null?
    ensures Holds(t, map[])
  {
    forall i: nat ensures CellAt(t, i) == Told(map[], i, t.tracked) { EmptyCell(t, i); }
  }

  /** A run of the map: each call served, from one state to the next. */
  ghost predicate ServesAll(tracked: bool, gfp: bool, ops: seq<Op>, replies: seq<Reply>, states: seq<World>) {
    && |replies| == |ops| && |states| == |ops| + 1
    && forall j | 0 <= j < |ops| :: Serves(tracked, gfp, states[j], ops[j], replies[j], states[j + 1])
  }

  /** A new array, used for any run of calls, with any allocation failing at any time but for
      those with the caller's flags if gfp says so, answers every one of them as a map that
      began empty. */
  method Run(trackFree: bool, ops: seq<Op>, gfp: bool) returns (xa: XArray, replies: seq<Reply>, ghost states: seq<World>)
    requires forall op | op in ops :: Callable(op, trackFree)
    ensures fresh(xa) && ServesAll(trackFree, gfp, ops, replies, states) && states[0] == World(map[], false)
    ensures WF(xa.Snap()) && Holds(xa.Snap(), states[|ops|].used)
  {
    hide Holds, FreeExact, Structure, Serves;
    xa := new XArray(trackFree);
    ghost var t: WTree := xa.Snap();
    replies, states := [], [World(map[], false)];
    EmptyHolds(t);
    for n := 0 to |ops|
      invariant ServesAll(trackFree, gfp, ops[..n], replies, states) && states[0] == World(map[], false)
      invariant Mirrors(xa, t, states[n]) && xa.trackFree == trackFree
      invariant fresh(xa.nodes.Values)
    {
      assert ops[..n + 1] == ops[..n] + [ops[n]];
      assert ops[n] in ops;
      var reply;
      ghost var after;
      reply, t, after := Do(xa, ops[n], gfp, t, states[n]);
      replies := replies + [reply];
      states := states + [after];
    }
    assert ops[..|ops|] == ops;
  }

  // ---- What runs of calls keep -------------------------------------------------------

  /** The index a call has taken into use. */
  predicate HandsOut(op: Op, reply: Reply, id: nat) {
    (op.Alloc? && reply == Id(id)) || (op.AllocCyclic? && reply.Cycled? && reply.id == id)
  }

  /** A call that may give up an index. */
  predicate GivesUp(op: Op, tracked: bool, id: nat) {
    op == Erase(id) || op.Destroy? || (op.Store? && op.index == id && op.entry.Null? && !tracked)
  }

  lemma HandedOut(tracked: bool, gfp: bool, w: World, op: Op, reply: Reply, after: World, id: nat)
    requires Serves(tracked, gfp, w, op, reply, after) && HandsOut(op, reply, id)
    ensures id !in w.used && id in after.used
  {
  }

  lemma StaysUsed(tracked: bool, gfp: bool, w: World, op: Op, reply: Reply, after: World, id: nat)
    requires Serves(tracked, gfp, w, op, reply, after) && id in w.used && !GivesUp(op, tracked, id)
    ensures id in after.used
  {
  }

  lemma {:induction false} UsedFrom(tracked: bool, gfp: bool, ops: seq<Op>, replies: seq<Reply>, states: seq<World>, j: nat, k: nat, id: nat)
    requires ServesAll(tracked, gfp, ops, replies, states) && j <= k <= |ops| && id in states[j].used
    requires forall n | j <= n < k :: !GivesUp(ops[n], tracked, id)
    ensures id in states[k].used
  {
    hide Serves, GivesUp;
    if j < k {
      UsedFrom(tracked, gfp, ops, replies, states, j, k - 1, id);
      StaysUsed(tracked, gfp, states[k - 1], ops[k - 1], replies[k - 1], states[k], id);
    }
  }

  /** No index is handed out a second time unless it has been given up in between, whatever
      the calls and whichever allocations fail. */
  lemma NeverTwice(tracked: bool, gfp: bool, ops: seq<Op>, replies: seq<Reply>, states: seq<World>, j: nat, k: nat, id: nat)
    requires ServesAll(tracked, gfp, ops, replies, states) && j < k < |ops|
    requires HandsOut(ops[j], replies[j], id) && HandsOut(ops[k], replies[k], id)
    ensures exists n | j < n < k :: GivesUp(ops[n], tracked, id)
  {
    hide Serves, GivesUp, HandsOut;
    HandedOut(tracked, gfp, states[j], ops[j], replies[j], states[j + 1], id);
    HandedOut(tracked, gfp, states[k], ops[k], replies[k], states[k + 1], id);
    if forall n | j < n < k :: !GivesUp(ops[n], tracked, id) {
      UsedFrom(tracked, gfp, ops, replies, states, j + 1, k, id);
    }
  }

  /** What a cyclic search tells of the range.  It answers 0 only if it has stayed at or above
      next; it hands out an index below next only if it has come round, and then the first of
      the range; and with nothing free from next on it does come round. */
  lemma CyclicReply(tracked: bool, gfp: bool, ops: seq<Op>, replies: seq<Reply>, states: seq<World>, j: nat)
    requires ServesAll(tracked, gfp, ops, replies, states) && j < |ops| && ops[j].AllocCyclic? && replies[j].Cycled?
    ensures var op, id, m := ops[j], replies[j].id, states[j].used;
      && op.min <= id <= op.max && id !in m && replies[j].next == (id + 1) % 0x1_0000_0000
      && (replies[j].ret == 0 || replies[j].ret == 1)
      && (replies[j].ret == 0 ==> op.next <= id && forall i | op.min <= i < id && op.next <= i :: i in m)
      && (id < op.next ==> forall i | op.min <= i < id :: i in m)
      && ((forall i | op.min <= i <= op.max && op.next <= i :: i in m) ==> replies[j].ret == 1 && id < op.next)
  {
    hide Put;
    assert Serves(tracked, gfp, states[j], ops[j], replies[j], states[j + 1]);
    var round := Cycles(states[j], ops[j].entry, ops[j].min, ops[j].max, ops[j].next, replies[j], states[j + 1], true);
    assert Cycles(states[j], ops[j].entry, ops[j].min, ops[j].max, ops[j].next, replies[j], states[j + 1], round);
  }

  /** Searches that each go on where the one before left off hand out ascending indices for
      as long as they answer 0: what is given up meanwhile is not reused before they come
      round. */
  lemma {:induction false} CyclicAscends(tracked: bool, gfp: bool, ops: seq<Op>, replies: seq<Reply>, states: seq<World>, chain: seq<nat>)
    requires ServesAll(tracked, gfp, ops, replies, states) && forall c | 0 <= c < |chain| :: chain[c] < |ops|
    requires forall c | 0 <= c < |chain| :: ops[chain[c]].AllocCyclic? && replies[chain[c]].Cycled?
    requires forall c | 0 < c < |chain| :: ops[chain[c]].next == replies[chain[c - 1]].next && replies[chain[c]].ret == 0
    requires forall c | 0 <= c < |chain| :: replies[chain[c]].id < UINT_MAX
    ensures forall b, c | 0 <= b < c < |chain| :: replies[chain[b]].id < replies[chain[c]].id
  {
    hide Serves;
    if |chain| >= 2 {
      var last := |chain| - 1;
      CyclicAscends(tracked, gfp, ops, replies, states, chain[..last]);
      CyclicReply(tracked, gfp, ops, replies, states, chain[last - 1]);
      CyclicReply(tracked, gfp, ops, replies, states, chain[last]);
    }
  }
}
