/** Any run of enqueues and dequeues of sch_fq_codel.c: flows that have packets throughout are
    served evenly, whatever other flows come and go. */
module FqRun {
  import opened Words
  import opened FqFlow
  import opened FqBooks
  import opened FqTurns
  import opened FqPasses
  import opened FqCodel

  /** A packet of a length arrives, or the device asks for one while codel_dequeue would drop
      some. */
  datatype Op = Arrive(len: nat, p: Packet) | Serve(drops: nat)

  predicate Callable(op: Op, maxLen: nat) {
    op.Arrive? ==> 1 <= op.len <= maxLen && op.p.hash < UINT32
  }

  /** The limit keeps the bytes that are queued within 32 bits. */
  ghost predicate Fits(q: FqCodelSched)
    reads q
  {
    q.limit * q.maxLen < UINT32 && q.maxLen < UINT32 && (q.qlen == 0 || q.qlen < q.limit)
  }

  lemma {:induction false} BytesWithin(view: seq<FlowView>, maxLen: nat)
    requires Sized(view, maxLen)
    ensures TotalBytes(view) <= TotalCount(view) * maxLen
  {
    if view != [] {
      RestSized(view, maxLen);
      hide Sized;
      BytesWithin(view[1..], maxLen);
      QueueWithin(view[0].queue, maxLen);
      Times(|view[0].queue|, TotalCount(view[1..]), maxLen);
    }
  }

  lemma RestSized(view: seq<FlowView>, maxLen: nat)
    requires view != [] && Sized(view, maxLen)
    ensures Sized(view[1..], maxLen) && forall s | s in view[0].queue :: s.len <= maxLen
  {
    forall i, s | 0 <= i < |view[1..]| && s in view[1..][i].queue ensures 1 <= s.len <= maxLen { assert s in view[i + 1].queue; }
  }

  lemma Times(a: nat, b: nat, m: nat)
    ensures (a + b) * m == a * m + b * m
  {
  }

  lemma {:induction false} QueueWithin(queue: seq<Skb>, maxLen: nat)
    requires forall s | s in queue :: s.len <= maxLen
    ensures QueueBytes(queue) <= |queue| * maxLen
  {
    if queue != [] {
      QueueWithin(queue[1..], maxLen);
      Times(1, |queue[1..]|, maxLen);
    }
  }

  lemma RoomForOne(q: FqCodelSched, len: nat)
    requires q.Valid() && Fits(q) && len <= q.maxLen
    ensures q.backlog + len < UINT32
  {
    hide Apart, Ordered, Scheduled, Fair;
    BytesWithin(q.view, q.maxLen);
    if q.qlen > 0 {
      MulMonotone(q.qlen + 1, q.limit, q.maxLen);
      Times(q.qlen, 1, q.maxLen);
    }
  }

  lemma MomentSane(q: FqCodelSched)
    requires q.Valid()
    ensures Sane(q.Now(), q.quantum, q.maxLen) && Distinct(q.newFlows + q.oldFlows)
  {
    hide Apart, Ordered, Sized, q.Mirror, q.Accounts;
  }

  /** A packet arrives. */
  method Enter(q: FqCodelSched, len: nat, p: Packet)
    requires q.Valid() && Fits(q) && 1 <= len <= q.maxLen && p.hash < UINT32
    modifies q, q.backlogs, q.flows, q.links
    ensures q.Valid() && Fits(q) && Fairly(old(q.Now()), q.Now(), q.quantum) && Waits(old(q.Now()), q.Now()) && fresh(q.links - old(q.links))
  {
    hide q.Valid, q.FattestDropped, BelongsTo, Even, Ledger, IndexOf;
    RoomForOne(q, len);
    MomentSane(q);
    ghost var m := q.Now();
    var skb := new Skb(len);
    var ret, idx;
    ghost var k;
    ret, idx, k := q.FqCodelEnqueue(skb, p);
    MomentSane(q);
    Joined(m, q.newFlows, q.oldFlows, q.view);
    JoinWaits(m, q.Now());
  }

  /** The lists after an enqueue: as before, or with one more among the new flows. */
  lemma Joined(m: Moment, news: seq<nat>, olds: seq<nat>, view: seq<FlowView>)
    requires |m.view| == |m.turns| == |view| && Within(m.List(), |m.turns|) && Within(news + olds, |view|)
    requires m.List() == news + olds || (news != [] && var k := news[|news| - 1]; m.List() == news[..|news| - 1] + olds && k !in m.List())
    ensures Even(m.List(), m.turns, news + olds, m.turns, view)
  {
    hide IndexOf, Before;
    if m.List() == news + olds {
      StayLeads(m.turns, m.List(), view);
    } else {
      var n := |news| - 1;
      assert (news + olds)[n] == news[n];
      assert news == news[..n] + [news[n]];
      JoinLeads(m.turns, news[..n], olds, news[n], view);
    }
  }

  /** The device asks for a packet. */
  method Leave(q: FqCodelSched, drops: nat)
    requires q.Valid() && Fits(q)
    modifies q, q.backlogs, q.flows, q.links
    ensures q.Valid() && Fits(q) && Fairly(old(q.Now()), q.Now(), q.quantum) && Waits(old(q.Now()), q.Now()) && q.links == old(q.links)
  {
    hide q.Valid, Even, Ledger;
    MomentSane(q);
    var skb;
    ghost var served;
    skb, served := q.FqCodelDequeue(drops);
  }

  /** How evenly two flows are served between two moments. */
  ghost predicate ServedEvenly(moments: seq<Moment>, quantum: nat, maxLen: nat, a: nat, b: nat, i: nat, j: nat)
    requires a <= b < |moments|
  {
    && i < |moments[a].sent| == |moments[b].sent| && j < |moments[a].sent|
    && (moments[b].sent[i] - moments[a].sent[i]) - (moments[b].sent[j] - moments[a].sent[j]) < 3 * quantum + 2 * maxLen
  }

  method Begin(flows: seq<Flow>, quantum: nat, limit: nat, ghost maxLen: nat) returns (q: FqCodelSched)
    requires 1 <= |flows| && 1 <= quantum <= INT_MAX && limit * maxLen < UINT32 && maxLen < UINT32
    requires (forall i | 0 <= i < |flows| :: flows[i].Linked() && flows[i].queue == []) && forall i, j | 0 <= i < j < |flows| :: flows[i] != flows[j]
    ensures fresh(q) && fresh(q.backlogs) && fresh(q.links) && q.flows == flows && q.quantum == quantum && q.maxLen == maxLen
    ensures q.Valid() && Fits(q)
  {
    hide q.Valid;
    q := new FqCodelSched(flows, quantum, limit, maxLen);
  }

  /** Between two moments at which flow j joins the new flows, i has had a turn. */
  ghost predicate TurnTaken(moments: seq<Moment>, a: nat, b: nat, i: nat)
    requires a < b < |moments|
  {
    i < |moments[a + 1].turns| == |moments[b].turns| && moments[a + 1].turns[i] < moments[b].turns[i]
  }

  /** A flow joins while i is on the old list. */
  ghost predicate JoinsPast(moments: seq<Moment>, a: nat, i: nat, j: nat) {
    i != j && Joins(moments, a, j) && i in moments[a + 1].olds
  }

  /** Between any two moments, of any two flows that have packets throughout, neither is sent
      three quanta and two packets more of than the other. */
  ghost predicate AllEven(moments: seq<Moment>, quantum: nat, maxLen: nat) {
    forall a: nat, b: nat, i: nat, j: nat {:trigger BusyThrough(moments, a, b, i), BusyThrough(moments, a, b, j)} |
      a <= b < |moments| && i != j && BusyThrough(moments, a, b, i) && BusyThrough(moments, a, b, j) ::
      ServedEvenly(moments, quantum, maxLen, a, b, i, j)
  }

  /** No flow joins the new ones twice, past an old one that has packets throughout, without
      that one having had a turn. */
  ghost predicate NoneStarved(moments: seq<Moment>) {
    forall a: nat, b: nat, i: nat, j: nat {:trigger JoinsPast(moments, a, i, j), Joins(moments, b, j)} |
      a < b < |moments| && JoinsPast(moments, a, i, j) && Joins(moments, b, j) && BusyThrough(moments, a + 1, b, i) ::
      TurnTaken(moments, a, b, i)
  }

  /** A new scheduler, used for any run of enqueues and dequeues, with codel_dequeue dropping as
      it likes: flows that have packets throughout are served evenly, and new flows do not
      starve old ones. */
  method Run(flows: seq<Flow>, quantum: nat, limit: nat, ghost maxLen: nat, ops: seq<Op>) returns (q: FqCodelSched, ghost moments: seq<Moment>)
    requires 1 <= |flows| && 1 <= quantum <= INT_MAX && limit * maxLen < UINT32 && maxLen < UINT32
    requires (forall i | 0 <= i < |flows| :: flows[i].Linked() && flows[i].queue == []) && forall i, j | 0 <= i < j < |flows| :: flows[i] != flows[j]
    requires forall op | op in ops :: Callable(op, maxLen)
    modifies flows
    ensures fresh(q) && q.Valid() && |moments| == |ops| + 1 && FairRun(moments, quantum, maxLen) && PlacesKept(moments)
    ensures AllEven(moments, quantum, maxLen) && NoneStarved(moments)
  {
    q := Begin(flows, quantum, limit, maxLen);
    hide q.Valid, Fairly, Sane, Fits, Waits, FairRun, PlacesKept, AllEven, NoneStarved;
    MomentSane(q);
    moments := [q.Now()];
    RunBegins(q.Now(), quantum, maxLen);
    for n := 0 to |ops|
      invariant q.Valid() && Fits(q) && fresh(q) && fresh(q.backlogs) && fresh(q.links) && q.flows == flows
      invariant q.quantum == quantum && q.maxLen == maxLen
      invariant |moments| == n + 1 && moments[n] == q.Now() && FairRun(moments, quantum, maxLen) && PlacesKept(moments)
    {
      assert ops[n] in ops;
      match ops[n] {
        case Arrive(len, p) => Enter(q, len, p);
        case Serve(drops) => Leave(q, drops);
      }
      MomentSane(q);
      RunOn(moments, q.Now(), quantum, maxLen);
      moments := moments + [q.Now()];
    }
    EvenThroughout(moments, quantum, maxLen);
    StarvedNever(moments, quantum, maxLen);
  }

  lemma RunBegins(m: Moment, quantum: nat, maxLen: nat)
    requires Sane(m, quantum, maxLen)
    ensures FairRun([m], quantum, maxLen) && PlacesKept([m])
  {
  }

  lemma EvenThroughout(moments: seq<Moment>, quantum: nat, maxLen: nat)
    requires FairRun(moments, quantum, maxLen)
    ensures AllEven(moments, quantum, maxLen)
  {
    hide FairRun, BusyThrough;
    forall a: nat, b: nat, i: nat, j: nat |
      a <= b < |moments| && i != j && BusyThrough(moments, a, b, i) && BusyThrough(moments, a, b, j)
      ensures ServedEvenly(moments, quantum, maxLen, a, b, i, j)
    {
      EvenService(moments, quantum, maxLen, a, b, i, j);
    }
  }

  lemma StarvedNever(moments: seq<Moment>, quantum: nat, maxLen: nat)
    requires FairRun(moments, quantum, maxLen) && PlacesKept(moments)
    ensures NoneStarved(moments)
  {
    hide FairRun, PlacesKept, BusyThrough, Joins, JoinsPast, TurnTaken;
    forall a: nat, b: nat, i: nat, j: nat |
      a < b < |moments| && JoinsPast(moments, a, i, j) && Joins(moments, b, j) && BusyThrough(moments, a + 1, b, i)
      ensures TurnTaken(moments, a, b, i)
    {
      TurnThen(moments, quantum, maxLen, a, b, i, j);
    }
  }

  lemma TurnThen(moments: seq<Moment>, quantum: nat, maxLen: nat, a: nat, b: nat, i: nat, j: nat)
    requires FairRun(moments, quantum, maxLen) && PlacesKept(moments) && a < b < |moments|
    requires JoinsPast(moments, a, i, j) && Joins(moments, b, j) && BusyThrough(moments, a + 1, b, i)
    ensures TurnTaken(moments, a, b, i)
  {
    assert Sane(moments[a + 1], quantum, maxLen);
    TurnBetweenJoins(moments, a, b, i, j);
  }

  lemma RunOn(moments: seq<Moment>, m: Moment, quantum: nat, maxLen: nat)
    requires moments != [] && FairRun(moments, quantum, maxLen)
    requires PlacesKept(moments) && Waits(moments[|moments| - 1], m)
    requires Sane(m, quantum, maxLen) && Fairly(moments[|moments| - 1], m, quantum)
    ensures FairRun(moments + [m], quantum, maxLen) && PlacesKept(moments + [m])
  {
    hide Sane, Fairly, Waits;
    var more := moments + [m];
    forall n | 0 <= n < |more| - 1 ensures Step(more, n) && Fairly(more[n], more[n + 1], quantum) && Waits(more[n], more[n + 1]) {
      assert Step(moments, n) || n == |moments| - 1;
    }
  }
}
