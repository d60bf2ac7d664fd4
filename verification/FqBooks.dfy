/** What the scheduler of sch_fq_codel.c keeps account of, on values: the packets and the
    deficit of every flow, and the two lists of flows that are being served. */
module FqBooks {
  import opened Words
  import opened FqFlow

  datatype FlowView = FlowView(queue: seq<Skb>, deficit: int)

  // ---- Sums -----------------------------------------------------------------------

  function QueueBytes(queue: seq<Skb>): nat {
    if queue == [] then 0 else queue[0].len + QueueBytes(queue[1..])
  }

  lemma {:induction false} QueueBytesJoin(a: seq<Skb>, b: seq<Skb>)
    ensures QueueBytes(a + b) == QueueBytes(a) + QueueBytes(b)
  {
    if a == [] {
      assert a + b == b;
    } else {
      assert (a + b)[1..] == a[1..] + b;
      QueueBytesJoin(a[1..], b);
    }
  }

  lemma QueueBytesOne(skb: Skb)
    ensures QueueBytes([skb]) == skb.len
  {
    assert [skb][1..] == [];
  }

  function TotalCount(view: seq<FlowView>): nat {
    if view == [] then 0 else |view[0].queue| + TotalCount(view[1..])
  }

  function TotalBytes(view: seq<FlowView>): nat {
    if view == [] then 0 else QueueBytes(view[0].queue) + TotalBytes(view[1..])
  }

  /** Changing one flow changes the totals by that flow's change. */
  lemma {:induction false} TotalsChange(view: seq<FlowView>, i: nat, f: FlowView)
    requires i < |view|
    ensures TotalCount(view[i := f]) + |view[i].queue| == TotalCount(view) + |f.queue|
    ensures TotalBytes(view[i := f]) + QueueBytes(view[i].queue) == TotalBytes(view) + QueueBytes(f.queue)
  {
    if i == 0 {
      assert view[0 := f][1..] == view[1..];
    } else {
      assert view[i := f][1..] == view[1..][i - 1 := f];
      TotalsChange(view[1..], i - 1, f);
    }
  }

  lemma {:induction false} NothingQueued(view: seq<FlowView>)
    requires forall i | 0 <= i < |view| :: view[i].queue == []
    ensures TotalCount(view) == 0 && TotalBytes(view) == 0
  {
    if view != [] {
      NothingQueued(view[1..]);
    }
  }

  lemma {:induction false} SomethingQueued(view: seq<FlowView>) returns (i: nat)
    requires TotalCount(view) > 0
    ensures i < |view| && view[i].queue != []
  {
    if view[0].queue != [] {
      i := 0;
    } else {
      i := SomethingQueued(view[1..]);
      i := i + 1;
    }
  }

  // ---- Rounds -----------------------------------------------------------------------

  /** How many quanta a flow must be given before it may send. */
  function Owes(deficit: int, quantum: nat): nat
    requires quantum >= 1
  {
    if deficit > 0 then 0 else -deficit / quantum + 1
  }

  lemma OwesOneLess(deficit: int, quantum: nat)
    requires quantum >= 1 && deficit <= 0
    ensures Owes(deficit + quantum, quantum) == Owes(deficit, quantum) - 1
  {
    var q, r := -deficit / quantum, -deficit % quantum;
    if deficit + quantum <= 0 {
      assert -deficit - quantum == (q - 1) * quantum + r;
      QuotientIs(-deficit - quantum, q - 1, r, quantum);
    } else {
      QuotientIs(-deficit, 0, -deficit, quantum);
    }
  }

  /** All of a list's flows exist. */
  predicate Within(list: seq<nat>, n: nat) {
    forall k | 0 <= k < |list| :: list[k] < n
  }

  function Owed(list: seq<nat>, view: seq<FlowView>, quantum: nat): nat
    requires quantum >= 1 && Within(list, |view|)
  {
    if list == [] then 0 else Owes(view[list[0]].deficit, quantum) + Owed(list[1..], view, quantum)
  }

  lemma {:induction false} OwedJoin(a: seq<nat>, b: seq<nat>, view: seq<FlowView>, quantum: nat)
    requires quantum >= 1 && Within(a, |view|) && Within(b, |view|)
    ensures Within(a + b, |view|) && Owed(a + b, view, quantum) == Owed(a, view, quantum) + Owed(b, view, quantum)
  {
    if a == [] {
      assert a + b == b;
    } else {
      assert (a + b)[1..] == a[1..] + b;
      OwedJoin(a[1..], b, view, quantum);
    }
  }

  lemma {:induction false} OwedElsewhere(list: seq<nat>, view: seq<FlowView>, i: nat, f: FlowView, quantum: nat)
    requires quantum >= 1 && Within(list, |view|) && i < |view| && (i in list ==> f.deficit == view[i].deficit)
    ensures Owed(list, view[i := f], quantum) == Owed(list, view, quantum)
  {
    if list != [] {
      assert list[0] in list;
      OwedElsewhere(list[1..], view, i, f, quantum);
    }
  }

  // ---- The lists --------------------------------------------------------------------

  /** The flows on the two lists: each once, and all that hold packets. */
  ghost predicate Scheduled(newFlows: seq<nat>, oldFlows: seq<nat>, view: seq<FlowView>) {
    && Within(newFlows + oldFlows, |view|)
    && Distinct(newFlows + oldFlows)
    && (forall i | 0 <= i < |view| && view[i].queue != [] :: i in newFlows + oldFlows)
  }

  ghost predicate Distinct(list: seq<nat>) {
    forall i, j | 0 <= i < j < |list| :: list[i] != list[j]
  }

  /** Deficits of the flows on the lists lie between the largest packet and the quantum. */
  ghost predicate Fair(newFlows: seq<nat>, oldFlows: seq<nat>, view: seq<FlowView>, quantum: nat, maxLen: nat) {
    forall i | i in newFlows + oldFlows :: i < |view| && 0 < view[i].deficit + maxLen && view[i].deficit <= quantum
  }

  /** Packets have a length, and are in one flow only. */
  ghost predicate Sized(view: seq<FlowView>, maxLen: nat) {
    forall i, s | 0 <= i < |view| && s in view[i].queue :: 1 <= s.len <= maxLen
  }

  ghost predicate Apart(view: seq<FlowView>) {
    forall i, j, s | 0 <= i < j < |view| && s in view[i].queue :: s !in view[j].queue
  }

  /** Every flow is first in, first out: what arrived is what has gone and then what is left. */
  ghost predicate Ordered(arrived: seq<seq<Skb>>, gone: seq<seq<Skb>>, view: seq<FlowView>) {
    && |arrived| == |gone| == |view|
    && forall i | 0 <= i < |view| :: arrived[i] == gone[i] + view[i].queue
  }

  /** The first flow on the lists goes to the end of the old ones. */
  lemma MovedToOld(newFlows: seq<nat>, oldFlows: seq<nat>, view: seq<FlowView>, f: FlowView, quantum: nat)
    requires Scheduled(newFlows, oldFlows, view) && quantum >= 1 && newFlows + oldFlows != []
    requires var i := (newFlows + oldFlows)[0]; f.queue == view[i].queue
    ensures var i := (newFlows + oldFlows)[0];
      var n, o := if newFlows != [] then newFlows[1..] else [], (if newFlows != [] then oldFlows else oldFlows[1..]) + [i];
      && Scheduled(n, o, view[i := f]) && |n| + |o| == |newFlows| + |oldFlows|
      && (forall j :: j in n + o <==> j in newFlows + oldFlows)
      && Owed(n + o, view[i := f], quantum) + Owes(view[i].deficit, quantum)
        == Owed(newFlows + oldFlows, view, quantum) + Owes(f.deficit, quantum)
  {
    var all := newFlows + oldFlows;
    var i := all[0];
    var n, o := if newFlows != [] then newFlows[1..] else [], (if newFlows != [] then oldFlows else oldFlows[1..]) + [i];
    var rest := all[1..];
    assert n + o == rest + [i];
    assert all == [i] + rest;
    RestDistinct(all);
    OwedElsewhere(rest, view, i, f, quantum);
    OwedJoin(rest, [i], view[i := f], quantum);
    assert [i][1..] == [];
    assert Owed([i], view[i := f], quantum) == Owes(f.deficit, quantum);
  }

  lemma RestDistinct(list: seq<nat>)
    requires Distinct(list) && list != []
    ensures list[0] !in list[1..] && Distinct(list[1..]) && Distinct(list[1..] + [list[0]])
  {
  }

  /** The first flow, found empty, leaves the lists. */
  lemma LeavesLists(newFlows: seq<nat>, oldFlows: seq<nat>, view: seq<FlowView>)
    requires Scheduled(newFlows, oldFlows, view) && newFlows + oldFlows != []
    requires view[(newFlows + oldFlows)[0]].queue == []
    ensures var n, o := if newFlows != [] then newFlows[1..] else [], if newFlows != [] then oldFlows else oldFlows[1..];
      && Scheduled(n, o, view) && |n| + |o| == |newFlows| + |oldFlows| - 1
      && (forall j :: j in n + o ==> j in newFlows + oldFlows)
  {
    var all := newFlows + oldFlows;
    var n, o := if newFlows != [] then newFlows[1..] else [], if newFlows != [] then oldFlows else oldFlows[1..];
    assert n + o == all[1..];
    assert all == [all[0]] + all[1..];
    RestDistinct(all);
  }

  /** A flow that was on neither list joins the new ones. */
  lemma JoinsNew(newFlows: seq<nat>, oldFlows: seq<nat>, view: seq<FlowView>, i: nat, f: FlowView)
    requires Scheduled(newFlows, oldFlows, view) && i < |view| && i !in newFlows + oldFlows
    ensures Scheduled(newFlows + [i], oldFlows, view[i := f])
    ensures forall j :: j in newFlows + [i] + oldFlows <==> j == i || j in newFlows + oldFlows
  {
    var all, a := newFlows + oldFlows, (newFlows + [i]) + oldFlows;
    assert forall k | 0 <= k < |newFlows| :: a[k] == all[k];
    assert forall k | |newFlows| < k < |a| :: a[k] == all[k - 1];
    assert a[|newFlows|] == i;
    assert forall j | j in all :: j in a;
  }

  // ---- What operations keep ---------------------------------------------------------

  ghost predicate Books(view: seq<FlowView>, newFlows: seq<nat>, oldFlows: seq<nat>, arrived: seq<seq<Skb>>, gone: seq<seq<Skb>>,
                        quantum: nat, maxLen: nat) {
    && Apart(view) && Sized(view, maxLen) && Ordered(arrived, gone, view)
    && Scheduled(newFlows, oldFlows, view) && Fair(newFlows, oldFlows, view, quantum, maxLen)
  }

  function Popped(f: FlowView): FlowView
    requires f.queue != []
  {
    FlowView(f.queue[1..], f.deficit)
  }

  /** A flow without its first packet. */
  lemma PopKeeps(view: seq<FlowView>, newFlows: seq<nat>, oldFlows: seq<nat>, arrived: seq<seq<Skb>>, gone: seq<seq<Skb>>,
                 quantum: nat, maxLen: nat, i: nat)
    requires Books(view, newFlows, oldFlows, arrived, gone, quantum, maxLen) && i < |view| && view[i].queue != []
    ensures var skb := view[i].queue[0];
      var v := view[i := Popped(view[i])];
      && 1 <= skb.len <= maxLen
      && Books(v, newFlows, oldFlows, arrived, gone[i := gone[i] + [skb]], quantum, maxLen)
      && TotalCount(v) == TotalCount(view) - 1 && TotalBytes(v) == TotalBytes(view) - skb.len
      && QueueBytes(v[i].queue) == QueueBytes(view[i].queue) - skb.len
  {
    var skb := view[i].queue[0];
    assert skb in view[i].queue;
    TotalsChange(view, i, Popped(view[i]));
    assert view[i].queue == [skb] + view[i].queue[1..];
    assert gone[i] + view[i].queue == (gone[i] + [skb]) + view[i].queue[1..];
  }

  function Pushed(f: FlowView, skb: Skb, deficit: int): FlowView {
    FlowView(f.queue + [skb], deficit)
  }

  /** A packet at the end of a flow, which joins the new flows if it was on no list. */
  lemma PushKeeps(view: seq<FlowView>, newFlows: seq<nat>, oldFlows: seq<nat>, arrived: seq<seq<Skb>>, gone: seq<seq<Skb>>,
                  quantum: nat, maxLen: nat, i: nat, skb: Skb)
    requires Books(view, newFlows, oldFlows, arrived, gone, quantum, maxLen) && i < |view| && 1 <= skb.len <= maxLen && quantum >= 1
    requires forall j | 0 <= j < |view| :: skb !in view[j].queue
    ensures var listed := i in newFlows + oldFlows;
      var v := view[i := Pushed(view[i], skb, if listed then view[i].deficit else quantum)];
      && Books(v, if listed then newFlows else newFlows + [i], oldFlows, arrived[i := arrived[i] + [skb]], gone, quantum, maxLen)
      && TotalCount(v) == TotalCount(view) + 1 && TotalBytes(v) == TotalBytes(view) + skb.len
      && QueueBytes(v[i].queue) == QueueBytes(view[i].queue) + skb.len
  {
    var listed := i in newFlows + oldFlows;
    var f := Pushed(view[i], skb, if listed then view[i].deficit else quantum);
    TotalsChange(view, i, f);
    QueueBytesJoin(view[i].queue, [skb]);
    QueueBytesOne(skb);
    PushOrdered(arrived, gone, view, i, f, skb);
    PushApart(view, i, f, skb);
    if !listed {
      JoinsNew(newFlows, oldFlows, view, i, f);
    }
  }

  lemma PushOrdered(arrived: seq<seq<Skb>>, gone: seq<seq<Skb>>, view: seq<FlowView>, i: nat, f: FlowView, skb: Skb)
    requires Ordered(arrived, gone, view) && i < |view| && f.queue == view[i].queue + [skb]
    ensures Ordered(arrived[i := arrived[i] + [skb]], gone, view[i := f])
  {
    assert (gone[i] + view[i].queue) + [skb] == gone[i] + f.queue;
  }

  lemma PushApart(view: seq<FlowView>, i: nat, f: FlowView, skb: Skb)
    requires Apart(view) && i < |view| && f.queue == view[i].queue + [skb]
    requires forall j | 0 <= j < |view| :: skb !in view[j].queue
    ensures Apart(view[i := f])
  {
  }

  function NewRest(newFlows: seq<nat>): seq<nat> {
    if newFlows != [] then newFlows[1..] else []
  }

  function OldRest(newFlows: seq<nat>, oldFlows: seq<nat>): seq<nat>
    requires newFlows + oldFlows != []
  {
    if newFlows != [] then oldFlows else oldFlows[1..]
  }

  /** The flow that is up has its deficit changed and goes to the end of the old flows. */
  lemma TurnKeeps(view: seq<FlowView>, newFlows: seq<nat>, oldFlows: seq<nat>, arrived: seq<seq<Skb>>, gone: seq<seq<Skb>>,
                  quantum: nat, maxLen: nat, i: nat, d: int)
    requires Books(view, newFlows, oldFlows, arrived, gone, quantum, maxLen) && quantum >= 1
    requires newFlows + oldFlows != [] && i == (newFlows + oldFlows)[0] && i < |view| && 0 < d + maxLen && d <= quantum
    ensures var v := view[i := FlowView(view[i].queue, d)];
      var n, o := NewRest(newFlows), OldRest(newFlows, oldFlows) + [i];
      && Books(v, n, o, arrived, gone, quantum, maxLen)
      && TotalCount(v) == TotalCount(view) && TotalBytes(v) == TotalBytes(view) && |n| + |o| == |newFlows| + |oldFlows|
      && Within(n + o, |v|) && Within(newFlows + oldFlows, |view|)
      && Owed(n + o, v, quantum) + Owes(view[i].deficit, quantum) == Owed(newFlows + oldFlows, view, quantum) + Owes(d, quantum)
  {
    var f := FlowView(view[i].queue, d);
    TotalsChange(view, i, f);
    MovedToOld(newFlows, oldFlows, view, f, quantum);
    SameQueues(view, i, f, arrived, gone, maxLen);
  }

  lemma SameQueues(view: seq<FlowView>, i: nat, f: FlowView, arrived: seq<seq<Skb>>, gone: seq<seq<Skb>>, maxLen: nat)
    requires i < |view| && f.queue == view[i].queue && Apart(view) && Sized(view, maxLen) && Ordered(arrived, gone, view)
    ensures Apart(view[i := f]) && Sized(view[i := f], maxLen) && Ordered(arrived, gone, view[i := f])
  {
  }

  /** The flow that is up, being empty, leaves. */
  lemma LeaveKeeps(view: seq<FlowView>, newFlows: seq<nat>, oldFlows: seq<nat>, arrived: seq<seq<Skb>>, gone: seq<seq<Skb>>,
                   quantum: nat, maxLen: nat)
    requires Books(view, newFlows, oldFlows, arrived, gone, quantum, maxLen)
    requires newFlows + oldFlows != [] && (newFlows + oldFlows)[0] < |view| && view[(newFlows + oldFlows)[0]].queue == []
    ensures Books(view, NewRest(newFlows), OldRest(newFlows, oldFlows), arrived, gone, quantum, maxLen)
    ensures |NewRest(newFlows)| + |OldRest(newFlows, oldFlows)| == |newFlows| + |oldFlows| - 1
  {
    LeavesLists(newFlows, oldFlows, view);
  }

  /** When the flow that is up has sent a packet. */
  lemma SendKeeps(view: seq<FlowView>, newFlows: seq<nat>, oldFlows: seq<nat>, arrived: seq<seq<Skb>>, gone: seq<seq<Skb>>,
                  quantum: nat, maxLen: nat, i: nat, len: nat)
    requires Books(view, newFlows, oldFlows, arrived, gone, quantum, maxLen) && i < |view| && i in newFlows + oldFlows
    requires view[i].deficit > 0 && len <= maxLen
    ensures var v := view[i := FlowView(view[i].queue, view[i].deficit - len)];
      && Books(v, newFlows, oldFlows, arrived, gone, quantum, maxLen)
      && TotalCount(v) == TotalCount(view) && TotalBytes(v) == TotalBytes(view)
  {
    var f := FlowView(view[i].queue, view[i].deficit - len);
    TotalsChange(view, i, f);
    SameQueues(view, i, f, arrived, gone, maxLen);
  }
}
