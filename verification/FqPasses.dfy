/** The passes of fq_codel_dequeue on values, and what the pass of an empty flow through the old
    flows is for: a flow that is on the old list is not starved by flows that join as new. */
module FqPasses {
  import opened Words
  import opened FqFlow
  import opened FqBooks
  import opened FqTurns

  /** What a pass leaves: the packet it sends, if any, and how many packets codel_dequeue would
      still drop. */
  datatype Round = Round(now: Moment, skb: Skb?, left: nat)

  predicate Ready(m: Moment) {
    m.List() != [] && |m.view| == |m.turns| == |m.sent| && m.List()[0] < |m.view|
  }

  /** One pass.  The first flow of the new list, or else of the old one, is up.  Without credit
      it gets a quantum and goes to the end of the old list.  With credit, what CoDel does not
      drop is sent.  Found empty, it goes to the end of the old list if it was new and there
      are old flows, and else it leaves. */
  function PassOf(m: Moment, quantum: nat, drops: nat): Round {
    if !Ready(m) then Round(m, null, drops)
    else
      var i := m.List()[0];
      var f := m.view[i];
      var news, olds := if m.news != [] then m.news[1..] else [], if m.news != [] then m.olds else m.olds[1..];
      if f.deficit <= 0 then
        Round(Moment(news, olds + [i], m.view[i := FlowView(f.queue, f.deficit + quantum)], m.turns[i := m.turns[i] + 1], m.sent), null, drops)
      else if |f.queue| <= drops then
        Round(Moment(news, if m.news != [] && m.olds != [] then olds + [i] else olds, m.view[i := FlowView([], f.deficit)], m.turns, m.sent),
              null, drops - |f.queue|)
      else
        var skb := f.queue[drops];
        Round(Moment(m.news, m.olds, m.view[i := FlowView(f.queue[drops + 1..], f.deficit - skb.len)], m.turns, m.sent[i := m.sent[i] + skb.len]),
              skb, 0)
  }

  /** Passes until a packet is sent or no flow is listed, but no more than k. */
  function Passed(k: nat, m: Moment, quantum: nat, drops: nat): Round {
    if k == 0 then Round(m, null, drops)
    else
      var r := Passed(k - 1, m, quantum, drops);
      if r.skb != null then r else PassOf(r.now, quantum, r.left)
  }

  /** fq_codel_dequeue: so many passes that it is done. */
  ghost predicate Dequeued(m: Moment, quantum: nat, drops: nat, n: Moment, skb: Skb?) {
    exists k: nat :: var r := Passed(k, m, quantum, drops); r.now == n && r.skb == skb && (skb == null ==> n.List() == [])
  }

  lemma {:induction false} PassedStays(k: nat, more: nat, m: Moment, quantum: nat, drops: nat)
    requires var r := Passed(k, m, quantum, drops); r.skb != null || r.now.List() == []
    ensures Passed(k + more, m, quantum, drops) == Passed(k, m, quantum, drops)
  {
    if more > 0 { PassedStays(k, more - 1, m, quantum, drops); }
  }

  /** What a dequeue does is determined. */
  lemma DequeuedOnce(m: Moment, quantum: nat, drops: nat, n: Moment, skb: Skb?, n1: Moment, skb1: Skb?)
    requires Dequeued(m, quantum, drops, n, skb) && Dequeued(m, quantum, drops, n1, skb1)
    ensures n == n1 && skb == skb1
  {
    hide Passed;
    var k: nat :| var r := Passed(k, m, quantum, drops); r.now == n && r.skb == skb && (skb == null ==> n.List() == []);
    var k1: nat :| var r := Passed(k1, m, quantum, drops); r.now == n1 && r.skb == skb1 && (skb1 == null ==> n1.List() == []);
    if k <= k1 { PassedStays(k, k1 - k, m, quantum, drops); } else { PassedStays(k1, k - k1, m, quantum, drops); }
  }

  // ---- Waiting on the old list ----------------------------------------------------------

  /** Flow i is on the old list, and j is new or behind it. */
  predicate Ahead(m: Moment, i: nat, j: nat) {
    i in m.olds && i != j && (j in m.news || (j in m.olds && Before(m.olds, i, j)))
  }

  /** From one moment to another: a flow that was ahead, and still has packets, has had a turn
      or is ahead still. */
  ghost predicate Waits(m: Moment, n: Moment) {
    && |m.turns| == |m.view| == |n.turns| == |n.view| && (forall i | 0 <= i < |m.turns| :: m.turns[i] <= n.turns[i])
    && forall i: nat, j: nat {:trigger Ahead(m, i, j)} | Ahead(m, i, j) && Busy(n.view, i) :: m.turns[i] < n.turns[i] || Ahead(n, i, j)
  }

  lemma WaitsHere(m: Moment)
    requires |m.turns| == |m.view|
    ensures Waits(m, m)
  {
  }

  lemma WaitsOn(a: Moment, b: Moment, c: Moment)
    requires Waits(a, b) && Waits(b, c) && Shrinks(b.view, c.view)
    ensures Waits(a, c)
  {
    hide Ahead;
    forall i: nat, j: nat | Ahead(a, i, j) && Busy(c.view, i) ensures a.turns[i] < c.turns[i] || Ahead(c, i, j) {
      assert Busy(b.view, i);
    }
  }

  /** A new flow that is passed on joins the old ones behind all of them. */
  lemma AheadMoved(m: Moment, n: Moment, i: nat, j: nat)
    requires m.news != [] && Distinct(m.List()) && n.news == m.news[1..] && n.olds == m.olds + [m.news[0]] && Ahead(m, i, j)
    ensures Ahead(n, i, j)
  {
    hide IndexOf;
    var h := m.news[0];
    IndexAppend(m.olds, h, i);
    assert m.List()[0] == h && forall k | 0 <= k < |m.olds| :: m.olds[k] == m.List()[|m.news| + k];
    if j in m.olds || j == h { IndexAppend(m.olds, h, j); }
  }

  /** The first old flow goes, to the end or away; the others keep their order. */
  lemma AheadTurned(m: Moment, n: Moment, i: nat, j: nat, again: bool)
    requires m.news == [] && m.olds != [] && Distinct(m.olds) && n.news == [] && Ahead(m, i, j) && i != m.olds[0]
    requires n.olds == if again then m.olds[1..] + [m.olds[0]] else m.olds[1..]
    ensures Ahead(n, i, j)
  {
    hide IndexOf;
    var h, rest := m.olds[0], m.olds[1..];
    RotateIndex(m.olds, i);
    RotateIndex(m.olds, j);
    assert j != h;
    IndexAppend(rest, h, i);
    IndexAppend(rest, h, j);
  }

  /** One pass keeps every old flow's place, but for the one that has its turn. */
  lemma PassWaits(m: Moment, quantum: nat, drops: nat)
    requires Ready(m) && Distinct(m.List()) && Within(m.List(), |m.view|)
    ensures Waits(m, PassOf(m, quantum, drops).now)
  {
    var n := PassOf(m, quantum, drops).now;
    var h := m.List()[0];
    OldsDistinct(m);
    forall i: nat, j: nat | Ahead(m, i, j) && Busy(n.view, i) ensures m.turns[i] < n.turns[i] || Ahead(n, i, j) {
      if m.view[h].deficit > 0 && |m.view[h].queue| > drops {
      } else if m.news != [] {
        AheadMoved(m, n, i, j);
      } else if i != h {
        AheadTurned(m, n, i, j, m.view[h].deficit <= 0);
      }
    }
  }

  lemma OldsDistinct(m: Moment)
    requires Distinct(m.List())
    ensures Distinct(m.olds)
  {
    assert forall k | 0 <= k < |m.olds| :: m.olds[k] == m.List()[|m.news| + k];
  }

  /** A flow that joins does so behind all that are on the old list. */
  lemma JoinWaits(m: Moment, n: Moment)
    requires |m.turns| == |m.view| == |n.view| && n.turns == m.turns && n.olds == m.olds
    requires n.news == m.news || (n.news != [] && n.news[..|n.news| - 1] == m.news)
    ensures Waits(m, n)
  {
    assert forall j | j in m.news :: j in n.news;
  }

  // ---- Whole runs -----------------------------------------------------------------------

  ghost predicate PlacesKept(moments: seq<Moment>) {
    forall n {:trigger Step(moments, n)} | 0 <= n < |moments| - 1 :: Step(moments, n) && Waits(moments[n], moments[n + 1])
  }

  /** A flow that was on no list joins the new ones. */
  predicate Joins(moments: seq<Moment>, a: nat, j: nat) {
    a + 1 < |moments| && j !in moments[a].List() && j in moments[a + 1].news
  }

  lemma {:induction false} WaitsThrough(moments: seq<Moment>, a: nat, b: nat, i: nat, j: nat)
    requires PlacesKept(moments) && a <= b < |moments| && |moments[a].turns| == |moments[a].view|
    requires BusyThrough(moments, a, b, i) && Ahead(moments[a], i, j)
    ensures i < |moments[a].turns| == |moments[b].turns| == |moments[b].view|
    ensures moments[a].turns[i] < moments[b].turns[i] || (moments[a].turns[i] == moments[b].turns[i] && Ahead(moments[b], i, j))
    decreases b - a
  {
    hide Ahead;
    assert Busy(moments[b].view, i);
    if a < b {
      WaitsThrough(moments, a, b - 1, i, j);
      assert Step(moments, b - 1);
    }
  }

  /** No starvation.  When flow j joins the new flows while i is on the old list, and i has
      packets throughout, then i gets a turn before j joins again, however quickly j empties
      and whatever other flows do. */
  lemma TurnBetweenJoins(moments: seq<Moment>, a: nat, b: nat, i: nat, j: nat)
    requires PlacesKept(moments) && a < b < |moments| && |moments[a + 1].turns| == |moments[a + 1].view|
    requires Joins(moments, a, j) && Joins(moments, b, j) && i != j
    requires i in moments[a + 1].olds && BusyThrough(moments, a + 1, b, i)
    ensures i < |moments[a + 1].turns| == |moments[b].turns| && moments[a + 1].turns[i] < moments[b].turns[i]
  {
    WaitsThrough(moments, a + 1, b, i, j);
  }
}
