/** Turns: how evenly the scheduler of sch_fq_codel.c serves the flows on its old list. */
module FqTurns {
  import opened Words
  import opened FqBooks

  // ---- Places in a list -------------------------------------------------------------

  function IndexOf(list: seq<nat>, i: nat): (k: nat)
    requires i in list
    ensures k < |list| && list[k] == i
  {
    if list[0] == i then 0 else 1 + IndexOf(list[1..], i)
  }

  lemma {:induction false} IndexAppend(list: seq<nat>, k: nat, i: nat)
    requires i in list + [k]
    ensures IndexOf(list + [k], i) == if i in list then IndexOf(list, i) else |list|
  {
    if list != [] {
      assert (list + [k])[1..] == list[1..] + [k];
      if list[0] != i {
        IndexAppend(list[1..], k, i);
      }
    }
  }

  predicate Before(list: seq<nat>, i: nat, j: nat)
    requires i in list && j in list
  {
    IndexOf(list, i) < IndexOf(list, j)
  }

  // ---- Leads ------------------------------------------------------------------------

  /** How many more turns i has had than j; a flow that is behind has had its turn already. */
  function Lead(turns: seq<int>, list: seq<nat>, i: nat, j: nat): int
    requires i < |turns| && j < |turns| && i in list && j in list
  {
    turns[i] - turns[j] - if Before(list, j, i) then 1 else 0
  }

  predicate Busy(view: seq<FlowView>, i: nat) {
    i < |view| && view[i].queue != []
  }

  /** From one list and count of turns to another: of two flows that still have packets, none
      has gained on the other. */
  ghost predicate Even(list0: seq<nat>, turns0: seq<int>, list1: seq<nat>, turns1: seq<int>, view1: seq<FlowView>) {
    && |turns0| == |turns1| == |view1| && Within(list0, |turns0|) && Within(list1, |turns1|)
    && forall i: nat, j: nat {:trigger Busy(view1, i), Busy(view1, j)} |
         i in list0 && j in list0 && i in list1 && j in list1 && i != j && Busy(view1, i) && Busy(view1, j) ::
         Lead(turns0, list0, i, j) == Lead(turns1, list1, i, j)
  }

  lemma RotateIndex(list: seq<nat>, i: nat)
    requires Distinct(list) && list != [] && i in list
    ensures i in list[1..] + [list[0]]
    ensures IndexOf(list[1..] + [list[0]], i) == if i == list[0] then |list| - 1 else IndexOf(list, i) - 1
    ensures i == list[0] <==> IndexOf(list, i) == 0
  {
    RestDistinct(list);
    IndexAppend(list[1..], list[0], i);
  }

  /** A turn: the first flow of the list gets one and goes to the end. */
  lemma TurnLeads(turns: seq<int>, list: seq<nat>, view: seq<FlowView>)
    requires Within(list, |turns|) && Distinct(list) && list != [] && |view| == |turns|
    ensures Even(list, turns, list[1..] + [list[0]], turns[list[0] := turns[list[0]] + 1], view)
  {
    hide IndexOf;
    var h, rest := list[0], list[1..];
    forall i: nat, j: nat | i in list && j in list && i in rest + [h] && j in rest + [h] && i != j && Busy(view, i) && Busy(view, j)
      ensures Lead(turns, list, i, j) == Lead(turns[h := turns[h] + 1], rest + [h], i, j)
    {
      RotateIndex(list, i);
      RotateIndex(list, j);
    }
  }

  /** A flow found empty is passed by, or leaves. */
  lemma PassLeads(turns: seq<int>, list: seq<nat>, view: seq<FlowView>)
    requires Within(list, |turns|) && Distinct(list) && list != [] && |view| == |turns| && !Busy(view, list[0])
    ensures Even(list, turns, list[1..] + [list[0]], turns, view) && Even(list, turns, list[1..], turns, view)
  {
    hide IndexOf;
    var h, rest := list[0], list[1..];
    forall i: nat, j: nat | i in list && j in list && i != j && Busy(view, i) && Busy(view, j)
      ensures Lead(turns, list, i, j) == Lead(turns, rest + [h], i, j) && i in rest && j in rest
      ensures Lead(turns, list, i, j) == Lead(turns, rest, i, j)
    {
      RotateIndex(list, i);
      RotateIndex(list, j);
      IndexAppend(rest, h, i);
      IndexAppend(rest, h, j);
    }
  }

  /** Nothing moves. */
  lemma StayLeads(turns: seq<int>, list: seq<nat>, view: seq<FlowView>)
    requires Within(list, |turns|) && |view| == |turns|
    ensures Even(list, turns, list, turns, view)
  {
  }

  lemma {:induction false} IndexJoin(a: seq<nat>, b: seq<nat>, i: nat)
    requires i in a + b
    ensures IndexOf(a + b, i) == if i in a then IndexOf(a, i) else |a| + IndexOf(b, i)
  {
    if a == [] {
      assert a + b == b;
    } else {
      assert (a + b)[1..] == a[1..] + b;
      if a[0] != i {
        IndexJoin(a[1..], b, i);
      }
    }
  }

  /** A flow joins between the new flows and the old ones. */
  lemma JoinLeads(turns: seq<int>, news: seq<nat>, olds: seq<nat>, k: nat, view: seq<FlowView>)
    requires Within(news + olds, |turns|) && k < |turns| == |view| && k !in news + olds
    ensures Even(news + olds, turns, news + [k] + olds, turns, view)
  {
    hide IndexOf;
    var list0, list1 := news + olds, news + [k] + olds;
    forall n | 0 <= n < |list1| ensures list1[n] < |turns| {
      assert list1[n] in list0 || list1[n] == k;
    }
    forall i: nat, j: nat | i in list0 && j in list0 && i in list1 && j in list1 && i != j && Busy(view, i) && Busy(view, j)
      ensures Lead(turns, list0, i, j) == Lead(turns, list1, i, j)
    {
      JoinIndex(news, olds, k, i);
      JoinIndex(news, olds, k, j);
    }
  }

  lemma JoinIndex(news: seq<nat>, olds: seq<nat>, k: nat, i: nat)
    requires i in news + olds && k != i
    ensures i in news + [k] + olds
    ensures IndexOf(news + [k] + olds, i) == IndexOf(news + olds, i) + if i in news then 0 else 1
    ensures IndexOf(news + olds, i) < |news| <==> i in news
  {
    IndexJoin(news, olds, i);
    IndexJoin(news + [k], olds, i);
    if i in news { IndexAppend(news, k, i); }
  }

  /** Flows only lose packets. */
  ghost predicate Shrinks(view0: seq<FlowView>, view1: seq<FlowView>) {
    |view0| == |view1| && forall i: nat {:trigger Busy(view1, i)} | Busy(view1, i) :: Busy(view0, i)
  }

  /** Leads are kept over any number of passes. */
  lemma LeadsOn(list0: seq<nat>, turns0: seq<int>, list1: seq<nat>, turns1: seq<int>, view1: seq<FlowView>,
                list2: seq<nat>, turns2: seq<int>, view2: seq<FlowView>)
    requires Even(list0, turns0, list1, turns1, view1) && Even(list1, turns1, list2, turns2, view2) && Shrinks(view1, view2)
    requires forall i: nat {:trigger Busy(view1, i)} | Busy(view1, i) :: i in list1
    ensures Even(list0, turns0, list2, turns2, view2)
  {
    hide IndexOf, Before;
    forall i: nat, j: nat | i in list0 && j in list0 && i in list2 && j in list2 && i != j && Busy(view2, i) && Busy(view2, j)
      ensures Lead(turns0, list0, i, j) == Lead(turns2, list2, i, j)
    {
      assert Busy(view1, i) && Busy(view1, j);
    }
  }

  // ---- Ledgers ----------------------------------------------------------------------

  /** What a flow has sent, and the credit it has left, against the quanta it has been given. */
  function Ledger(quantum: nat, sent: nat, deficit: int, turns: int): int {
    sent + deficit - quantum * turns
  }

  lemma LedgerTurn(quantum: nat, sent: nat, deficit: int, turns: int)
    ensures Ledger(quantum, sent, deficit + quantum, turns + 1) == Ledger(quantum, sent, deficit, turns)
  {
    assert quantum * (turns + 1) == quantum * turns + quantum;
  }

  ghost predicate SameLedgers(quantum: nat, view0: seq<FlowView>, sent0: seq<nat>, turns0: seq<int>,
                              view1: seq<FlowView>, sent1: seq<nat>, turns1: seq<int>) {
    && |view0| == |sent0| == |turns0| == |view1| == |sent1| == |turns1|
    && forall i | 0 <= i < |view0| ::
         Ledger(quantum, sent1[i], view1[i].deficit, turns1[i]) == Ledger(quantum, sent0[i], view0[i].deficit, turns0[i])
  }

  lemma LedgersOn(quantum: nat, view0: seq<FlowView>, sent0: seq<nat>, turns0: seq<int>, view1: seq<FlowView>, sent1: seq<nat>, turns1: seq<int>,
                  view2: seq<FlowView>, sent2: seq<nat>, turns2: seq<int>)
    requires SameLedgers(quantum, view0, sent0, turns0, view1, sent1, turns1) && SameLedgers(quantum, view1, sent1, turns1, view2, sent2, turns2)
    ensures SameLedgers(quantum, view0, sent0, turns0, view2, sent2, turns2)
  {
    hide Ledger;
  }

  /** A moment of the scheduler's life. */
  datatype Moment = Moment(news: seq<nat>, olds: seq<nat>, view: seq<FlowView>, turns: seq<int>, sent: seq<nat>) {
    /** The flows in the order in which they are up. */
    function List(): seq<nat> { news + olds }
  }

  /** Credits of the flows on the list lie within their bounds. */
  ghost predicate Sane(m: Moment, quantum: nat, maxLen: nat) {
    && |m.view| == |m.turns| == |m.sent| && Within(m.List(), |m.view|)
    && (forall i: nat {:trigger Busy(m.view, i)} | Busy(m.view, i) :: i in m.List())
    && forall i | i in m.List() :: i < |m.view| && 0 < m.view[i].deficit + maxLen && m.view[i].deficit <= quantum
  }

  /** One operation, as far as fairness is concerned. */
  ghost predicate Fairly(m: Moment, n: Moment, quantum: nat) {
    && Even(m.List(), m.turns, n.List(), n.turns, n.view) && |m.view| == |m.turns| == |m.sent| == |n.view| == |n.turns| == |n.sent|
    && forall i: nat | i in m.List() && i < |m.view| ::
         Ledger(quantum, n.sent[i], n.view[i].deficit, n.turns[i]) == Ledger(quantum, m.sent[i], m.view[i].deficit, m.turns[i])
  }

  /** What two flows have at a moment, compared. */
  ghost predicate Level(a: Moment, b: Moment, i: nat, j: nat, quantum: nat)
    requires |a.view| == |a.turns| == |a.sent| == |b.view| == |b.turns| == |b.sent|
  {
    && i in a.List() && j in a.List() && i in b.List() && j in b.List() && i < |a.view| && j < |a.view|
    && Lead(a.turns, a.List(), i, j) == Lead(b.turns, b.List(), i, j)
    && Ledger(quantum, a.sent[i], a.view[i].deficit, a.turns[i]) == Ledger(quantum, b.sent[i], b.view[i].deficit, b.turns[i])
    && Ledger(quantum, a.sent[j], a.view[j].deficit, a.turns[j]) == Ledger(quantum, b.sent[j], b.view[j].deficit, b.turns[j])
  }

  /** A run of operations, each of them fair. */
  ghost predicate FairRun(moments: seq<Moment>, quantum: nat, maxLen: nat) {
    && (forall n {:trigger moments[n]} | 0 <= n < |moments| :: Sane(moments[n], quantum, maxLen))
    && forall n {:trigger Step(moments, n)} | 0 <= n < |moments| - 1 :: Step(moments, n) && Fairly(moments[n], moments[n + 1], quantum)
  }

  predicate Step(moments: seq<Moment>, n: nat) { n + 1 < |moments| }

  ghost predicate BusyThrough(moments: seq<Moment>, a: nat, b: nat, i: nat)
    requires a <= b < |moments|
  {
    forall n {:trigger moments[n]} | a <= n <= b :: Busy(moments[n].view, i)
  }

  lemma {:induction false} LevelThrough(moments: seq<Moment>, quantum: nat, maxLen: nat, a: nat, b: nat, i: nat, j: nat)
    requires FairRun(moments, quantum, maxLen) && a <= b < |moments| && i != j
    requires BusyThrough(moments, a, b, i) && BusyThrough(moments, a, b, j)
    ensures |moments[a].view| == |moments[a].turns| == |moments[a].sent| == |moments[b].view| == |moments[b].turns| == |moments[b].sent|
    ensures Level(moments[a], moments[b], i, j, quantum)
    decreases b - a
  {
    hide IndexOf, Before;
    assert Busy(moments[b].view, i) && Busy(moments[b].view, j);
    if a < b {
      LevelThrough(moments, quantum, maxLen, a, b - 1, i, j);
      assert Step(moments, b - 1);
      assert Busy(moments[b - 1].view, i) && Busy(moments[b - 1].view, j);
    }
  }

  /** Fairness.  Of two flows that have packets throughout, neither is sent much more of than of
      the other, whatever else arrives and goes: less than three quanta and two packets. */
  lemma EvenService(moments: seq<Moment>, quantum: nat, maxLen: nat, a: nat, b: nat, i: nat, j: nat)
    requires FairRun(moments, quantum, maxLen) && a <= b < |moments| && i != j
    requires BusyThrough(moments, a, b, i) && BusyThrough(moments, a, b, j)
    ensures i < |moments[a].sent| == |moments[b].sent| && j < |moments[a].sent|
    ensures (moments[b].sent[i] - moments[a].sent[i]) - (moments[b].sent[j] - moments[a].sent[j]) < 3 * quantum + 2 * maxLen
  {
    hide IndexOf, Before;
    LevelThrough(moments, quantum, maxLen, a, b, i, j);
    var m, n := moments[a], moments[b];
    assert Sane(m, quantum, maxLen) && Sane(n, quantum, maxLen);
    assert n.turns[i] - m.turns[i] <= n.turns[j] - m.turns[j] + 1;
    QuantaDiffer(quantum, m.turns[i], n.turns[i], m.turns[j], n.turns[j]);
  }

  lemma QuantaDiffer(q: nat, i0: int, i1: int, j0: int, j1: int)
    requires i1 - i0 <= j1 - j0 + 1
    ensures q * i1 - q * i0 <= q * j1 - q * j0 + q
  {
    var d := j1 - j0 + 1 - (i1 - i0);
    TimesSum(q, d, i1, j0);
    TimesSum(q, i0, j1, 1);
    assert d + i1 + j0 == i0 + j1 + 1;
    assert q * d >= 0;
  }

  lemma TimesSum(q: int, a: int, b: int, c: int)
    ensures q * (a + b + c) == q * a + q * b + q * c
  {
  }
}
