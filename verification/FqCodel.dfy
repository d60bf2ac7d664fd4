/** The scheduler of sch_fq_codel.c: deficit round robin over flows, with new flows first. */
module FqCodel {
  import opened Words
  import opened FqFlow
  import opened FqBooks
  import opened FqTurns
  import opened FqPasses

  const INT_MAX: nat := 0x7FFF_FFFF

  datatype Xmit = Success | Congestion | Bypassed | Stolen

  /** What a classifier's action asks for. */
  datatype Action = TcStolen | TcQueued | TcShot | TcOther

  /** The answer of an external classifier, if there is one. */
  datatype Filter = NoFilter | Verdict(matched: bool, action: Action, minor: nat)

  /** What fq_codel_classify goes by: whether the priority's major number is this queue's handle,
      its minor number, the 32-bit hash, and the filter. */
  datatype Packet = Packet(ours: bool, minor: nat, hash: nat, filter: Filter)

  /** The packet belongs to flow i: by its priority, else by its share of the hash range, else
      by the filter's class. */
  ghost predicate BelongsTo(p: Packet, flowsCnt: nat, i: nat) {
    if p.ours && 0 < p.minor <= flowsCnt then i == p.minor - 1
    else match p.filter
      case NoFilter => i * UINT32 <= p.hash * flowsCnt < (i + 1) * UINT32
      case Verdict(matched, action, minor) => matched && action == TcOther && i + 1 == minor <= flowsCnt
  }

  /** What is returned for a packet that belongs to no flow. */
  ghost function Refusal(p: Packet): Xmit {
    if p.filter.Verdict? && p.filter.matched && (p.filter.action == TcStolen || p.filter.action == TcQueued)
    then Stolen else Bypassed
  }

  /** fq_codel_hash, from the 32-bit hash on. */
  function FqCodelHash(hash: nat, flowsCnt: nat): nat {
    hash * flowsCnt / UINT32
  }

  lemma HashInRange(hash: nat, flowsCnt: nat)
    requires hash < UINT32 && flowsCnt >= 1
    ensures FqCodelHash(hash, flowsCnt) < flowsCnt
    ensures forall i: nat :: i == FqCodelHash(hash, flowsCnt) <==> i * UINT32 <= hash * flowsCnt < (i + 1) * UINT32
  {
    MulMonotone(hash, UINT32 - 1, flowsCnt);
    assert (UINT32 - 1) * flowsCnt == UINT32 * flowsCnt - flowsCnt;
  }

  /** Every flow of the table is reached by some hash. */
  lemma HashOnto(k: nat, flowsCnt: nat) returns (hash: nat)
    requires k < flowsCnt <= UINT32
    ensures hash < UINT32 && FqCodelHash(hash, flowsCnt) == k
  {
    MulMonotone(k + 1, flowsCnt, UINT32);
    hash := (k * UINT32 + flowsCnt - 1) / flowsCnt;
    var r := (k * UINT32 + flowsCnt - 1) % flowsCnt;
    assert k * UINT32 + flowsCnt - 1 == hash * flowsCnt + r;
    assert hash * flowsCnt == k * UINT32 + (flowsCnt - 1 - r);
    QuotientIs(hash * flowsCnt, k, flowsCnt - 1 - r, UINT32);
    if hash >= UINT32 {
      MulMonotone(UINT32, hash, flowsCnt);
      assert false;
    }
  }

  class FqCodelSched {
    const flows: seq<Flow>
    const backlogs: array<nat>
    const quantum: nat
    const limit: nat
    /** The largest packet there will be. */
    ghost const maxLen: nat
    var newFlows: seq<nat>
    var oldFlows: seq<nat>
    /** sch->q.qlen, sch->qstats.backlog and cstats.drop_count */
    var qlen: nat
    var backlog: nat
    var dropCount: nat
    /** The flows' packets and deficits, all packets that arrived and have gone, flow by flow,
        and how many packets the queue above believes are here. */
    ghost var view: seq<FlowView>
    ghost var arrived: seq<seq<Skb>>
    ghost var gone: seq<seq<Skb>>
    ghost var counted: int
    /** How often each flow has been given a quantum, and how many bytes it has sent. */
    ghost var turns: seq<int>
    ghost var sent: seq<nat>
    /** The packets of all flows, and perhaps some that have gone. */
    ghost var links: set<Skb>

    /** fq_codel_init, for so many flows and when memory can be had. */
    constructor (flows: seq<Flow>, quantum: nat, limit: nat, ghost maxLen: nat)
      requires 1 <= |flows| && 1 <= quantum <= INT_MAX
      requires (forall i | 0 <= i < |flows| :: flows[i].Linked() && flows[i].queue == [])
      requires forall i, j | 0 <= i < j < |flows| :: flows[i] != flows[j]
      ensures Valid() && this.flows == flows && this.quantum == quantum && this.limit == limit && this.maxLen == maxLen
      ensures qlen == 0 && backlog == 0 && newFlows == [] && oldFlows == [] && dropCount == 0 && fresh(backlogs) && links == {}
      ensures |view| == |flows| && forall i | 0 <= i < |view| :: view[i].queue == [] && arrived[i] == [] && gone[i] == []
    {
      hide Books, Mirror, Kept, TotalCount, TotalBytes;
      this.flows, this.quantum, this.limit, this.maxLen := flows, quantum, limit, maxLen;
      backlogs := new nat[|flows|](i => 0);
      newFlows, oldFlows, qlen, backlog, dropCount, counted, links := [], [], 0, 0, 0, 0, {};
      view := seq(|flows|, i requires 0 <= i < |flows| reads flows => FlowView([], flows[i].deficit));
      arrived, gone := seq(|flows|, i => []), seq(|flows|, i => []);
      turns, sent := seq(|flows|, i => 0), seq(|flows|, i => 0);
      new;
      EmptyBooks();
    }

    lemma EmptyBooks()
      requires |view| == |flows| >= 1 && |arrived| == |gone| == |view| && newFlows == [] && oldFlows == []
      requires forall i | 0 <= i < |view| :: view[i].queue == [] && arrived[i] == [] && gone[i] == []
      requires forall i | 0 <= i < |flows| :: flows[i].Linked() && flows[i].queue == [] && view[i].deficit == flows[i].deficit
      requires forall i, j | 0 <= i < j < |flows| :: flows[i] != flows[j]
      ensures Kept() && Mirror(view) && TotalCount(view) == 0 && TotalBytes(view) == 0
    {
      NothingQueued(view);
      forall i | 0 <= i < |flows|
        ensures flows[i].cells <= links
      {
        assert flows[i].queue == [];
      }
    }

    // ---- The invariant ------------------------------------------------------------

    /** The account of every flow is what the flow is. */
    ghost predicate Mirror(v: seq<FlowView>)
      reads `links, flows, links
    {
      && |v| == |flows|
      && (forall i, j | 0 <= i < j < |flows| :: flows[i] != flows[j])
      && (forall i | 0 <= i < |flows| :: flows[i].cells <= links)
      && (forall i | 0 <= i < |flows| :: flows[i].Is(v[i].queue, v[i].deficit))
    }

    ghost predicate Accounts()
      reads `view, `qlen, `backlog, backlogs
    {
      && backlogs.Length == |view| == |flows| >= 1 && 1 <= quantum <= INT_MAX
      && (forall i | 0 <= i < |view| :: backlogs[i] == QueueBytes(view[i].queue))
      && qlen == TotalCount(view) && backlog == TotalBytes(view) < UINT32
    }

    ghost predicate Kept()
      reads `view, `newFlows, `oldFlows, `arrived, `gone
    {
      Books(view, newFlows, oldFlows, arrived, gone, quantum, maxLen)
    }

    ghost predicate Valid()
      reads this, backlogs, flows, links
    {
      Mirror(view) && Accounts() && Kept() && counted == qlen + dropCount && |turns| == |sent| == |view|
    }

    // ---- Flows --------------------------------------------------------------------

    lemma Queued(j: nat)
      requires Mirror(view) && j < |flows|
      ensures flows[j].Linked() && flows[j].queue == view[j].queue && flows[j].deficit == view[j].deficit
      ensures flows[j].cells == (set s | s in view[j].queue)
    {
    }

    /** Two flows have no packets in common. */
    lemma Disjoint(i: nat, j: nat)
      requires Mirror(view) && Apart(view) && i < |flows| && j < |flows| && i != j
      ensures flows[i] != flows[j] && flows[i].cells !! flows[j].cells
    {
      Queued(i);
      Queued(j);
    }

    lemma HeadIn(flow: Flow)
      requires flow.Linked() && flow.head != null
      ensures flow.queue != [] && flow.head == flow.queue[0] && flow.head in flow.cells
    {
    }

    lemma NowIs(flow: Flow)
      requires flow.Linked()
      ensures flow.Is(flow.queue, flow.deficit)
    {
    }

    /** dequeue_head of a flow, with its account. */
    method TakeHead(i: nat) returns (skb: Skb)
      requires Mirror(view) && Apart(view) && i < |flows| && flows[i].head != null && |gone| == |view|
      modifies `view, `gone, flows[i], flows[i].head
      ensures Mirror(view) && old(view[i].queue) != [] && skb == old(view[i].queue[0])
      ensures view == old(view)[i := FlowView(old(view[i].queue)[1..], old(view[i].deficit))]
      ensures gone == old(gone)[i := old(gone[i]) + [skb]]
    {
      var flow := flows[i];
      Queued(i);
      HeadIn(flow);
      hide flow.Is, flow.Linked, Apart;
      forall j | 0 <= j < |flows| && j != i
        ensures flows[i] != flows[j] && flows[i].cells !! flows[j].cells
      {
        Disjoint(i, j);
      }
      skb := flow.DequeueHead();
      NowIs(flow);
      view := view[i := FlowView(flow.queue, view[i].deficit)];
      gone := gone[i := gone[i] + [skb]];
    }

    /** A packet that is in no flow. */
    ghost predicate New(skb: Skb)
      reads this
    {
      forall i | 0 <= i < |view| :: skb !in view[i].queue
    }

    /** flow_queue_add, with its account. */
    method AddTail(i: nat, skb: Skb)
      requires Mirror(view) && Apart(view) && i < |flows| && i < |view| == |arrived| && New(skb)
      modifies `view, `arrived, `links, flows[i], skb, flows[i].cells
      ensures links == old(links) + {skb}
      ensures Mirror(view) && view == old(view)[i := FlowView(old(view[i].queue) + [skb], old(view[i].deficit))]
      ensures arrived == old(arrived)[i := old(arrived[i]) + [skb]]
    {
      hide Mirror, Apart, New;
      LinkPacket(i, skb);
      view := view[i := FlowView(view[i].queue + [skb], view[i].deficit)];
      arrived := arrived[i := arrived[i] + [skb]];
    }

    method LinkPacket(i: nat, skb: Skb)
      requires Mirror(view) && Apart(view) && i < |flows| && i < |view| && New(skb)
      modifies `links, flows[i], skb, flows[i].cells
      ensures links == old(links) + {skb}
      ensures Mirror(view[i := FlowView(view[i].queue + [skb], view[i].deficit)])
    {
      var flow := flows[i];
      Queued(i);
      hide flow.Is, flow.Linked, Apart;
      forall j | 0 <= j < |flows| && j != i
        ensures flows[i] != flows[j] && flows[i].cells !! flows[j].cells && skb !in flows[j].cells
      {
        Disjoint(i, j);
        Queued(j);
      }
      flow.FlowQueueAdd(skb);
      NowIs(flow);
      links := links + {skb};
    }

    /** Setting a flow's deficit, with its account. */
    method SetDeficit(i: nat, deficit: int)
      requires Mirror(view) && i < |flows|
      modifies `view, flows[i]
      ensures Mirror(view) && view == old(view)[i := FlowView(old(view[i].queue), deficit)]
    {
      var flow := flows[i];
      Queued(i);
      hide flow.Is, flow.Linked;
      flow.deficit := deficit;
      NowIs(flow);
      view := view[i := FlowView(view[i].queue, deficit)];
    }

    // ---- Dropping -----------------------------------------------------------------

    /** A packet's bytes and the packet itself leave the accounts. */
    method Settle(i: nat, ghost before: seq<FlowView>, skb: Skb)
      requires i < |before| == backlogs.Length && before[i].queue != [] && skb == before[i].queue[0]
      requires view == before[i := Popped(before[i])] && 1 <= skb.len
      requires TotalCount(view) == TotalCount(before) - 1 && QueueBytes(view[i].queue) == QueueBytes(before[i].queue) - skb.len
      requires forall j | 0 <= j < |before| :: backlogs[j] == QueueBytes(before[j].queue)
      requires qlen == TotalCount(before)
      modifies `qlen, backlogs
      ensures (forall j | 0 <= j < |view| :: backlogs[j] == QueueBytes(view[j].queue)) && qlen == TotalCount(view)
      ensures qlen == old(qlen) - 1
    {
      backlogs[i] := backlogs[i] - skb.len;
      qlen := qlen - 1;
    }

    /** fq_codel_drop: the first packet of the fattest flow, the first one if there are more. */
    method FqCodelDrop() returns (idx: nat)
      requires Mirror(view) && Accounts() && Kept() && TotalCount(view) > 0
      modifies `view, `gone, `qlen, `backlog, backlogs, flows, links
      ensures Mirror(view) && Accounts() && Kept() && qlen == old(qlen) - 1 && idx < |old(view)| && old(view[idx].queue) != []
      ensures forall j | 0 <= j < |old(view)| :: QueueBytes(old(view)[j].queue) <= QueueBytes(old(view)[idx].queue)
      ensures forall j | 0 <= j < idx :: QueueBytes(old(view)[j].queue) < QueueBytes(old(view)[idx].queue)
      ensures view == old(view)[idx := Popped(old(view)[idx])] && gone == old(gone)[idx := old(gone[idx]) + [old(view[idx].queue[0])]]
    {
      hide Books, Kept, TotalCount, TotalBytes;
      idx := 0;
      var maxbacklog, i := 0, 0;
      while i < |flows|
        invariant 0 <= i <= |flows| && idx < |flows| && (maxbacklog > 0 ==> maxbacklog == backlogs[idx])
        invariant maxbacklog == 0 ==> idx == 0
        invariant forall j | 0 <= j < i :: backlogs[j] <= maxbacklog
        invariant forall j | 0 <= j < idx :: backlogs[j] < maxbacklog
      {
        if backlogs[i] > maxbacklog {
          maxbacklog, idx := backlogs[i], i;
        }
        i := i + 1;
      }
      FatNotEmpty(idx);
      DropHead(idx);
    }

    /** The fattest flow has a packet: some flow has, and packets have a length. */
    lemma FatNotEmpty(idx: nat)
      requires Mirror(view) && Accounts() && Kept() && TotalCount(view) > 0 && idx < |flows|
      requires forall j | 0 <= j < |flows| :: backlogs[j] <= backlogs[idx]
      ensures view[idx].queue != [] && flows[idx].head != null
    {
      var k := SomethingQueued(view);
      assert view[k].queue[0] in view[k].queue;
      assert QueueBytes(view[k].queue) >= view[k].queue[0].len;
      Queued(idx);
    }

    /** The end of fq_codel_drop. */
    method DropHead(idx: nat)
      requires Mirror(view) && Accounts() && Kept() && idx < |flows| && view[idx].queue != [] && flows[idx].head != null
      modifies `view, `gone, `qlen, `backlog, backlogs, flows, links
      ensures Mirror(view) && Accounts() && Kept() && qlen == old(qlen) - 1
      ensures view == old(view)[idx := Popped(old(view)[idx])] && gone == old(gone)[idx := old(gone[idx]) + [old(view[idx].queue[0])]]
    {
      hide Mirror, Books, TotalCount, TotalBytes, QueueBytes;
      ghost var before := view;
      PopKeeps(view, newFlows, oldFlows, arrived, gone, quantum, maxLen, idx);
      HeadLinked(idx);
      var skb := TakeHead(idx);
      Settle(idx, before, skb);
      backlog := backlog - skb.len;
    }

    lemma HeadLinked(i: nat)
      requires Mirror(view) && Kept() && i < |flows| && flows[i].head != null
      ensures flows[i].head in links && flows[i] in flows && |gone| == |view| && Apart(view)
    {
      Queued(i);
      HeadIn(flows[i]);
    }

    // ---- Enqueueing ---------------------------------------------------------------

    /** fq_codel_classify: a flow's number from 1 on, or 0 with what to return. */
    method FqCodelClassify(p: Packet) returns (idx: nat, ret: Xmit)
      requires |flows| >= 1 && p.hash < UINT32
      ensures idx > 0 ==> idx <= |flows| && BelongsTo(p, |flows|, idx - 1)
      ensures idx == 0 ==> ret == Refusal(p) && forall i: nat | i < |flows| :: !BelongsTo(p, |flows|, i)
    {
      ret := Success;
      if p.ours && p.minor > 0 && p.minor <= |flows| {
        return p.minor, ret;
      }
      if p.filter == NoFilter {
        HashInRange(p.hash, |flows|);
        return FqCodelHash(p.hash, |flows|) + 1, ret;
      }
      ret := Bypassed;
      if p.filter.matched {
        if p.filter.action == TcStolen || p.filter.action == TcQueued {
          return 0, Stolen;
        } else if p.filter.action == TcShot {
          return 0, ret;
        }
        if p.filter.minor <= |flows| {
          return p.filter.minor, ret;
        }
      }
      return 0, ret;
    }

    lemma CellsLinked(i: nat)
      requires Mirror(view) && i < |flows|
      ensures flows[i].cells <= links && flows[i] in flows
    {
    }

    lemma InBounds(i: nat)
      requires Mirror(view) && Kept() && i < |flows|
      ensures i < |view| == |arrived| && Apart(view) && |view| == |flows|
    {
    }

    lemma PushKeepsHere(i: nat, skb: Skb)
      requires Accounts() && Kept() && i < |view| == |arrived| && New(skb) && 1 <= skb.len <= maxLen
      ensures var listed := i in newFlows + oldFlows;
        var v := view[i := Pushed(view[i], skb, if listed then view[i].deficit else quantum)];
        && Books(v, if listed then newFlows else newFlows + [i], oldFlows, arrived[i := arrived[i] + [skb]], gone, quantum, maxLen)
        && TotalCount(v) == TotalCount(view) + 1 && TotalBytes(v) == TotalBytes(view) + skb.len
        && QueueBytes(v[i].queue) == QueueBytes(view[i].queue) + skb.len
    {
      hide Books;
      PushKeeps(view, newFlows, oldFlows, arrived, gone, quantum, maxLen, i, skb);
    }

    /** A packet joins its flow, and the flow the new flows if it was on no list. */
    method Accept(i: nat, skb: Skb)
      requires Mirror(view) && Accounts() && Kept() && i < |flows| && New(skb) && 1 <= skb.len <= maxLen && backlog + skb.len < UINT32
      modifies `view, `arrived, `links, `newFlows, `qlen, `backlog, backlogs, flows, skb, links
      ensures Mirror(view) && Accounts() && Kept() && qlen == old(qlen) + 1
      ensures view == old(view)[i := Pushed(old(view)[i], skb, if i in old(newFlows + oldFlows) then old(view)[i].deficit else quantum)]
      ensures arrived == old(arrived)[i := old(arrived[i]) + [skb]]
      ensures links == old(links) + {skb}
      ensures newFlows == if i in old(newFlows + oldFlows) then old(newFlows) else old(newFlows) + [i]
    {
      hide Mirror, Books, New, TotalCount, TotalBytes, QueueBytes;
      ghost var was, listed := view, i in newFlows + oldFlows;
      InBounds(i);
      PushKeepsHere(i, skb);
      CellsLinked(i);
      AddTail(i, skb);
      backlogs[i] := backlogs[i] + skb.len;
      backlog := backlog + skb.len;
      if i !in newFlows + oldFlows {
        newFlows := newFlows + [i];
        SetDeficit(i, quantum);
      }
      qlen := qlen + 1;
      assert view == was[i := Pushed(was[i], skb, if listed then was[i].deficit else quantum)];
    }

    /** fq_codel_enqueue.  The queue above counts the packet when this returns Success, and is
        told when a packet of another flow had to go.  Only when the limit is met is a packet
        dropped, the first one of the fattest flow. */
    method FqCodelEnqueue(skb: Skb, p: Packet) returns (ret: Xmit, idx: nat, ghost k: nat)
      requires Valid() && New(skb) && 1 <= skb.len <= maxLen && backlog + skb.len < UINT32
      requires p.hash < UINT32
      modifies `view, `arrived, `gone, `links, `newFlows, `qlen, `backlog, `counted, backlogs, flows, links, skb
      ensures Valid() && idx <= |flows|
      ensures if idx == 0 then ret == Refusal(p) && forall i: nat | i < |flows| :: !BelongsTo(p, |flows|, i)
              else BelongsTo(p, |flows|, idx - 1)
      ensures newFlows == old(newFlows) || (idx > 0 && newFlows == old(newFlows) + [idx - 1] && idx - 1 !in old(newFlows + oldFlows))
      ensures idx > 0 ==> newFlows == if idx - 1 in old(newFlows + oldFlows) then old(newFlows) else old(newFlows) + [idx - 1]
      ensures |view| == |old(view)| && forall j | 0 <= j < |view| && j in old(newFlows + oldFlows) :: view[j].deficit == old(view)[j].deficit
      ensures idx > 0 && idx - 1 !in old(newFlows + oldFlows) ==> idx - 1 < |view| && view[idx - 1].deficit == quantum
      ensures idx == 0 ==> view == old(view) && arrived == old(arrived) && gone == old(gone) && qlen == old(qlen)
      ensures links == if idx == 0 then old(links) else old(links) + {skb}
      ensures idx > 0 ==> (ret == Success || ret == Congestion) && arrived == old(arrived)[idx - 1 := old(arrived[idx - 1]) + [skb]]
      ensures idx > 0 && old(qlen) + 1 < limit ==> ret == Success && gone == old(gone) && qlen == old(qlen) + 1
      ensures idx > 0 && old(qlen) + 1 >= limit ==> qlen == old(qlen) && FattestDropped(old(view), idx - 1, skb, old(gone), k)
      ensures idx > 0 && old(qlen) + 1 >= limit ==> (ret == Congestion <==> k == idx - 1)
    {
      hide Mirror, Kept, Accounts, New, FattestDropped, BelongsTo;
      FlowsThere();
      idx, ret := FqCodelClassify(p);
      k := 0;
      if idx == 0 {
        return;
      }
      var i := idx - 1;
      InBoundsGone();
      ghost var before := view;
      Accept(i, skb);
      if qlen < limit {
        counted := counted + 1;
        ret := Success;
        return;
      }
      ret, k := Overlimit(i, skb, before);
    }

    /** The end of fq_codel_enqueue, when the limit is met. */
    method Overlimit(i: nat, skb: Skb, ghost before: seq<FlowView>) returns (ret: Xmit, ghost k: nat)
      requires Mirror(view) && Accounts() && Kept() && i < |before| == |gone| == |view| && qlen > 0
      requires view == before[i := FlowView(before[i].queue + [skb], view[i].deficit)]
      modifies `view, `gone, `qlen, `backlog, backlogs, flows, links
      ensures Mirror(view) && Accounts() && Kept() && qlen == old(qlen) - 1 && (ret == Success || ret == Congestion)
      ensures FattestDropped(before, i, skb, old(gone), k) && (ret == Congestion <==> k == i)
      ensures |view| == |before| && forall j | 0 <= j < |view| :: view[j].deficit == old(view)[j].deficit
    {
      hide Mirror, Kept, Accounts, FattestDropped, QueueBytes;
      ghost var after, went := view, gone;
      SomeQueued();
      var fat := FqCodelDrop();
      k := fat;
      Fattest(before, i, skb, went, k, after);
      if fat == i {
        ret := Congestion;
      } else {
        // the packet above is one more, and the one that qdisc_tree_decrease_qlen tells of one less
        ret := Success;
      }
    }

    lemma InBoundsGone()
      requires Kept() && Accounts()
      ensures |view| == |gone| == |flows|
    {
    }

    lemma FlowsThere()
      requires Accounts()
      ensures |view| == |flows| >= 1 && 1 <= quantum
    {
    }

    /** After an enqueue over the limit: flow k, the fattest with the new packet in, has lost
        its first packet. */
    ghost predicate FattestDropped(before: seq<FlowView>, i: nat, skb: Skb, went: seq<seq<Skb>>, k: nat)
      reads this
    {
      && i < |before| == |went| && k < |before| == |view|
      && var after := before[i := FlowView(before[i].queue + [skb], 0)];
      && after[k].queue != [] && gone == went[k := went[k] + [after[k].queue[0]]]
      && view[k].queue == after[k].queue[1..]
      && forall j | 0 <= j < |after| :: QueueBytes(after[j].queue) <= QueueBytes(after[k].queue)
    }

    lemma SomeQueued()
      requires Accounts() && qlen > 0
      ensures TotalCount(view) > 0
    {
    }

    lemma Fattest(before: seq<FlowView>, i: nat, skb: Skb, went: seq<seq<Skb>>, k: nat, after: seq<FlowView>)
      requires i < |before| == |went| && k < |after| == |before| && after[k].queue != []
      requires after == before[i := FlowView(before[i].queue + [skb], after[i].deficit)]
      requires view == after[k := Popped(after[k])] && gone == went[k := went[k] + [after[k].queue[0]]]
      requires forall j | 0 <= j < |after| :: QueueBytes(after[j].queue) <= QueueBytes(after[k].queue)
      ensures FattestDropped(before, i, skb, went, k)
    {
      hide QueueBytes;
      var same := before[i := FlowView(before[i].queue + [skb], 0)];
      assert forall j | 0 <= j < |after| :: same[j].queue == after[j].queue;
    }

    // ---- Dequeueing ---------------------------------------------------------------

    /** dequeue: the first packet of a flow, if it has one.  Its bytes come off the queue's
        backlog, too; in the source that is left to codel_dequeue. */
    method Dequeue(i: nat) returns (skb: Skb?)
      requires Mirror(view) && Accounts() && Kept() && i < |flows| && i < |view| == |gone|
      modifies `view, `gone, `qlen, `backlog, backlogs, flows, links
      ensures Mirror(view) && Accounts() && Kept()
      ensures skb == null ==> old(view[i].queue) == [] && view == old(view) && gone == old(gone) && qlen == old(qlen)
      ensures skb != null ==> old(view[i].queue) != [] && skb == old(view[i].queue[0]) && qlen == old(qlen) - 1
      ensures skb != null ==> view == old(view)[i := Popped(old(view)[i])] && gone == old(gone)[i := old(gone[i]) + [skb]]
      ensures skb != null ==> 1 <= skb.len <= maxLen
    {
      hide Mirror, Accounts, Kept, QueueBytes;
      HeadTells(i);
      skb := null;
      if flows[i].head != null {
        FirstSized(i);
        skb := flows[i].head;
        DropHead(i);
      }
    }

    lemma HeadTells(i: nat)
      requires Mirror(view) && i < |flows| && i < |view|
      ensures flows[i].head == null <==> view[i].queue == []
      ensures view[i].queue != [] ==> flows[i].head == view[i].queue[0]
    {
      Queued(i);
    }

    lemma FirstSized(i: nat)
      requires Kept() && i < |view| && view[i].queue != []
      ensures 1 <= view[i].queue[0].len <= maxLen
    {
      assert view[i].queue[0] in view[i].queue;
    }

    /** codel_dequeue, of which only this is relied on: it calls dequeue once or more, drops all
        that it gets but the last, counts what it drops, and returns the last.  How many packets
        it would drop is its choice, and what is left of that goes to the next flow. */
    method CodelDequeue(i: nat, drops: nat) returns (skb: Skb?, left: nat)
      requires Mirror(view) && Accounts() && Kept() && i < |flows| && i < |view| == |gone| && counted == qlen + dropCount
      modifies `view, `gone, `qlen, `backlog, `dropCount, backlogs, flows, links
      ensures Mirror(view) && Accounts() && Kept()
      ensures counted == qlen + dropCount + if skb == null then 0 else 1
      ensures skb == null <==> drops >= |old(view[i].queue)|
      ensures left == if skb == null then drops - |old(view[i].queue)| else 0
      ensures Cut(old(view), view, old(gone), gone, i, drops + 1) && qlen + (drops - left) + (if skb == null then 0 else 1) == old(qlen)
      ensures skb != null ==> gone[i] != [] && skb == old(view[i].queue[drops]) == gone[i][|gone[i]| - 1] && 1 <= skb.len <= maxLen
    {
      hide Mirror, Accounts, Kept, QueueBytes, Cut;
      skb := Dequeue(i);
      CutFirst(old(view), view, old(gone), gone, i, skb);
      left := drops;
      while left > 0 && skb != null
        invariant Mirror(view) && Accounts() && Kept() && counted == qlen + dropCount + if skb == null then 0 else 1
        invariant |view| == |old(view)| == |old(gone)| == |gone|
        invariant left <= drops && Cut(old(view), view, old(gone), gone, i, drops - left + 1)
        invariant skb == null <==> drops - left >= |old(view[i].queue)|
        invariant skb == null ==> drops - left == |old(view[i].queue)|
        invariant qlen + (drops - left) + (if skb == null then 0 else 1) == old(qlen)
        invariant skb != null ==> gone[i] != [] && skb == old(view[i].queue[drops - left]) == gone[i][|gone[i]| - 1] && 1 <= skb.len <= maxLen
        decreases left
      {
        ghost var v, g := view, gone;
        CutExtent(old(view), view, old(gone), gone, i, drops - left + 1);
        dropCount := dropCount + 1;
        skb := Dequeue(i);
        CutNext(old(view), v, view, old(gone), g, gone, i, drops - left + 1, skb);
        CutExtent(old(view), view, old(gone), gone, i, drops - left + 2);
        left := left - 1;
      }
      CutAll(old(view), view, old(gone), gone, i, drops - left + 1, drops + 1);
    }

    /** No more than all can go. */
    lemma CutAll(before: seq<FlowView>, after: seq<FlowView>, went: seq<seq<Skb>>, gone: seq<seq<Skb>>, i: nat, n: nat, k: nat)
      requires Cut(before, after, went, gone, i, n) && (n == k || (n >= |before[i].queue| && k >= |before[i].queue|))
      ensures Cut(before, after, went, gone, i, k)
    {
    }

    /** The first packet of a flow is taken, if it has one. */
    ghost predicate TookFirst(v: seq<FlowView>, w: seq<FlowView>, g: seq<seq<Skb>>, h: seq<seq<Skb>>, i: nat, skb: Skb?) {
      && i < |v| == |g|
      && if skb == null then v[i].queue == [] && w == v && h == g
         else v[i].queue != [] && skb == v[i].queue[0] && w == v[i := Popped(v[i])] && h == g[i := g[i] + [skb]]
    }

    lemma CutExtent(before: seq<FlowView>, after: seq<FlowView>, went: seq<seq<Skb>>, gone: seq<seq<Skb>>, i: nat, n: nat)
      requires Cut(before, after, went, gone, i, n)
      ensures |after| == |before| && |gone| == |went| && i < |after| == |gone|
    {
    }

    lemma CutFirst(v: seq<FlowView>, w: seq<FlowView>, g: seq<seq<Skb>>, h: seq<seq<Skb>>, i: nat, skb: Skb?)
      requires TookFirst(v, w, g, h, i, skb)
      ensures Cut(v, w, g, h, i, 1) && (skb != null ==> i < |h| && h[i] != [] && h[i][|h[i]| - 1] == skb)
    {
      if skb == null {
        assert v[i].queue[0..] == v[i].queue && g[i] + v[i].queue[..0] == g[i];
        assert v[i := v[i]] == v && g[i := g[i]] == g;
      } else {
        assert v[i].queue[..1] == [skb];
      }
    }

    lemma CutNext(u: seq<FlowView>, v: seq<FlowView>, w: seq<FlowView>, f: seq<seq<Skb>>, g: seq<seq<Skb>>, h: seq<seq<Skb>>,
                  i: nat, n: nat, skb: Skb?)
      requires Cut(u, v, f, g, i, n) && TookFirst(v, w, g, h, i, skb)
      ensures Cut(u, w, f, h, i, n + 1) && (skb == null <==> n >= |u[i].queue|)
      ensures skb != null ==> skb == u[i].queue[n] && i < |h| && h[i] != [] && h[i][|h[i]| - 1] == skb
    {
      if skb != null {
        assert u[i].queue[n..][1..] == u[i].queue[n + 1..];
        assert u[i].queue[..n] + [skb] == u[i].queue[..n + 1];
        assert f[i] + u[i].queue[..n] + [skb] == f[i] + u[i].queue[..n + 1];
      }
    }

    /** A flow has lost its first n packets, or all; nothing else has changed. */
    ghost predicate Cut(before: seq<FlowView>, after: seq<FlowView>, went: seq<seq<Skb>>, gone: seq<seq<Skb>>, i: nat, n: nat) {
      && i < |before| == |went|
      && var k := if n < |before[i].queue| then n else |before[i].queue|;
      && after == before[i := FlowView(before[i].queue[k..], before[i].deficit)]
      && gone == went[i := went[i] + before[i].queue[..k]]
    }

    lemma CutFewer(before: seq<FlowView>, after: seq<FlowView>, went: seq<seq<Skb>>, gone: seq<seq<Skb>>, i: nat, n: nat)
      requires Cut(before, after, went, gone, i, n)
      ensures Fewer(before, after, i) && Shrinks(before, after) && GoneOn(went, gone)
      ensures n > 0 && after[i].queue == [] <==> n > 0 && n >= |before[i].queue|
    {
    }

    /** A flow has lost some packets; nothing else has changed. */
    ghost predicate Fewer(before: seq<FlowView>, after: seq<FlowView>, i: nat) {
      && |before| == |after| && i < |before| && after[i].deficit == before[i].deficit
      && (forall j | 0 <= j < |before| && j != i :: after[j] == before[j])
    }

    // ---- Rounds -------------------------------------------------------------------

    /** The flow that is up: the first of the new flows, or of the old ones. */
    ghost function Up(): (i: nat)
      requires newFlows + oldFlows != []
      reads `newFlows, `oldFlows
    {
      (newFlows + oldFlows)[0]
    }

    /** How many quanta the flows on the lists are still to be given before they may send. */
    ghost function Rounds(): nat
      requires Kept() && quantum >= 1
      reads `view, `newFlows, `oldFlows, `arrived, `gone
    {
      Owed(newFlows + oldFlows, view, quantum)
    }

    /** What the lists' invariant says of the flow that is up. */
    lemma UpIs()
      requires Kept() && newFlows + oldFlows != []
      ensures Up() < |view| == |gone| && Up() in newFlows + oldFlows
      ensures 0 < view[Up()].deficit + maxLen && view[Up()].deficit <= quantum
    {
      assert (newFlows + oldFlows)[0] in newFlows + oldFlows;
    }

    /** The present moment, for what fairness is about. */
    ghost function Now(): Moment
      reads `newFlows, `oldFlows, `view, `turns, `sent
    {
      Moment(newFlows, oldFlows, view, turns, sent)
    }

    /** The measure of the loop: flows listed, quanta owed to them, flows that are new. */
    ghost predicate Lower(a: nat, b: nat, c: nat, a0: nat, b0: nat, c0: nat) {
      a < a0 || (a == a0 && (b < b0 || (b == b0 && c < c0)))
    }

    /** list_move_tail to the old flows, for the flow that is up. */
    method MoveToOld(i: nat)
      requires newFlows + oldFlows != [] && i == Up()
      modifies `newFlows, `oldFlows
      ensures newFlows == NewRest(old(newFlows)) && oldFlows == OldRest(old(newFlows), old(oldFlows)) + [i]
    {
      if newFlows != [] {
        newFlows := newFlows[1..];
        oldFlows := oldFlows + [i];
      } else {
        oldFlows := oldFlows[1..] + [i];
      }
    }

    /** A flow without credit is given a quantum and goes to the end of the old flows. */
    method Recharge(i: nat)
      requires Mirror(view) && Accounts() && Kept() && newFlows + oldFlows != [] && i == Up() < |flows| == |view|
      requires view[i].deficit <= 0 && |turns| == |sent| == |view|
      modifies `view, `newFlows, `oldFlows, `turns, flows
      ensures |turns| == |sent| == |view| && Even(old(newFlows + oldFlows), old(turns), newFlows + oldFlows, turns, view)
      ensures SameLedgers(quantum, old(view), sent, old(turns), view, sent, turns) && Shrinks(old(view), view)
      ensures Mirror(view) && Accounts() && Kept() && quantum >= 1
      ensures |newFlows| + |oldFlows| == old(|newFlows| + |oldFlows|) && Rounds() == old(Rounds()) - 1
      ensures view == old(view)[i := FlowView(old(view[i].queue), old(view[i].deficit) + quantum)] && turns == old(turns)[i := old(turns[i]) + 1]
      ensures if old(newFlows) != [] then newFlows == old(newFlows)[1..] && oldFlows == old(oldFlows) + [i]
        else newFlows == [] && oldFlows == old(oldFlows)[1..] + [i]
    {
      hide Mirror, QueueBytes, Apart, Sized, Ordered, Scheduled, Fair, Owed, TotalCount, TotalBytes, Even, Ledger, Within, Distinct;
      UpIs();
      FlowsThere();
      OwesOneLess(view[i].deficit, quantum);
      TurnKeeps(view, newFlows, oldFlows, arrived, gone, quantum, maxLen, i, view[i].deficit + quantum);
      DeficitIs(i);
      ListsWithin();
      ListRest();
      TurnLeads(turns, newFlows + oldFlows, view[i := FlowView(view[i].queue, view[i].deficit + quantum)]);
      LedgerTurn(quantum, sent[i], view[i].deficit, turns[i]);
      SetDeficit(i, flows[i].deficit + quantum);
      MoveToOld(i);
      turns := turns[i := turns[i] + 1];
    }

    lemma DeficitIs(i: nat)
      requires Mirror(view) && i < |flows|
      ensures |view| == |flows| && flows[i].deficit == view[i].deficit && flows[i] in flows
    {
      Queued(i);
    }

    /** A flow found empty is passed through the old flows once if it was new and there are
        any, so that they are not starved; else it leaves. */
    method Retire(i: nat)
      requires Mirror(view) && Accounts() && Kept() && newFlows + oldFlows != [] && i == Up() < |view|
      requires view[i].queue == [] && |turns| == |view|
      modifies `newFlows, `oldFlows
      ensures old(newFlows) != [] && old(oldFlows) != [] ==> newFlows == old(newFlows)[1..] && oldFlows == old(oldFlows) + [i]
      ensures old(newFlows) != [] && old(oldFlows) == [] ==> newFlows == old(newFlows)[1..] && oldFlows == []
      ensures old(newFlows) == [] ==> newFlows == [] && oldFlows == old(oldFlows)[1..]
      ensures Even(old(newFlows + oldFlows), turns, newFlows + oldFlows, turns, view)
      ensures Mirror(view) && Accounts() && Kept() && quantum >= 1
      ensures Lower(|newFlows| + |oldFlows|, Rounds(), |newFlows|, old(|newFlows| + |oldFlows|), old(Rounds()), old(|newFlows|))
    {
      hide Mirror, QueueBytes, Apart, Sized, Ordered, Scheduled, Fair, Owed, TotalCount, TotalBytes, Even, Within, Distinct;
      UpIs();
      FlowsThere();
      ListsWithin();
      ListRest();
      PassLeads(turns, newFlows + oldFlows, view);
      if newFlows != [] && oldFlows != [] {
        TurnKeeps(view, newFlows, oldFlows, arrived, gone, quantum, maxLen, i, view[i].deficit);
        assert view[i := FlowView(view[i].queue, view[i].deficit)] == view;
        MoveToOld(i);
      } else {
        LeaveKeeps(view, newFlows, oldFlows, arrived, gone, quantum, maxLen);
        if newFlows != [] {
          newFlows := newFlows[1..];
        } else {
          oldFlows := oldFlows[1..];
        }
      }
    }

    /** A packet is sent from the flow that is up. */
    method Charge(i: nat, len: nat)
      requires Mirror(view) && Accounts() && Kept() && i < |flows| == |view| && i in newFlows + oldFlows
      requires view[i].deficit > 0 && len <= maxLen && |turns| == |sent| == |view|
      modifies `view, `sent, flows
      ensures SameLedgers(quantum, old(view), old(sent), turns, view, sent, turns) && sent == old(sent)[i := old(sent)[i] + len]
      ensures Mirror(view) && Accounts() && Kept() && view == old(view)[i := FlowView(old(view[i].queue), old(view[i].deficit) - len)]
    {
      hide Mirror, QueueBytes, Apart, Sized, Ordered, Scheduled, Fair, TotalCount, TotalBytes;
      SendKeeps(view, newFlows, oldFlows, arrived, gone, quantum, maxLen, i, len);
      DeficitIs(i);
      SetDeficit(i, flows[i].deficit - len);
      sent := sent[i := sent[i] + len];
    }

    /** What CoDel takes from a flow changes neither the lists nor what is owed. */
    lemma RoundsStay(before: seq<FlowView>, i: nat)
      requires Kept() && quantum >= 1 && Fewer(before, view, i) && Within(newFlows + oldFlows, |before|)
      ensures Rounds() == Owed(newFlows + oldFlows, before, quantum)
    {
      hide Kept;
      assert view == before[i := view[i]];
      OwedElsewhere(newFlows + oldFlows, before, i, view[i], quantum);
    }

    /** What has gone only grows. */
    ghost predicate GoneOn(before: seq<seq<Skb>>, after: seq<seq<Skb>>) {
      |before| == |after| && forall j | 0 <= j < |before| :: before[j] <= after[j]
    }

    /** The part of a pass for a flow that has credit: codel_dequeue, and what follows. */
    method Deliver(i: nat, drops: nat) returns (skb: Skb?, left: nat)
      requires Mirror(view) && Accounts() && Kept() && counted == qlen + dropCount && newFlows + oldFlows != []
      requires |turns| == |sent| == |view| && i == Up() < |flows| && i < |view| && view[i].deficit > 0
      modifies `view, `gone, `qlen, `backlog, `dropCount, `newFlows, `oldFlows, `sent, backlogs, flows, links
      ensures Round(Now(), skb, left) == PassOf(old(Now()), quantum, drops)
      ensures |turns| == |sent| == |view| && Even(old(newFlows + oldFlows), turns, newFlows + oldFlows, turns, view)
      ensures SameLedgers(quantum, old(view), old(sent), turns, view, sent, turns) && Shrinks(old(view), view)
      ensures Mirror(view) && Accounts() && Kept() && quantum >= 1 && GoneOn(old(gone), gone)
      ensures counted == qlen + dropCount + if skb == null then 0 else 1
      ensures left <= drops && qlen + (drops - left) + (if skb == null then 0 else 1) == old(qlen) && (skb != null ==> left == 0)
      ensures skb != null ==> i < |gone| == |view| && gone[i] != [] && skb == gone[i][|gone[i]| - 1]
      ensures skb != null ==> i < |old(sent)| && sent == old(sent)[i := old(sent)[i] + skb.len]
      ensures skb == null ==> sent == old(sent)
      ensures skb == null ==> Lower(|newFlows| + |oldFlows|, Rounds(), |newFlows|, old(|newFlows| + |oldFlows|), old(Rounds()), old(|newFlows|))
    {
      hide Mirror, Accounts, Kept, Owed, Even, Ledger, Shrinks, Cut, PassOf;
      UpIs();
      FlowsThere();
      ghost var before, went, start := view, gone, Now();
      ListsWithin();
      skb, left := CodelDequeue(i, drops);
      CutFewer(before, view, went, gone, i, drops + 1);
      RoundsStay(before, i);
      CutIs(before, view, went, gone, i, drops);
      if skb == null {
        Retire(i);
        PassRetires(start, Now(), i, drops);
        return;
      }
      ghost var cut := view;
      Charge(i, skb.len);
      ShrinksOn(before, cut, i, view[i].deficit);
      StayLeads(turns, newFlows + oldFlows, view);
      PassSends(start, Now(), i, drops, skb);
    }

    /** One pass of fq_codel_dequeue, from its label begin on, does what PassOf says: the flow
        that is up is recharged and put back, or sends, or is found empty.  If it has not sent,
        the measure of the loop has become less.  drops tells how many packets codel_dequeue
        would still drop. */
    method Pass(drops: nat) returns (skb: Skb?, left: nat, ghost served: nat)
      requires Mirror(view) && Accounts() && Kept() && counted == qlen + dropCount && newFlows + oldFlows != []
      requires |turns| == |sent| == |view|
      modifies `view, `gone, `qlen, `backlog, `dropCount, `newFlows, `oldFlows, `turns, `sent, backlogs, flows, links
      ensures Round(Now(), skb, left) == PassOf(old(Now()), quantum, drops)
      ensures |turns| == |sent| == |view| && Even(old(newFlows + oldFlows), old(turns), newFlows + oldFlows, turns, view)
      ensures SameLedgers(quantum, old(view), old(sent), old(turns), view, sent, turns) && Shrinks(old(view), view)
      ensures Mirror(view) && Accounts() && Kept() && quantum >= 1 && GoneOn(old(gone), gone)
      ensures counted == qlen + dropCount + if skb == null then 0 else 1
      ensures left <= drops && qlen + (drops - left) + (if skb == null then 0 else 1) == old(qlen) && (skb != null ==> left == 0)
      ensures skb != null ==> served == old(Up()) < |view| == |gone| && gone[served] != [] && skb == gone[served][|gone[served]| - 1]
      ensures skb != null ==> served < |old(sent)| && sent == old(sent)[served := old(sent)[served] + skb.len]
      ensures skb == null ==> sent == old(sent)
      ensures skb == null ==> Lower(|newFlows| + |oldFlows|, Rounds(), |newFlows|, old(|newFlows| + |oldFlows|), old(Rounds()), old(|newFlows|))
    {
      hide Mirror, Accounts, Kept, Owed, Even, Ledger, Shrinks, SameLedgers, PassOf;
      var i := if newFlows != [] then newFlows[0] else oldFlows[0];
      UpIs();
      FlowsThere();
      DeficitIs(i);
      served, skb, left := i, null, drops;
      ghost var start, went := Now(), gone;
      if flows[i].deficit <= 0 {
        Recharge(i);
        PassRecharges(start, Now(), i, drops);
        GoneFurther(went, went, gone);
        return;
      }
      skb, left := Deliver(i, drops);
    }

    lemma CutIs(before: seq<FlowView>, after: seq<FlowView>, went: seq<seq<Skb>>, gone: seq<seq<Skb>>, i: nat, drops: nat)
      requires Cut(before, after, went, gone, i, drops + 1)
      ensures i < |before| && after == before[i := FlowView(if |before[i].queue| <= drops then [] else before[i].queue[drops + 1..], before[i].deficit)]
    {
      assert before[i].queue[|before[i].queue|..] == [];
    }

    lemma PassRecharges(m: Moment, n: Moment, i: nat, drops: nat)
      requires m.List() != [] && |m.view| == |m.turns| == |m.sent| && i == m.List()[0] < |m.view| && m.view[i].deficit <= 0 && n.sent == m.sent
      requires n.view == m.view[i := FlowView(m.view[i].queue, m.view[i].deficit + quantum)] && n.turns == m.turns[i := m.turns[i] + 1]
      requires if m.news != [] then n.news == m.news[1..] && n.olds == m.olds + [i] else n.news == [] && n.olds == m.olds[1..] + [i]
      ensures PassOf(m, quantum, drops) == Round(n, null, drops)
    {
    }

    lemma PassRetires(m: Moment, n: Moment, i: nat, drops: nat)
      requires m.List() != [] && |m.view| == |m.turns| == |m.sent| && i == m.List()[0] < |m.view|
      requires m.view[i].deficit > 0 && |m.view[i].queue| <= drops
      requires n.view == m.view[i := FlowView([], m.view[i].deficit)] && n.turns == m.turns && n.sent == m.sent
      requires m.news != [] && m.olds != [] ==> n.news == m.news[1..] && n.olds == m.olds + [i]
      requires m.news != [] && m.olds == [] ==> n.news == m.news[1..] && n.olds == []
      requires m.news == [] ==> n.news == [] && n.olds == m.olds[1..]
      ensures PassOf(m, quantum, drops) == Round(n, null, drops - |m.view[i].queue|)
    {
    }

    lemma PassSends(m: Moment, n: Moment, i: nat, drops: nat, skb: Skb)
      requires m.List() != [] && |m.view| == |m.turns| == |m.sent| && i == m.List()[0] < |m.view|
      requires m.view[i].deficit > 0 && |m.view[i].queue| > drops && skb == m.view[i].queue[drops]
      requires n.view == m.view[i := FlowView(m.view[i].queue[drops + 1..], m.view[i].deficit - skb.len)]
      requires n.news == m.news && n.olds == m.olds && n.turns == m.turns && n.sent == m.sent[i := m.sent[i] + skb.len]
      ensures PassOf(m, quantum, drops) == Round(n, skb, 0)
    {
    }

    /** Both lists without the flow that is up. */
    lemma ListRest()
      requires newFlows + oldFlows != []
      ensures NewRest(newFlows) + OldRest(newFlows, oldFlows) == (newFlows + oldFlows)[1..]
      ensures NewRest(newFlows) + (OldRest(newFlows, oldFlows) + [Up()]) == (newFlows + oldFlows)[1..] + [(newFlows + oldFlows)[0]]
    {
    }

    lemma ListsWithin()
      requires Kept()
      ensures Within(newFlows + oldFlows, |view|) && Distinct(newFlows + oldFlows)
    {
    }

    /** fq_codel_dequeue.  The loop ends, since with every pass that sends nothing fewer flows are
        listed, or fewer quanta are owed to them, or fewer of them are new.  It does what so many
        passes do.  No packet is returned exactly when codel_dequeue would drop all there are;
        one that is returned is the next of its flow. */
    method FqCodelDequeue(drops: nat) returns (skb: Skb?, ghost served: nat)
      requires Valid()
      modifies `view, `gone, `qlen, `backlog, `dropCount, `newFlows, `oldFlows, `counted, `turns, `sent, backlogs, flows, links
      ensures Dequeued(old(Now()), quantum, drops, Now(), skb) && Waits(old(Now()), Now())
      ensures Even(old(newFlows + oldFlows), old(turns), newFlows + oldFlows, turns, view)
      ensures SameLedgers(quantum, old(view), old(sent), old(turns), view, sent, turns)
      ensures Valid() && GoneOn(old(gone), gone)
      ensures dropCount == if skb != null && qlen > 0 then 0 else old(dropCount) + if skb != null then drops else old(qlen)
      ensures skb == null <==> drops >= old(qlen)
      ensures qlen == if skb == null then 0 else old(qlen) - drops - 1
      ensures skb == null ==> newFlows == [] && oldFlows == [] && sent == old(sent)
      ensures skb != null ==> served < |gone| == |view| && gone[served] != [] && skb == gone[served][|gone[served]| - 1]
      ensures skb != null ==> served < |old(sent)| && sent == old(sent)[served := old(sent)[served] + skb.len]
    {
      hide Mirror, Accounts, Kept, Owed, Even, Ledger, TotalBytes, Shrinks, SameLedgers, GoneOn, PassOf, Passed, Waits, Dequeued;
      FlowsThere();
      ListsWithin();
      StayLeads(turns, newFlows + oldFlows, view);
      NothingYet(view, sent, turns, gone);
      WaitsHere(Now());
      skb, served := null, 0;
      var left: nat := drops;
      ghost var k := 0;
      NoPass(drops);
      while newFlows != [] || oldFlows != []
        invariant Mirror(view) && Accounts() && Kept() && counted == qlen + dropCount && quantum >= 1 && GoneOn(old(gone), gone)
        invariant skb == null && left <= drops && qlen + (drops - left) == old(qlen) && |turns| == |sent| == |view| && counted == old(counted)
        invariant Even(old(newFlows + oldFlows), old(turns), newFlows + oldFlows, turns, view) && sent == old(sent)
        invariant SameLedgers(quantum, old(view), old(sent), old(turns), view, sent, turns)
        invariant Passed(k, old(Now()), quantum, drops) == Round(Now(), null, left) && Waits(old(Now()), Now())
        decreases |newFlows| + |oldFlows|, Rounds(), |newFlows|
      {
        ghost var went, m, t, v, before := gone, Now(), turns, view, left;
        BusyListed();
        PassKeepsPlaces(left);
        skb, left, served := Pass(left);
        OnePass(k, old(Now()), drops, m, before, Now(), skb, left);
        k := k + 1;
        WaitsOn(old(Now()), m, Now());
        LeadsOn(old(newFlows + oldFlows), old(turns), m.List(), t, v, newFlows + oldFlows, turns, view);
        LedgersOn(quantum, old(view), old(sent), old(turns), v, old(sent), t, view, sent, turns);
        GoneFurther(old(gone), went, gone);
        if skb != null {
          TellAbove();
          return;
        }
      }
      IsDequeued(k, old(Now()), drops, left);
      AllGone();
    }

    lemma NoPass(drops: nat)
      ensures Passed(0, Now(), quantum, drops) == Round(Now(), null, drops)
    {
    }

    lemma PassKeepsPlaces(drops: nat)
      requires Kept() && newFlows + oldFlows != [] && |turns| == |sent| == |view|
      ensures Waits(Now(), PassOf(Now(), quantum, drops).now)
    {
      ListsWithin();
      UpIs();
      PassWaits(Now(), quantum, drops);
    }

    /** One pass more; if it sends, the dequeue is done. */
    lemma OnePass(k: nat, m0: Moment, drops: nat, m: Moment, before: nat, n: Moment, skb: Skb?, left: nat)
      requires Passed(k, m0, quantum, drops) == Round(m, null, before) && PassOf(m, quantum, before) == Round(n, skb, left)
      ensures Passed(k + 1, m0, quantum, drops) == Round(n, skb, left)
      ensures skb != null ==> Dequeued(m0, quantum, drops, n, skb)
    {
      hide PassOf;
    }

    lemma IsDequeued(k: nat, m0: Moment, drops: nat, left: nat)
      requires newFlows == [] && oldFlows == [] && Passed(k, m0, quantum, drops) == Round(Now(), null, left)
      ensures Dequeued(m0, quantum, drops, Now(), null)
    {
      hide Passed;
    }

    /** A packet is returned, and with it the queue above is told of those dropped. */
    method TellAbove()
      requires counted == qlen + dropCount + 1
      modifies `counted, `dropCount
      ensures counted == qlen + dropCount && dropCount == if qlen > 0 then 0 else old(dropCount)
    {
      counted := counted - 1;
      if dropCount > 0 && qlen > 0 {
        counted := counted - dropCount;
        dropCount := 0;
      }
    }

    lemma BusyListed()
      requires Kept()
      ensures forall i: nat {:trigger Busy(view, i)} | Busy(view, i) :: i in newFlows + oldFlows
    {
    }

    lemma ShrinksOn(v: seq<FlowView>, w: seq<FlowView>, i: nat, d: int)
      requires Shrinks(v, w) && i < |w|
      ensures Shrinks(v, w[i := FlowView(w[i].queue, d)])
    {
      forall k: nat | Busy(w[i := FlowView(w[i].queue, d)], k) ensures Busy(v, k) { assert Busy(w, k); }
    }

    lemma NothingYet(v: seq<FlowView>, s: seq<nat>, t: seq<int>, g: seq<seq<Skb>>)
      requires |v| == |s| == |t|
      ensures SameLedgers(quantum, v, s, t, v, s, t) && GoneOn(g, g)
    {
    }

    lemma GoneFurther(a: seq<seq<Skb>>, b: seq<seq<Skb>>, c: seq<seq<Skb>>)
      requires GoneOn(a, b) && GoneOn(b, c)
      ensures GoneOn(a, c)
    {
    }

    /** With no flow listed, nothing is queued. */
    lemma AllGone()
      requires Accounts() && Kept() && newFlows == [] && oldFlows == []
      ensures qlen == 0
    {
      NothingQueued(view);
    }

    /** fq_codel_reset */
    method FqCodelReset(drops: nat -> nat)
      requires Valid()
      modifies `view, `gone, `qlen, `backlog, `dropCount, `newFlows, `oldFlows, `counted, `turns, `sent, backlogs, flows, links
      ensures Valid() && qlen == 0 && newFlows == [] && oldFlows == [] && GoneOn(old(gone), gone)
      ensures forall j | 0 <= j < |view| :: gone[j] == arrived[j]
    {
      hide Mirror, Accounts, Books;
      var skb: Skb?;
      ghost var served;
      ghost var went := gone;
      var n: nat := 0;
      skb, served := FqCodelDequeue(drops(n));
      while skb != null
        invariant Valid() && GoneOn(went, gone) && (skb == null ==> qlen == 0 && newFlows == [] && oldFlows == [])
        decreases qlen + if skb == null then 0 else 1
      {
        ghost var g := gone;
        n := n + 1;
        skb, served := FqCodelDequeue(drops(n));
        GoneFurther(went, g, gone);
      }
      Emptied();
    }

    lemma Emptied()
      requires Kept() && newFlows == [] && oldFlows == []
      ensures forall j | 0 <= j < |view| :: j < |arrived| == |gone| && gone[j] == arrived[j]
    {
    }

    /** The end of fq_codel_change, for a limit: packets are taken until no more than the limit
        are left, and the queue above is told how many.  A dequeue that yields nothing is counted
        with them, too, so that the queue above may be told of one too many: Surplus says when.
        drops tells how many packets codel_dequeue drops in each of the calls. */
    method FqCodelTrim(limit: nat, drops: nat -> nat)
      requires Valid()
      modifies `view, `gone, `qlen, `backlog, `dropCount, `newFlows, `oldFlows, `counted, `turns, `sent, backlogs, flows, links
      ensures Mirror(view) && Accounts() && Kept() && |turns| == |sent| == |view| && dropCount == 0 && GoneOn(old(gone), gone)
      ensures qlen <= limit && counted == qlen - Surplus(old(qlen), limit, drops, 0)
    {
      hide Mirror, Accounts, Books;
      ghost var went := gone;
      ghost var extra := 0;
      var n: nat := 0;
      while qlen > limit
        invariant Mirror(view) && Accounts() && Kept() && |turns| == |sent| == |view| && GoneOn(went, gone)
        invariant counted == qlen + dropCount - extra && (extra > 0 ==> qlen == 0)
        invariant extra + Surplus(qlen, limit, drops, n) == Surplus(old(qlen), limit, drops, 0)
        decreases qlen
      {
        ghost var g := gone;
        var skb;
        ghost var served;
        skb, served := FqCodelDequeue(drops(n));
        GoneFurther(went, g, gone);
        dropCount := dropCount + 1;
        n := n + 1;
        if skb == null {
          extra := 1;
        } else {
          // fq_codel_dequeue hands the packet to no one here: the queue above has yet to be told
          counted := counted + 1;
        }
      }
      counted := counted - dropCount;
      dropCount := 0;
    }
  }

  // ---- When trimming tells of too many --------------------------------------------

  /** By how much fq_codel_change tells the queue above of too many packets: by one if, with q
      packets and from the n-th call on, some call drops all that are left. */
  function Surplus(q: nat, limit: nat, drops: nat -> nat, n: nat): nat
    decreases q
  {
    if q <= limit then 0
    else if drops(n) >= q then 1
    else Surplus(q - drops(n) - 1, limit, drops, n + 1)
  }

  /** The packets that some calls take from n on, if each of them also returns one. */
  function Taken(drops: nat -> nat, n: nat, calls: nat): nat
    decreases calls
  {
    if calls == 0 then 0 else drops(n) + 1 + Taken(drops, n + 1, calls - 1)
  }

  /** The call that finds more than the limit, and drops them all. */
  ghost predicate Empties(q: nat, limit: nat, drops: nat -> nat, n: nat, calls: nat) {
    Taken(drops, n, calls) + limit < q <= Taken(drops, n, calls) + drops(n + calls)
  }

  ghost predicate EmptiedOnce(q: nat, limit: nat, drops: nat -> nat, n: nat) {
    exists calls: nat :: Empties(q, limit, drops, n, calls)
  }

  /** The queue above is told of one packet too many exactly if, some calls having left more
      than the limit, the next one drops all of them. */
  lemma {:induction false} SurplusExactly(q: nat, limit: nat, drops: nat -> nat, n: nat)
    ensures Surplus(q, limit, drops, n) <= 1
    ensures Surplus(q, limit, drops, n) == 1 <==> EmptiedOnce(q, limit, drops, n)
    decreases q
  {
    if q <= limit {
    } else if drops(n) >= q {
      assert Empties(q, limit, drops, n, 0);
    } else {
      var rest := q - drops(n) - 1;
      SurplusExactly(rest, limit, drops, n + 1);
      assert !Empties(q, limit, drops, n, 0);
      if EmptiedOnce(q, limit, drops, n) {
        var calls: nat :| Empties(q, limit, drops, n, calls);
        assert Empties(rest, limit, drops, n + 1, calls - 1);
      }
      if EmptiedOnce(rest, limit, drops, n + 1) {
        var calls: nat :| Empties(rest, limit, drops, n + 1, calls);
        assert Empties(q, limit, drops, n, calls + 1);
      }
    }
  }

  /** Whatever codel_dequeue drops, the count is right exactly if nothing has to be trimmed. */
  lemma SurplusNever(q: nat, limit: nat)
    ensures (forall drops: nat -> nat :: Surplus(q, limit, drops, 0) == 0) <==> q <= limit
  {
    if q > limit {
      assert Surplus(q, limit, n => q, 0) == 1;
    }
  }

  /** A scheduler with one flow. */
  method OneFlow() returns (q: FqCodelSched)
    ensures fresh(q) && fresh(q.backlogs) && |q.flows| == 1 && fresh(q.flows[0]) && q.links == {}
    ensures q.Valid() && q.qlen == 0 && q.backlog == 0 && q.limit == 1024 && q.maxLen == 1514 && |q.view| == 1 && q.view[0].queue == []
  {
    var flow := new Flow();
    hide flow.Linked;
    q := new FqCodelSched([flow], 1514, 1024, 1514);
  }

  /** A scheduler with one flow, and one packet in it. */
  method OnePacket() returns (q: FqCodelSched)
    ensures fresh(q) && fresh(q.backlogs) && |q.flows| == 1 && fresh(q.flows[0]) && q.Valid() && q.qlen == 1
    ensures fresh(q.links)
  {
    q := OneFlow();
    hide q.Valid, q.FattestDropped, FqCodelHash;
    var skb := new Skb(60);
    var ret, idx;
    ghost var k;
    var p := Packet(false, 0, 0, NoFilter);
    ret, idx, k := q.FqCodelEnqueue(skb, p);
    assert BelongsTo(p, 1, 0);
  }

  /** One packet, a limit of none, and codel_dequeue dropping the packet: the queue above then
      counts one packet less than none. */
  method OnePacketTooMany() returns (q: FqCodelSched)
    ensures q.qlen == 0 && q.counted == -1
  {
    q := OnePacket();
    hide q.Mirror, q.Kept, q.Accounts, q.Valid;
    q.FqCodelTrim(0, n => 1);
  }
}
