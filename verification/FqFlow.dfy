/** The flows of sch_fq_codel.c: packets in a chain of links, from head to tail. */
module FqFlow {

  class Skb {
    /** qdisc_pkt_len */
    const len: nat
    var next: Skb?

    constructor (len: nat)
      ensures this.len == len && next == null
    {
      this.len, next := len, null;
    }
  }

  class Flow {
    var head: Skb?
    var tail: Skb?
    var deficit: int
    var dropped: nat
    /** The packets from head to tail. */
    ghost var queue: seq<Skb>
    ghost var cells: set<Skb>

    constructor ()
      ensures Linked() && queue == [] && deficit == 0
    {
      head, tail, deficit, dropped, queue, cells := null, null, 0, 0, [], {};
    }

    /** The chain holds the packets in order, each once; tail counts only when there is a head. */
    ghost predicate Linked()
      reads `head, `tail, `queue, `cells, cells
    {
      && cells == (set s | s in queue)
      && (head == null <==> queue == [])
      && (queue != [] ==> head == queue[0] && tail == queue[|queue| - 1] && queue[|queue| - 1].next == null)
      && (forall i | 0 <= i < |queue| - 1 :: queue[i].next == queue[i + 1])
      && (forall i, j | 0 <= i < j < |queue| :: queue[i] != queue[j])
    }

    /** What the flow holds and its deficit. */
    ghost predicate Is(packets: seq<Skb>, d: int)
      reads `head, `tail, `queue, `cells, `deficit, cells
    {
      Linked() && queue == packets && deficit == d
    }

    /** dequeue_head */
    method DequeueHead() returns (skb: Skb)
      requires Linked() && head != null
      modifies `head, `queue, `cells, head`next
      ensures Linked() && [skb] + queue == old(queue) && skb.next == null
    {
      skb := head;
      if |queue| > 1 {
        assert queue[0].next == queue[1];
      }
      head := skb.next;
      queue, cells := queue[1..], cells - {skb};
      skb.next := null;
    }

    /** flow_queue_add */
    method FlowQueueAdd(skb: Skb)
      requires Linked() && skb !in queue
      modifies `head, `tail, `queue, `cells, skb, cells
      ensures Linked() && queue == old(queue) + [skb]
    {
      if head == null {
        head := skb;
      } else {
        tail.next := skb;
      }
      tail := skb;
      skb.next := null;
      queue, cells := queue + [skb], cells + {skb};
    }
  }
}
