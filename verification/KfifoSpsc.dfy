/** One producer and one consumer on a kfifo, without a lock.

    Each copies byte by byte and publishes its index when it has copied all; the steps of the
    two interleave in any way.  Every step takes effect at once and in order, as the barriers
    in kfifo_copy_in and kfifo_copy_out ask. */
module KfifoSpsc {
  import opened Words
  import opened KfifoRing

  /** Inside __kfifo_in, with so many bytes copied. */
  datatype Producer = Resting | Filling(buf: seq<Byte>, n: nat, done: nat)

  /** Inside __kfifo_out, with these bytes copied. */
  datatype Consumer = Waiting | Draining(n: nat, dst: seq<Byte>)

  /** The shared buffer and indices, what each side is about, and as a record what the indices
      would be had they not wrapped and all bytes published and released. */
  datatype State = State(
    size: nat, esize: nat, data: seq<Byte>, inn: nat, out: nat, producer: Producer, consumer: Consumer,
    inTotal: nat, outTotal: nat, put: seq<Byte>, got: seq<Byte>)

  type World = s: State | s.size >= 1 && s.esize >= 1 && |s.data| == Bytes(s.size, s.esize) && |s.data| >= 1
    witness State(1, 1, [0], 0, 0, Resting, Waiting, 0, 0, [], [])

  datatype Move = Offer(buf: seq<Byte>, len: nat) | FillByte | PublishIn | Ask(len: nat) | DrainByte | PublishOut

  /** Where byte k from an index on lies. */
  function Place(index: nat, k: nat, size: nat, esize: nat): (p: nat)
    requires Bytes(size, esize) >= 1 && size >= 1
    ensures p < Bytes(size, esize)
  {
    (Bytes(index % size, esize) + k) % Bytes(size, esize)
  }

  predicate Enabled(w: World, move: Move) {
    match move
    case Offer(buf, len) => w.producer.Resting? && Bytes(len, w.esize) <= |buf|
    case FillByte => w.producer.Filling? && w.producer.done < Bytes(w.producer.n, w.esize) && w.producer.done < |w.producer.buf|
    case PublishIn => w.producer.Filling? && w.producer.done == Bytes(w.producer.n, w.esize) <= |w.producer.buf|
    case Ask(len) => w.consumer.Waiting?
    case DrainByte => w.consumer.Draining? && |w.consumer.dst| < Bytes(w.consumer.n, w.esize)
    case PublishOut => w.consumer.Draining? && |w.consumer.dst| == Bytes(w.consumer.n, w.esize)
  }

  function Next(w: World, move: Move): (v: World)
    requires Enabled(w, move)
  {
    match move
    case Offer(buf, len) => w.(producer := Filling(buf, Min(len, (w.size - (w.inn - w.out) % UINT32) % UINT32), 0))
    case FillByte =>
      var p := w.producer;
      w.(data := w.data[Place(w.inn, p.done, w.size, w.esize) := p.buf[p.done]], producer := Filling(p.buf, p.n, p.done + 1))
    case PublishIn =>
      var p := w.producer;
      w.(inn := (w.inn + p.n) % UINT32, inTotal := w.inTotal + p.n, put := w.put + p.buf[..p.done], producer := Resting)
    case Ask(len) => w.(consumer := Draining(Min(len, (w.inn - w.out) % UINT32), []))
    case DrainByte =>
      var c := w.consumer;
      w.(consumer := Draining(c.n, c.dst + [w.data[Place(w.out, |c.dst|, w.size, w.esize)]]))
    case PublishOut =>
      var c := w.consumer;
      w.(out := (w.out + c.n) % UINT32, outTotal := w.outTotal + c.n, got := w.got + c.dst, consumer := Waiting)
  }

  // ---- The invariant --------------------------------------------------------------

  ghost predicate Counted(w: World) {
    && RingSize(w.size) && w.inn == w.inTotal % UINT32 && w.out == w.outTotal % UINT32
    && w.outTotal <= w.inTotal <= w.outTotal + w.size
  }

  /** What has been published and not released is in the ring, in order. */
  ghost predicate Kept(w: World)
    requires Counted(w)
  {
    && w.got <= w.put && |w.got| == Bytes(w.outTotal, w.esize)
    && w.put[|w.got|..] == Queue(w.data, w.outTotal, w.inTotal - w.outTotal, w.size, w.esize)
  }

  /** What the producer has copied lies behind that, in room that is free. */
  ghost predicate Fills(w: World)
    requires Counted(w)
  {
    w.producer.Filling? ==>
      var p := w.producer;
      && w.inTotal + p.n <= w.outTotal + w.size && p.done <= Bytes(p.n, w.esize) <= |p.buf| && p.done <= |w.data|
      && RingRead(w.data, Pos(w.inTotal, w.size, w.esize), p.done) == p.buf[..p.done]
  }

  /** What the consumer has copied is what was published first. */
  ghost predicate Drains(w: World)
    requires Counted(w)
  {
    w.consumer.Draining? ==>
      var c := w.consumer;
      && w.outTotal + c.n <= w.inTotal && |c.dst| <= Bytes(c.n, w.esize)
      && |w.got| <= |w.put| && c.dst <= w.put[|w.got|..]
  }

  ghost predicate Inv(w: World) {
    Counted(w) && Kept(w) && Fills(w) && Drains(w)
  }

  // ---- Places ---------------------------------------------------------------------

  lemma PlaceIs(total: nat, k: nat, size: nat, esize: nat)
    requires size >= 1 && esize >= 1 && k < Bytes(size, esize)
    ensures Place(total % UINT32, k, size, esize) == Wrap(Pos(total, size, esize) + k, Bytes(size, esize))
  {
    hide Bytes;
    var m := Bytes(size, esize);
    var x := Pos(total, size, esize) + k;
    if x < m {
      RemainderIs(x, 0, x, m);
    } else {
      RemainderIs(x, 1, x - m, m);
    }
  }

  /** Further on than m, a byte can be written without touching the first m. */
  lemma ReadKept(d: seq<Byte>, p: nat, m: nat, k: nat, x: Byte)
    requires p < |d| && m <= k < |d|
    ensures RingRead(d[Wrap(p + k, |d|) := x], p, m) == RingRead(d, p, m)
  {
    hide RingRead;
    var e := d[Wrap(p + k, |d|) := x];
    forall j | 0 <= j < m
      ensures RingRead(e, p, m)[j] == RingRead(d, p, m)[j]
    {
      ReadAt(e, p, m, j);
      ReadAt(d, p, m, j);
    }
  }

  lemma ReadOneMore(d: seq<Byte>, p: nat, m: nat, x: Byte)
    requires p < |d| && m < |d|
    ensures RingRead(d[Wrap(p + m, |d|) := x], p, m + 1) == RingRead(d, p, m) + [x]
  {
    hide RingRead;
    var e := d[Wrap(p + m, |d|) := x];
    forall j | 0 <= j < m + 1
      ensures RingRead(e, p, m + 1)[j] == (RingRead(d, p, m) + [x])[j]
    {
      ReadAt(e, p, m + 1, j);
      if j < m {
        ReadAt(d, p, m, j);
      }
    }
  }

  /** Two bytes at different distances from a place are different bytes. */
  lemma PlacesDiffer(p: nat, a: nat, b: nat, m: nat)
    requires p < m && a < m && b < m && a != b
    ensures Wrap(p + a, m) != Wrap(p + b, m)
  {
  }

  // ---- Every step keeps the invariant ---------------------------------------------

  lemma OfferKeeps(w: World, buf: seq<Byte>, len: nat)
    requires Inv(w) && Enabled(w, Offer(buf, len))
    ensures Inv(Next(w, Offer(buf, len)))
    ensures Next(w, Offer(buf, len)).producer.n == Min(len, w.size - (w.inTotal - w.outTotal))
  {
    hide Queue, Pos, RingSize, RingRead, Bytes;
    Unused(w);
    BytesWithin(Min(len, w.size - (w.inTotal - w.outTotal)), len, w.esize);
    ReadNone(w.data, Pos(w.inTotal, w.size, w.esize));
  }

  /** What kfifo_unused finds. */
  lemma Unused(w: World)
    requires Counted(w)
    ensures (w.size - (w.inn - w.out) % UINT32) % UINT32 == w.size - (w.inTotal - w.outTotal)
  {
    hide Pos, RingSize;
    var q := RingDivides(w.size);
    Distance(w.inTotal, w.outTotal);
  }

  lemma ReadNone(d: seq<Byte>, p: nat)
    requires p < |d|
    ensures RingRead(d, p, 0) == []
  {
  }

  /** Where the producer writes, seen from where the consumer reads. */
  lemma FreePlace(w: World)
    requires Counted(w) && Fills(w) && Enabled(w, FillByte)
    ensures var k, used := w.producer.done, Bytes(w.inTotal - w.outTotal, w.esize);
      && used + k < |w.data|
      && Place(w.inn, k, w.size, w.esize) == Wrap(Pos(w.outTotal, w.size, w.esize) + used + k, |w.data|)
      && Place(w.inn, k, w.size, w.esize) == Wrap(Pos(w.inTotal, w.size, w.esize) + k, |w.data|)
  {
    hide Queue, Pos, Place, Bytes, RingSize, RingRead;
    var n, u := w.producer.n, w.inTotal - w.outTotal;
    BytesAdd(u, n, w.esize);
    BytesWithin(u + n, w.size, w.esize);
    PlaceIs(w.inTotal, w.producer.done, w.size, w.esize);
    PosMoves(w.outTotal, u, w.size, w.esize);
  }

  /** No slot that has not been read is overwritten. */
  lemma NoOverwrite(w: World, j: nat)
    requires Inv(w) && Enabled(w, FillByte) && j < Bytes(w.inTotal - w.outTotal, w.esize)
    ensures Place(w.inn, w.producer.done, w.size, w.esize) != Place(w.out, j, w.size, w.esize)
  {
    hide Queue, Pos, Place, Bytes, RingSize, RingRead;
    FreePlace(w);
    var used := Bytes(w.inTotal - w.outTotal, w.esize);
    PlaceIs(w.outTotal, j, w.size, w.esize);
    PlacesDiffer(Pos(w.outTotal, w.size, w.esize), used + w.producer.done, j, |w.data|);
  }

  lemma FillByteKeeps(w: World)
    requires Inv(w) && Enabled(w, FillByte)
    ensures Inv(Next(w, FillByte))
  {
    hide RingRead, Pos, Place, Bytes, RingSize;
    FreePlace(w);
    var p := w.producer;
    var used := Bytes(w.inTotal - w.outTotal, w.esize);
    ReadKept(w.data, Pos(w.outTotal, w.size, w.esize), used, used + p.done, p.buf[p.done]);
    ReadOneMore(w.data, Pos(w.inTotal, w.size, w.esize), p.done, p.buf[p.done]);
  }

  lemma PublishInKeeps(w: World)
    requires Inv(w) && Enabled(w, PublishIn)
    ensures Inv(Next(w, PublishIn))
  {
    hide RingRead, Pos, Bytes, RingSize;
    var p, u := w.producer, w.inTotal - w.outTotal;
    StepIndex(w.inTotal, p.n);
    QueueShrinks(w.data, w.outTotal, u + p.n, u, w.size, w.esize);
    var v := Next(w, PublishIn);
    assert Queue(w.data, w.inTotal, p.n, w.size, w.esize) == p.buf[..p.done];
    var all := Queue(w.data, w.outTotal, u + p.n, w.size, w.esize);
    assert all == all[..Bytes(u, w.esize)] + all[Bytes(u, w.esize)..];
    assert v.put[|w.got|..] == w.put[|w.got|..] + p.buf[..p.done];
  }

  lemma AskKeeps(w: World, len: nat)
    requires Inv(w) && Enabled(w, Ask(len))
    ensures Inv(Next(w, Ask(len)))
    ensures Next(w, Ask(len)).consumer.n == Min(len, w.inTotal - w.outTotal)
  {
    hide Queue, Pos, RingRead;
    var q := RingDivides(w.size);
    Distance(w.inTotal, w.outTotal);
  }

  /** What the consumer reads has been published, and is the byte that is due. */
  lemma ReadsPublished(w: World)
    requires Inv(w) && Enabled(w, DrainByte)
    ensures |w.got| + |w.consumer.dst| < |w.put|
    ensures w.data[Place(w.out, |w.consumer.dst|, w.size, w.esize)] == w.put[|w.got| + |w.consumer.dst|]
  {
    hide RingRead, Pos, Place, Bytes, RingSize;
    var c, u := w.consumer, w.inTotal - w.outTotal;
    BytesWithin(c.n, u, w.esize);
    BytesWithin(u, w.size, w.esize);
    PlaceIs(w.outTotal, |c.dst|, w.size, w.esize);
    ReadAt(w.data, Pos(w.outTotal, w.size, w.esize), Bytes(u, w.esize), |c.dst|);
    assert w.put[|w.got|..][|c.dst|] == w.put[|w.got| + |c.dst|];
  }

  lemma DrainByteKeeps(w: World)
    requires Inv(w) && Enabled(w, DrainByte)
    ensures Inv(Next(w, DrainByte))
  {
    hide RingRead, Pos, Place, Bytes, RingSize, Queue;
    ReadsPublished(w);
  }

  lemma PublishOutKeeps(w: World)
    requires Inv(w) && Enabled(w, PublishOut)
    ensures Inv(Next(w, PublishOut))
  {
    hide RingRead, Pos, Bytes, RingSize, Queue;
    var c, u := w.consumer, w.inTotal - w.outTotal;
    StepIndex(w.outTotal, c.n);
    BytesAdd(w.outTotal, c.n, w.esize);
    QueueShrinks(w.data, w.outTotal, u, c.n, w.size, w.esize);
    var v := Next(w, PublishOut);
    assert v.put[|v.got|..] == w.put[|w.got|..][|c.dst|..];
    assert v.got == w.put[..|w.got| + |c.dst|];
  }

  lemma StepKeeps(w: World, move: Move)
    requires Inv(w) && Enabled(w, move)
    ensures Inv(Next(w, move))
  {
    hide Inv, Enabled, Next;
    match move
    case Offer(buf, len) => OfferKeeps(w, buf, len);
    case FillByte => FillByteKeeps(w);
    case PublishIn => PublishInKeeps(w);
    case Ask(len) => AskKeeps(w, len);
    case DrainByte => DrainByteKeeps(w);
    case PublishOut => PublishOutKeeps(w);
  }

  // ---- Every run ------------------------------------------------------------------

  ghost predicate Start(w: World) {
    RingSize(w.size) && w.inn == w.out == w.inTotal == w.outTotal == 0 && w.put == w.got == []
    && w.producer.Resting? && w.consumer.Waiting?
  }

  ghost predicate Ran(w: World, moves: seq<Move>, v: World)
    decreases |moves|
  {
    if moves == [] then v == w else Enabled(w, moves[0]) && Ran(Next(w, moves[0]), moves[1..], v)
  }

  lemma {:induction false} RunKeeps(w: World, moves: seq<Move>, v: World)
    requires Inv(w) && Ran(w, moves, v)
    ensures Inv(v)
    decreases |moves|
  {
    hide Inv, Enabled, Next;
    if moves != [] {
      StepKeeps(w, moves[0]);
      RunKeeps(Next(w, moves[0]), moves[1..], v);
    }
  }

  /** After any interleaving, what the consumer has released is what the producer published
      first, byte for byte; the rest is in the ring, and what the consumer is copying is the
      beginning of it. */
  lemma FirstInFirstOut(w: World, moves: seq<Move>, v: World)
    requires Start(w) && Ran(w, moves, v)
    ensures v.got <= v.put && |v.put| - |v.got| <= |v.data|
    ensures Counted(v) && v.put[|v.got|..] == Queue(v.data, v.outTotal, v.inTotal - v.outTotal, v.size, v.esize)
    ensures v.consumer.Draining? ==> v.got + v.consumer.dst <= v.put
  {
    hide RingRead, Pos, Enabled, Next, Ran, RingSize;
    assert Inv(w) by { ReadNone(w.data, Pos(w.outTotal, w.size, w.esize)); }
    RunKeeps(w, moves, v);
    BytesWithin(v.inTotal - v.outTotal, v.size, v.esize);
    assert v.got + v.put[|v.got|..] == v.put;
  }
}
