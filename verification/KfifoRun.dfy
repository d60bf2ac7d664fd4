/** Runs of the record mode of a kfifo. */
module KfifoRun {
  import opened Words
  import opened KfifoRing
  import opened KfifoRecords
  import opened Kfifo

  ghost predicate Holds(f: Fifo, queue: seq<seq<Byte>>, recsize: nat)
    requires 1 <= recsize <= 2
    reads f, f.data
  {
    f.Valid() && f.esize == 1 && Fits(queue, recsize) && f.Contents() == Records(queue, recsize)
  }

  lemma FitsAfter(queue: seq<seq<Byte>>, recsize: nat, size: nat, op: Op)
    requires 1 <= recsize <= 2 && Fits(queue, recsize) && Proper(queue, recsize, op)
    ensures Fits(After(queue, recsize, size, op), recsize)
  {
  }

  lemma Room(f: Fifo, queue: seq<seq<Byte>>, recsize: nat)
    requires 1 <= recsize <= 2 && Holds(f, queue, recsize)
    ensures f.Used() == |Records(queue, recsize)|
  {
    hide Queue, Records, RingSize;
  }

  /** One operation, answered as a queue of whole records would. */
  method Serve(f: Fifo, op: Op, recsize: nat, ghost queue: seq<seq<Byte>>) returns (a: Answer)
    requires 1 <= recsize <= 2 && Holds(f, queue, recsize) && Proper(queue, recsize, op)
    modifies f`inn, f`inTotal, f`out, f`outTotal, f.data
    ensures Holds(f, After(queue, recsize, f.mask + 1, op), recsize) && a == AnswerTo(queue, recsize, f.mask + 1, op)
  {
    hide Records, f.Contents, Fits, Queue, f.Valid, Header;
    FitsAfter(queue, recsize, f.mask + 1, op);
    match op {
      case In(r) =>
        Room(f, queue, recsize);
        RecordsJoin(queue, r, recsize);
        var n := f.KfifoInR(r, |r|, recsize);
        assert r[..|r|] == r;
        a := Took(n);
      case Out(len) =>
        var buf := new Byte[len](i => 0);
        var m := f.KfifoOutR(buf, len, recsize, queue);
        a := Gave(buf[..m]);
      case OutPeek(len) =>
        var buf := new Byte[len](i => 0);
        var m := f.KfifoOutPeekR(buf, len, recsize, queue);
        a := Gave(buf[..m]);
      case Skip =>
        f.KfifoSkipR(recsize, queue);
        a := Skipped;
    }
  }

  /** Any run of __kfifo_in_r, __kfifo_out_r, __kfifo_out_peek_r and __kfifo_skip_r serves as
      a queue of whole records. */
  method RunRecords(f: Fifo, ops: seq<Op>, recsize: nat, ghost queue: seq<seq<Byte>>) returns (answers: seq<Answer>)
    requires 1 <= recsize <= 2 && Holds(f, queue, recsize) && ProperRun(queue, recsize, f.mask + 1, ops)
    modifies f`inn, f`inTotal, f`out, f`outTotal, f.data
    ensures answers == Answers(queue, recsize, f.mask + 1, ops)
    ensures Holds(f, AfterRun(queue, recsize, f.mask + 1, ops), recsize)
  {
    hide Holds, Proper, After, AnswerTo;
    answers := [];
    ghost var now := queue;
    assert ops[0..] == ops;
    for i := 0 to |ops|
      invariant Holds(f, now, recsize) && ProperRun(now, recsize, f.mask + 1, ops[i..])
      invariant Answers(queue, recsize, f.mask + 1, ops) == answers + Answers(now, recsize, f.mask + 1, ops[i..])
      invariant AfterRun(queue, recsize, f.mask + 1, ops) == AfterRun(now, recsize, f.mask + 1, ops[i..])
    {
      assert ops[i..][1..] == ops[i + 1..];
      var a := Serve(f, ops[i], recsize, now);
      answers := answers + [a];
      now := After(now, recsize, f.mask + 1, ops[i]);
    }
  }
}
