/** Records of bytes, each behind a header of one or two bytes that holds its length. */
module KfifoRecords {
  import opened Words

  /** What __kfifo_poke_n stores of a length, in so many bytes. */
  function Header(n: nat, recsize: nat): (h: seq<Byte>)
    requires 1 <= recsize <= 2
    ensures |h| == recsize
  {
    if recsize == 1 then [n % 256] else [n % 256, n / 256 % 256]
  }

  /** What __kfifo_peek_n makes of a header. */
  function LengthIn(h: seq<Byte>): nat
    requires 1 <= |h| <= 2
  {
    if |h| == 1 then h[0] else Num8(h[0]) + Num8(h[1]) * 256
  }

  /** A header gives the length back exactly when the length fits it. */
  lemma HeaderHolds(n: nat, recsize: nat)
    requires 1 <= recsize <= 2
    ensures LengthIn(Header(n, recsize)) == n <==> n < Pow256(recsize)
    ensures LengthIn(Header(n, recsize)) == n % Pow256(recsize)
  {
    assert Pow256(1) == 256 && Pow256(2) == 256 * Pow256(1);
  }

  predicate Fits(records: seq<seq<Byte>>, recsize: nat) {
    forall r | r in records :: |r| < Pow256(recsize)
  }

  function Record(r: seq<Byte>, recsize: nat): seq<Byte>
    requires 1 <= recsize <= 2
  {
    Header(|r|, recsize) + r
  }

  function Records(records: seq<seq<Byte>>, recsize: nat): seq<Byte>
    requires 1 <= recsize <= 2
  {
    if records == [] then [] else Record(records[0], recsize) + Records(records[1..], recsize)
  }

  lemma {:induction false} RecordsJoin(a: seq<seq<Byte>>, r: seq<Byte>, recsize: nat)
    requires 1 <= recsize <= 2
    ensures Records(a + [r], recsize) == Records(a, recsize) + Record(r, recsize)
  {
    if a == [] {
      assert [r][1..] == [];
      assert a + [r] == [r];
    } else {
      assert (a + [r])[1..] == a[1..] + [r];
      RecordsJoin(a[1..], r, recsize);
    }
  }

  /** The first record of a queue, read through its header. */
  lemma FirstRecord(records: seq<seq<Byte>>, recsize: nat)
    requires 1 <= recsize <= 2 && records != [] && Fits(records, recsize)
    ensures var c, n := Records(records, recsize), |records[0]|;
      && recsize + n <= |c| && LengthIn(c[..recsize]) == n
      && c[recsize..recsize + n] == records[0] && c[recsize + n..] == Records(records[1..], recsize)
  {
    hide Header, LengthIn, Pow256;
    var c, n := Records(records, recsize), |records[0]|;
    HeaderHolds(n, recsize);
    assert records[0] in records;
    assert c[..recsize] == Header(n, recsize);
  }

  /** Bytes can be cut into records in one way only. */
  lemma {:induction false} RecordsUnique(a: seq<seq<Byte>>, b: seq<seq<Byte>>, recsize: nat)
    requires 1 <= recsize <= 2 && Fits(a, recsize) && Fits(b, recsize) && Records(a, recsize) == Records(b, recsize)
    ensures a == b
  {
    if a != [] && b != [] {
      FirstRecord(a, recsize);
      FirstRecord(b, recsize);
      assert a[0] == b[0];
      assert forall r | r in a[1..] :: r in a;
      assert forall r | r in b[1..] :: r in b;
      RecordsUnique(a[1..], b[1..], recsize);
      assert a == [a[0]] + a[1..] && b == [b[0]] + b[1..];
    }
  }

  // ---- The queue that callers see -------------------------------------------------

  datatype Op = In(record: seq<Byte>) | Out(len: nat) | OutPeek(len: nat) | Skip
  datatype Answer = Took(n: nat) | Gave(bytes: seq<Byte>) | Skipped

  /** What a caller may ask: a record that its header can count, and no skip of nothing. */
  predicate Proper(queue: seq<seq<Byte>>, recsize: nat, op: Op) {
    match op
    case In(r) => |r| < Pow256(recsize)
    case Skip => queue != []
    case _ => true
  }

  /** The first bytes of a record, as many as are asked for and there. */
  function Front(r: seq<Byte>, len: nat): (f: seq<Byte>)
    ensures f <= r && |f| == Min(len, |r|)
  {
    if len < |r| then r[..len] else r
  }

  /** A queue of whole records; one that does not fit in what is left is refused. */
  function After(queue: seq<seq<Byte>>, recsize: nat, size: nat, op: Op): seq<seq<Byte>>
    requires 1 <= recsize <= 2
  {
    match op
    case In(r) => if |Records(queue, recsize)| + recsize + |r| <= size then queue + [r] else queue
    case Out(len) => if queue == [] then [] else queue[1..]
    case OutPeek(len) => queue
    case Skip => if queue == [] then [] else queue[1..]
  }

  function AnswerTo(queue: seq<seq<Byte>>, recsize: nat, size: nat, op: Op): Answer
    requires 1 <= recsize <= 2
  {
    match op
    case In(r) => if |Records(queue, recsize)| + recsize + |r| <= size then Took(|r|) else Took(0)
    case Out(len) => Gave(if queue == [] then [] else Front(queue[0], len))
    case OutPeek(len) => Gave(if queue == [] then [] else Front(queue[0], len))
    case Skip => Skipped
  }

  predicate ProperRun(queue: seq<seq<Byte>>, recsize: nat, size: nat, ops: seq<Op>)
    requires 1 <= recsize <= 2
    decreases |ops|
  {
    ops == [] || (Proper(queue, recsize, ops[0]) && ProperRun(After(queue, recsize, size, ops[0]), recsize, size, ops[1..]))
  }

  function AfterRun(queue: seq<seq<Byte>>, recsize: nat, size: nat, ops: seq<Op>): seq<seq<Byte>>
    requires 1 <= recsize <= 2
    decreases |ops|
  {
    if ops == [] then queue else AfterRun(After(queue, recsize, size, ops[0]), recsize, size, ops[1..])
  }

  function Answers(queue: seq<seq<Byte>>, recsize: nat, size: nat, ops: seq<Op>): (a: seq<Answer>)
    requires 1 <= recsize <= 2
    decreases |ops|
  {
    if ops == [] then []
    else [AnswerTo(queue, recsize, size, ops[0])] + Answers(After(queue, recsize, size, ops[0]), recsize, size, ops[1..])
  }
}
