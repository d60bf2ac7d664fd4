/** The input layer of LZMA2: lzma2_lzma feeds the LZMA decoder from the caller's buffer and
    from a small one of its own, so that it never runs out in the middle of a symbol. */
module Lzma2 {
  import opened Words
  import opened XzBuffer
  import opened RangeCoder
  import opened RangeTrace
  import opened ByteBudget
  import opened RangeDecoder
  import opened XzDictionary
  import opened LzmaFormat
  import opened LzmaDecoder
  import opened LzmaAccept

  const TEMP_SIZE: nat := 3 * LZMA_IN_REQUIRED

  /** Decoding some of what is kept. */
  lemma KeptRest(consumed: seq<Byte>, kept: seq<Byte>, n: nat, size: nat)
    requires n <= size <= |kept|
    ensures consumed + kept[0..n] + kept[n..size] == consumed + kept[..size]
  {
    assert kept[..size] == kept[0..n] + kept[n..size];
  }

  /** Decoding all of what is kept, and some of what was copied after it. */
  lemma KeptNone(consumed: seq<Byte>, kept: seq<Byte>, size: nat, n: nat, tmp: nat, input: seq<Byte>, pos: nat)
    requires size <= n <= size + tmp <= |kept| && pos + tmp <= |input| && kept[size..size + tmp] == input[pos..pos + tmp]
    ensures consumed + kept[0..n] + [] == consumed + kept[..size] + input[pos..pos + (n - size)]
  {
    var extra := kept[size..size + tmp];
    assert kept[0..n] == kept[..size] + extra[..n - size];
    assert input[pos..pos + (n - size)] == input[pos..pos + tmp][..n - size];
  }

  /** What has been decoded from the temporary buffer is how the encoding begins, if what is
      kept and what is still to come is; beyond the end of the chunk there may be anything. */
  lemma TempComparable(consumed: seq<Byte>, kept: seq<Byte>, size: nat, tmp: nat, n: nat, input: seq<Byte>, pos: nat, data: seq<Byte>)
    requires n <= |kept| && size + tmp <= |kept| && pos + tmp <= |input| && kept[size..size + tmp] == input[pos..pos + tmp]
    requires Comparable(consumed + kept[..size] + input[pos..], data) && (n > size + tmp ==> |data| == |consumed| + size + tmp)
    ensures Comparable(consumed + kept[0..n], data)
  {
    var all, known := consumed + kept[..size] + input[pos..], consumed + kept[..size + tmp];
    KnownFirst(consumed, kept, size, tmp, input, pos);
    KeptFirst(consumed, kept, n, size + tmp);
    if n <= size + tmp {
      ComparablePart(known, all, data);
      ComparablePart(consumed + kept[0..n], known, data);
    } else {
      ComparableWhole(all, data, |data|);
      assert known == all[..|known|] == data;
    }
  }

  lemma KnownFirst(consumed: seq<Byte>, kept: seq<Byte>, size: nat, tmp: nat, input: seq<Byte>, pos: nat)
    requires size + tmp <= |kept| && pos + tmp <= |input| && kept[size..size + tmp] == input[pos..pos + tmp]
    ensures consumed + kept[..size + tmp] <= consumed + kept[..size] + input[pos..]
  {
    assert kept[..size + tmp] == kept[..size] + kept[size..size + tmp];
    assert input[pos..] == input[pos..pos + tmp] + input[pos + tmp..];
    assert consumed + kept[..size] + input[pos..] == consumed + kept[..size + tmp] + input[pos + tmp..];
  }

  lemma KeptFirst(consumed: seq<Byte>, kept: seq<Byte>, a: nat, b: nat)
    requires a <= |kept| && b <= |kept|
    ensures if a <= b then consumed + kept[0..a] <= consumed + kept[..b] else consumed + kept[..b] <= consumed + kept[0..a]
  {
    if a <= b {
      assert consumed + kept[..b] == consumed + kept[0..a] + kept[a..b];
    } else {
      assert consumed + kept[0..a] == consumed + kept[..b] + kept[b..a];
    }
  }

  lemma InputComparable(consumed: seq<Byte>, none: seq<Byte>, input: seq<Byte>, pos: nat, to: nat, data: seq<Byte>)
    requires pos <= to <= |input| && none == [] && Comparable(consumed + none + input[pos..], data)
    ensures Comparable(consumed + input[pos..to], data)
  {
    var all := consumed + none + input[pos..];
    assert consumed + input[pos..to] == all[..|consumed| + (to - pos)];
    ComparablePart(consumed + input[pos..to], all, data);
  }

  datatype Context = Context(props: Props, origin: Machine)

  lemma NothingHeld(l: Log)
    requires l.consumed == [] && l.trace == []
    ensures Held(l) == Some(l.origin)
  {
    assert l.origin.coder.input + [] == l.origin.coder.input;
  }

  class Lzma2Input {
    const lzma: LzmaDec
    /** temp.buf and temp.size */
    const temp: array<Byte>
    var tempSize: nat
    /** Compressed bytes of the chunk that have not been decoded. */
    var compressed: nat
    /** What had been told when the chunk began, and the symbols of the chunk since. */
    ghost var before: Told
    ghost var symbols: seq<Symbol>

    constructor (size: nat)
      requires size > 0 && size % 16 == 0
      ensures fresh(lzma) && fresh(lzma.rc) && fresh(lzma.dict) && fresh(lzma.dict.buf) && fresh(lzma.probs) && fresh(temp)
      ensures lzma.dict.Valid() && lzma.dict.end == size && lzma.dict.start == lzma.dict.pos == 0 && lzma.dict.history == []
      ensures lzma.probs.Length == PROBS_TOTAL && lzma.len == 0 && temp.Length == TEMP_SIZE && tempSize == 0 && temp != lzma.dict.buf
    {
      lzma := new LzmaDec(size);
      temp := new Byte[TEMP_SIZE](i => 0);
      tempSize, compressed := 0, 0;
      before, symbols := Told(Coding(0, 0, 0, 0, 0), []), [];
    }

    /** The symbols decoded are those of the decisions decoded, and the history is what they
        tell. */
    ghost predicate Story()
      reads `before, `symbols, lzma, lzma.dict, lzma.dict.buf, lzma.rc`range, lzma.rc`code, lzma.rc`log, lzma.probs
    {
      && lzma.Valid() && lzma.rc.Idle(lzma.probs[..])
      && SoundRun(before, symbols) && lzma.Telling() == TellAll(before, symbols)
      && lzma.rc.log.trace == RunSteps(lzma.Set(), before, symbols)
      && RC_TOP_VALUE <= lzma.rc.range && NearRun(before, symbols, lzma.dict.size)
    }

    /** A chunk's data begins. */
    ghost method Begin()
      requires lzma.Valid() && lzma.len == 0 && Sound(Coder(lzma.rc.range, lzma.rc.code, [])) && RC_TOP_VALUE <= lzma.rc.range
      modifies `before, `symbols, lzma.rc`log
      ensures Story() && lzma.rc.log == Log(Machine(Coder(lzma.rc.range, lzma.rc.code, []), lzma.probs[..]), [], [])
      ensures before == Told(lzma.Coded(), lzma.dict.history) && symbols == []
    {
      hide Ring, RunSteps, TellAll, SoundRun;
      before, symbols := lzma.Telling(), [];
      lzma.LastInside();
      RunNothing(lzma.Set(), before);
      NearNothing(before, lzma.dict.size, 0);
      LzCopyNone(lzma.dict.history, lzma.rep0);
      lzma.rc.log := Log(Machine(Coder(lzma.rc.range, lzma.rc.code, []), lzma.probs[..]), [], []);
      NothingHeld(lzma.rc.log);
    }

    /** An encoding that could be what is being decoded. */
    ghost predicate Expects(e: Encoding, bound: nat)
      reads `before, lzma, lzma.rc`log
    {
      e.origin == lzma.rc.log.origin && e.props == lzma.Set() && e.before == before && Encodes(e, lzma.dict.size, bound)
    }

    /** No such encoding begins with these bytes. */
    ghost predicate Refused(x: seq<Byte>, bound: nat)
      reads `before, lzma, lzma.rc`log
    {
      forall e {:trigger Expects(e, bound)} | Expects(e, bound) :: !Comparable(x, e.data)
    }

    /** The decoder keeps to what the chunk is to make. */
    ghost predicate Bounded(bound: nat)
      reads `before, `symbols, lzma.dict`history, lzma.dict`pos, lzma.dict`limit
    {
      Begun(before, symbols, bound) && lzma.Reach() <= bound
    }

    lemma FailsMore(t: Told, symbols: seq<Symbol>, bad: Symbol, size: nat, low: int, high: int)
      requires Fails(t, symbols, bad, size, low) && low <= high
      ensures Fails(t, symbols, bad, size, high)
    {
      hide TellAll, Copies, Near;
    }

    lemma BegunMore(t: Told, symbols: seq<Symbol>, size: nat, low: int, high: int)
      requires Within(t, symbols, size, low) && low <= high
      ensures Within(t, symbols, size, high)
    {
      hide TellAll, NearRun;
    }

    /** Why a chunk that makes the decoder fail is refused. */
    lemma FailureRefuses(told: Told, more: seq<Symbol>, bad: Symbol, trace: seq<Step>, bound: nat)
      requires lzma.SoundSet() && SoundRun(before, symbols) && told == TellAll(before, symbols) && SoundRun(told, more)
      requires trace == RunSteps(lzma.Set(), before, symbols) && Within(told, more, lzma.dict.size, bound)
      requires NearRun(before, symbols, lzma.dict.size) && Begun(before, symbols, bound) && Fails(told, more, bad, lzma.dict.size, bound)
      requires lzma.rc.log.trace == trace + StepsWith(lzma.Set(), told, more, bad) && Held(lzma.rc.log).Some?
      ensures Refused(lzma.rc.log.consumed, bound)
    {
      hide SoundRun, TellAll, RunSteps, NearRun, Near, Copies, SymbolSteps, Encodes, Comparable, Begun;
      var p, all := lzma.Set(), symbols + more;
      RunJoin(before, symbols, more);
      StepsJoin(p, before, symbols, more);
      NearJoin(before, symbols, more, lzma.dict.size, bound);
      var u := TellAll(before, all);
      Regroup(RunSteps(p, before, symbols), RunSteps(p, told, more), SymbolSteps(p, u.coding, u.history, bad));
      forall e | Expects(e, bound) && Comparable(lzma.rc.log.consumed, e.data) ensures false {
        NoFailure(e, lzma.dict.size, bound, all, bad, lzma.rc.log.consumed);
      }
    }

    /** lzma_main, within a chunk.  It fails only on bytes that no encoder could have begun with. */
    method DecodeMain(ghost bound: nat) returns (ok: bool)
      requires Story() && lzma.dict.pos <= lzma.dict.limit && Bounded(bound)
      requires lzma.rc.inPos <= lzma.rc.inLimit && lzma.rc.inLimit + LZMA_IN_REQUIRED <= |lzma.rc.input|
      modifies `symbols, lzma.rc`range, lzma.rc`code, lzma.rc`inPos, lzma.rc`meter, lzma.rc`log, lzma.probs
      modifies lzma`rep0, lzma`rep1, lzma`rep2, lzma`rep3, lzma`state, lzma`len
      modifies lzma.dict`pos, lzma.dict`full, lzma.dict`history, lzma.dict.buf
      ensures ok ==> Story() && old(symbols) <= symbols && Bounded(bound)
      ensures Setting() == old(Setting()) && (!ok ==> Refused(lzma.rc.log.consumed, bound))
      ensures lzma.rc.inPos <= lzma.rc.inLimit + LZMA_IN_REQUIRED && old(lzma.rc.inPos) <= lzma.rc.inPos
      ensures lzma.rc.log.consumed == old(lzma.rc.log.consumed) + lzma.rc.input[old(lzma.rc.inPos)..lzma.rc.inPos]
      ensures ok ==> old(lzma.dict.pos) <= lzma.dict.pos <= lzma.dict.limit
      ensures ok && old(lzma.dict.pos) < lzma.dict.limit ==> old(lzma.dict.pos) < lzma.dict.pos
      ensures ok ==> |lzma.dict.history| - |old(lzma.dict.history)| == lzma.dict.pos - old(lzma.dict.pos) && old(lzma.dict.history) <= lzma.dict.history
      ensures ok ==> lzma.dict.pos == lzma.dict.limit || lzma.len == 0
    {
      hide lzma.rc.Idle, SoundRun, TellAll, RunSteps, lzma.Valid, NearRun, Begun, Within, Fails, Refused, StepsWith;
      ghost var told, trace := lzma.Telling(), lzma.rc.log.trace;
      ghost var more, bad;
      SetIsSound();
      ok, more, bad := lzma.LzmaMain();
      BegunMore(told, more, lzma.dict.size, old(lzma.Reach()), bound);
      if ok {
        lzma.LastInside();
        RunJoin(before, symbols, more);
        StepsJoin(lzma.Set(), before, symbols, more);
        TogetherWithin(told, more, bound);
        symbols := symbols + more;
      } else {
        IdleHolds();
        FailsMore(told, more, bad, lzma.dict.size, old(lzma.Reach()), bound);
        FailureRefuses(told, more, bad, trace, bound);
      }
    }

    lemma SetIsSound()
      requires lzma.Valid()
      ensures lzma.SoundSet()
    {
    }

    lemma IdleHolds()
      requires lzma.rc.Idle(lzma.probs[..])
      ensures Held(lzma.rc.log).Some?
    {
    }

    lemma TogetherWithin(told: Told, more: seq<Symbol>, bound: nat)
      requires SoundRun(before, symbols) && told == TellAll(before, symbols) && SoundRun(told, more)
      requires NearRun(before, symbols, lzma.dict.size) && Begun(before, symbols, bound) && Within(told, more, lzma.dict.size, bound)
      ensures NearRun(before, symbols + more, lzma.dict.size) && Begun(before, symbols + more, bound)
    {
      hide SoundRun, TellAll, NearRun, Begun;
      NearJoin(before, symbols, more, lzma.dict.size, bound);
    }

    /** Between calls: less than a symbol's worth of input is kept, and no more than the chunk
        has left. */
    ghost predicate Kept()
      reads this, lzma, lzma.dict, lzma.dict.buf, lzma.rc`range, lzma.rc`code, lzma.rc`log, lzma.probs
    {
      && Story() && temp.Length == TEMP_SIZE && temp != lzma.dict.buf && tempSize < LZMA_IN_REQUIRED && tempSize <= compressed
    }

    ghost predicate Valid()
      reads this, lzma, lzma.dict, lzma.dict.buf, lzma.rc`range, lzma.rc`code, lzma.rc`log, lzma.probs
    {
      Kept() && lzma.dict.pos <= lzma.dict.limit
    }

    lemma StoryHas()
      requires Story()
      ensures lzma.Valid() && lzma.dict.Valid() && lzma.probs.Length == PROBS_TOTAL
    {
      hide Ring, TellAll, SoundRun, RunSteps, lzma.rc.Idle;
    }

    /** dict_flush, within a chunk. */
    method Flush(b: XzBuf) returns (copied: nat)
      requires Kept() && b.Valid() && b.output != lzma.dict.buf && b.output != temp
      requires lzma.dict.pos - lzma.dict.start <= b.output.Length - b.outPos
      modifies lzma.dict`pos, lzma.dict`start, b`outPos, b.output
      ensures Kept() && b.Valid() && lzma.dict.start == lzma.dict.pos < lzma.dict.end && lzma.dict.history == old(lzma.dict.history)
      ensures lzma.dict.Valid() && copied == old(lzma.dict.pos - lzma.dict.start) <= |lzma.dict.history| && b.outPos == old(b.outPos) + copied
      ensures b.output[..] == old(b.output[..b.outPos]) + lzma.dict.history[|lzma.dict.history| - copied..] + old(b.output[..])[b.outPos..]
    {
      hide Ring, TellAll, SoundRun, RunSteps, lzma.rc.Idle, LzCopy;
      copied := lzma.dict.DictFlush(b);
    }

    /** dict_uncompressed, for an uncompressed chunk. */
    method CopyIn(b: XzBuf) returns (ghost bytes: seq<Byte>)
      requires lzma.dict.Valid() && lzma.dict.start == lzma.dict.pos < lzma.dict.end && b.Valid() && b.output != lzma.dict.buf && b.output != temp
      modifies `compressed, b`inPos, b`outPos, b.output
      modifies lzma.dict`pos, lzma.dict`full, lzma.dict`history, lzma.dict`start, lzma.dict.buf
      ensures lzma.dict.Valid() && lzma.dict.start == lzma.dict.pos < lzma.dict.end && b.Valid() && (old(lzma.Valid()) ==> lzma.Valid())
      ensures old(b.inPos) <= b.inPos && bytes == b.input[old(b.inPos)..b.inPos] && |bytes| == b.outPos - old(b.outPos) == old(compressed) - compressed
      ensures lzma.dict.history == old(lzma.dict.history) + bytes && b.output[old(b.outPos)..b.outPos] == bytes
      ensures b.output[..old(b.outPos)] == old(b.output[..b.outPos])
      ensures compressed == 0 || b.inPos == |b.input| || b.outPos == b.output.Length
    {
      hide Ring;
      compressed := lzma.dict.DictUncompressed(b, compressed);
      bytes := b.input[old(b.inPos)..b.inPos];
    }

    /** dict_limit, within a chunk. */
    method Limit(outMax: nat)
      requires Kept()
      modifies lzma.dict`limit
      ensures Valid() && lzma.dict.limit - lzma.dict.pos == Min(outMax, lzma.dict.end - lzma.dict.pos) && Setting() == old(Setting())
      ensures lzma.dict.Valid()
    {
      hide Ring, TellAll, SoundRun, RunSteps, lzma.rc.Idle;
      lzma.dict.DictLimit(outMax);
    }

    /** What stays the same within a chunk: its properties, and where its coder began. */
    ghost function Setting(): Context
      reads lzma, lzma.rc`log
    {
      Context(lzma.Set(), lzma.rc.log.origin)
    }

    /** The bytes of the chunk taken so far: those decoded, and those kept. */
    ghost function Taken(): seq<Byte>
      requires tempSize <= temp.Length
      reads this, temp, lzma, lzma.rc`log
    {
      lzma.rc.log.consumed + temp[..tempSize]
    }

    /** The size of the chunk, as far as it has begun. */
    ghost function Whole(): nat
      reads this, lzma, lzma.rc`log
    {
      compressed + |lzma.rc.log.consumed|
    }

    /** How far the temporary buffer may be decoded: to the end of the chunk, if that is there,
        and else as long as another symbol is sure to be. */
    ghost predicate LimitFor(tmp: nat)
      reads `compressed, `tempSize, lzma, lzma.rc`inLimit
    {
      && tempSize + tmp <= Min(compressed, 2 * LZMA_IN_REQUIRED)
      && lzma.rc.inLimit + (if tempSize + tmp == compressed then 0 else LZMA_IN_REQUIRED) == tempSize + tmp
    }

    /** An encoding that could be what is being decoded, as far as there is input. */
    ghost predicate Awaits(b: XzBuf, e: Encoding, bound: nat)
      requires tempSize <= temp.Length && b.Valid()
      reads this, temp, b, lzma, lzma.rc`log
    {
      Expects(e, bound) && |e.data| == Whole() && Comparable(Taken() + b.input[b.inPos..], e.data)
    }

    /** The first part of lzma2_lzma: more input for the temporary buffer, and how far it may be
        decoded. */
    method FillTemp(b: XzBuf) returns (tmp: nat, wait: bool)
      requires Valid() && b.Valid() && b.output != temp
      modifies `tempSize, temp, b`inPos, lzma.rc`inLimit, lzma.rc`input, lzma.rc`inPos
      ensures Valid() && b.Valid() && compressed == old(compressed)
      ensures tmp <= |b.input| - old(b.inPos) && old(tempSize) + tmp <= Min(compressed, 2 * LZMA_IN_REQUIRED)
      ensures temp[..old(tempSize) + tmp] == old(temp[..tempSize]) + b.input[old(b.inPos)..old(b.inPos) + tmp]
      ensures if wait then b.inPos == |b.input| == old(b.inPos) + tmp && tempSize == old(tempSize) + tmp < compressed
              else
                && b.inPos == old(b.inPos) && tempSize == old(tempSize) && lzma.rc.input == temp[..] && lzma.rc.inPos == 0
                && LimitFor(tmp)
      ensures lzma.rc.log == old(lzma.rc.log)
    {
      hide Story;
      var inAvail := |b.input| - b.inPos;
      tmp := Min(Min(2 * LZMA_IN_REQUIRED - tempSize, compressed - tempSize), inAvail);
      Memcpy(temp, tempSize, b.input[b.inPos..b.inPos + tmp]);
      wait := false;
      if tempSize + tmp == compressed {
        MemZero(temp, tempSize + tmp);
        lzma.rc.inLimit := tempSize + tmp;
      } else if tempSize + tmp < LZMA_IN_REQUIRED {
        tempSize := tempSize + tmp;
        b.inPos := b.inPos + tmp;
        return tmp, true;
      } else {
        lzma.rc.inLimit := tempSize + tmp - LZMA_IN_REQUIRED;
      }
      lzma.rc.input := temp[..];
      lzma.rc.inPos := 0;
    }

    /** The memmove of what is left in the temporary buffer. */
    method DropTemp(n: nat)
      requires n <= tempSize <= temp.Length
      modifies `tempSize, temp
      ensures tempSize == old(tempSize) - n && temp[..tempSize] == old(temp[n..tempSize])
    {
      tempSize := tempSize - n;
      Memcpy(temp, 0, temp[n..n + tempSize]);
    }

    /** What has been read of an encoding lies within its data. */
    lemma WithinData(bound: nat)
      requires Story() && Bounded(bound)
      ensures forall e {:trigger Expects(e, bound)} | Expects(e, bound) && Comparable(lzma.rc.log.consumed, e.data) ::
        |lzma.rc.log.consumed| <= |e.data|
    {
      hide SoundRun, TellAll, RunSteps, NearRun, Encodes, Begun, lzma.Valid;
      var x := lzma.rc.log.consumed;
      forall e | Expects(e, bound) && Comparable(x, e.data) ensures |x| <= |e.data| {
        HeldIs();
        NoOverrun(e, lzma.dict.size, bound, symbols, x);
      }
    }

    /** The replay of the record, normalised, is the coder in memory. */
    lemma HeldIs()
      requires Story()
      ensures var r := Replay(MoreInput(lzma.rc.log.origin, lzma.rc.log.consumed), RunSteps(lzma.Set(), before, symbols));
        r.Some? && Ready(r.value.coder) && Normal(r.value.coder) == Coder(lzma.rc.range, lzma.rc.code, [])
    {
      hide SoundRun, TellAll, RunSteps, NearRun, lzma.Valid, Replay;
      NoRead(lzma.rc.log, lzma.rc.Now(lzma.probs[..]));
    }

    /** lzma_main has decoded from here to there. */
    ghost predicate Advanced(consumed: seq<Byte>, from: nat, pos: nat, history: seq<Byte>, told: seq<Symbol>, p: Context, bound: nat)
      reads this, lzma, lzma.dict, lzma.dict.buf, lzma.rc`range, lzma.rc`code, lzma.rc`log, lzma.rc`input, lzma.rc`inPos, lzma.probs
    {
      && Story() && told <= symbols && Bounded(bound) && Setting() == p && Grown(pos, history)
      && from <= lzma.rc.inPos <= |lzma.rc.input| && lzma.rc.log.consumed == consumed + lzma.rc.input[from..lzma.rc.inPos]
    }

    /** Decoding from the temporary buffer, up to where the chunk's bytes end. */
    method DecodeKept(b: XzBuf, tmp: nat, ghost bound: nat) returns (ok: bool)
      requires Valid() && b.Valid() && tmp <= |b.input| - b.inPos && LimitFor(tmp) && Bounded(bound)
      requires temp[tempSize..tempSize + tmp] == b.input[b.inPos..b.inPos + tmp]
      requires lzma.rc.input == temp[..] && lzma.rc.inPos == 0
      modifies `symbols, lzma.rc`range, lzma.rc`code, lzma.rc`inPos, lzma.rc`meter, lzma.rc`log, lzma.probs
      modifies lzma`rep0, lzma`rep1, lzma`rep2, lzma`rep3, lzma`state, lzma`len
      modifies lzma.dict`pos, lzma.dict`full, lzma.dict`history, lzma.dict.buf
      ensures ok ==> lzma.rc.inPos <= tempSize + tmp
      ensures ok ==> Advanced(old(lzma.rc.log.consumed), 0, old(lzma.dict.pos), old(lzma.dict.history), old(symbols), old(Setting()), bound)
      ensures !ok ==> forall e {:trigger old(Awaits(b, e, bound))} :: !old(Awaits(b, e, bound))
    {
      hide Story, Bounded, Encodes, Comparable;
      ghost var consumed := lzma.rc.log.consumed;
      ok := DecodeMain(bound);
      if ok { WithinData(bound); }
      if !ok || lzma.rc.inPos > tempSize + tmp {
        forall e | old(Awaits(b, e, bound)) ensures false {
          assert Expects(e, bound);
          TempComparable(consumed, temp[..], tempSize, tmp, lzma.rc.inPos, b.input, b.inPos, e.data);
        }
        ok := false;
      }
    }

    /** The second part of lzma2_lzma: decoding from the temporary buffer.  It is done when
        something is left there. */
    method DecodeTemp(b: XzBuf, tmp: nat, ghost bound: nat) returns (ok: bool, done: bool)
      requires Valid() && b.Valid() && b.output != temp && tmp <= |b.input| - b.inPos && LimitFor(tmp) && Bounded(bound)
      requires temp[tempSize..tempSize + tmp] == b.input[b.inPos..b.inPos + tmp]
      requires lzma.rc.input == temp[..] && lzma.rc.inPos == 0
      modifies `symbols, `compressed, `tempSize, temp, b`inPos, lzma.rc`range, lzma.rc`code, lzma.rc`inPos, lzma.rc`meter, lzma.rc`log, lzma.probs
      modifies lzma`rep0, lzma`rep1, lzma`rep2, lzma`rep3, lzma`state, lzma`len
      modifies lzma.dict`pos, lzma.dict`full, lzma.dict`history, lzma.dict.buf
      ensures ok ==> Fed(b, old(Taken()), old(Whole()), old(b.inPos), old(symbols), old(Setting()))
      ensures ok ==> Grown(old(lzma.dict.pos), old(lzma.dict.history))
      ensures ok && !done ==> tempSize == 0
      ensures ok ==> Bounded(bound)
      ensures !ok ==> forall e {:trigger old(Awaits(b, e, bound))} :: !old(Awaits(b, e, bound))
    {
      hide Story, Bounded, Awaits, Advanced, Fed, Grown;
      ghost var consumed, p, h, s, c := lzma.rc.log.consumed, lzma.dict.pos, lzma.dict.history, symbols, Setting();
      ok := DecodeKept(b, tmp, bound);
      done := true;
      if ok {
        done := TakeKept(b, tmp, consumed, p, h, s, c, bound);
      }
    }

    /** What has been decoded from the temporary buffer leaves it, and what was not kept there
        before is taken from the caller. */
    method TakeKept(b: XzBuf, tmp: nat, ghost consumed: seq<Byte>, ghost p: nat, ghost h: seq<Byte>, ghost s: seq<Symbol>, ghost c: Context, ghost bound: nat)
      returns (done: bool)
      requires b.Valid() && b.output != temp && tmp <= |b.input| - b.inPos && temp.Length == TEMP_SIZE && temp != lzma.dict.buf
      requires tempSize < LZMA_IN_REQUIRED && tempSize + tmp <= Min(compressed, 2 * LZMA_IN_REQUIRED)
      requires temp[tempSize..tempSize + tmp] == b.input[b.inPos..b.inPos + tmp]
      requires Advanced(consumed, 0, p, h, s, c, bound) && lzma.rc.input == temp[..] && lzma.rc.inPos <= tempSize + tmp
      modifies `compressed, `tempSize, temp, b`inPos
      ensures Fed(b, consumed + old(temp[..tempSize]), old(compressed) + |consumed|, old(b.inPos), s, c)
      ensures Grown(p, h) && Bounded(bound) && (!done ==> tempSize == 0)
    {
      hide Story, Bounded;
      ghost var kept, read, pos := temp[..], tempSize, b.inPos;
      compressed := compressed - lzma.rc.inPos;
      if lzma.rc.inPos < tempSize {
        DropTemp(lzma.rc.inPos);
        KeptRest(consumed, kept, lzma.rc.inPos, read);
        assert b.input[pos..pos] == [];
        return true;
      }
      b.inPos := b.inPos + lzma.rc.inPos - tempSize;
      tempSize := 0;
      done := false;
      KeptNone(consumed, kept, read, lzma.rc.inPos, tmp, b.input, pos);
      assert temp[..tempSize] == [];
    }

    /** What every part of lzma2_lzma keeps: each byte taken from the caller is decoded or
        kept, in order, and what is decoded goes off the chunk. */
    ghost predicate Fed(b: XzBuf, taken: seq<Byte>, whole: nat, pos: nat, told: seq<Symbol>, p: Context)
      reads this, temp, b, lzma, lzma.dict, lzma.dict.buf, lzma.rc`range, lzma.rc`code, lzma.rc`log, lzma.probs
    {
      && Valid() && b.Valid() && pos <= b.inPos && Taken() == taken + b.input[pos..b.inPos] && Whole() == whole
      && told <= symbols && Setting() == p
    }

    /** lzma_main has been at work: unless there was no room, there is more in the dictionary. */
    ghost predicate Grown(pos: nat, history: seq<Byte>)
      reads lzma`len, lzma.dict`pos, lzma.dict`limit, lzma.dict`history
    {
      && pos <= lzma.dict.pos <= lzma.dict.limit && |lzma.dict.history| - |history| == lzma.dict.pos - pos && history <= lzma.dict.history
      && (pos < lzma.dict.limit ==> pos < lzma.dict.pos)
      && (lzma.dict.pos == lzma.dict.limit || lzma.len == 0)
    }

    /** Decoding from the caller's buffer, up to where the chunk's bytes end. */
    method DecodeDirect(b: XzBuf, ghost bound: nat) returns (ok: bool)
      requires Valid() && b.Valid() && tempSize == 0 && |b.input| - b.inPos >= LZMA_IN_REQUIRED && Bounded(bound)
      modifies `symbols, lzma.rc`input, lzma.rc`inLimit
      modifies lzma.rc`range, lzma.rc`code, lzma.rc`inPos, lzma.rc`meter, lzma.rc`log, lzma.probs
      modifies lzma`rep0, lzma`rep1, lzma`rep2, lzma`rep3, lzma`state, lzma`len
      modifies lzma.dict`pos, lzma.dict`full, lzma.dict`history, lzma.dict.buf
      ensures ok ==> lzma.rc.input == b.input && lzma.rc.inPos <= b.inPos + compressed
      ensures ok ==> Advanced(old(lzma.rc.log.consumed), b.inPos, old(lzma.dict.pos), old(lzma.dict.history), old(symbols), old(Setting()), bound)
      ensures !ok ==> forall e {:trigger old(Awaits(b, e, bound))} :: !old(Awaits(b, e, bound))
    {
      hide Story, Bounded, Encodes, Comparable;
      var inAvail := |b.input| - b.inPos;
      lzma.rc.input := b.input;
      lzma.rc.inPos := b.inPos;
      if inAvail >= compressed + LZMA_IN_REQUIRED {
        lzma.rc.inLimit := b.inPos + compressed;
      } else {
        lzma.rc.inLimit := |b.input| - LZMA_IN_REQUIRED;
      }
      ghost var consumed := lzma.rc.log.consumed;
      ok := DecodeMain(bound);
      if ok { WithinData(bound); }
      if !ok || lzma.rc.inPos - b.inPos > compressed {
        forall e | old(Awaits(b, e, bound)) ensures false {
          assert Expects(e, bound);
          InputComparable(consumed, temp[..tempSize], b.input, b.inPos, lzma.rc.inPos, e.data);
        }
        ok := false;
      }
    }

    /** The third part of lzma2_lzma: decoding from the caller's buffer, while that is more than
        a symbol's worth. */
    method DecodeInput(b: XzBuf, ghost bound: nat) returns (ok: bool)
      requires Valid() && b.Valid() && b.output != temp && tempSize == 0 && |b.input| - b.inPos >= LZMA_IN_REQUIRED && Bounded(bound)
      modifies `symbols, `compressed, b`inPos, lzma.rc`input, lzma.rc`inLimit
      modifies lzma.rc`range, lzma.rc`code, lzma.rc`inPos, lzma.rc`meter, lzma.rc`log, lzma.probs
      modifies lzma`rep0, lzma`rep1, lzma`rep2, lzma`rep3, lzma`state, lzma`len
      modifies lzma.dict`pos, lzma.dict`full, lzma.dict`history, lzma.dict.buf
      ensures ok ==> Fed(b, old(Taken()), old(Whole()), old(b.inPos), old(symbols), old(Setting())) && tempSize == 0
      ensures ok ==> Grown(old(lzma.dict.pos), old(lzma.dict.history)) && Bounded(bound)
      ensures !ok ==> forall e {:trigger old(Awaits(b, e, bound))} :: !old(Awaits(b, e, bound))
    {
      hide Story, Bounded, Awaits;
      ok := DecodeDirect(b, bound);
      if !ok {
        return;
      }
      compressed := compressed - (lzma.rc.inPos - b.inPos);
      b.inPos := lzma.rc.inPos;
      assert temp[..tempSize] == [];
    }

    /** The memcpy of the last part of lzma2_lzma. */
    method Keep(b: XzBuf, n: nat)
      requires Valid() && b.Valid() && b.output != temp && tempSize == 0
      requires n <= |b.input| - b.inPos && n < LZMA_IN_REQUIRED && n <= compressed
      modifies `tempSize, temp, b`inPos
      ensures Fed(b, old(Taken()), old(Whole()), old(b.inPos), old(symbols), old(Setting()))
      ensures b.inPos == old(b.inPos) + n && tempSize == n
    {
      hide Story;
      ghost var consumed, bytes := lzma.rc.log.consumed, b.input[b.inPos..b.inPos + n];
      assert Taken() == consumed by { assert temp[..0] == [] && consumed + [] == consumed; }
      Memcpy(temp, 0, b.input[b.inPos..b.inPos + n]);
      assert temp[..n] == bytes;
      tempSize := n;
      b.inPos := b.inPos + n;
      assert Taken() == consumed + bytes;
    }

    lemma FedNothing(b: XzBuf)
      requires Valid() && b.Valid()
      ensures Fed(b, Taken(), Whole(), b.inPos, symbols, Setting())
    {
      hide Story;
      assert b.input[b.inPos..b.inPos] == [];
    }

    /** The last part of lzma2_lzma: less than a symbol's worth of input is kept for later. */
    method KeepRest(b: XzBuf)
      requires Valid() && b.Valid() && b.output != temp && tempSize == 0
      modifies `tempSize, temp, b`inPos
      ensures Fed(b, old(Taken()), old(Whole()), old(b.inPos), old(symbols), old(Setting()))
      ensures compressed > 0 ==> old(b.inPos) < b.inPos || |b.input| - old(b.inPos) >= LZMA_IN_REQUIRED || (b.inPos == |b.input| && tempSize < compressed)
    {
      hide Story, Fed;
      var inAvail := |b.input| - b.inPos;
      if inAvail < LZMA_IN_REQUIRED {
        Keep(b, Min(inAvail, compressed));
      } else {
        FedNothing(b);
      }
    }

    lemma FedFacts(b: XzBuf, taken: seq<Byte>, whole: nat, pos: nat, told: seq<Symbol>, p: Context)
      requires Fed(b, taken, whole, pos, told, p)
      ensures Valid() && b.Valid() && pos <= b.inPos && Taken() == taken + b.input[pos..b.inPos] && Whole() == whole
      ensures told <= symbols && Setting() == p
    {
    }

    /** One part of lzma2_lzma after another. */
    lemma FedOn(b: XzBuf, t0: seq<Byte>, t1: seq<Byte>, whole: nat, p0: nat, p1: nat, s0: seq<Symbol>, s1: seq<Symbol>, p: Context)
      requires p0 <= p1 <= |b.input| && t1 == t0 + b.input[p0..p1] && s0 <= s1 && Fed(b, t1, whole, p1, s1, p)
      ensures Fed(b, t0, whole, p0, s0, p)
    {
      hide Story;
      TakeMore(b.input, p0, p1, b.inPos);
      Regroup(t0, b.input[p0..p1], b.input[p1..b.inPos]);
    }

    /** What is awaited stays so while bytes are taken from the caller. */
    lemma AwaitsOn(b: XzBuf, e: Encoding, bound: nat, taken: seq<Byte>, whole: nat, pos: nat, told: seq<Symbol>, p: Context)
      requires Fed(b, taken, whole, pos, told, p)
      requires e.origin == p.origin && e.props == p.props && e.before == before && Encodes(e, lzma.dict.size, bound)
      requires |e.data| == whole && Comparable(taken + b.input[pos..], e.data)
      ensures Awaits(b, e, bound)
    {
      hide Story, Encodes, Comparable;
      assert Taken() + b.input[b.inPos..] == taken + b.input[pos..] by {
        assert b.input[pos..b.inPos] + b.input[b.inPos..] == b.input[pos..];
        Regroup(taken, b.input[pos..b.inPos], b.input[b.inPos..]);
      }
    }

    /** The first half of lzma2_lzma: the temporary buffer, if it is in use. */
    method UseTemp(b: XzBuf, ghost bound: nat) returns (ok: bool, done: bool, ghost ran: bool)
      requires Valid() && b.Valid() && b.output != temp && Bounded(bound)
      modifies `symbols, `compressed, `tempSize, temp, b`inPos, lzma.rc`input, lzma.rc`inLimit
      modifies lzma.rc`range, lzma.rc`code, lzma.rc`inPos, lzma.rc`meter, lzma.rc`log, lzma.probs
      modifies lzma`rep0, lzma`rep1, lzma`rep2, lzma`rep3, lzma`state, lzma`len
      modifies lzma.dict`pos, lzma.dict`full, lzma.dict`history, lzma.dict.buf
      ensures ok ==> Fed(b, old(Taken()), old(Whole()), old(b.inPos), old(symbols), old(Setting()))
      ensures ok && ran ==> Grown(old(lzma.dict.pos), old(lzma.dict.history))
      ensures ok && !ran ==> lzma.dict.pos == old(lzma.dict.pos) && lzma.dict.history == old(lzma.dict.history) && lzma.len == old(lzma.len)
      ensures ok && !ran ==> if done then b.inPos == |b.input| && tempSize < compressed else compressed > 0
      ensures ok && !done ==> tempSize == 0
      ensures ok ==> Bounded(bound)
      ensures !ok ==> forall e {:trigger old(Awaits(b, e, bound))} :: !old(Awaits(b, e, bound))
    {
      hide Story, Grown, Expects, Comparable, Begun;
      ok, done, ran := true, false, false;
      if tempSize > 0 || compressed == 0 {
        ghost var read := tempSize;
        var tmp, wait := FillTemp(b);
        if wait {
          assert b.input[old(b.inPos)..b.inPos] == temp[read..tempSize];
          Regroup(lzma.rc.log.consumed, old(temp[..tempSize]), b.input[old(b.inPos)..b.inPos]);
          return true, true, false;
        }
        assert temp[tempSize..tempSize + tmp] == b.input[b.inPos..b.inPos + tmp];
        assert temp[..tempSize] == old(temp[..tempSize]);
        forall e | old(Awaits(b, e, bound)) ensures Awaits(b, e, bound) {
        }
        ok, done := DecodeTemp(b, tmp, bound);
        ran := true;
      } else {
        assert b.input[b.inPos..b.inPos] == [];
      }
    }

    /** The second half of lzma2_lzma: the caller's buffer. */
    method UseInput(b: XzBuf, ghost bound: nat) returns (ok: bool)
      requires Valid() && b.Valid() && b.output != temp && tempSize == 0 && Bounded(bound)
      modifies `symbols, `compressed, `tempSize, temp, b`inPos, lzma.rc`input, lzma.rc`inLimit
      modifies lzma.rc`range, lzma.rc`code, lzma.rc`inPos, lzma.rc`meter, lzma.rc`log, lzma.probs
      modifies lzma`rep0, lzma`rep1, lzma`rep2, lzma`rep3, lzma`state, lzma`len
      modifies lzma.dict`pos, lzma.dict`full, lzma.dict`history, lzma.dict.buf
      ensures ok ==> Fed(b, old(Taken()), old(Whole()), old(b.inPos), old(symbols), old(Setting()))
      ensures ok ==> old(lzma.dict.pos) <= lzma.dict.pos && |lzma.dict.history| - |old(lzma.dict.history)| == lzma.dict.pos - old(lzma.dict.pos) && old(lzma.dict.history) <= lzma.dict.history
      ensures ok && old(compressed) > 0 && old(lzma.dict.pos) < lzma.dict.limit ==>
        old(lzma.dict.pos) < lzma.dict.pos || old(b.inPos) < b.inPos || (b.inPos == |b.input| && tempSize < compressed)
      ensures ok ==> Bounded(bound)
      ensures !ok ==> forall e {:trigger old(Awaits(b, e, bound))} :: !old(Awaits(b, e, bound))
    {
      hide Story, Fed, Taken, Whole, Awaits, Begun;
      ghost var t0, w0, p0, s0, props := Taken(), Whole(), b.inPos, symbols, Setting();
      if |b.input| - b.inPos < LZMA_IN_REQUIRED {
        ok := true;
        KeepRest(b);
        return;
      }
      ok := DecodeInput(b, bound);
      if !ok {
        return;
      }
      FedFacts(b, t0, w0, p0, s0, props);
      ghost var t1, p1, s1 := Taken(), b.inPos, symbols;
      KeepRest(b);
      FedOn(b, t0, t1, w0, p0, p1, s0, s1, props);
    }

    /** lzma2_lzma never reads past the end of either buffer.  Of the chunk it takes input in
        order, and decodes or keeps all that it takes; and it gets on, or has used up the input
        and keeps less than the chunk has left. */
    method Lzma2Lzma(b: XzBuf, ghost bound: nat) returns (ok: bool)
      requires Valid() && b.Valid() && b.output != temp && Bounded(bound)
      modifies `symbols, `compressed, `tempSize, temp, b`inPos, lzma.rc`input, lzma.rc`inLimit
      modifies lzma.rc`range, lzma.rc`code, lzma.rc`inPos, lzma.rc`meter, lzma.rc`log, lzma.probs
      modifies lzma`rep0, lzma`rep1, lzma`rep2, lzma`rep3, lzma`state, lzma`len
      modifies lzma.dict`pos, lzma.dict`full, lzma.dict`history, lzma.dict.buf
      ensures ok ==> Fed(b, old(Taken()), old(Whole()), old(b.inPos), old(symbols), old(Setting()))
      ensures ok ==> old(lzma.dict.pos) <= lzma.dict.pos && |lzma.dict.history| - |old(lzma.dict.history)| == lzma.dict.pos - old(lzma.dict.pos) && old(lzma.dict.history) <= lzma.dict.history
      ensures ok && old(lzma.dict.pos) < lzma.dict.limit ==>
        old(lzma.dict.pos) < lzma.dict.pos || old(b.inPos) < b.inPos || (b.inPos == |b.input| && tempSize < compressed)
      ensures ok ==> Bounded(bound)
      ensures !ok ==> forall e {:trigger old(Awaits(b, e, bound))} :: !old(Awaits(b, e, bound))
    {
      hide Story, Fed, Taken, Whole, Bounded, Encodes, Comparable;
      var done;
      ghost var ran;
      ghost var t0, w0, p0, s0, props := Taken(), Whole(), b.inPos, symbols, Setting();
      ok, done, ran := UseTemp(b, bound);
      if !ok || done {
        return;
      }
      FedFacts(b, t0, w0, p0, s0, props);
      ghost var t1, p1, s1 := Taken(), b.inPos, symbols;
      forall e | old(Awaits(b, e, bound)) ensures Awaits(b, e, bound) {
        AwaitsOn(b, e, bound, t0, w0, p0, s0, props);
      }
      ok := UseInput(b, bound);
      if ok {
        FedFacts(b, t1, w0, p1, s1, props);
        FedOn(b, t0, t1, w0, p0, p1, s0, s1, props);
      }
    }

    /** dict_limit and lzma2_lzma, as in SEQ_LZMA_RUN. */
    method LimitAndDecode(b: XzBuf, outMax: nat, ghost bound: nat) returns (ok: bool)
      requires Kept() && lzma.dict.start == lzma.dict.pos < lzma.dict.end && b.Valid() && b.output != temp
      requires Begun(before, symbols, bound) && |lzma.dict.history| + outMax <= bound
      modifies `symbols, `compressed, `tempSize, temp, b`inPos, lzma.rc`input, lzma.rc`inLimit, lzma.dict`limit
      modifies lzma.rc`range, lzma.rc`code, lzma.rc`inPos, lzma.rc`meter, lzma.rc`log, lzma.probs
      modifies lzma`rep0, lzma`rep1, lzma`rep2, lzma`rep3, lzma`state, lzma`len
      modifies lzma.dict`pos, lzma.dict`full, lzma.dict`history, lzma.dict.buf
      ensures ok ==> Fed(b, old(Taken()), old(Whole()), old(b.inPos), old(symbols), old(Setting())) && Begun(before, symbols, bound)
      ensures ok ==> lzma.dict.start <= lzma.dict.pos <= lzma.dict.start + outMax
      ensures ok ==> |lzma.dict.history| - |old(lzma.dict.history)| == lzma.dict.pos - lzma.dict.start && old(lzma.dict.history) <= lzma.dict.history
      ensures ok && outMax > 0 ==>
        lzma.dict.start < lzma.dict.pos || old(b.inPos) < b.inPos || (b.inPos == |b.input| && tempSize < compressed)
      ensures !ok ==> forall e {:trigger old(Awaits(b, e, bound))} :: !old(Awaits(b, e, bound))
    {
      hide Story, Begun, Encodes, Comparable;
      Limit(outMax);
      forall e | old(Awaits(b, e, bound)) ensures Awaits(b, e, bound) {
      }
      ok := Lzma2Lzma(b, bound);
    }
  }

  /** memzero of the rest of a buffer */
  method MemZero(dst: array<Byte>, from: nat)
    requires from <= dst.Length
    modifies dst
    ensures dst[..from] == old(dst[..from]) && forall i | from <= i < dst.Length :: dst[i] == 0
  {
    forall i | from <= i < dst.Length {
      dst[i] := 0;
    }
  }
}
