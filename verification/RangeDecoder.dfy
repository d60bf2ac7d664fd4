/** The range decoder of xz_dec_lzma2.c, in place. */
module RangeDecoder {
  import opened Words
  import opened RangeCoder
  import opened RangeTrace
  import opened ByteBudget

  const RC_INIT_BYTES: nat := 5

  /** A point in the decoding of a chunk. */
  datatype Point = Point(log: Log, pos: nat, meter: Meter)

  /** From one point to a later one the bytes between were consumed for these decisions, and
      the symbol has cost this much more at most. */
  ghost predicate Went(input: seq<Byte>, a: Point, b: Point, steps: seq<Step>, bits: nat, direct: nat) {
    && a.pos <= b.pos <= |input| && b.log == Log(a.log.origin, a.log.consumed + input[a.pos..b.pos], a.log.trace + steps)
    && b.meter == a.meter.(bytes := b.meter.bytes, bits := b.meter.bits, direct := b.meter.direct)
    && b.meter.bits <= a.meter.bits + bits && b.meter.direct <= a.meter.direct + direct
  }

  lemma WentOn(input: seq<Byte>, a: Point, b: Point, c: Point, s1: seq<Step>, s2: seq<Step>, b1: nat, d1: nat, b2: nat, d2: nat)
    requires Went(input, a, b, s1, b1, d1) && Went(input, b, c, s2, b2, d2)
    ensures Went(input, a, c, s1 + s2, b1 + b2, d1 + d2)
  {
    assert input[a.pos..c.pos] == input[a.pos..b.pos] + input[b.pos..c.pos];
    assert a.log.consumed + input[a.pos..c.pos] == (a.log.consumed + input[a.pos..b.pos]) + input[b.pos..c.pos];
    assert a.log.trace + (s1 + s2) == (a.log.trace + s1) + s2;
  }

  /** A decision with a normalised range: the lower part of it, p 2048ths of what 2048 leaves
      whole, is for a 0; the probability of a 0 then moves a 32nd of the way to its end. */
  predicate Parted(range: nat, code: nat, p: nat, bit: bool, newRange: nat, newCode: nat, newP: nat) {
    var bound := range / 2048 * p;
    && (bit <==> code >= bound)
    && (if bit then newRange == range - bound && newCode == code - bound else newRange == bound && newCode == code)
    && (if bit then 32 * (p - newP) <= p < 32 * (p - newP) + 32 else 32 * (newP - p) <= 2048 - p < 32 * (newP - p) + 32)
  }

  lemma SplitIs(range: nat, p: Prob)
    requires RC_TOP_VALUE <= range < UINT32
    ensures Bound(range, p) == range / 2048 * p
    ensures 31 <= p - p / 32 <= 2017 && 31 <= p + (2048 - p) / 32 <= 2017
    ensures Adapted(p, true) == p - p / 32 && Adapted(p, false) == p + (2048 - p) / 32
  {
  }

  class RcDec {
    var range: nat
    var code: nat
    var initBytesLeft: nat
    /** rc.in: the temporary buffer or the caller's. */
    var input: seq<Byte>
    var inPos: nat
    var inLimit: nat
    /** What the present chunk has made of its bytes, and what the present symbol has cost. */
    ghost var log: Log
    ghost var meter: Meter

    /** rc_reset, on a new decoder. */
    constructor ()
      ensures initBytesLeft == RC_INIT_BYTES && range == UINT32 - 1 && code == 0
    {
      range, code, initBytesLeft := UINT32 - 1, 0, RC_INIT_BYTES;
      input, inPos, inLimit := [], 0, 0;
      log := Log(Machine(Coder(UINT32 - 1, 0, []), []), [], []);
      meter := Meter(UINT32 - 1, 0, 0, 0, 0);
    }

    /** rc_reset */
    method RcReset()
      modifies `range, `code, `initBytesLeft
      ensures range == UINT32 - 1 && code == 0 && initBytesLeft == RC_INIT_BYTES
    {
      range := UINT32 - 1;
      code := 0;
      initBytesLeft := RC_INIT_BYTES;
    }

    ghost function Now(probs: seq<Prob>): Machine
      reads `range, `code
    {
      Machine(Coder(range, code, []), probs)
    }

    ghost function Here(): Point
      reads this
    {
      Point(log, inPos, meter)
    }

    /** In the middle of a symbol: there is input for all that the symbol may still read, and
        the decisions so far are those that the consumed bytes stand for. */
    ghost predicate Running(probs: seq<Prob>)
      reads this
    {
      && Sound(Coder(range, code, []))
      && Metered(range, meter) && meter.base + meter.bytes == inPos && meter.base + LZMA_IN_REQUIRED <= |input|
      && Allowed(meter.bits, meter.direct) && meter.bytes <= LZMA_IN_REQUIRED && inPos <= |input|
      && Faithful(log, Now(probs))
    }

    /** Between symbols: the decisions so far are those of the consumed bytes. */
    ghost predicate Idle(probs: seq<Prob>)
      reads `range, `code, `log
    {
      Sound(Coder(range, code, [])) && Faithful(log, Now(probs))
    }

    /** A new symbol has its whole allowance before it. */
    ghost method StartSymbol(probs: seq<Prob>)
      requires Idle(probs) && inPos + LZMA_IN_REQUIRED <= |input|
      modifies `meter
      ensures Running(probs) && meter == Meter(range, inPos, 0, 0, 0)
    {
      meter := Meter(range, inPos, 0, 0, 0);
      MeterStart(range, inPos);
    }

    lemma RunningIdle(probs: seq<Prob>)
      requires Running(probs)
      ensures Idle(probs) && inPos <= meter.base + LZMA_IN_REQUIRED && inPos <= |input|
    {
    }

    /** A shift, and the byte that comes in. */
    method Shift(ghost probs: seq<Prob>)
      requires Sound(Coder(range, code, [])) && range < RC_TOP_VALUE && inPos < |input| && Faithful(log, Now(probs))
      modifies `range, `code, `inPos, `log
      ensures Sound(Coder(range, code, [])) && range == 256 * old(range) && RC_TOP_VALUE <= range
      ensures code == (256 * old(code) + input[old(inPos)]) % UINT32
      ensures inPos == old(inPos) + 1 && Settled(log, Now(probs))
      ensures log == old(log).(consumed := old(log).consumed + [input[old(inPos)]])
    {
      ReadByte(log, Now(probs), input[inPos]);
      ghost var next := Normal(Coder(range, code, [input[inPos]]));
      log := log.(consumed := log.consumed + [input[inPos]]);
      range := range * 256;
      code := (code * 256 + input[inPos]) % UINT32;
      inPos := inPos + 1;
      assert Coder(range, code, []) == next;
    }

    /** rc_normalize */
    method Normalize(ghost probs: seq<Prob>)
      requires Running(probs)
      modifies `range, `code, `inPos, `meter, `log
      ensures Running(probs) && Settled(log, Now(probs)) && RC_TOP_VALUE <= range
      ensures Went(input, old(Here()), Here(), [], 0, 0)
      ensures inPos == old(inPos) + (if old(range) < 0x100_0000 then 1 else 0)
      ensures if old(range) < 0x100_0000 then range == 256 * old(range) && code == (256 * old(code) + input[old(inPos)]) % 0x1_0000_0000
        else range == old(range) && code == old(code)
    {
      hide Replay, Metered, MoreInput;
      WentNowhere(input, Here());
      if range < RC_TOP_VALUE {
        BytesBounded(range, meter);
        MeterByte(range, meter);
        assert input[inPos..inPos + 1] == [input[inPos]];
        Shift(probs);
        meter := meter.(bytes := meter.bytes + 1);
      } else {
        NoRead(log, Now(probs));
      }
    }

    /** Taking down a decision that has been made. */
    ghost method Note(input: seq<Byte>, before: Machine, from: Point, probs: seq<Prob>, s: Step)
      requires Settled(log, before) && StepOn(before, s) == Some(Now(probs)) && input == this.input
      requires Went(input, from, Here(), [], 0, 0)
      requires Metered(range, meter.(bits := meter.bits + if s.Bit? then 1 else 0, direct := meter.direct + if s.Bit? then 0 else 1))
      requires meter.base + meter.bytes == inPos && meter.bytes <= LZMA_IN_REQUIRED && meter.base + LZMA_IN_REQUIRED <= |input|
      requires if s.Bit? then Allowed(meter.bits + 1, meter.direct) else Allowed(meter.bits, meter.direct + 1)
      modifies `meter, `log
      ensures Running(probs)
      ensures Went(input, from, Here(), [s], if s.Bit? then 1 else 0, if s.Bit? then 0 else 1)
    {
      hide Replay, Metered, MoreInput;
      Decide(log, before, s);
      meter := meter.(bits := meter.bits + if s.Bit? then 1 else 0, direct := meter.direct + if s.Bit? then 0 else 1);
      log := log.(trace := log.trace + [s]);
      assert from.log.trace + [] == from.log.trace;
    }

    /** The split of a normalised range: the lower part stands for a 0. */
    method Split(probs: array<Prob>, index: nat, ghost before: Machine) returns (bit: bool)
      requires Sound(Coder(range, code, [])) && RC_TOP_VALUE <= range && index < probs.Length && before == Now(probs[..])
      requires Metered(range, meter) && Allowed(meter.bits + 1, meter.direct)
      modifies `range, `code, probs
      ensures StepOn(before, Bit(index, bit)) == Some(Now(probs[..]))
      ensures Metered(range, meter.(bits := meter.bits + 1)) && Sound(Coder(range, code, []))
      ensures Parted(old(range), old(code), old(probs[index]), bit, range, code, probs[index])
      ensures probs[..] == old(probs[..])[index := probs[index]]
    {
      hide Replay, Metered, MoreInput, Bound, Faithful, Adapted;
      var p := probs[index];
      var bound := range / RC_BIT_MODEL_TOTAL * p;
      SplitIs(range, p);
      MeterBit(range, if code < bound then bound else range - bound, meter);
      AdaptedIs(p, code >= bound);
      if code < bound {
        range := bound;
        probs[index] := p + (RC_BIT_MODEL_TOTAL - p) / 32;
        bit := false;
      } else {
        range := range - bound;
        code := code - bound;
        probs[index] := p - p / 32;
        bit := true;
      }
    }

    /** rc_bit: the decision is the one its probability and the code make, and both the coder
        and the probability move on. */
    method RcBit(probs: array<Prob>, index: nat) returns (bit: bool)
      requires Running(probs[..]) && Allowed(meter.bits + 1, meter.direct) && index < probs.Length
      modifies `range, `code, `inPos, `meter, `log, probs
      ensures Running(probs[..]) && Went(input, old(Here()), Here(), [Bit(index, bit)], 1, 0)
      ensures inPos == old(inPos) + (if old(range) < 0x100_0000 then 1 else 0)
      ensures if old(range) < 0x100_0000
        then Parted(256 * old(range), (256 * old(code) + input[old(inPos)]) % 0x1_0000_0000, old(probs[index]), bit, range, code, probs[index])
        else Parted(old(range), old(code), old(probs[index]), bit, range, code, probs[index])
      ensures probs[..] == old(probs[..])[index := probs[index]]
    {
      hide Replay, Metered, MoreInput, StepOn, Faithful, Parted;
      ghost var from := Here();
      Normalize(probs[..]);
      ghost var before := Now(probs[..]);
      bit := Split(probs, index, before);
      Note(input, before, from, probs[..], Bit(index, bit));
    }

    /** rc_bittree: the path of the number that is returned, the highest bit first. */
    method RcBittree(probs: array<Prob>, base: nat, limit: nat, ghost n: nat) returns (symbol: nat)
      requires Running(probs[..]) && n > 0 && Allowed(meter.bits + n, meter.direct) && limit == Pow2(n) && base + limit <= probs.Length
      modifies `range, `code, `inPos, `meter, `log, probs
      ensures Running(probs[..]) && limit <= symbol < 2 * limit
      ensures Went(input, old(Here()), Here(), PathSteps(base, BitsOf(n, symbol - limit)), n, 0)
    {
      hide Replay, Node, PathSteps, BitsOf, Pow2, Metered;
      symbol := 1;
      ghost var path: seq<bool> := [];
      PathBegins(base, n);
      WentNowhere(input, Here());
      while symbol < limit
        invariant Running(probs[..]) && |path| <= n && symbol == Node(path) && symbol < 2 * limit
        invariant symbol < limit <==> |path| < n
        invariant Went(input, old(Here()), Here(), PathSteps(base, path), |path|, 0)
        decreases n - |path|
      {
        ghost var point := Here();
        var bit := RcBit(probs, base + symbol);
        symbol := if bit then 2 * symbol + 1 else 2 * symbol;
        WentOn(input, old(Here()), point, Here(), PathSteps(base, path), [Bit(base + Node(path), bit)], |path|, 0, 1, 0);
        PathGrows(base, path, bit, n);
        path := path + [bit];
      }
      BitsOfNode(path);
      NodeRange(path);
    }

    /** rc_bittree_reverse: the path of the number that is added, the lowest bit first. */
    method RcBittreeReverse(probs: array<Prob>, base: int, dest: nat, limit: nat) returns (out: nat)
      requires Running(probs[..]) && limit > 0 && Allowed(meter.bits + limit, meter.direct) && base >= -1 && base + Pow2(limit) <= probs.Length
      modifies `range, `code, `inPos, `meter, `log, probs
      ensures Running(probs[..]) && dest <= out < dest + Pow2(limit)
      ensures Went(input, old(Here()), Here(), PathSteps(base, BitsUp(limit, out - dest)), limit, 0)
    {
      hide Replay, Node, PathSteps, BitsUp, Pow2, Metered, MoreInput;
      out := dest;
      var symbol, i: nat := 1, 0;
      ghost var path: seq<bool> := [];
      PathBegins(base, limit);
      WentNowhere(input, Here());
      while i < limit
        invariant Running(probs[..]) && |path| == i <= limit && symbol == Node(path)
        invariant dest <= out < dest + Pow2(i) && path == BitsUp(i, out - dest)
        invariant Went(input, old(Here()), Here(), PathSteps(base, path), i, 0)
      {
        ghost var point := Here();
        PathInside(base, path, limit);
        var bit := RcBit(probs, base + symbol);
        BitsUpNext(i, out - dest, bit);
        symbol := if bit then 2 * symbol + 1 else 2 * symbol;
        if bit {
          out := out + Pow2(i);
        }
        WentOn(input, old(Here()), point, Here(), PathSteps(base, path), [Bit(base + Node(path), bit)], i, 0, 1, 0);
        PathGrows(base, path, bit, limit);
        path := path + [bit];
        i := i + 1;
      }
    }

    /** One turn of the loop of rc_direct. */
    method DirectOnce(probs: array<Prob>) returns (bit: bool)
      requires Running(probs[..]) && Allowed(meter.bits, meter.direct + 1)
      modifies `range, `code, `inPos, `meter, `log
      ensures Running(probs[..]) && Went(input, old(Here()), Here(), [Direct(bit)], 0, 1)
    {
      hide Replay, Metered, MoreInput;
      ghost var from := Here();
      Normalize(probs[..]);
      ghost var before := Now(probs[..]);
      MeterDirect(range, range / 2, meter);
      range := range / 2;
      code := (code - range) % UINT32;
      // the mask is all ones if the subtraction borrowed
      bit := code < 0x8000_0000;
      if !bit {
        code := (code + range) % UINT32;
        WrapBack(before.coder.code, range);
      }
      assert StepOn(before, Direct(bit)) == Some(Now(probs[..]));
      Note(input, before, from, probs[..], Direct(bit));
    }

    /** rc_direct: that many more bits, the highest first. */
    method RcDirect(probs: array<Prob>, dest: nat, limit: nat) returns (out: nat, ghost v: nat)
      requires Running(probs[..]) && limit > 0 && Allowed(meter.bits, meter.direct + limit)
      modifies `range, `code, `inPos, `meter, `log
      ensures Running(probs[..]) && out == ShiftLeft(dest, limit) + v && v < Pow2(limit)
      ensures Went(input, old(Here()), Here(), DirectSteps(BitsOf(limit, v)), 0, limit)
    {
      hide Replay, ShiftLeft, BitsOf, DirectSteps, Pow2, Metered;
      out, v := dest, 0;
      var i: nat := 0;
      DirectBegins(dest);
      WentNowhere(input, Here());
      while i < limit
        invariant Running(probs[..]) && i <= limit && out == ShiftLeft(dest, i) + v && v < Pow2(i)
        invariant Went(input, old(Here()), Here(), DirectSteps(BitsOf(i, v)), 0, i)
      {
        ghost var point := Here();
        var bit := DirectOnce(probs);
        DirectNext(dest, i, v, bit);
        WentOn(input, old(Here()), point, Here(), DirectSteps(BitsOf(i, v)), [Direct(bit)], 0, i, 0, 1);
        out := 2 * out + if bit then 1 else 0;
        v := 2 * v + if bit then 1 else 0;
        i := i + 1;
      }
    }
  }

  lemma WrapBack(code: nat, half: nat)
    requires code < UINT32 && half < UINT32
    ensures ((code - half) % UINT32 + half) % UINT32 == code
  {
  }

  lemma PathInside(base: int, path: seq<bool>, n: nat)
    requires base >= -1 && |path| < n
    ensures 0 <= base + Node(path) < base + Pow2(n)
  {
    NodeRange(path);
    Pow2Monotone(|path| + 1, n);
  }

  /** Nothing has been read yet. */
  lemma WentNowhere(input: seq<Byte>, a: Point)
    requires a.pos <= |input|
    ensures Went(input, a, a, [], 0, 0)
  {
    assert a.log.consumed + input[a.pos..a.pos] == a.log.consumed && a.log.trace + [] == a.log.trace;
  }

  lemma PathBegins(base: int, n: nat)
    requires base >= -1
    ensures Node([]) == 1 && PathSteps(base, []) == [] && BitsUp(0, 0) == [] && Pow2(0) == 1 && (n > 0 ==> 1 < Pow2(n))
  {
    if n > 0 { Pow2Monotone(1, n); }
  }

  lemma PathGrows(base: int, path: seq<bool>, bit: bool, n: nat)
    requires base >= -1 && |path| < n
    ensures PathSteps(base, path + [bit]) == PathSteps(base, path) + [Bit(base + Node(path), bit)]
    ensures Node(path + [bit]) == 2 * Node(path) + (if bit then 1 else 0)
    ensures Node(path + [bit]) < 2 * Pow2(n) && (Node(path + [bit]) < Pow2(n) <==> |path| + 1 < n)
  {
    assert (path + [bit])[..|path|] == path;
    NodeRange(path + [bit]);
    Pow2Monotone(|path| + 1, n);
    if |path| + 1 < n { Pow2Monotone(|path| + 2, n); }
  }

  lemma {:induction false} Pow2Monotone(m: nat, n: nat)
    requires m <= n
    ensures Pow2(m) <= Pow2(n)
  {
    if m < n { Pow2Monotone(m, n - 1); }
  }
}
