/** Any run of symbols can be written, and what is written makes a proper chunk: the other half
    of what the decoder undoes. */
module LzmaEncode {
  import opened Words
  import opened RangeCoder
  import opened RangeTrace
  import opened RangeDecoder
  import opened XzDictionary
  import opened LzmaFormat
  import opened LzmaDecoder
  import opened LzmaChunks
  import opened LzmaAccept

  // ---- Writing decisions --------------------------------------------------------------

  /** The range and the probabilities, which do not depend on the code. */
  datatype Frame = Frame(range: nat, probs: seq<Prob>)

  predicate SoundFrame(w: Frame) {
    MIN_RANGE <= w.range < UINT32
  }

  /** The decisions use variables that there are. */
  predicate Inside(steps: seq<Step>, n: nat) {
    forall s | s in steps :: s.Bit? ==> s.index < n
  }

  function Widened(range: nat): (r: nat)
    requires MIN_RANGE <= range < UINT32
    ensures RC_TOP_VALUE <= r < UINT32
  {
    if range < RC_TOP_VALUE then range * 256 else range
  }

  function FrameOn(w: Frame, s: Step): (v: Frame)
    requires SoundFrame(w) && Inside([s], |w.probs|)
    ensures SoundFrame(v) && |v.probs| == |w.probs|
  {
    assert s in [s];
    var r := Widened(w.range);
    match s
    case Bit(i, b) => Frame(if b then r - Bound(r, w.probs[i]) else Bound(r, w.probs[i]), w.probs[i := Adapted(w.probs[i], b)])
    case Direct(_) => Frame(r / 2, w.probs)
  }

  function FrameAfter(w: Frame, steps: seq<Step>): (v: Frame)
    requires SoundFrame(w) && Inside(steps, |w.probs|)
    ensures SoundFrame(v) && |v.probs| == |w.probs|
  {
    if steps == [] then w
    else
      var n := |steps| - 1;
      assert Inside(steps[..n], |w.probs|);
      FrameOn(FrameAfter(w, steps[..n]), steps[n])
  }

  function At(w: Frame, code: nat, input: seq<Byte>): Machine {
    Machine(Coder(w.range, code, input), w.probs)
  }

  /** Before a decision the code was what it was to become, plus what was below it in the
      split. */
  function Before(w: Frame, s: Step, code: nat): (c: nat)
    requires SoundFrame(w) && Inside([s], |w.probs|) && code < FrameOn(w, s).range
    ensures c < Widened(w.range)
  {
    assert s in [s];
    var r := Widened(w.range);
    match s
    case Bit(i, b) => if b then code + Bound(r, w.probs[i]) else code
    case Direct(b) => if b then code + r / 2 else code
  }

  /** A code that one shift, if it is due, makes what it is to be. */
  lemma ShiftWritten(range: nat, code: nat) returns (c: nat, x: seq<Byte>)
    requires MIN_RANGE <= range < UINT32 && code < Widened(range)
    ensures c < range && Ready(Coder(range, c, x)) && Normal(Coder(range, c, x)) == Coder(Widened(range), code, [])
  {
    if range < RC_TOP_VALUE {
      c, x := code / 256, [code % 256];
      assert x[1..] == [];
    } else {
      c, x := code, [];
    }
  }

  lemma BitWritten(coder: Coder, p: Prob, bit: bool, code: nat)
    requires Ready(coder) && Normal(coder).code == if bit then code + Bound(Normal(coder).range, p) else code
    requires !bit ==> code < Bound(Normal(coder).range, p)
    ensures BitOf(coder, p) == bit && Decided(coder, p).code == code
  {
    hide Bound, Normal;
  }

  /** One decision can be written so that any code below the range is left. */
  lemma StepWritten(w: Frame, s: Step, code: nat) returns (c: nat, x: seq<Byte>)
    requires SoundFrame(w) && Inside([s], |w.probs|) && code < FrameOn(w, s).range
    ensures c < w.range && StepOn(At(w, c, x), s) == Some(At(FrameOn(w, s), code, []))
  {
    hide Bound, Normal, Widened, Adapted;
    assert s in [s];
    var pre := Before(w, s, code);
    c, x := ShiftWritten(w.range, pre);
    match s
    case Bit(i, b) => BitWritten(At(w, c, x).coder, w.probs[i], b, code);
    case Direct(_) => HalfOf(Widened(w.range), pre);
  }

  lemma HalfOf(range: nat, code: nat)
    requires code < range < UINT32
    ensures (code - range / 2) % UINT32 == if code >= range / 2 then code - range / 2 else code - range / 2 + UINT32
  {
  }

  /** And so can any string of them. */
  lemma {:induction false} Written(w: Frame, steps: seq<Step>, code: nat) returns (c: nat, x: seq<Byte>)
    requires SoundFrame(w) && Inside(steps, |w.probs|) && code < FrameAfter(w, steps).range
    ensures c < w.range && Replay(At(w, c, x), steps) == Some(At(FrameAfter(w, steps), code, []))
  {
    if steps == [] {
      c, x := code, [];
    } else {
      hide StepOn, FrameOn;
      var n := |steps| - 1;
      assert Inside(steps[..n], |w.probs|) && Inside([steps[n]], |w.probs|);
      var mid, y := StepWritten(FrameAfter(w, steps[..n]), steps[n], code);
      c, x := Written(w, steps[..n], mid);
      ReplayMore(At(w, c, x), steps[..n], y);
      assert [] + y == y;
      x := x + y;
    }
  }

  // ---- Which variables symbols use ----------------------------------------------------

  lemma InsideJoin(a: seq<Step>, b: seq<Step>, n: nat)
    requires Inside(a, n) && Inside(b, n)
    ensures Inside(a + b, n)
  {
  }

  lemma InsideMore(a: seq<Step>, m: nat, n: nat)
    requires Inside(a, m) && m <= n
    ensures Inside(a, n)
  {
  }

  lemma {:induction false} PathInTree(base: int, bits: seq<bool>)
    requires base >= -1
    ensures Inside(PathSteps(base, bits), base + 1 + Pow2(|bits|))
  {
    hide Node;
    if bits != [] {
      var n := |bits| - 1;
      PathInTree(base, bits[..n]);
      NodeRange(bits[..n]);
      assert Inside([Bit(base + Node(bits[..n]), bits[n])], base + 1 + Pow2(|bits|));
      InsideMore(PathSteps(base, bits[..n]), base + 1 + Pow2(n), base + 1 + Pow2(|bits|));
    }
  }

  /** A path of at most eight decisions. */
  lemma ShortPath(base: int, bits: seq<bool>, k: nat, n: nat)
    requires base >= -1 && |bits| <= k <= 8 && base + 1 + Pow2(k) <= n
    ensures Inside(PathSteps(base, bits), n)
  {
    hide PathSteps, Pow2;
    PathInTree(base, bits);
    Pow2Monotone(|bits|, k);
    InsideMore(PathSteps(base, bits), base + 1 + Pow2(|bits|), n);
  }

  lemma LenInside(base: nat, posState: nat, len: nat)
    requires MATCH_LEN_MIN <= len && posState < POS_STATES_MAX && base + LEN_CODER_SIZE < PROBS_TOTAL
    ensures Inside(LenSteps(base, posState, len), PROBS_TOTAL)
  {
    hide PathSteps, BitsOf, Pow2;
    PowTable();
    if len < 10 {
      ShortPath(base + 2 + posState * 8, BitsOf(3, len - 2), 3, PROBS_TOTAL);
    } else if len < 18 {
      ShortPath(base + 130 + posState * 8, BitsOf(3, len - 10), 3, PROBS_TOTAL);
    } else {
      ShortPath(base + 258, BitsOf(8, len - 18), 8, PROBS_TOTAL);
    }
  }

  lemma SmallSlot(slot: nat)
    requires DIST_MODEL_START <= slot < DIST_MODEL_END
    ensures slot <= SlotBase(slot) <= 96 && 1 <= FooterBits(slot) <= 5
  {
    assert ShiftLeft(2, 1) == 4 && ShiftLeft(3, 1) == 6 && ShiftLeft(2, 2) == 8 && ShiftLeft(3, 2) == 12;
    assert ShiftLeft(2, 3) == 16 && ShiftLeft(3, 3) == 24;
    assert ShiftLeft(2, 4) == 32 && ShiftLeft(3, 4) == 48;
    assert ShiftLeft(2, 5) == 64 && ShiftLeft(3, 5) == 96;
  }

  lemma {:induction false} DirectInside(bits: seq<bool>, n: nat)
    ensures Inside(DirectSteps(bits), n)
  {
    if bits != [] { DirectInside(bits[..|bits| - 1], n); }
  }

  lemma DistInside(len: nat, dist: nat)
    requires MATCH_LEN_MIN <= len
    ensures Inside(DistSteps(len, dist), PROBS_TOTAL)
  {
    hide PathSteps, BitsOf, BitsUp, Pow2, SlotBase, FooterBits, DistSlot, DirectSteps;
    PowTable();
    var slot := DistSlot(dist);
    var rest := if dist < SlotBase(slot) then 0 else dist - SlotBase(slot);
    ShortPath(DIST_SLOT + DistState(len) * DIST_SLOTS, BitsOf(6, slot), 6, PROBS_TOTAL);
    FooterInside(slot, rest);
    InsideJoin(PathSteps(DIST_SLOT + DistState(len) * DIST_SLOTS, BitsOf(6, slot)), FooterSteps(slot, rest), PROBS_TOTAL);
  }

  lemma FooterInside(slot: nat, rest: nat)
    ensures Inside(FooterSteps(slot, rest), PROBS_TOTAL)
  {
    hide PathSteps, BitsOf, BitsUp, Pow2, SlotBase, DirectSteps;
    PowTable();
    if DIST_MODEL_START <= slot < DIST_MODEL_END {
      SmallSlot(slot);
      ShortPath(DIST_SPECIAL + SlotBase(slot) - slot - 1, BitsUp(FooterBits(slot), rest), 5, PROBS_TOTAL);
    } else if slot >= DIST_MODEL_END {
      var high := BitsOf(FooterBits(slot) - ALIGN_BITS, rest / ALIGN_SIZE);
      DirectInside(high, PROBS_TOTAL);
      ShortPath(DIST_ALIGN, BitsUp(ALIGN_BITS, rest % ALIGN_SIZE), 4, PROBS_TOTAL);
      InsideJoin(DirectSteps(high), PathSteps(DIST_ALIGN, BitsUp(ALIGN_BITS, rest % ALIGN_SIZE)), PROBS_TOTAL);
    }
  }

  lemma {:induction false} MatchedInside(base: nat, matched: seq<bool>, bits: seq<bool>)
    requires |bits| <= |matched| <= 8
    ensures Inside(MatchedSteps(base, matched, bits), base + LITERAL_CODER_SIZE)
  {
    hide Node, Pow2;
    if bits != [] {
      var n := |bits| - 1;
      MatchedInside(base, matched, bits[..n]);
      NodeRange(bits[..n]);
      PowTable();
      Pow2Monotone(n, 7);
    }
  }

  lemma LiteralInside(p: Props, c: Coding, history: seq<Byte>, byte: Byte)
    requires SoundProps(p)
    ensures Inside(LiteralSteps(p, c, history, byte), PROBS_TOTAL)
  {
    hide PathSteps, MatchedSteps, BitsOf, Pow2, LiteralCoder, LowMask, ShiftLeft;
    LiteralCoderFits(p, history, |history|);
    PowTable();
    var base := LITERAL + LITERAL_CODER_SIZE * LiteralCoder(p, history);
    if c.state < LIT_STATES {
      ShortPath(base, BitsOf(8, byte), 8, PROBS_TOTAL);
    } else {
      MatchedInside(base, BitsOf(8, Back(history, c.rep0)), BitsOf(8, byte));
      InsideMore(MatchedSteps(base, BitsOf(8, Back(history, c.rep0)), BitsOf(8, byte)), base + LITERAL_CODER_SIZE, PROBS_TOTAL);
    }
  }

  lemma RepInside(state: State, posState: nat, s: Symbol)
    requires posState < POS_STATES_MAX && (s.ShortRep? || (s.LongRep? && SoundSymbol(s)))
    ensures Inside(RepMatchSteps(state, posState, s), PROBS_TOTAL)
  {
    hide LenSteps;
    if s.LongRep? {
      LenInside(REP_LEN, posState, s.len);
      InsideJoin(RepSteps(state, posState, s.which), LenSteps(REP_LEN, posState, s.len), PROBS_TOTAL);
    }
  }

  lemma SymbolInside(p: Props, c: Coding, history: seq<Byte>, s: Symbol)
    requires SoundProps(p) && SoundSymbol(s)
    ensures Inside(SymbolSteps(p, c, history, s), PROBS_TOTAL)
  {
    hide LiteralSteps, LenSteps, DistSteps, RepMatchSteps;
    var pos := PosState(p, history);
    var kind := IS_MATCH + c.state * POS_STATES_MAX + pos;
    match s
    case Literal(byte) =>
      LiteralInside(p, c, history, byte);
      InsideJoin([Bit(kind, false)], LiteralSteps(p, c, history, byte), PROBS_TOTAL);
    case Match(len, dist) =>
      LenInside(MATCH_LEN, pos, len);
      DistInside(len, dist);
      InsideJoin(LenSteps(MATCH_LEN, pos, len), DistSteps(len, dist), PROBS_TOTAL);
      InsideJoin([Bit(kind, true), Bit(IS_REP + c.state, false)], LenSteps(MATCH_LEN, pos, len) + DistSteps(len, dist), PROBS_TOTAL);
    case _ =>
      RepInside(c.state, pos, s);
      InsideJoin([Bit(kind, true), Bit(IS_REP + c.state, true)], RepMatchSteps(c.state, pos, s), PROBS_TOTAL);
  }

  /** A run of symbols uses the PROBS_TOTAL variables only. */
  lemma {:induction false} RunInsideProbs(p: Props, t: Told, symbols: seq<Symbol>)
    requires SoundProps(p) && SoundRun(t, symbols)
    ensures Inside(RunSteps(p, t, symbols), PROBS_TOTAL)
  {
    if symbols != [] {
      hide SymbolSteps, SoundProps, TellAll;
      var n := |symbols| - 1;
      var before := TellAll(t, symbols[..n]);
      RunInsideProbs(p, t, symbols[..n]);
      SymbolInside(p, before.coding, before.history, symbols[n]);
      InsideJoin(RunSteps(p, t, symbols[..n]), SymbolSteps(p, before.coding, before.history, symbols[n]), PROBS_TOTAL);
    }
  }

  // ---- Writing runs -------------------------------------------------------------------

  /** Every run of symbols can be written, with a code of zero at its end. */
  lemma RunWritten(p: Props, probs: seq<Prob>, t: Told, symbols: seq<Symbol>) returns (code: nat, data: seq<Byte>)
    requires SoundProps(p) && SoundRun(t, symbols) && |probs| == PROBS_TOTAL
    ensures code < UINT32 - 1
    ensures var r := Replay(Machine(Coder(UINT32 - 1, code, data), probs), RunSteps(p, t, symbols));
      r.Some? && EndsAtZero(r.value.coder)
  {
    hide SoundRun, RunSteps, Replay, Inside, FrameAfter, LowMask, ShiftLeft;
    var w := Frame(UINT32 - 1, probs);
    var steps := RunSteps(p, t, symbols);
    RunInsideProbs(p, t, symbols);
    code, data := Written(w, steps, 0);
    var v := FrameAfter(w, steps);
    if v.range < RC_TOP_VALUE {
      ReplayMore(At(w, code, data), steps, [0]);
      assert [] + [0] == [0] && [0][1..] == [];
      data := data + [0];
    }
  }

  // ---- Writing chunks -----------------------------------------------------------------

  lemma ThreeDigits(x: nat)
    ensures x == x / 65536 * 65536 + x / 256 % 256 * 256 + x % 256
    ensures x < 65536 ==> x / 65536 == 0 && x / 256 < 256
    ensures x < 0x20_0000 ==> x / 65536 < 32
  {
    assert x / 65536 == x / 256 / 256;
  }

  lemma ControlDigit(reset: nat, high: nat)
    requires reset < 4 && high < 32
    ensures 0x80 + 32 * reset + high < 256 && (0x80 + 32 * reset + high) % 32 == high
  {
  }

  /** The header of an LZMA chunk that resets nothing, the coder's state, that and the
      properties, or the dictionary as well, and makes and takes so much. */
  function Header(reset: nat, out: nat, taken: nat, props: Byte): (h: seq<Byte>)
    requires reset < 4 && 1 <= out <= 0x20_0000 && 1 <= taken <= 0x1_0000
    ensures IsLzma(h) && |h| == HeaderSize(h) && DeclaredOut(h) == out && DeclaredIn(h) == taken
  {
    var o, n := out - 1, taken - 1;
    ThreeDigits(o);
    ThreeDigits(n);
    ControlDigit(reset, o / 65536);
    [0x80 + 32 * reset + o / 65536, o / 256 % 256, o % 256, n / 256, n % 256] + if reset >= 2 then [props] else []
  }

  /** Where the stream stands after such a header. */
  function Reset(s: Standing, reset: nat, props: Byte): Standing {
    var w := if reset == 3 then s.(history := [], needDict := false, needProps := true) else s;
    if reset == 0 then w
    else
      var v := w.(coding := NO_CODING, probs := EvenProbs());
      if reset == 1 then v else v.(needProps := false, props := PropsOf(props))
  }

  lemma HeaderLeads(s: Standing, reset: nat, out: nat, taken: nat, props: Byte, x: seq<Byte>)
    requires reset < 4 && 1 <= out <= 0x20_0000 && 1 <= taken <= 0x1_0000
    ensures var h := Header(reset, out, taken, props); var b := h + x;
      && Led(s, b) == Reset(s, reset, props) && IsLzma(b) && HeaderSize(b) == |h| && b[|h|..] == x
      && DeclaredOut(b) == out && DeclaredIn(b) == taken
  {
    hide PropsOf, EvenProbs;
    var h := Header(reset, out, taken, props);
    assert (h + x)[0] == h[0] && (h + x)[1] == h[1] && (h + x)[2] == h[2] && (h + x)[3] == h[3] && (h + x)[4] == h[4];
    assert reset >= 2 ==> (h + x)[5] == props;
  }

  function CodeBytes(code: nat): seq<Byte>
    requires code < UINT32
  {
    [0, code / 0x100_0000, code / 0x1_0000 % 256, code / 256 % 256, code % 256]
  }

  lemma CodeBack(code: nat)
    requires code < UINT32
    ensures CodeOf(CodeBytes(code)) == code
  {
    hide CodeOf;
    var a, b := code / 0x1_0000, CodeBytes(code);
    CodeOfFive(b[0], b[1], b[2], b[3], b[4]);
    assert code / 0x100_0000 == a / 256;
    assert a == a / 256 * 256 + a % 256;
    ThreeDigits(code);
  }

  /** The chunk of a run of symbols, written behind a header. */
  ghost function ChunkFrom(l: Standing, head: seq<Byte>, data: seq<Byte>, symbols: seq<Symbol>): Chunk
    requires |TellAll(Told(l.coding, l.history), symbols).history| >= |l.history|
  {
    var t := Told(l.coding, l.history);
    Chunk(head + data, TellAll(t, symbols).history[|l.history|..], l.probs, l.props, t, symbols)
  }

  /** The decoder may be given these symbols next. */
  ghost predicate Writable(l: Standing, symbols: seq<Symbol>, size: nat) {
    && !l.needDict && !l.needProps && SoundProps(l.props) && |l.probs| == PROBS_TOTAL && symbols != []
    && SoundRun(Told(l.coding, l.history), symbols) && NearRun(Told(l.coding, l.history), symbols, size)
  }

  /** From wherever a stream stands, every run of symbols that the decoder may be given can be
      written as a proper chunk, if what it makes and takes is no more than a header can say. */
  lemma EveryRun(s: Standing, reset: nat, props: Byte, symbols: seq<Symbol>, size: nat) returns (data: seq<Byte>)
    requires reset < 4 && Writable(Reset(s, reset, props), symbols, size)
    ensures var l := Reset(s, reset, props); var n := |TellAll(Told(l.coding, l.history), symbols).history| - |l.history|;
      && |data| >= RC_INIT_BYTES && n >= 1
      && (n <= 0x20_0000 && |data| <= 0x1_0000 ==>
            var c := ChunkFrom(l, Header(reset, n, |data|, props), data, symbols);
            Follows(s, c) && ProperChunk(c, size))
  {
    hide SoundRun, NearRun, TellAll, RunSteps, Replay, CodeOf, SoundProps, LowMask, EndsAtZero, PropsOf, EvenProbs, Led, Header, HeaderSize, Reset, Replayed;
    var l := Reset(s, reset, props);
    var t := Told(l.coding, l.history);
    var code, rest := RunWritten(l.props, l.probs, t, symbols);
    data := CodeBytes(code) + rest;
    CodeBack(code);
    RunKeeps(t, symbols);
    RunGrows(t, symbols);
    var n := |TellAll(t, symbols).history| - |l.history|;
    if n <= 0x20_0000 && |data| <= 0x1_0000 {
      var h := Header(reset, n, |data|, props);
      HeaderLeads(s, reset, n, |data|, props, data);
      WrittenGood(l, h, code, rest, symbols, size);
    }
  }

  lemma WrittenGood(l: Standing, h: seq<Byte>, code: nat, rest: seq<Byte>, symbols: seq<Symbol>, size: nat)
    requires Writable(l, symbols, size) && code < UINT32 && CodeOf(CodeBytes(code)) == code
    requires var t := Told(l.coding, l.history);
      var r := Replay(Machine(Coder(UINT32 - 1, code, rest), l.probs), RunSteps(l.props, t, symbols));
      r.Some? && EndsAtZero(r.value.coder) && l.history <= TellAll(t, symbols).history
    requires var b := h + (CodeBytes(code) + rest);
      IsLzma(b) && HeaderSize(b) == |h| && |b| == |h| + DeclaredIn(b) && DeclaredOut(b) == |TellAll(Told(l.coding, l.history), symbols).history| - |l.history|
    ensures ProperChunk(ChunkFrom(l, h, CodeBytes(code) + rest, symbols), size)
  {
    hide SoundRun, NearRun, TellAll, RunSteps, Replay, CodeOf, LowMask, ShiftLeft, EndsAtZero, HeaderSize, DeclaredIn, DeclaredOut;
    var c := ChunkFrom(l, h, CodeBytes(code) + rest, symbols);
    var k := |h|;
    assert c.bytes[k..k + 5] == CodeBytes(code) && c.bytes[k + 5..] == rest;
    assert c.before.history + c.out == TellAll(c.before, symbols).history;
  }

  /** A well-made stream can be continued with any such run. */
  lemma StreamGrows(chunks: seq<Chunk>, reset: nat, props: Byte, symbols: seq<Symbol>, size: nat) returns (data: seq<Byte>)
    requires WellMade(chunks, size) && reset < 4 && Writable(Reset(Stand(chunks), reset, props), symbols, size)
    ensures var l := Reset(Stand(chunks), reset, props);
      var told := TellAll(Told(l.coding, l.history), symbols).history; var n := |told| - |l.history|;
      && |data| >= RC_INIT_BYTES && n >= 1
      && (n <= 0x20_0000 && |data| <= 0x1_0000 ==>
            var more := chunks + [ChunkFrom(l, Header(reset, n, |data|, props), data, symbols)];
            && WellMade(more, size) && Bytes(more) == Bytes(chunks) + (Header(reset, n, |data|, props) + data)
            && Output(more) == Output(chunks) + told[|l.history|..])
  {
    hide TellAll, Follows, ProperChunk, AllProper, Chained, Stand, Reset, Header, Bytes, Output, Writable;
    data := EveryRun(Stand(chunks), reset, props, symbols, size);
    var l := Reset(Stand(chunks), reset, props);
    var n := |TellAll(Told(l.coding, l.history), symbols).history| - |l.history|;
    if n <= 0x20_0000 && |data| <= 0x1_0000 {
      var c := ChunkFrom(l, Header(reset, n, |data|, props), data, symbols);
      ChainNext(chunks, c);
      ProperOn(chunks, c, size);
      OneMoreChunk(chunks, c);
    }
  }
}
