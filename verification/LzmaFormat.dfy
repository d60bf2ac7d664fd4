/** The LZMA format from the encoder's side: which decisions, on which probability
    variables, stand for a symbol, and what a symbol does to the history.

    The decoder is proved against this in LzmaDecoder.  The probability variables are
    numbered as they lie in memory in struct lzma_dec, which lzma_reset relies on. */
module LzmaFormat {
  import opened Words
  import opened RangeCoder
  import opened RangeTrace
  import opened XzDictionary

  const STATES: nat := 12
  const LIT_STATES: nat := 7
  const POS_STATES_MAX: nat := 16
  const LITERAL_CODER_SIZE: nat := 0x300
  const LITERAL_CODERS_MAX: nat := 16
  const MATCH_LEN_MIN: nat := 2
  const MATCH_LEN_MAX: nat := 273
  const LEN_LOW_SYMBOLS: nat := 8
  const LEN_MID_SYMBOLS: nat := 8
  const LEN_HIGH_SYMBOLS: nat := 256
  const DIST_STATES: nat := 4
  const DIST_SLOTS: nat := 64
  const DIST_MODEL_START: nat := 4
  const DIST_MODEL_END: nat := 14
  const FULL_DISTANCES: nat := 128
  const ALIGN_BITS: nat := 4
  const ALIGN_SIZE: nat := 16

  const IS_MATCH: nat := 0
  const IS_REP: nat := IS_MATCH + STATES * POS_STATES_MAX
  const IS_REP0: nat := IS_REP + STATES
  const IS_REP1: nat := IS_REP0 + STATES
  const IS_REP2: nat := IS_REP1 + STATES
  const IS_REP0_LONG: nat := IS_REP2 + STATES
  const DIST_SLOT: nat := IS_REP0_LONG + STATES * POS_STATES_MAX
  const DIST_SPECIAL: nat := DIST_SLOT + DIST_STATES * DIST_SLOTS
  const DIST_ALIGN: nat := DIST_SPECIAL + FULL_DISTANCES - DIST_MODEL_END
  const MATCH_LEN: nat := DIST_ALIGN + ALIGN_SIZE
  const LEN_CODER_SIZE: nat := 2 + POS_STATES_MAX * (LEN_LOW_SYMBOLS + LEN_MID_SYMBOLS) + LEN_HIGH_SYMBOLS
  const REP_LEN: nat := MATCH_LEN + LEN_CODER_SIZE
  const LITERAL: nat := REP_LEN + LEN_CODER_SIZE
  const PROBS_TOTAL: nat := 1846 + LITERAL_CODERS_MAX * LITERAL_CODER_SIZE

  /** The layout accounts for exactly the PROBS_TOTAL variables that lzma_reset clears. */
  lemma Layout()
    ensures LITERAL + LITERAL_CODERS_MAX * LITERAL_CODER_SIZE == PROBS_TOTAL
  {
  }

  // ---- The state of the symbol coder ----------------------------------------------

  type State = s: nat | s < STATES

  function StateLiteral(s: State): State {
    if s <= 3 then 0 else if s <= 9 then s - 3 else s - 6
  }

  function StateMatch(s: State): State { if s < LIT_STATES then 7 else 10 }

  function StateLongRep(s: State): State { if s < LIT_STATES then 8 else 11 }

  function StateShortRep(s: State): State { if s < LIT_STATES then 9 else 11 }

  datatype Props = Props(lc: nat, literalPosMask: nat, posMask: nat)

  /** (1 << n) - 1 for n up to 4 */
  predicate LowMask(mask: nat) {
    mask == 0 || mask == 1 || mask == 3 || mask == 7 || mask == 15
  }

  /** lc + lp <= 4 and pb <= 4 */
  predicate SoundProps(p: Props) {
    p.lc <= 4 && LowMask(p.literalPosMask) && LowMask(p.posMask) && ShiftLeft(p.literalPosMask + 1, p.lc) <= LITERAL_CODERS_MAX
  }

  datatype Coding = Coding(state: State, rep0: nat, rep1: nat, rep2: nat, rep3: nat)

  datatype Symbol =
    | Literal(byte: Byte)
    | Match(len: nat, dist: nat)
    | ShortRep
    | LongRep(which: nat, len: nat)

  predicate SoundSymbol(s: Symbol) {
    match s
    case Literal(_) => true
    case Match(len, dist) => MATCH_LEN_MIN <= len <= MATCH_LEN_MAX && dist < UINT32
    case ShortRep => true
    case LongRep(which, len) => which < 4 && MATCH_LEN_MIN <= len <= MATCH_LEN_MAX
  }

  // ---- Lengths and distances ------------------------------------------------------

  function LenSteps(base: nat, posState: nat, len: nat): seq<Step>
    requires MATCH_LEN_MIN <= len
  {
    if len < 10 then [Bit(base, false)] + PathSteps(base + 2 + posState * 8, BitsOf(3, len - 2))
    else if len < 18 then [Bit(base, true), Bit(base + 1, false)] + PathSteps(base + 130 + posState * 8, BitsOf(3, len - 10))
    else [Bit(base, true), Bit(base + 1, true)] + PathSteps(base + 258, BitsOf(8, len - 18))
  }

  /** lzma_get_dist_state */
  function DistState(len: nat): (s: nat)
    requires MATCH_LEN_MIN <= len
    ensures s < DIST_STATES
  {
    if len < DIST_STATES + MATCH_LEN_MIN then len - MATCH_LEN_MIN else DIST_STATES - 1
  }

  /** Matches of 2, 3 and 4 bytes have slot variables of their own, in this order; all longer
      ones share the last. */
  lemma DistStates(a: nat, b: nat)
    requires 2 <= a <= b
    ensures DistState(a) == DistState(b) <==> a == b || 5 <= a
    ensures a < b <= 5 ==> DistState(a) < DistState(b)
  {
  }

  /** The slot of a distance says how many bits it has and what its two highest bits are. */
  function DistSlot(dist: nat): nat {
    if dist < 4 then dist else DistSlot(dist / 2) + 2
  }

  /** The number of bits below the two highest. */
  function FooterBits(slot: nat): nat {
    if slot < 4 then 0 else slot / 2 - 1
  }

  /** The least distance of a slot. */
  function SlotBase(slot: nat): nat {
    if slot < 4 then slot else ShiftLeft(2 + slot % 2, FooterBits(slot))
  }

  lemma BaseDoubles(slot: nat)
    requires slot >= 4
    ensures SlotBase(slot) == 2 * SlotBase(slot - 2) && FooterBits(slot) == FooterBits(slot - 2) + 1
  {
    if slot < 6 {
      assert ShiftLeft(2 + slot % 2, 0) == 2 + slot % 2;
    }
  }

  /** The distances of a slot follow its base. */
  lemma {:induction false} SlotOfDist(slot: nat, rest: nat)
    requires rest < Pow2(FooterBits(slot))
    ensures DistSlot(SlotBase(slot) + rest) == slot
    decreases slot
  {
    if slot >= 4 {
      SlotOfDist(slot - 2, rest / 2);
      BaseDoubles(slot);
      assert (SlotBase(slot) + rest) / 2 == SlotBase(slot - 2) + rest / 2;
      SlotBaseMin(slot);
    }
  }

  lemma {:induction false} SlotBaseMin(slot: nat)
    requires slot >= 4
    ensures SlotBase(slot) >= 4
    decreases slot
  {
    if slot >= 6 {
      SlotBaseMin(slot - 2);
    }
    BaseDoubles(slot);
  }

  lemma {:induction false} DistInSlot(dist: nat)
    ensures SlotBase(DistSlot(dist)) <= dist < SlotBase(DistSlot(dist)) + Pow2(FooterBits(DistSlot(dist)))
  {
    if dist >= 4 {
      DistInSlot(dist / 2);
      var s := DistSlot(dist / 2);
      SlotAtLeast(dist / 2);
      BaseDoubles(s + 2);
    }
  }

  lemma SlotAtLeast(dist: nat)
    ensures dist >= 2 ==> DistSlot(dist) >= 2
  {
  }

  function DistSteps(len: nat, dist: nat): seq<Step>
    requires MATCH_LEN_MIN <= len
  {
    var slot := DistSlot(dist);
    var rest := if dist < SlotBase(slot) then 0 else dist - SlotBase(slot);
    PathSteps(DIST_SLOT + DistState(len) * DIST_SLOTS, BitsOf(6, slot)) + FooterSteps(slot, rest)
  }

  /** The bits of a distance below the two highest. */
  function FooterSteps(slot: nat, rest: nat): seq<Step> {
    var n := FooterBits(slot);
    if slot < DIST_MODEL_START then []
    else if slot < DIST_MODEL_END then
      PathSteps(DIST_SPECIAL + SlotBase(slot) - slot - 1, BitsUp(n, rest))
    else
      DirectSteps(BitsOf(n - ALIGN_BITS, rest / ALIGN_SIZE)) + PathSteps(DIST_ALIGN, BitsUp(ALIGN_BITS, rest % ALIGN_SIZE))
  }

  // ---- Literals -------------------------------------------------------------------

  /** Which half of a literal coder's second and third sections is used: while the byte has
      been the same as the match byte, the section of the match byte's next bit. */
  function Section(matched: seq<bool>, path: seq<bool>): (o: nat)
    requires |path| < |matched|
    ensures o + 0x100 <= LITERAL_CODER_SIZE
  {
    if path == matched[..|path|] then 0x100 + (if matched[|path|] then 0x100 else 0) else 0
  }

  function MatchedSteps(base: nat, matched: seq<bool>, bits: seq<bool>): seq<Step>
    requires |bits| <= |matched|
  {
    if bits == [] then []
    else
      var n := |bits| - 1;
      MatchedSteps(base, matched, bits[..n]) + [Bit(base + Section(matched, bits[..n]) + Node(bits[..n]), bits[n])]
  }

  function Back(history: seq<Byte>, d: nat): Byte {
    if d < |history| then history[|history| - 1 - d] else 0
  }

  /** The literal coder for a place in the history: by the position, and the byte before. */
  function LiteralCoder(p: Props, history: seq<Byte>): nat
    requires p.lc <= 8
  {
    Back(history, 0) / Pow2(8 - p.lc) + ShiftLeft(|history| % (p.literalPosMask + 1), p.lc)
  }

  function LiteralSteps(p: Props, c: Coding, history: seq<Byte>, byte: Byte): seq<Step>
    requires p.lc <= 8
  {
    var base := LITERAL + LITERAL_CODER_SIZE * LiteralCoder(p, history);
    if c.state < LIT_STATES then PathSteps(base, BitsOf(8, byte))
    else MatchedSteps(base, BitsOf(8, Back(history, c.rep0)), BitsOf(8, byte))
  }

  // ---- Symbols --------------------------------------------------------------------

  function PosState(p: Props, history: seq<Byte>): nat {
    |history| % (p.posMask + 1)
  }

  /** Which of the four last distances is repeated. */
  function RepSteps(state: State, posState: nat, which: nat): seq<Step> {
    if which == 0 then [Bit(IS_REP0 + state, false), Bit(IS_REP0_LONG + state * POS_STATES_MAX + posState, true)]
    else if which == 1 then [Bit(IS_REP0 + state, true), Bit(IS_REP1 + state, false)]
    else [Bit(IS_REP0 + state, true), Bit(IS_REP1 + state, true), Bit(IS_REP2 + state, which == 3)]
  }

  /** What follows the two decisions that tell a repeated match. */
  function RepMatchSteps(state: State, posState: nat, s: Symbol): seq<Step>
    requires s.ShortRep? || (s.LongRep? && SoundSymbol(s))
  {
    if s.ShortRep? then [Bit(IS_REP0 + state, false), Bit(IS_REP0_LONG + state * POS_STATES_MAX + posState, false)]
    else RepSteps(state, posState, s.which) + LenSteps(REP_LEN, posState, s.len)
  }

  function SymbolSteps(p: Props, c: Coding, history: seq<Byte>, s: Symbol): seq<Step>
    requires p.lc <= 8 && SoundSymbol(s)
  {
    var pos := PosState(p, history);
    var kind := IS_MATCH + c.state * POS_STATES_MAX + pos;
    match s
    case Literal(byte) => [Bit(kind, false)] + LiteralSteps(p, c, history, byte)
    case Match(len, dist) => [Bit(kind, true), Bit(IS_REP + c.state, false)] + (LenSteps(MATCH_LEN, pos, len) + DistSteps(len, dist))
    case _ => [Bit(kind, true), Bit(IS_REP + c.state, true)] + RepMatchSteps(c.state, pos, s)
  }

  // ---- How many decisions a symbol takes ------------------------------------------

  /** The decisions that use a probability; the others are direct bits. */
  function Modelled(steps: seq<Step>): (n: nat)
    ensures n <= |steps|
  {
    if steps == [] then 0 else Modelled(steps[..|steps| - 1]) + if steps[|steps| - 1].Bit? then 1 else 0
  }

  lemma {:induction false} ModelledJoin(a: seq<Step>, b: seq<Step>)
    ensures Modelled(a + b) == Modelled(a) + Modelled(b)
  {
    if b == [] {
      assert a + b == a;
    } else {
      var n := |b| - 1;
      ModelledJoin(a, b[..n]);
      assert (a + b)[..|a + b| - 1] == a + b[..n];
    }
  }

  lemma {:induction false} AllModelled(steps: seq<Step>)
    requires forall s | s in steps :: s.Bit?
    ensures Modelled(steps) == |steps|
  {
    if steps != [] { AllModelled(steps[..|steps| - 1]); }
  }

  lemma {:induction false} PathModelled(base: int, bits: seq<bool>)
    requires base >= -1
    ensures Modelled(PathSteps(base, bits)) == |bits|
  {
    if bits != [] { PathModelled(base, bits[..|bits| - 1]); }
  }

  lemma {:induction false} MatchedModelled(base: nat, matched: seq<bool>, bits: seq<bool>)
    requires |bits| <= |matched|
    ensures |MatchedSteps(base, matched, bits)| == |bits| == Modelled(MatchedSteps(base, matched, bits))
  {
    if bits != [] { MatchedModelled(base, matched, bits[..|bits| - 1]); }
  }

  lemma {:induction false} DirectModelled(bits: seq<bool>)
    ensures Modelled(DirectSteps(bits)) == 0
  {
    if bits != [] { DirectModelled(bits[..|bits| - 1]); }
  }

  function LenCost(len: nat): nat {
    if len < 10 then 4 else if len < 18 then 5 else 10
  }

  lemma LenModelled(base: nat, posState: nat, len: nat)
    requires MATCH_LEN_MIN <= len
    ensures |LenSteps(base, posState, len)| == LenCost(len) == Modelled(LenSteps(base, posState, len))
  {
    hide PathSteps, BitsOf;
    var head, path :=
      if len < 10 then [Bit(base, false)] else [Bit(base, true), Bit(base + 1, len >= 18)],
      if len < 10 then PathSteps(base + 2 + posState * 8, BitsOf(3, len - 2))
      else if len < 18 then PathSteps(base + 130 + posState * 8, BitsOf(3, len - 10)) else PathSteps(base + 258, BitsOf(8, len - 18));
    assert LenSteps(base, posState, len) == head + path;
    ModelledJoin(head, path);
    AllModelled(head);
    if len < 10 { PathModelled(base + 2 + posState * 8, BitsOf(3, len - 2)); }
    else if len < 18 { PathModelled(base + 130 + posState * 8, BitsOf(3, len - 10)); }
    else { PathModelled(base + 258, BitsOf(8, len - 18)); }
  }

  /** The direct bits of a distance in a slot. */
  function DirectCost(slot: nat): nat {
    if slot < DIST_MODEL_END then 0 else FooterBits(slot) - ALIGN_BITS
  }

  lemma FooterModelled(slot: nat, rest: nat)
    ensures |FooterSteps(slot, rest)| == FooterBits(slot)
    ensures Modelled(FooterSteps(slot, rest)) == FooterBits(slot) - DirectCost(slot)
  {
    hide PathSteps, DirectSteps, BitsOf, BitsUp;
    var n := FooterBits(slot);
    if slot < DIST_MODEL_START {
    } else if slot < DIST_MODEL_END {
      PathModelled(DIST_SPECIAL + SlotBase(slot) - slot - 1, BitsUp(n, rest));
    } else {
      var d, a := DirectSteps(BitsOf(n - ALIGN_BITS, rest / ALIGN_SIZE)), PathSteps(DIST_ALIGN, BitsUp(ALIGN_BITS, rest % ALIGN_SIZE));
      ModelledJoin(d, a);
      DirectModelled(BitsOf(n - ALIGN_BITS, rest / ALIGN_SIZE));
      PathModelled(DIST_ALIGN, BitsUp(ALIGN_BITS, rest % ALIGN_SIZE));
    }
  }

  lemma DistModelled(len: nat, dist: nat)
    requires MATCH_LEN_MIN <= len
    ensures |DistSteps(len, dist)| == 6 + FooterBits(DistSlot(dist))
    ensures Modelled(DistSteps(len, dist)) == 6 + FooterBits(DistSlot(dist)) - DirectCost(DistSlot(dist))
  {
    hide PathSteps, BitsOf, FooterSteps, SlotBase, DistSlot, FooterBits, DirectCost;
    var slot := DistSlot(dist);
    var rest := if dist < SlotBase(slot) then 0 else dist - SlotBase(slot);
    var base := DIST_SLOT + DistState(len) * DIST_SLOTS;
    ModelledJoin(PathSteps(base, BitsOf(6, slot)), FooterSteps(slot, rest));
    PathModelled(base, BitsOf(6, slot));
    FooterModelled(slot, rest);
  }

  lemma LiteralModelled(p: Props, c: Coding, history: seq<Byte>, byte: Byte)
    requires p.lc <= 8
    ensures |LiteralSteps(p, c, history, byte)| == 8 == Modelled(LiteralSteps(p, c, history, byte))
  {
    hide LiteralCoder, PathSteps, MatchedSteps, BitsOf;
    var base := LITERAL + LITERAL_CODER_SIZE * LiteralCoder(p, history);
    if c.state < LIT_STATES {
      PathModelled(base, BitsOf(8, byte));
    } else {
      MatchedModelled(base, BitsOf(8, Back(history, c.rep0)), BitsOf(8, byte));
    }
  }

  lemma RepModelled(state: State, posState: nat, s: Symbol)
    requires s.ShortRep? || (s.LongRep? && SoundSymbol(s))
    ensures |RepMatchSteps(state, posState, s)| == Modelled(RepMatchSteps(state, posState, s)) <= 13
  {
    hide LenSteps;
    if s.ShortRep? {
      AllModelled(RepMatchSteps(state, posState, s));
    } else {
      AllModelled(RepSteps(state, posState, s.which));
      LenModelled(REP_LEN, posState, s.len);
      ModelledJoin(RepSteps(state, posState, s.which), LenSteps(REP_LEN, posState, s.len));
    }
  }

  /** What a symbol costs.  22 decisions with probabilities and 26 direct bits are the most for a
      match with direct bits.  Without them there may be one more: exactly a long match at one of
      the two farthest slots whose bits all have probabilities takes 23. */
  lemma SymbolCost(p: Props, c: Coding, history: seq<Byte>, s: Symbol)
    requires p.lc <= 8 && SoundSymbol(s)
    ensures var steps := SymbolSteps(p, c, history, s); var m := Modelled(steps);
      && |steps| - m <= 26 && m <= 23 && (|steps| > m ==> m <= 22)
      && (m == 23 <==> s.Match? && s.len >= 18 && (DistSlot(s.dist) == 12 || DistSlot(s.dist) == 13))
      && (|steps| > m <==> s.Match? && DistSlot(s.dist) >= DIST_MODEL_END)
  {
    hide LiteralSteps, LenSteps, DistSteps, RepMatchSteps, DistSlot;
    var pos := PosState(p, history);
    var kind := IS_MATCH + c.state * POS_STATES_MAX + pos;
    match s
    case Literal(byte) =>
      LiteralModelled(p, c, history, byte);
      AllModelled([Bit(kind, false)]);
      ModelledJoin([Bit(kind, false)], LiteralSteps(p, c, history, byte));
    case Match(len, dist) =>
      var head := [Bit(kind, true), Bit(IS_REP + c.state, false)];
      AllModelled(head);
      LenModelled(MATCH_LEN, pos, len);
      DistModelled(len, dist);
      SlotWithin(dist);
      ModelledJoin(LenSteps(MATCH_LEN, pos, len), DistSteps(len, dist));
      ModelledJoin(head, LenSteps(MATCH_LEN, pos, len) + DistSteps(len, dist));
    case _ =>
      var head := [Bit(kind, true), Bit(IS_REP + c.state, true)];
      AllModelled(head);
      RepModelled(c.state, pos, s);
      ModelledJoin(head, RepMatchSteps(c.state, pos, s));
  }

  /** A 32-bit distance has one of 64 slots. */
  lemma SlotWithin(dist: nat)
    requires dist < UINT32
    ensures DistSlot(dist) < DIST_SLOTS
  {
    assert ShiftLeft(4, 10) == 4096 && ShiftLeft(4, 20) == 0x40_0000;
    assert ShiftLeft(4, 30) == 0x1_0000_0000;
    SlotBound(dist, 30);
  }

  lemma {:induction false} SlotBound(dist: nat, n: nat)
    requires dist < ShiftLeft(4, n)
    ensures DistSlot(dist) < 4 + 2 * n
  {
    if dist >= 4 && n > 0 { SlotBound(dist / 2, n - 1); }
  }

  /** The longest match, from 64 bytes back, is such a symbol. */
  lemma CostliestMatch(p: Props, c: Coding, history: seq<Byte>)
    requires p.lc <= 8
    ensures Modelled(SymbolSteps(p, c, history, Match(MATCH_LEN_MAX, 64))) == |SymbolSteps(p, c, history, Match(MATCH_LEN_MAX, 64))| == 23
  {
    hide SymbolSteps;
    assert DistSlot(64) == 12 by { assert DistSlot(16) == 8; }
    SymbolCost(p, c, history, Match(MATCH_LEN_MAX, 64));
  }

  /** The distance a symbol copies from. */
  function Distance(c: Coding, s: Symbol): nat {
    match s
    case Literal(_) => 0
    case Match(_, dist) => dist
    case ShortRep => c.rep0
    case LongRep(which, _) => if which == 0 then c.rep0 else if which == 1 then c.rep1 else if which == 2 then c.rep2 else c.rep3
  }

  function Length(s: Symbol): nat {
    match s
    case Literal(_) => 1
    case Match(len, _) => len
    case ShortRep => 1
    case LongRep(_, len) => len
  }

  /** The coder's state after a symbol: the distance used moves to the front. */
  function NextCoding(c: Coding, s: Symbol): Coding {
    match s
    case Literal(_) => c.(state := StateLiteral(c.state))
    case Match(_, dist) => Coding(StateMatch(c.state), dist, c.rep0, c.rep1, c.rep2)
    case ShortRep => c.(state := StateShortRep(c.state))
    case LongRep(which, _) =>
      var moved := if which == 0 then c else if which == 1 then c.(rep0 := c.rep1, rep1 := c.rep0)
                   else if which == 2 then c.(rep0 := c.rep2, rep1 := c.rep0, rep2 := c.rep1)
                   else c.(rep0 := c.rep3, rep1 := c.rep0, rep2 := c.rep1, rep3 := c.rep2);
      moved.(state := StateLongRep(c.state))
  }

  /** The history after a symbol. */
  function Expand(history: seq<Byte>, c: Coding, s: Symbol): seq<Byte>
    requires s.Literal? || Distance(c, s) < |history|
  {
    if s.Literal? then history + [s.byte] else LzCopy(history, Distance(c, s), Length(s))
  }

  // ---- Runs of symbols ------------------------------------------------------------

  /** How far symbols have been decoded: the coder's state, and all that they stand for. */
  datatype Told = Told(coding: Coding, history: seq<Byte>)

  /** A symbol copies from what is there. */
  predicate Copies(t: Told, s: Symbol) {
    s.Literal? || Distance(t.coding, s) < |t.history|
  }

  function Tell(t: Told, s: Symbol): Told {
    Told(NextCoding(t.coding, s), if Copies(t, s) then Expand(t.history, t.coding, s) else t.history)
  }

  function TellAll(t: Told, symbols: seq<Symbol>): Told {
    if symbols == [] then t else Tell(TellAll(t, symbols[..|symbols| - 1]), symbols[|symbols| - 1])
  }

  /** Sound symbols, each copying from what those before it have made. */
  predicate SoundRun(t: Told, symbols: seq<Symbol>) {
    symbols == [] ||
    var n := |symbols| - 1;
    SoundRun(t, symbols[..n]) && SoundSymbol(symbols[n]) && Copies(TellAll(t, symbols[..n]), symbols[n])
  }

  // ---- What the state stands for ---------------------------------------------------

  /** The kinds of symbols that the names of the states tell apart. */
  datatype Kind = Lit | Mat | Rep | Short

  function KindOf(s: Symbol): Kind {
    match s
    case Literal(_) => Lit
    case Match(_, _) => Mat
    case ShortRep => Short
    case LongRep(_, _) => Rep
  }

  function Kinds(symbols: seq<Symbol>): (kinds: seq<Kind>)
    ensures |kinds| == |symbols| && forall i | 0 <= i < |symbols| :: kinds[i] == KindOf(symbols[i])
  {
    seq(|symbols|, i requires 0 <= i < |symbols| => KindOf(symbols[i]))
  }

  /** The i-th symbol before the last; a chunk begins as if after literals. */
  function Ago(kinds: seq<Kind>, i: nat): Kind {
    if i < |kinds| then kinds[|kinds| - 1 - i] else Lit
  }

  /** What is remembered of it: a short repeat is told from a long one only after a literal. */
  function Recalled(kinds: seq<Kind>, i: nat): Kind {
    if Ago(kinds, i).Short? && !Ago(kinds, i + 1).Lit? then Rep else Ago(kinds, i)
  }

  /** The state by its name, STATE_oldest_older_previous. */
  function Named(kinds: seq<Kind>): State {
    match (Recalled(kinds, 2), Recalled(kinds, 1), Recalled(kinds, 0))
    case (Lit, Lit, Lit) => 0
    case (Mat, Lit, Lit) => 1
    case (Rep, Lit, Lit) => 2
    case (Short, Lit, Lit) => 3
    case (_, Mat, Lit) => 4
    case (_, Rep, Lit) => 5
    case (_, Short, Lit) => 6
    case (_, Lit, Mat) => 7
    case (_, Lit, Rep) => 8
    case (_, Lit, Short) => 9
    case (_, _, Mat) => 10
    case (_, _, _) => 11
  }

  lemma NamedNext(c: Coding, kinds: seq<Kind>, s: Symbol)
    requires c.state == Named(kinds)
    ensures NextCoding(c, s).state == Named(kinds + [KindOf(s)])
  {
    var next := kinds + [KindOf(s)];
    assert forall i: nat :: Ago(next, i + 1) == Ago(kinds, i);
    assert Ago(next, 1) == Ago(kinds, 0) && Ago(next, 2) == Ago(kinds, 1) && Ago(next, 3) == Ago(kinds, 2);
  }

  /** The state of the coder is the one named after the last symbols, and its number tells
      whether the last one was a literal. */
  lemma {:induction false} StatesRemember(t: Told, symbols: seq<Symbol>)
    requires t.coding.state == 0
    ensures TellAll(t, symbols).coding.state == Named(Kinds(symbols))
    ensures Named(Kinds(symbols)) < LIT_STATES <==> symbols == [] || symbols[|symbols| - 1].Literal?
  {
    if symbols != [] {
      var n := |symbols| - 1;
      StatesRemember(t, symbols[..n]);
      assert Kinds(symbols) == Kinds(symbols[..n]) + [KindOf(symbols[n])];
      NamedNext(TellAll(t, symbols[..n]).coding, Kinds(symbols[..n]), symbols[n]);
      assert Ago(Kinds(symbols), 0) == KindOf(symbols[n]);
    }
  }

  /** What an encoder writes for a run of symbols. */
  function RunSteps(p: Props, t: Told, symbols: seq<Symbol>): seq<Step>
    requires p.lc <= 8 && SoundRun(t, symbols)
  {
    if symbols == [] then []
    else
      var n := |symbols| - 1;
      var before := TellAll(t, symbols[..n]);
      RunSteps(p, t, symbols[..n]) + SymbolSteps(p, before.coding, before.history, symbols[n])
  }

  lemma RunNothing(p: Props, t: Told)
    requires p.lc <= 8
    ensures TellAll(t, []) == t && SoundRun(t, []) && RunSteps(p, t, []) == []
  {
  }

  lemma RunNext(p: Props, t: Told, symbols: seq<Symbol>, s: Symbol)
    requires p.lc <= 8 && SoundRun(t, symbols) && SoundSymbol(s) && Copies(TellAll(t, symbols), s)
    ensures TellAll(t, symbols + [s]) == Tell(TellAll(t, symbols), s) && SoundRun(t, symbols + [s])
    ensures RunSteps(p, t, symbols + [s])
      == RunSteps(p, t, symbols) + SymbolSteps(p, TellAll(t, symbols).coding, TellAll(t, symbols).history, s)
  {
    assert (symbols + [s])[..|symbols|] == symbols;
  }

  /** Runs may be told in parts. */
  lemma {:induction false} RunJoin(t: Told, first: seq<Symbol>, more: seq<Symbol>)
    requires SoundRun(t, first) && SoundRun(TellAll(t, first), more)
    ensures TellAll(t, first + more) == TellAll(TellAll(t, first), more) && SoundRun(t, first + more)
  {
    if more == [] {
      assert first + more == first;
    } else {
      hide SymbolSteps, Tell;
      var init, last := RunLast(TellAll(t, first), more);
      RunJoin(t, first, init);
      assert first + more == (first + init) + [last];
      RunNext(NO_PROPS, TellAll(t, first), init, last);
      RunNext(NO_PROPS, t, first + init, last);
    }
  }

  /** No symbol copies from farther back than a dictionary of this size reaches. */
  predicate NearRun(t: Told, symbols: seq<Symbol>, size: nat) {
    symbols == [] ||
    var n := |symbols| - 1;
    NearRun(t, symbols[..n], size) && Near(TellAll(t, symbols[..n]), symbols[n], size)
  }

  predicate Near(t: Told, s: Symbol, size: nat) {
    s.Literal? || Distance(t.coding, s) < size
  }

  /** Before the last of the symbols, less than so much had been told. */
  predicate Begun(t: Told, symbols: seq<Symbol>, bound: int) {
    symbols == [] || |TellAll(t, symbols[..|symbols| - 1]).history| < bound
  }

  /** A run as a decoder makes it: nothing copied from beyond the dictionary, and nothing begun
      once so much had been told. */
  predicate Within(t: Told, symbols: seq<Symbol>, size: nat, bound: int) {
    NearRun(t, symbols, size) && Begun(t, symbols, bound)
  }

  /** After a run, a symbol that copies from what is not there, or from beyond the dictionary. */
  predicate Fails(t: Told, symbols: seq<Symbol>, bad: Symbol, size: nat, bound: int) {
    && SoundSymbol(bad) && |TellAll(t, symbols).history| < bound
    && !(Copies(TellAll(t, symbols), bad) && Near(TellAll(t, symbols), bad, size))
  }

  /** What is written for a run and such a symbol. */
  function StepsWith(p: Props, t: Told, symbols: seq<Symbol>, last: Symbol): seq<Step>
    requires p.lc <= 8 && SoundRun(t, symbols) && SoundSymbol(last)
  {
    RunSteps(p, t, symbols) + SymbolSteps(p, TellAll(t, symbols).coding, TellAll(t, symbols).history, last)
  }

  lemma NearNothing(t: Told, size: nat, bound: int)
    ensures Within(t, [], size, bound)
  {
  }

  lemma NearNext(t: Told, symbols: seq<Symbol>, s: Symbol, size: nat, bound: int)
    requires NearRun(t, symbols, size) && Near(TellAll(t, symbols), s, size) && |TellAll(t, symbols).history| < bound
    ensures Within(t, symbols + [s], size, bound)
  {
    assert (symbols + [s])[..|symbols|] == symbols;
  }

  lemma {:induction false} NearJoin(t: Told, first: seq<Symbol>, more: seq<Symbol>, size: nat, bound: int)
    requires SoundRun(t, first) && SoundRun(TellAll(t, first), more)
    requires Within(t, first, size, bound) && Within(TellAll(t, first), more, size, bound)
    ensures Within(t, first + more, size, bound)
  {
    if more == [] {
      assert first + more == first;
    } else {
      hide TellAll, SoundRun, Near;
      var init, last := RunLast(TellAll(t, first), more);
      NearInit(t, first, init, size, more, last);
      RunJoin(t, first, init);
      assert first + more == (first + init) + [last];
      NearNext(t, first + init, last, size, bound);
    }
  }

  lemma {:induction false} NearInit(t: Told, first: seq<Symbol>, init: seq<Symbol>, size: nat, more: seq<Symbol>, last: Symbol)
    requires SoundRun(t, first) && SoundRun(TellAll(t, first), init) && more == init + [last]
    requires NearRun(t, first, size) && NearRun(TellAll(t, first), more, size)
    ensures NearRun(t, first + init, size) && Near(TellAll(TellAll(t, first), init), last, size)
    decreases |init|
  {
    assert more[..|more| - 1] == init;
    if init == [] {
      assert first + init == first;
    } else {
      hide TellAll, SoundRun, Near;
      var i, l := RunLast(TellAll(t, first), init);
      NearInit(t, first, i, size, init, l);
      RunJoin(t, first, i);
      assert first + init == (first + i) + [l];
      assert (first + init)[..|first + init| - 1] == first + i;
    }
  }

  const NO_PROPS := Props(0, 0, 0)

  /** And so may what an encoder writes for them. */
  lemma {:induction false} StepsJoin(p: Props, t: Told, first: seq<Symbol>, more: seq<Symbol>)
    requires p.lc <= 8 && SoundRun(t, first) && SoundRun(TellAll(t, first), more) && SoundRun(t, first + more)
    ensures RunSteps(p, t, first + more) == RunSteps(p, t, first) + RunSteps(p, TellAll(t, first), more)
  {
    if more == [] {
      assert first + more == first;
      assert RunSteps(p, t, first) + [] == RunSteps(p, t, first);
    } else {
      hide SymbolSteps, RunSteps, TellAll, SoundRun, Tell;
      var init, last := RunLast(TellAll(t, first), more);
      RunJoin(t, first, init);
      StepsJoin(p, t, first, init);
      assert first + more == (first + init) + [last];
      RunNext(p, TellAll(t, first), init, last);
      RunNext(p, t, first + init, last);
      var mid := TellAll(t, first + init);
      Regroup(RunSteps(p, t, first), RunSteps(p, TellAll(t, first), init), SymbolSteps(p, mid.coding, mid.history, last));
    }
  }

  lemma RunLast(t: Told, symbols: seq<Symbol>) returns (init: seq<Symbol>, last: Symbol)
    requires SoundRun(t, symbols) && symbols != []
    ensures symbols == init + [last] && SoundRun(t, init) && SoundSymbol(last) && Copies(TellAll(t, init), last)
  {
    var n := |symbols| - 1;
    init, last := symbols[..n], symbols[n];
  }
}
