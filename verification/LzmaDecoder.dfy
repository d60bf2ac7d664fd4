/** Decoding LZMA symbols: lzma_literal, lzma_len, lzma_match, lzma_rep_match, lzma_main and
    lzma_props of xz_dec_lzma2.c, against the encoder's side in LzmaFormat. */
module LzmaDecoder {
  import opened Words
  import opened RangeCoder
  import opened RangeTrace
  import opened ByteBudget
  import opened RangeDecoder
  import opened XzDictionary
  import opened LzmaFormat

  class LzmaDec {
    const rc: RcDec
    const dict: Dictionary
    /** All probability variables, in the order of struct lzma_dec. */
    const probs: array<Prob>
    var rep0: nat
    var rep1: nat
    var rep2: nat
    var rep3: nat
    var state: State
    /** What is left to be copied of the last match. */
    var len: nat
    var lc: nat
    var literalPosMask: nat
    var posMask: nat

    constructor (size: nat)
      requires size > 0 && size % 16 == 0
      ensures fresh(rc) && fresh(dict) && fresh(dict.buf) && fresh(probs)
      ensures dict.Valid() && dict.end == size && dict.start == dict.pos == 0 && dict.history == []
      ensures probs.Length == PROBS_TOTAL && len == 0
    {
      rc := new RcDec();
      dict := new Dictionary(size);
      probs := new Prob[PROBS_TOTAL](i => 1024);
      rep0, rep1, rep2, rep3, state, len := 0, 0, 0, 0, 0, 0;
      lc, literalPosMask, posMask := 0, 0, 0;
    }

    ghost function Coded(): Coding
      reads this
    {
      Coding(state, rep0, rep1, rep2, rep3)
    }

    ghost function Set(): Props
      reads this
    {
      Props(lc, literalPosMask, posMask)
    }

    ghost predicate SoundSet()
      reads this
    {
      SoundProps(Set())
    }

    /** The dictionary is sound, and after a copy its distance stays within the history. */
    ghost predicate Valid()
      reads this, dict, dict.buf
    {
      && probs.Length == PROBS_TOTAL && dict.Valid() && SoundProps(Set())
      && (state >= LIT_STATES || len > 0 ==> rep0 < dict.full)
    }

    /** lzma_len: 4, 5 or 10 decisions. */
    method LzmaLen(base: nat, posState: nat)
      requires rc.Running(probs[..]) && Allowed(rc.meter.bits + 10, rc.meter.direct)
      requires posState < POS_STATES_MAX && base + LEN_CODER_SIZE <= probs.Length
      modifies rc`range, rc`code, rc`inPos, rc`meter, rc`log, probs, `len
      ensures rc.Running(probs[..]) && MATCH_LEN_MIN <= len <= MATCH_LEN_MAX
      ensures Went(rc.input, old(rc.Here()), rc.Here(), LenSteps(base, posState, len), 10, 0)
    {
      hide Went, rc.Running, PathSteps, BitsOf, Pow2;
      Pow2Values();
      ghost var a := rc.Here();
      var choice := rc.RcBit(probs, base);
      ghost var b := rc.Here();
      WentMeter(rc.input, a, b, [Bit(base, choice)], 1, 0);
      var symbol;
      if !choice {
        symbol := rc.RcBittree(probs, base + 2 + posState * 8, LEN_LOW_SYMBOLS, 3);
        len := MATCH_LEN_MIN + symbol - LEN_LOW_SYMBOLS;
        WentOn(rc.input, a, b, rc.Here(), [Bit(base, false)], PathSteps(base + 2 + posState * 8, BitsOf(3, len - 2)), 1, 0, 3, 0);
        WentLess(rc.input, a, rc.Here(), LenSteps(base, posState, len), 4, 0, 10, 0);
      } else {
        var choice2 := rc.RcBit(probs, base + 1);
        ghost var c := rc.Here();
        WentOn(rc.input, a, b, c, [Bit(base, true)], [Bit(base + 1, choice2)], 1, 0, 1, 0);
        assert [Bit(base, true)] + [Bit(base + 1, choice2)] == [Bit(base, true), Bit(base + 1, choice2)];
        WentMeter(rc.input, a, c, [Bit(base, true), Bit(base + 1, choice2)], 2, 0);
        if !choice2 {
          symbol := rc.RcBittree(probs, base + 130 + posState * 8, LEN_MID_SYMBOLS, 3);
          len := MATCH_LEN_MIN + LEN_LOW_SYMBOLS + symbol - LEN_MID_SYMBOLS;
          WentOn(rc.input, a, c, rc.Here(), [Bit(base, true), Bit(base + 1, false)], PathSteps(base + 130 + posState * 8, BitsOf(3, len - 10)), 2, 0, 3, 0);
          WentLess(rc.input, a, rc.Here(), LenSteps(base, posState, len), 5, 0, 10, 0);
        } else {
          symbol := rc.RcBittree(probs, base + 258, LEN_HIGH_SYMBOLS, 8);
          len := MATCH_LEN_MIN + LEN_LOW_SYMBOLS + LEN_MID_SYMBOLS + symbol - LEN_HIGH_SYMBOLS;
          WentOn(rc.input, a, c, rc.Here(), [Bit(base, true), Bit(base + 1, true)], PathSteps(base + 258, BitsOf(8, len - 18)), 2, 0, 8, 0);
        }
      }
    }

    /** The distance of a match, from its slot on. */
    method LzmaDistance()
      requires rc.Running(probs[..]) && probs.Length == PROBS_TOTAL && MATCH_LEN_MIN <= len
      requires rc.meter.direct == 0 && Allowed(rc.meter.bits + 11, 0) && Allowed(rc.meter.bits + 10, MAX_DIRECT)
      modifies rc`range, rc`code, rc`inPos, rc`meter, rc`log, probs, `rep0
      ensures rc.Running(probs[..]) && rep0 < UINT32
      ensures Went(rc.input, old(rc.Here()), rc.Here(), DistSteps(len, rep0), 11, MAX_DIRECT)
    {
      hide Went, rc.Running, PathSteps, BitsOf, Pow2, SlotBase, FooterBits, DistSlot, FooterSteps;
      Pow2Values();
      ghost var a := rc.Here();
      var distState := if len < DIST_STATES + MATCH_LEN_MIN then len - MATCH_LEN_MIN else DIST_STATES - 1;
      var distSlot := rc.RcBittree(probs, DIST_SLOT + distState * DIST_SLOTS, DIST_SLOTS, 6);
      distSlot := distSlot - DIST_SLOTS;
      ghost var b := rc.Here();
      ghost var slotSteps := PathSteps(DIST_SLOT + DistState(len) * DIST_SLOTS, BitsOf(6, distSlot));
      WentMeter(rc.input, a, b, slotSteps, 6, 0);
      ghost var rest := LzmaFooter(distSlot);
      SlotOfDist(distSlot, rest);
      WentOn(rc.input, a, b, rc.Here(), slotSteps, FooterSteps(distSlot, rest), 6, 0, 5, MAX_DIRECT);
    }

    /** The bits of a distance below its two highest: by a tree of their own for a near
        distance, and direct but for the lowest four for a far one. */
    method LzmaFooter(distSlot: nat) returns (ghost rest: nat)
      requires rc.Running(probs[..]) && probs.Length == PROBS_TOTAL && distSlot < DIST_SLOTS
      requires rc.meter.direct == 0 && Allowed(rc.meter.bits + 5, 0) && Allowed(rc.meter.bits + 4, MAX_DIRECT)
      modifies rc`range, rc`code, rc`inPos, rc`meter, rc`log, probs, `rep0
      ensures rc.Running(probs[..]) && rest < Pow2(FooterBits(distSlot)) && rep0 == SlotBase(distSlot) + rest < UINT32
      ensures Went(rc.input, old(rc.Here()), rc.Here(), FooterSteps(distSlot, rest), 5, MAX_DIRECT)
    {
      hide Went, rc.Running, PathSteps, BitsOf, BitsUp, Pow2, ShiftLeft, DirectSteps;
      FooterBounds(distSlot);
      Pow2Values();
      if distSlot < DIST_MODEL_START {
        rep0 := distSlot;
        rest := 0;
        rc.RunningIdle(probs[..]);
        WentNowhere(rc.input, rc.Here());
        WentLess(rc.input, rc.Here(), rc.Here(), [], 0, 0, 5, MAX_DIRECT);
        return;
      }
      var limit := distSlot / 2 - 1;
      rep0 := 2 + distSlot % 2;
      if distSlot < DIST_MODEL_END {
        rep0 := ShiftLeft(rep0, limit);
        ghost var base := rep0;
        rep0 := rc.RcBittreeReverse(probs, DIST_SPECIAL + rep0 - distSlot - 1, rep0, limit);
        rest := rep0 - base;
        WentLess(rc.input, old(rc.Here()), rc.Here(), FooterSteps(distSlot, rest), limit, 0, 5, MAX_DIRECT);
      } else {
        rest := LzmaFar(limit);
      }
    }

    /** The footer of a far distance. */
    method LzmaFar(limit: nat) returns (ghost rest: nat)
      requires rc.Running(probs[..]) && probs.Length == PROBS_TOTAL && 6 <= limit <= 30 && 2 <= rep0 <= 3
      requires rc.meter.direct == 0 && Allowed(rc.meter.bits + 4, MAX_DIRECT)
      modifies rc`range, rc`code, rc`inPos, rc`meter, rc`log, probs, `rep0
      ensures rc.Running(probs[..]) && rest < Pow2(limit) && rep0 == ShiftLeft(old(rep0), limit) + rest
      ensures Went(rc.input, old(rc.Here()), rc.Here(),
                   DirectSteps(BitsOf(limit - ALIGN_BITS, rest / ALIGN_SIZE)) + PathSteps(DIST_ALIGN, BitsUp(ALIGN_BITS, rest % ALIGN_SIZE)), 5, MAX_DIRECT)
    {
      hide Went, rc.Running, PathSteps, BitsOf, BitsUp, DirectSteps, Pow2, ShiftLeft;
      Pow2Values();
      ghost var a := rc.Here();
      ghost var high;
      rep0, high := rc.RcDirect(probs, rep0, limit - ALIGN_BITS);
      ghost var b := rc.Here();
      WentMeter(rc.input, a, b, DirectSteps(BitsOf(limit - ALIGN_BITS, high)), 0, limit - ALIGN_BITS);
      Shift4(old(rep0), limit, high);
      rep0 := rep0 * ALIGN_SIZE;
      ghost var base := rep0;
      rep0 := rc.RcBittreeReverse(probs, DIST_ALIGN, rep0, ALIGN_BITS);
      rest := high * ALIGN_SIZE + (rep0 - base);
      WentOn(rc.input, a, b, rc.Here(), DirectSteps(BitsOf(limit - ALIGN_BITS, high)), PathSteps(DIST_ALIGN, BitsUp(ALIGN_BITS, rep0 - base)), 0, limit - ALIGN_BITS, 4, 0);
      WentLess(rc.input, a, rc.Here(), DirectSteps(BitsOf(limit - ALIGN_BITS, high)) + PathSteps(DIST_ALIGN, BitsUp(ALIGN_BITS, rep0 - base)), 4, limit - ALIGN_BITS, 5, MAX_DIRECT);
    }

    /** lzma_literal_probs: where the literal coder for this place begins. */
    method LzmaLiteralProbs() returns (base: nat)
      requires Valid()
      ensures base == LITERAL + LITERAL_CODER_SIZE * LiteralCoder(Set(), dict.history) && base + LITERAL_CODER_SIZE <= PROBS_TOTAL
    {
      var prevByte := dict.DictGet(0);
      var low := prevByte / Pow2(8 - lc);
      var high := ShiftLeft(dict.pos % (literalPosMask + 1), lc);
      LiteralCoderFits(Set(), dict.history, dict.pos);
      base := LITERAL + LITERAL_CODER_SIZE * (low + high);
    }

    /** The second loop of lzma_literal. */
    method MatchedLiteral(base: nat, byte: Byte) returns (symbol: nat)
      requires rc.Running(probs[..]) && Allowed(rc.meter.bits + 8, rc.meter.direct) && base + LITERAL_CODER_SIZE <= probs.Length
      modifies rc`range, rc`code, rc`inPos, rc`meter, rc`log, probs
      ensures rc.Running(probs[..]) && 0x100 <= symbol < 0x200
      ensures Went(rc.input, old(rc.Here()), rc.Here(), MatchedSteps(base, BitsOf(8, byte), BitsOf(8, symbol - 0x100)), 8, 0)
    {
      hide Went, rc.Running, Node, MatchedSteps, BitsOf, Pow2;
      symbol := 1;
      var matchByte: nat := 2 * byte;
      var offset: nat := 0x100;
      ghost var path: seq<bool> := [];
      ghost var matched := BitsOf(8, byte);
      MatchedBegins(base, matched);
      rc.RunningIdle(probs[..]);
      WentNowhere(rc.input, rc.Here());
      while symbol < 0x100
        invariant rc.Running(probs[..]) && |path| <= 8 && symbol == Node(path) < 0x200 && (symbol < 0x100 <==> |path| < 8)
        invariant offset == (if path == matched[..|path|] then 0x100 else 0) && matchByte == ShiftLeft(byte, |path| + 1)
        invariant Went(rc.input, old(rc.Here()), rc.Here(), MatchedSteps(base, matched, path), |path|, 0)
        decreases 8 - |path|
      {
        ghost var point := rc.Here();
        WentMeter(rc.input, old(rc.Here()), point, MatchedSteps(base, matched, path), |path|, 0);
        MatchBit(byte, |path|);
        var matchBit: nat := if offset == 0x100 && matchByte / 256 % 2 == 1 then 0x100 else 0;
        matchByte := 2 * matchByte;
        var bit := rc.RcBit(probs, base + offset + matchBit + symbol);
        MatchedGrows(base, matched, path, bit);
        WentOn(rc.input, old(rc.Here()), point, rc.Here(), MatchedSteps(base, matched, path),
               [Bit(base + Section(matched, path) + Node(path), bit)], |path|, 0, 1, 0);
        symbol := if bit then 2 * symbol + 1 else 2 * symbol;
        if bit {
          offset := if matchBit == 0x100 then offset else 0;
        } else {
          offset := if matchBit == 0x100 then 0 else offset;
        }
        path := path + [bit];
      }
      BitsOfNode(path);
      Pow2Values();
    }

    lemma LastInside()
      requires Valid()
      ensures dict.Valid() && (state >= LIT_STATES || len > 0 ==> rep0 < dict.full && rep0 < |dict.history|)
      ensures lc <= 8
    {
    }

    /** The symbol of lzma_literal, decoded in the context of the byte before it, or against
        the byte at the last distance after a match. */
    method LiteralSymbol() returns (symbol: nat)
      requires Valid() && rc.Running(probs[..]) && Allowed(rc.meter.bits + 8, rc.meter.direct)
      modifies rc`range, rc`code, rc`inPos, rc`meter, rc`log, probs
      ensures 0x100 <= symbol < 0x200 && rc.Running(probs[..])
      ensures Went(rc.input, old(rc.Here()), rc.Here(), LiteralSteps(Set(), Coded(), dict.history, symbol - 0x100), 8, 0)
    {
      hide rc.Running, Went, LiteralCoder, PathSteps, MatchedSteps, BitsOf, Pow2, SoundProps, dict.Valid;
      LastInside();
      var base := LzmaLiteralProbs();
      PowTable();
      if state < LIT_STATES {
        symbol := rc.RcBittree(probs, base, 0x100, 8);
      } else {
        var matchByte := dict.DictGet(rep0);
        assert matchByte == Back(dict.history, rep0);
        symbol := MatchedLiteral(base, matchByte);
      }
    }

    /** lzma_literal */
    method LzmaLiteral() returns (ghost byte: Byte)
      requires Valid() && len == 0 && dict.pos < dict.limit
      requires rc.Running(probs[..]) && Allowed(rc.meter.bits + 8, rc.meter.direct)
      modifies rc`range, rc`code, rc`inPos, rc`meter, rc`log, probs, `state, dict`pos, dict`full, dict`history, dict.buf
      ensures Valid() && dict.history == old(dict.history) + [byte] && dict.pos == old(dict.pos) + 1
      ensures state == StateLiteral(old(state)) && rc.Running(probs[..])
      ensures Went(rc.input, old(rc.Here()), rc.Here(), LiteralSteps(old(Set()), old(Coded()), old(dict.history), byte), 8, 0)
    {
      hide rc.Running, Went, Ring, LiteralSteps;
      var symbol := LiteralSymbol();
      byte := symbol - 0x100;
      dict.DictPut(symbol % 0x100);
      state := StateLiteral(state);
    }

    /** lzma_match: the distances move up, and a length and a new distance are decoded. */
    method LzmaMatch(posState: nat)
      requires rc.Running(probs[..]) && probs.Length == PROBS_TOTAL && posState < POS_STATES_MAX
      requires rc.meter.bits <= 2 && rc.meter.direct == 0
      modifies rc`range, rc`code, rc`inPos, rc`meter, rc`log, probs, `rep0, `rep1, `rep2, `rep3, `state, `len
      ensures rc.Running(probs[..]) && SoundSymbol(Match(len, rep0))
      ensures Coded() == NextCoding(old(Coded()), Match(len, rep0))
      ensures Went(rc.input, old(rc.Here()), rc.Here(), LenSteps(MATCH_LEN, posState, len) + DistSteps(len, rep0), 21, MAX_DIRECT)
    {
      hide Went, rc.Running, LenSteps, DistSteps;
      ghost var a := rc.Here();
      state := StateMatch(state);
      rep3 := rep2;
      rep2 := rep1;
      rep1 := rep0;
      LzmaLen(MATCH_LEN, posState);
      ghost var b := rc.Here();
      WentMeter(rc.input, a, b, LenSteps(MATCH_LEN, posState, len), 10, 0);
      LzmaDistance();
      WentOn(rc.input, a, b, rc.Here(), LenSteps(MATCH_LEN, posState, len), DistSteps(len, rep0), 10, 0, 11, MAX_DIRECT);
    }

    /** The choice among the four last distances in lzma_rep_match. */
    method ChooseRep(posState: nat) returns (short: bool, ghost which: nat)
      requires rc.Running(probs[..]) && probs.Length == PROBS_TOTAL && posState < POS_STATES_MAX
      requires Allowed(rc.meter.bits + 3, rc.meter.direct)
      modifies rc`range, rc`code, rc`inPos, rc`meter, rc`log, probs, `rep0, `rep1, `rep2, `rep3
      ensures rc.Running(probs[..]) && which < 4 && (short ==> which == 0 && Coded() == old(Coded()))
      ensures !short ==> Coded() == NextCoding(old(Coded()), LongRep(which, MATCH_LEN_MIN)).(state := state)
      ensures Went(rc.input, old(rc.Here()), rc.Here(),
                   if short then [Bit(IS_REP0 + state, false), Bit(IS_REP0_LONG + state * POS_STATES_MAX + posState, false)]
                   else RepSteps(state, posState, which), 3, 0)
    {
      hide Went, rc.Running;
      ghost var a := rc.Here();
      short, which := false, 0;
      var bit := rc.RcBit(probs, IS_REP0 + state);
      ghost var b := rc.Here();
      WentMeter(rc.input, a, b, [Bit(IS_REP0 + state, bit)], 1, 0);
      if !bit {
        var long := rc.RcBit(probs, IS_REP0_LONG + state * POS_STATES_MAX + posState);
        short := !long;
        WentPair(rc.input, a, b, rc.Here(), Bit(IS_REP0 + state, false), Bit(IS_REP0_LONG + state * POS_STATES_MAX + posState, long));
        return;
      }
      var tmp: nat;
      var bit1 := rc.RcBit(probs, IS_REP1 + state);
      ghost var c := rc.Here();
      WentPair(rc.input, a, b, c, Bit(IS_REP0 + state, true), Bit(IS_REP1 + state, bit1));
      if !bit1 {
        tmp := rep1;
        which := 1;
      } else {
        WentMeter(rc.input, a, b, [Bit(IS_REP0 + state, true)], 1, 0);
        WentMeter(rc.input, b, c, [Bit(IS_REP1 + state, true)], 1, 0);
        var bit2 := rc.RcBit(probs, IS_REP2 + state);
        WentTriple(rc.input, a, b, c, rc.Here(), Bit(IS_REP0 + state, true), Bit(IS_REP1 + state, true), Bit(IS_REP2 + state, bit2));
        if !bit2 {
          tmp := rep2;
          which := 2;
        } else {
          tmp := rep3;
          rep3 := rep2;
          which := 3;
        }
        rep2 := rep1;
      }
      rep1 := rep0;
      rep0 := tmp;
    }

    /** lzma_rep_match: one byte at the last distance, or a length at one of the last four,
        which moves to the front. */
    method LzmaRepMatch(posState: nat) returns (ghost symbol: Symbol)
      requires rc.Running(probs[..]) && probs.Length == PROBS_TOTAL && posState < POS_STATES_MAX
      requires rc.meter.bits <= 2 && rc.meter.direct == 0
      modifies rc`range, rc`code, rc`inPos, rc`meter, rc`log, probs, `rep0, `rep1, `rep2, `rep3, `state, `len
      ensures rc.Running(probs[..]) && SoundSymbol(symbol) && (symbol.ShortRep? || symbol.LongRep?)
      ensures Coded() == NextCoding(old(Coded()), symbol) && len == Length(symbol) && rep0 == Distance(old(Coded()), symbol)
      ensures Went(rc.input, old(rc.Here()), rc.Here(), RepMatchSteps(old(state), posState, symbol), 13, 0)
    {
      hide Went, rc.Running, LenSteps, RepSteps;
      ghost var a := rc.Here();
      ghost var before := state;
      var short;
      ghost var which;
      short, which := ChooseRep(posState);
      ghost var b := rc.Here();
      if short {
        state := StateShortRep(state);
        len := 1;
        symbol := ShortRep;
        WentLess(rc.input, a, b, RepMatchSteps(before, posState, symbol), 3, 0, 13, 0);
        return;
      }
      WentMeter(rc.input, a, b, RepSteps(before, posState, which), 3, 0);
      state := StateLongRep(state);
      LzmaLen(REP_LEN, posState);
      symbol := LongRep(which, len);
      WentOn(rc.input, a, b, rc.Here(), RepSteps(before, posState, which), LenSteps(REP_LEN, posState, len), 3, 0, 10, 0);
    }

    /** What has been decoded, with what is still to be copied of the last match. */
    ghost function Telling(): Told
      requires Valid()
      reads this, dict, dict.buf
    {
      Told(Coded(), LzCopy(dict.history, rep0, len))
    }

    /** A literal, from its first decision on. */
    method DecodeLiteral(ghost from: Point, ghost kind: Step) returns (ghost symbol: Symbol)
      requires Valid() && len == 0 && dict.pos < dict.limit
      requires rc.Running(probs[..]) && rc.meter.bits <= 1 && rc.meter.direct == 0
      requires kind == Bit(IS_MATCH + state * POS_STATES_MAX + PosState(Set(), dict.history), false)
      requires Went(rc.input, from, rc.Here(), [kind], 1, 0)
      modifies rc`range, rc`code, rc`inPos, rc`meter, rc`log, probs, `state, dict`pos, dict`full, dict`history, dict.buf
      ensures symbol.Literal? && rc.Running(probs[..]) && Valid() && Telling() == Tell(old(Telling()), symbol)
      ensures dict.pos == old(dict.pos) + 1 && |dict.history| == |old(dict.history)| + 1 && old(dict.history) <= dict.history
      ensures Went(rc.input, from, rc.Here(), SymbolSteps(Set(), old(Coded()), old(dict.history), symbol), 23, MAX_DIRECT)
    {
      hide Went, rc.Running, LiteralSteps, dict.Valid;
      ghost var point := rc.Here();
      ghost var coding, history := Coded(), dict.history;
      ghost var byte := LzmaLiteral();
      symbol := Literal(byte);
      WentOn(rc.input, from, point, rc.Here(), [kind], LiteralSteps(Set(), coding, history, byte), 1, 0, 8, 0);
      WentLess(rc.input, from, rc.Here(), SymbolSteps(Set(), coding, history, symbol), 9, 0, 23, MAX_DIRECT);
    }

    /** A match or a repeated match, from its second decision on; the copy is not made yet. */
    method DecodeMatch(posState: nat, ghost from: Point, ghost kind: Step) returns (ghost symbol: Symbol)
      requires Valid() && posState == PosState(Set(), dict.history) < POS_STATES_MAX
      requires rc.Running(probs[..]) && rc.meter.bits <= 1 && rc.meter.direct == 0
      requires kind == Bit(IS_MATCH + state * POS_STATES_MAX + posState, true)
      requires Went(rc.input, from, rc.Here(), [kind], 1, 0)
      modifies rc`range, rc`code, rc`inPos, rc`meter, rc`log, probs, `rep0, `rep1, `rep2, `rep3, `state, `len
      ensures !symbol.Literal? && SoundSymbol(symbol) && rc.Running(probs[..])
      ensures Coded() == NextCoding(old(Coded()), symbol) && len == Length(symbol) && rep0 == Distance(old(Coded()), symbol)
      ensures Went(rc.input, from, rc.Here(), SymbolSteps(Set(), old(Coded()), dict.history, symbol), 23, MAX_DIRECT)
    {
      hide Went, rc.Running, LenSteps, DistSteps, RepSteps, PosState, dict.Valid;
      ghost var coding, history, p := Coded(), dict.history, Set();
      ghost var a := rc.Here();
      var rep := rc.RcBit(probs, IS_REP + state);
      ghost var b := rc.Here();
      WentMeter(rc.input, a, b, [Bit(IS_REP + coding.state, rep)], 1, 0);
      WentOn(rc.input, from, a, b, [kind], [Bit(IS_REP + coding.state, rep)], 1, 0, 1, 0);
      assert [kind] + [Bit(IS_REP + coding.state, rep)] == [kind, Bit(IS_REP + coding.state, rep)];
      if rep {
        symbol := LzmaRepMatch(posState);
        WentOn(rc.input, from, b, rc.Here(), [kind, Bit(IS_REP + coding.state, true)], RepMatchSteps(coding.state, posState, symbol), 2, 0, 13, 0);
        WentLess(rc.input, from, rc.Here(), SymbolSteps(p, coding, history, symbol), 15, 0, 23, MAX_DIRECT);
      } else {
        LzmaMatch(posState);
        symbol := Match(len, rep0);
        WentOn(rc.input, from, b, rc.Here(), [kind, Bit(IS_REP + coding.state, false)], LenSteps(MATCH_LEN, posState, len) + DistSteps(len, rep0), 2, 0, 21, MAX_DIRECT);
      }
    }

    /** The copy of a match that has just been decoded. */
    method Repeat(ghost t: Told, ghost symbol: Symbol) returns (ok: bool)
      requires dict.Valid() && dict.pos < dict.limit && len > 0 && !symbol.Literal?
      requires t.history == dict.history && Coded() == NextCoding(t.coding, symbol) && len == Length(symbol) && rep0 == Distance(t.coding, symbol)
      requires probs.Length == PROBS_TOTAL && SoundProps(Set())
      modifies `len, dict`pos, dict`full, dict`history, dict.buf
      ensures ok <==> Copies(t, symbol) && rep0 < dict.size
      ensures !ok ==> dict.history == old(dict.history)
      ensures ok ==> Valid() && Telling() == Tell(t, symbol) && old(dict.pos) < dict.pos <= dict.limit
      ensures ok ==> dict.pos == dict.limit || len == 0
      ensures ok ==> |dict.history| - |old(dict.history)| == dict.pos - old(dict.pos) && old(dict.history) <= dict.history
    {
      hide Ring, LzCopy, InStep, NextCoding;
      FullCovers();
      ghost var history, n := dict.history, len;
      ok, len := dict.DictRepeat(len, rep0);
      if ok {
        LzCopyJoin(history, rep0, n - len, len);
      }
    }

    lemma FullCovers()
      requires dict.Valid()
      ensures rep0 < dict.full && rep0 < dict.size <==> rep0 < |dict.history| && rep0 < dict.size
      ensures dict.full <= |dict.history|
    {
    }

    /** One turn of the loop of lzma_main: one symbol, of the history as it is. */
    method DecodeSymbol() returns (ok: bool, ghost symbol: Symbol)
      requires Valid() && len == 0 && dict.pos < dict.limit
      requires rc.Running(probs[..]) && rc.meter.bits == 0 && rc.meter.direct == 0
      modifies rc`range, rc`code, rc`inPos, rc`meter, rc`log, probs, `rep0, `rep1, `rep2, `rep3, `state, `len
      modifies dict`pos, dict`full, dict`history, dict.buf
      ensures SoundSymbol(symbol) && rc.Running(probs[..])
      ensures Went(rc.input, old(rc.Here()), rc.Here(), SymbolSteps(Set(), old(Coded()), old(dict.history), symbol), 23, MAX_DIRECT)
      ensures ok <==> Copies(old(Telling()), symbol) && (symbol.Literal? || Distance(old(Coded()), symbol) < dict.size)
      ensures ok ==> Valid() && Telling() == Tell(old(Telling()), symbol)
      ensures ok ==> old(dict.pos) < dict.pos <= dict.limit && (dict.pos == dict.limit || len == 0)
      ensures ok ==> |dict.history| - |old(dict.history)| == dict.pos - old(dict.pos) && old(dict.history) <= dict.history
    {
      hide Went, rc.Running, SymbolSteps, Tell, dict.Valid;
      PosStateHere();
      ghost var from, t := rc.Here(), Telling();
      LzCopyNone(dict.history, rep0);
      var posState := dict.pos % (posMask + 1);
      ghost var before := state;
      var isMatch := rc.RcBit(probs, IS_MATCH + state * POS_STATES_MAX + posState);
      ghost var kind := Bit(IS_MATCH + state * POS_STATES_MAX + posState, isMatch);
      WentMeter(rc.input, from, rc.Here(), [kind], 1, 0);
      if !isMatch {
        symbol := DecodeLiteral(from, kind);
        ok := true;
      } else {
        symbol := DecodeMatch(posState, from, kind);
        ok := Repeat(t, symbol);
      }
    }

    lemma PosStateHere()
      requires Valid()
      ensures dict.pos % (posMask + 1) == PosState(Set(), dict.history) < POS_STATES_MAX
    {
      MaskedPosition(|dict.history|, dict.pos, posMask);
    }

    /** The first statement of lzma_main: a copy that the last call had no room to finish. */
    method FinishRepeat()
      requires Valid() && dict.pos <= dict.limit
      modifies `len, dict`pos, dict`full, dict`history, dict.buf
      ensures Valid() && Telling() == old(Telling()) && old(dict.pos) <= dict.pos <= dict.limit
      ensures dict.pos == dict.limit || len == 0
      ensures |dict.history| - |old(dict.history)| == dict.pos - old(dict.pos) && old(dict.history) <= dict.history
      ensures old(len) > 0 && old(dict.pos) < dict.limit ==> old(dict.pos) < dict.pos
    {
      hide Ring, LzCopy, InStep;
      if dict.pos < dict.limit && len > 0 {
        FullCovers();
        FullWithin();
        ghost var history, n := dict.history, len;
        var ok;
        ok, len := dict.DictRepeat(len, rep0);
        LzCopyJoin(history, rep0, n - len, len);
      }
    }

    lemma FullWithin()
      requires dict.Valid()
      ensures dict.full <= dict.size
    {
    }

    /** How much will have been made when the dictionary is full to its limit. */
    ghost function Reach(): int
      reads dict`history, dict`pos, dict`limit
    {
      |dict.history| - dict.pos + dict.limit
    }

    /** The loop of lzma_main. */
    method MainLoop() returns (ok: bool, ghost symbols: seq<Symbol>, ghost bad: Symbol)
      requires Valid() && dict.pos <= dict.limit && (dict.pos == dict.limit || len == 0)
      requires rc.Idle(probs[..]) && rc.inPos <= rc.inLimit && rc.inLimit + LZMA_IN_REQUIRED <= |rc.input|
      modifies rc`range, rc`code, rc`inPos, rc`meter, rc`log, probs, `rep0, `rep1, `rep2, `rep3, `state, `len
      modifies dict`pos, dict`full, dict`history, dict.buf
      ensures rc.Running(probs[..]) && rc.meter.base <= rc.inLimit && SoundRun(old(Telling()), symbols) && Set() == old(Set())
      ensures Within(old(Telling()), symbols, dict.size, old(Reach()))
      ensures ok ==> Valid() && Telling() == TellAll(old(Telling()), symbols) && Set() == old(Set())
      ensures ok ==> Wrote(rc.input, old(rc.log), old(rc.inPos), rc.log, rc.inPos, RunSteps(Set(), old(Telling()), symbols))
      ensures ok ==> old(dict.pos) <= dict.pos <= dict.limit && (dict.pos == dict.limit || rc.inPos > rc.inLimit)
      ensures ok ==> |dict.history| - |old(dict.history)| == dict.pos - old(dict.pos) && old(dict.history) <= dict.history && (dict.pos == dict.limit || len == 0)
      ensures ok && old(dict.pos) < dict.limit ==> old(dict.pos) < dict.pos
      ensures !ok ==> Fails(old(Telling()), symbols, bad, dict.size, old(Reach()))
      ensures !ok ==> Wrote(rc.input, old(rc.log), old(rc.inPos), rc.log, rc.inPos, StepsWith(Set(), old(Telling()), symbols, bad))
    {
      hide Within, Near;
      hide rc.Running, rc.Idle, SymbolSteps, RunSteps, SoundRun, TellAll, Ring, LzCopy, Tell;
      ok, symbols, bad := true, [], ShortRep;
      ghost var told := Telling();
      ghost var l0, p0 := rc.log, rc.inPos;
      RunNothing(Set(), told);
      NearNothing(told, dict.size, old(Reach()));
      WroteNothing(rc.input, l0, p0);
      rc.StartSymbol(probs[..]);
      while dict.pos < dict.limit && rc.inPos <= rc.inLimit
        invariant Valid() && Telling() == TellAll(told, symbols) && SoundRun(told, symbols)
        invariant Within(told, symbols, dict.size, old(Reach()))
        invariant old(dict.pos) <= dict.pos <= dict.limit && (dict.pos == dict.limit || len == 0)
        invariant dict.pos == old(dict.pos) ==> rc.inPos == p0
        invariant |dict.history| - |old(dict.history)| == dict.pos - old(dict.pos) && old(dict.history) <= dict.history
        invariant rc.Running(probs[..]) && rc.meter.base <= rc.inLimit
        invariant Wrote(rc.input, old(rc.log), old(rc.inPos), rc.log, rc.inPos, RunSteps(Set(), told, symbols))
        decreases dict.limit - dict.pos
      {
        ghost var symbol;
        rc.RunningIdle(probs[..]);
        rc.StartSymbol(probs[..]);
        ghost var from, now := rc.Here(), Telling();
        LzCopyNone(dict.history, rep0);
        ok, symbol := DecodeSymbol();
        WroteOn(rc.input, l0, p0, from, rc.Here(), RunSteps(Set(), told, symbols), SymbolSteps(Set(), now.coding, now.history, symbol), 23, MAX_DIRECT);
        if !ok {
          bad := symbol;
          IsFailure(told, symbols, bad, dict.size, old(Reach()));
          return;
        }
        IsNear(told, symbols, symbol, dict.size, old(Reach()));
        RunNext(Set(), told, symbols, symbol);
        symbols := symbols + [symbol];
      }
    }

    lemma IsFailure(t: Told, symbols: seq<Symbol>, bad: Symbol, size: nat, bound: int)
      requires SoundSymbol(bad) && |TellAll(t, symbols).history| < bound
      requires !(Copies(TellAll(t, symbols), bad) && (bad.Literal? || Distance(TellAll(t, symbols).coding, bad) < size))
      ensures Fails(t, symbols, bad, size, bound)
    {
      hide TellAll;
    }

    lemma IsNear(t: Told, symbols: seq<Symbol>, s: Symbol, size: nat, bound: int)
      requires Within(t, symbols, size, bound) && |TellAll(t, symbols).history| < bound
      requires s.Literal? || Distance(TellAll(t, symbols).coding, s) < size
      ensures Within(t, symbols + [s], size, bound)
    {
      hide TellAll, NearRun;
      NearNext(t, symbols, s, size, bound);
    }

    /** lzma_main decodes symbols until the dictionary is full to its limit, or the input may
        not last for another one.  It reads at most 21 bytes beyond the input limit.  What it
        tells is what an encoder would have written the decoded decisions for. */
    method LzmaMain() returns (ok: bool, ghost symbols: seq<Symbol>, ghost bad: Symbol)
      requires Valid() && dict.pos <= dict.limit
      requires rc.Idle(probs[..]) && rc.inPos <= rc.inLimit && rc.inLimit + LZMA_IN_REQUIRED <= |rc.input|
      modifies rc`range, rc`code, rc`inPos, rc`meter, rc`log, probs, `rep0, `rep1, `rep2, `rep3, `state, `len
      modifies dict`pos, dict`full, dict`history, dict.buf
      ensures rc.inPos <= rc.inLimit + LZMA_IN_REQUIRED && SoundRun(old(Telling()), symbols) && rc.Idle(probs[..]) && Set() == old(Set())
      ensures Within(old(Telling()), symbols, dict.size, old(Reach()))
      ensures ok ==> Valid() && Telling() == TellAll(old(Telling()), symbols) && Set() == old(Set())
      ensures ok ==> rc.Idle(probs[..]) && RC_TOP_VALUE <= rc.range
      ensures ok ==> Wrote(rc.input, old(rc.log), old(rc.inPos), rc.log, rc.inPos, RunSteps(Set(), old(Telling()), symbols))
      ensures ok ==> old(dict.pos) <= dict.pos <= dict.limit && (dict.pos == dict.limit || rc.inPos > rc.inLimit)
      ensures ok ==> |dict.history| - |old(dict.history)| == dict.pos - old(dict.pos) && old(dict.history) <= dict.history && (dict.pos == dict.limit || len == 0)
      ensures ok && old(dict.pos) < dict.limit ==> old(dict.pos) < dict.pos
      ensures !ok ==> Fails(old(Telling()), symbols, bad, dict.size, old(Reach()))
      ensures !ok ==> Wrote(rc.input, old(rc.log), old(rc.inPos), rc.log, rc.inPos, StepsWith(Set(), old(Telling()), symbols, bad))
    {
      hide Within, Fails, SymbolSteps;
      hide rc.Running, rc.Idle, RunSteps, SoundRun, TellAll, Ring, LzCopy;
      ghost var told, l, p := Telling(), rc.log, rc.inPos;
      FinishRepeat();
      ok, symbols, bad := MainLoop();
      rc.RunningIdle(probs[..]);
      if !ok {
        return;
      }
      ghost var from := rc.Here();
      rc.Normalize(probs[..]);
      rc.RunningIdle(probs[..]);
      WentMeter(rc.input, from, rc.Here(), [], 0, 0);
      ghost var steps := RunSteps(Set(), told, symbols);
      WroteOn(rc.input, l, p, from, rc.Here(), steps, [], 0, 0);
      assert steps + [] == steps;
    }

    /** lzma_reset */
    method LzmaReset()
      requires probs.Length == PROBS_TOTAL
      modifies `rep0, `rep1, `rep2, `rep3, `state, rc`range, rc`code, rc`initBytesLeft, probs
      ensures Coded() == Coding(0, 0, 0, 0, 0) && forall i | 0 <= i < PROBS_TOTAL :: probs[i] == 1024
      ensures rc.range == UINT32 - 1 && rc.code == 0 && rc.initBytesLeft == RC_INIT_BYTES
    {
      state, rep0, rep1, rep2, rep3 := 0, 0, 0, 0, 0;
      for i := 0 to PROBS_TOTAL
        modifies probs
        invariant forall j | 0 <= j < i :: probs[j] == 1024
      {
        probs[i] := RC_BIT_MODEL_TOTAL / 2;
      }
      rc.RcReset();
    }

    /** lzma_props: a byte is accepted if it stands for lc, lp and pb within their bounds, and
        then the decoder is set for them. */
    method LzmaProps(props: Byte) returns (ok: bool)
      requires probs.Length == PROBS_TOTAL
      modifies `lc, `literalPosMask, `posMask, `rep0, `rep1, `rep2, `rep3, `state, rc`range, rc`code, rc`initBytesLeft, probs
      ensures ok <==> exists lc: nat, lp: nat, pb: nat :: PropsByte(props, lc, lp, pb)
      ensures ok ==> SoundProps(Set()) && Coded() == Coding(0, 0, 0, 0, 0) && forall i | 0 <= i < PROBS_TOTAL :: probs[i] == 1024
      ensures ok ==> exists lp: nat, pb: nat :: PropsByte(props, lc, lp, pb) && literalPosMask == Pow2(lp) - 1 && posMask == Pow2(pb) - 1
      ensures ok ==> rc.range == UINT32 - 1 && rc.code == 0 && rc.initBytesLeft == RC_INIT_BYTES
    {
      if props > (4 * 5 + 4) * 9 + 8 {
        return false;
      }
      var left: nat := props;
      var pb: nat := 0;
      while left >= 9 * 5
        invariant left == props - 45 * pb
      {
        left := left - 9 * 5;
        pb := pb + 1;
      }
      posMask := Pow2(pb) - 1;
      var lp: nat := 0;
      while left >= 9
        invariant left == props - 45 * pb - 9 * lp && left < 45
      {
        left := left - 9;
        lp := lp + 1;
      }
      lc := left;
      PropsUnique(props, lc, lp, pb);
      if lc + lp > 4 {
        literalPosMask := lp;
        return false;
      }
      literalPosMask := Pow2(lp) - 1;
      LzmaReset();
      PropsSound(lc, lp, pb);
      ok := true;
    }
  }

  /** The properties byte of lc, lp and pb. */
  predicate PropsByte(props: nat, lc: nat, lp: nat, pb: nat) {
    lc + lp <= 4 && pb <= 4 && props == (pb * 5 + lp) * 9 + lc
  }

  lemma PropsUnique(props: nat, lc: nat, lp: nat, pb: nat)
    requires lc < 9 && lp < 5 && pb <= 4 && props == (pb * 5 + lp) * 9 + lc
    ensures forall lc': nat, lp': nat, pb': nat | PropsByte(props, lc', lp', pb') :: lc' == lc && lp' == lp && pb' == pb
    ensures lc + lp <= 4 <==> PropsByte(props, lc, lp, pb)
  {
  }

  lemma PropsSound(lc: nat, lp: nat, pb: nat)
    requires lc + lp <= 4 && pb <= 4
    ensures SoundProps(Props(lc, Pow2(lp) - 1, Pow2(pb) - 1))
  {
    PowTable();
    ShiftTable(Pow2(lp));
    hide Pow2, ShiftLeft;
    match lp
    case 0 => assert Pow2(lp) == 1;
    case 1 => assert Pow2(lp) == 2;
    case 2 => assert Pow2(lp) == 4;
    case 3 => assert Pow2(lp) == 8;
    case _ => assert Pow2(lp) == 16;
  }

  /** From one point of a chunk to another, whatever the symbols between have cost. */
  ghost predicate Wrote(input: seq<Byte>, l: Log, pos: nat, l': Log, pos': nat, steps: seq<Step>) {
    pos <= pos' <= |input| && l' == Log(l.origin, l.consumed + input[pos..pos'], l.trace + steps)
  }

  lemma WroteNothing(input: seq<Byte>, l: Log, pos: nat)
    requires pos <= |input|
    ensures Wrote(input, l, pos, l, pos, [])
  {
    assert l.consumed + input[pos..pos] == l.consumed && l.trace + [] == l.trace;
  }

  lemma WroteOn(input: seq<Byte>, l: Log, pos: nat, from: Point, to: Point, s1: seq<Step>, s2: seq<Step>, bits: nat, direct: nat)
    requires Wrote(input, l, pos, from.log, from.pos, s1) && Went(input, from, to, s2, bits, direct)
    ensures Wrote(input, l, pos, to.log, to.pos, s1 + s2)
  {
    assert input[pos..to.pos] == input[pos..from.pos] + input[from.pos..to.pos];
    Regroup(l.consumed, input[pos..from.pos], input[from.pos..to.pos]);
    Regroup(l.trace, s1, s2);
  }

  lemma WentPair(input: seq<Byte>, a: Point, b: Point, c: Point, x: Step, y: Step)
    requires Went(input, a, b, [x], 1, 0) && Went(input, b, c, [y], 1, 0)
    ensures Went(input, a, c, [x, y], 3, 0)
  {
    WentOn(input, a, b, c, [x], [y], 1, 0, 1, 0);
    assert [x] + [y] == [x, y];
  }

  lemma WentTriple(input: seq<Byte>, a: Point, b: Point, c: Point, d: Point, x: Step, y: Step, z: Step)
    requires Went(input, a, b, [x], 1, 0) && Went(input, b, c, [y], 1, 0) && Went(input, c, d, [z], 1, 0)
    ensures Went(input, a, d, [x, y, z], 3, 0)
  {
    WentOn(input, a, b, c, [x], [y], 1, 0, 1, 0);
    WentOn(input, a, c, d, [x] + [y], [z], 2, 0, 1, 0);
    assert [x] + [y] + [z] == [x, y, z];
  }

  lemma MatchedBegins(base: nat, matched: seq<bool>)
    requires |matched| == 8
    ensures Node([]) == 1 && MatchedSteps(base, matched, []) == [] && [] == matched[..0]
  {
  }

  lemma MatchedGrows(base: nat, matched: seq<bool>, path: seq<bool>, bit: bool)
    requires |path| < 8 == |matched|
    ensures MatchedSteps(base, matched, path + [bit]) == MatchedSteps(base, matched, path) + [Bit(base + Section(matched, path) + Node(path), bit)]
    ensures Node(path + [bit]) == 2 * Node(path) + (if bit then 1 else 0)
    ensures Node(path + [bit]) < 0x200 && (Node(path + [bit]) < 0x100 <==> |path| + 1 < 8) && Node(path) < 0x100
    ensures path + [bit] == matched[..|path| + 1] <==> path == matched[..|path|] && bit == matched[|path|]
  {
    Pow2Values();
    PathGrows(0, path, bit, 8);
    PathInside(0, path, 8);
    assert (path + [bit])[..|path|] == path;
    SameEnds(path, bit, matched[..|path|], matched[|path|]);
    assert matched[..|path| + 1] == matched[..|path|] + [matched[|path|]];
  }

  lemma {:induction false} BitsOfAt(n: nat, v: nat, k: nat)
    requires k < n
    ensures BitsOf(n, v)[k] == (v / Pow2(n - 1 - k) % 2 == 1)
  {
    if k < n - 1 {
      BitsOfAt(n - 1, v / 2, k);
      var p := Pow2(n - 2 - k);
      HalfDivide(v, p);
    }
  }

  lemma HalfDivide(v: nat, p: nat)
    requires p > 0
    ensures v / 2 / p == v / (2 * p)
  {
    var q, r := v / (2 * p), v % (2 * p);
    assert v == q * (2 * p) + r && v / 2 == q * p + r / 2;
    assert 0 <= r / 2 < p;
    DivideUnique(v / 2, p, q, r / 2);
  }

  lemma DivideUnique(a: nat, p: nat, q: nat, r: nat)
    requires p > 0 && a == q * p + r && r < p
    ensures a / p == q
  {
    var q' := a / p;
    if q' < q {
      MulMonotone(q' + 1, q, p);
    } else if q < q' {
      MulMonotone(q + 1, q', p);
    }
  }

  lemma ShiftTable(x: nat)
    ensures ShiftLeft(x, 0) == x && ShiftLeft(x, 1) == 2 * x && ShiftLeft(x, 2) == 4 * x && ShiftLeft(x, 3) == 8 * x && ShiftLeft(x, 4) == 16 * x
    ensures ShiftLeft(x, 5) == 32 * x && ShiftLeft(x, 6) == 64 * x && ShiftLeft(x, 7) == 128 * x && ShiftLeft(x, 8) == 256 * x
  {
  }

  lemma PowTable()
    ensures Pow2(0) == 1 && Pow2(1) == 2 && Pow2(2) == 4 && Pow2(3) == 8 && Pow2(4) == 16
    ensures Pow2(5) == 32 && Pow2(6) == 64 && Pow2(7) == 128 && Pow2(8) == 256
  {
    Pow2Small();
  }

  /** The bit that match_byte has in bit 8 after its shifts. */
  lemma MatchBit(byte: Byte, k: nat)
    requires k < 8
    ensures (ShiftLeft(byte, k + 1) / 256 % 2 == 1) == BitsOf(8, byte)[k]
    ensures ShiftLeft(byte, k + 2) == 2 * ShiftLeft(byte, k + 1)
  {
    BitsOfAt(8, byte, k);
    assert ShiftLeft(byte, k + 2) == 2 * ShiftLeft(byte, k + 1);
    ShiftedBit(byte, k);
  }

  lemma ShiftedBit(byte: Byte, k: nat)
    requires k < 8
    ensures ShiftLeft(byte, k + 1) / 256 == byte / Pow2(7 - k)
  {
    PowTable();
    ShiftTable(byte);
    hide Pow2, ShiftLeft;
    match k
    case 0 => assert ShiftLeft(byte, 1) / 256 == byte / 128;
    case 1 => assert ShiftLeft(byte, 2) / 256 == byte / 64;
    case 2 => assert ShiftLeft(byte, 3) / 256 == byte / 32;
    case 3 => assert ShiftLeft(byte, 4) / 256 == byte / 16;
    case 4 => assert ShiftLeft(byte, 5) / 256 == byte / 8;
    case 5 => assert ShiftLeft(byte, 6) / 256 == byte / 4;
    case 6 => assert ShiftLeft(byte, 7) / 256 == byte / 2;
    case _ => assert ShiftLeft(byte, 8) / 256 == byte;
  }

  /** Of a number, its value modulo 16 is all that a modulus dividing 16 sees. */
  lemma ModOf16(a: nat)
    ensures a % 2 == a % 16 % 2 && a % 4 == a % 16 % 4 && a % 8 == a % 16 % 8
  {
    var q, r := a / 16, a % 16;
    SeenBy(q, r, 8, 2);
    SeenBy(q, r, 4, 4);
    SeenBy(q, r, 2, 8);
  }

  lemma SeenBy(q: nat, r: nat, k: nat, m: nat)
    requires m >= 1 && k * m == 16
    ensures (16 * q + r) % m == r % m
  {
    assert 16 * q == (k * m) * q == (q * k) * m by { assert (k * m) * q == (q * k) * m; }
    assert 16 * q + r == (q * k + r / m) * m + r % m by { assert (q * k + r / m) * m == (q * k) * m + r / m * m; }
    RemainderIs(16 * q + r, q * k + r / m, r % m, m);
  }

  /** A mask of low bits sees the same in the position as in the length of the history. */
  lemma MaskedPosition(length: nat, pos: nat, mask: nat)
    requires InStep(length, pos) && LowMask(mask)
    ensures pos % (mask + 1) == length % (mask + 1)
  {
    ModOf16(length);
    ModOf16(pos);
  }

  lemma {:induction false} ShiftSum(a: nat, b: nat, n: nat)
    ensures ShiftLeft(a + b, n) == ShiftLeft(a, n) + ShiftLeft(b, n)
  {
    if n > 0 { ShiftSum(a, b, n - 1); }
  }

  lemma HighBits(byte: Byte, n: nat)
    requires n <= 4
    ensures byte / Pow2(8 - n) < ShiftLeft(1, n)
  {
    PowTable();
    ShiftTable(1);
    hide Pow2, ShiftLeft;
    match n
    case 0 => assert byte / 256 == 0;
    case 1 => assert byte / 128 < 2;
    case 2 => assert byte / 64 < 4;
    case 3 => assert byte / 32 < 8;
    case _ => assert byte / 16 < 16;
  }

  /** The literal coder depends on the position only through the history, and is one of 16. */
  lemma LiteralCoderFits(p: Props, history: seq<Byte>, pos: nat)
    requires SoundProps(p) && InStep(|history|, pos)
    ensures pos % (p.literalPosMask + 1) == |history| % (p.literalPosMask + 1)
    ensures LiteralCoder(p, history) < LITERAL_CODERS_MAX
  {
    hide Pow2, ShiftLeft;
    MaskedPosition(|history|, pos, p.literalPosMask);
    var x := |history| % (p.literalPosMask + 1);
    HighBits(Back(history, 0), p.lc);
    ShiftSum(x, p.literalPosMask + 1 - x, p.lc);
    ShiftSum(1, p.literalPosMask - x, p.lc);
  }

  /** rep0 <<= ALIGN_BITS */
  lemma Shift4(x: nat, limit: nat, high: nat)
    requires limit >= 4 && high < Pow2(limit - 4)
    ensures 16 * (ShiftLeft(x, limit - 4) + high) == ShiftLeft(x, limit) + 16 * high
    ensures 16 * high + 15 < Pow2(limit)
  {
    assert ShiftLeft(x, limit - 3) == 2 * ShiftLeft(x, limit - 4);
    assert ShiftLeft(x, limit - 2) == 2 * ShiftLeft(x, limit - 3);
    assert ShiftLeft(x, limit - 1) == 2 * ShiftLeft(x, limit - 2);
    assert Pow2(limit - 3) == 2 * Pow2(limit - 4);
    assert Pow2(limit - 2) == 2 * Pow2(limit - 3);
    assert Pow2(limit - 1) == 2 * Pow2(limit - 2);
  }

  lemma {:induction false} ShiftTop(n: nat)
    ensures ShiftLeft(2, n) == 2 * Pow2(n) && ShiftLeft(3, n) == 3 * Pow2(n)
  {
    if n > 0 { ShiftTop(n - 1); }
  }

  /** Where the trees of near distances lie, and that no distance has more than 32 bits. */
  lemma FooterBounds(slot: nat)
    requires slot < DIST_SLOTS
    ensures slot < DIST_MODEL_START ==> Pow2(FooterBits(slot)) == 1 && SlotBase(slot) == slot
    ensures DIST_MODEL_START <= slot < DIST_MODEL_END ==>
      1 <= FooterBits(slot) <= 5 && SlotBase(slot) >= slot && SlotBase(slot) - slot - 1 + Pow2(FooterBits(slot)) <= FULL_DISTANCES - DIST_MODEL_END
    ensures DIST_MODEL_END <= slot ==> 6 <= FooterBits(slot) <= 30
    ensures SlotBase(slot) + Pow2(FooterBits(slot)) <= UINT32
  {
    if slot >= DIST_MODEL_START {
      hide Pow2, ShiftLeft;
      ShiftTop(FooterBits(slot));
      Pow2Monotone(FooterBits(slot), 30);
      Pow2Small();
      assert slot % 2 == 0 || slot % 2 == 1;
    }
  }

  lemma Pow2Small()
    ensures Pow2(1) == 2 && Pow2(2) == 4 && Pow2(3) == 8 && Pow2(4) == 16 && Pow2(5) == 32 && Pow2(30) == 0x4000_0000
  {
    assert Pow2(5) == 32 && Pow2(10) == 1024 && Pow2(15) == 0x8000;
    assert Pow2(20) == 0x10_0000 && Pow2(25) == 0x200_0000;
  }

  lemma Pow2Values()
    ensures Pow2(3) == 8 && Pow2(4) == 16 && Pow2(6) == 64 && Pow2(8) == 256
  {
    assert Pow2(3) == 8 && Pow2(6) == 8 * Pow2(3);
  }

  lemma WentMeter(input: seq<Byte>, a: Point, b: Point, steps: seq<Step>, bits: nat, direct: nat)
    requires Went(input, a, b, steps, bits, direct)
    ensures b.meter.bits <= a.meter.bits + bits && b.meter.direct <= a.meter.direct + direct && b.meter.base == a.meter.base
  {
  }

  lemma WentLess(input: seq<Byte>, a: Point, b: Point, steps: seq<Step>, bits: nat, direct: nat, bits': nat, direct': nat)
    requires Went(input, a, b, steps, bits, direct) && bits <= bits' && direct <= direct'
    ensures Went(input, a, b, steps, bits', direct')
  {
  }
}
