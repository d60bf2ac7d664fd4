/** No decisions stand for two different symbols, so that what the decoder tells is what the
    encoder was given. */
module LzmaUnique {
  import opened Words
  import opened RangeCoder
  import opened RangeTrace
  import opened XzDictionary
  import opened LzmaFormat

  // ---- Strings that one machine can make ------------------------------------------

  /** Steps that ask for a decision at the same place, whatever it is. */
  predicate SamePlace(s: Step, s': Step) {
    match s
    case Bit(i, _) => s'.Bit? && s'.index == i
    case Direct(_) => s'.Direct?
  }

  /** As long as two strings are the same, they decide in the same way what they are asked at
      the same place: one machine could have made both. */
  predicate Agree(u: seq<Step>, v: seq<Step>) {
    u == [] || v == []
    || ((SamePlace(u[0], v[0]) ==> u[0] == v[0]) && (u[0] == v[0] ==> Agree(u[1..], v[1..])))
  }

  lemma {:induction false} EqualAgree(u: seq<Step>)
    ensures Agree(u, u)
  {
    if u != [] { EqualAgree(u[1..]); }
  }

  lemma AgreeOne(s: Step, x: seq<Step>, s': Step, y: seq<Step>)
    requires Agree([s] + x, [s'] + y) && SamePlace(s, s')
    ensures s == s' && Agree(x, y)
  {
    assert ([s] + x)[1..] == x && ([s'] + y)[1..] == y;
  }

  /** The same, for the first of some steps. */
  lemma AgreeHead(h: seq<Step>, x: seq<Step>, h': seq<Step>, y: seq<Step>)
    requires h != [] && h' != [] && SamePlace(h[0], h'[0]) && Agree(h + x, h' + y)
    ensures h[0] == h'[0] && Agree(h[1..] + x, h'[1..] + y)
  {
    assert h + x == [h[0]] + (h[1..] + x) && h' + y == [h'[0]] + (h'[1..] + y);
    AgreeOne(h[0], h[1..] + x, h'[0], h'[1..] + y);
  }

  lemma OneDecision(m: Machine, s: Step, s': Step)
    requires StepOn(m, s).Some? && StepOn(m, s').Some? && SamePlace(s, s')
    ensures s == s'
  {
  }

  lemma ReplayHead(m: Machine, u: seq<Step>)
    requires u != [] && Replay(m, u).Some?
    ensures StepOn(m, u[0]).Some? && Replay(m, u) == Replay(StepOn(m, u[0]).value, u[1..])
  {
    ReplayTold(m, u, 1);
    assert u[..1] == [u[0]] && [u[0]][..0] == [];
    assert Replay(m, [u[0]]) == StepOn(m, u[0]);
    ReplayJoin(m, [u[0]], u[1..]);
    assert u == [u[0]] + u[1..];
  }

  /** What has been replayed in full has been replayed in part. */
  lemma {:induction false} ReplayTold(m: Machine, u: seq<Step>, n: nat)
    requires n <= |u| && Replay(m, u).Some?
    ensures Replay(m, u[..n]).Some?
  {
    if n < |u| {
      ReplayTold(m, u[..|u| - 1], n);
      assert u[..|u| - 1][..n] == u[..n];
    } else {
      assert u[..n] == u;
    }
  }

  /** What one machine decides is decided. */
  lemma {:induction false} ReplayAgree(m: Machine, u: seq<Step>, v: seq<Step>)
    requires Replay(m, u).Some? && Replay(m, v).Some?
    ensures Agree(u, v)
    decreases |u|
  {
    hide Replay, StepOn;
    if u != [] && v != [] {
      ReplayHead(m, u);
      ReplayHead(m, v);
      if SamePlace(u[0], v[0]) { OneDecision(m, u[0], v[0]); }
      if u[0] == v[0] {
        ReplayAgree(StepOn(m, u[0]).value, u[1..], v[1..]);
      }
    }
  }

  // ---- Trees ----------------------------------------------------------------------

  lemma {:induction false} SamePath(base: int, a: seq<bool>, x: seq<Step>, b: seq<bool>, y: seq<Step>)
    requires base >= -1 && |a| == |b| && Agree(PathSteps(base, a) + x, PathSteps(base, b) + y)
    ensures a == b && Agree(x, y)
  {
    if a == [] {
      assert PathSteps(base, a) + x == x && PathSteps(base, b) + y == y;
    } else {
      var n := |a| - 1;
      var s, s' := Bit(base + Node(a[..n]), a[n]), Bit(base + Node(b[..n]), b[n]);
      Regroup(PathSteps(base, a[..n]), [s], x);
      Regroup(PathSteps(base, b[..n]), [s'], y);
      SamePath(base, a[..n], [s] + x, b[..n], [s'] + y);
      AgreeOne(s, x, s', y);
      assert a == a[..n] + [a[n]] && b == b[..n] + [b[n]];
    }
  }

  lemma {:induction false} SameDirect(a: seq<bool>, x: seq<Step>, b: seq<bool>, y: seq<Step>)
    requires |a| == |b| && Agree(DirectSteps(a) + x, DirectSteps(b) + y)
    ensures a == b && Agree(x, y)
  {
    if a == [] {
      assert DirectSteps(a) + x == x && DirectSteps(b) + y == y;
    } else {
      var n := |a| - 1;
      Regroup(DirectSteps(a[..n]), [Direct(a[n])], x);
      Regroup(DirectSteps(b[..n]), [Direct(b[n])], y);
      SameDirect(a[..n], [Direct(a[n])] + x, b[..n], [Direct(b[n])] + y);
      AgreeOne(Direct(a[n]), x, Direct(b[n]), y);
      assert a == a[..n] + [a[n]] && b == b[..n] + [b[n]];
    }
  }

  lemma {:induction false} SameMatched(base: nat, matched: seq<bool>, a: seq<bool>, x: seq<Step>, b: seq<bool>, y: seq<Step>)
    requires |a| == |b| <= |matched| && Agree(MatchedSteps(base, matched, a) + x, MatchedSteps(base, matched, b) + y)
    ensures a == b && Agree(x, y)
  {
    if a == [] {
      assert MatchedSteps(base, matched, a) + x == x && MatchedSteps(base, matched, b) + y == y;
    } else {
      var n := |a| - 1;
      var s, s' := Bit(base + Section(matched, a[..n]) + Node(a[..n]), a[n]), Bit(base + Section(matched, b[..n]) + Node(b[..n]), b[n]);
      Regroup(MatchedSteps(base, matched, a[..n]), [s], x);
      Regroup(MatchedSteps(base, matched, b[..n]), [s'], y);
      SameMatched(base, matched, a[..n], [s] + x, b[..n], [s'] + y);
      AgreeOne(s, x, s', y);
      assert a == a[..n] + [a[n]] && b == b[..n] + [b[n]];
    }
  }

  lemma {:induction false} SameBits(n: nat, v: nat, w: nat)
    requires v < Pow2(n) && w < Pow2(n) && BitsOf(n, v) == BitsOf(n, w)
    ensures v == w
  {
    NodeOfBits(n, v);
    NodeOfBits(n, w);
  }

  lemma {:induction false} SameBitsUp(n: nat, v: nat, w: nat)
    requires v < Pow2(n) && w < Pow2(n) && BitsUp(n, v) == BitsUp(n, w)
    ensures v == w
  {
    if n > 0 {
      assert BitsUp(n, v)[0] == BitsUp(n, w)[0] && BitsUp(n, v)[1..] == BitsUp(n, w)[1..];
      SameBitsUp(n - 1, v / 2, w / 2);
    }
  }

  lemma SamePathNumber(base: int, n: nat, v: nat, x: seq<Step>, w: nat, y: seq<Step>)
    requires base >= -1 && v < Pow2(n) && w < Pow2(n) && Agree(PathSteps(base, BitsOf(n, v)) + x, PathSteps(base, BitsOf(n, w)) + y)
    ensures v == w && Agree(x, y)
  {
    SamePath(base, BitsOf(n, v), x, BitsOf(n, w), y);
    SameBits(n, v, w);
  }

  // ---- Lengths --------------------------------------------------------------------

  /** The head of a length's decisions tells its class. */
  function LenHead(base: nat, len: nat): seq<Step> {
    if len < 10 then [Bit(base, false)] else if len < 18 then [Bit(base, true), Bit(base + 1, false)]
    else [Bit(base, true), Bit(base + 1, true)]
  }

  function LenTail(base: nat, posState: nat, len: nat): seq<Step>
    requires 2 <= len
  {
    if len < 10 then PathSteps(base + 2 + posState * 8, BitsOf(3, len - 2))
    else if len < 18 then PathSteps(base + 130 + posState * 8, BitsOf(3, len - 10)) else PathSteps(base + 258, BitsOf(8, len - 18))
  }

  lemma LenParts(base: nat, posState: nat, len: nat, x: seq<Step>)
    requires 2 <= len
    ensures LenSteps(base, posState, len) + x == LenHead(base, len) + (LenTail(base, posState, len) + x)
  {
  }

  /** The heads agree only if they are the same. */
  lemma SameHead(base: nat, len: nat, x: seq<Step>, len': nat, y: seq<Step>)
    requires Agree(LenHead(base, len) + x, LenHead(base, len') + y)
    ensures Agree(x, y) && (len < 10 <==> len' < 10) && (len < 18 <==> len' < 18)
  {
    var s, s', t, t' := Bit(base, len >= 10), Bit(base, len' >= 10), Bit(base + 1, len >= 18), Bit(base + 1, len' >= 18);
    var r, r' := if len < 10 then x else [t] + x, if len' < 10 then y else [t'] + y;
    assert LenHead(base, len) + x == [s] + r && LenHead(base, len') + y == [s'] + r';
    AgreeOne(s, r, s', r');
    if len >= 10 { AgreeOne(t, x, t', y); }
  }

  lemma SameTail(base: nat, posState: nat, len: nat, x: seq<Step>, len': nat, y: seq<Step>)
    requires 2 <= len <= MATCH_LEN_MAX && 2 <= len' <= MATCH_LEN_MAX && (len < 10 <==> len' < 10) && (len < 18 <==> len' < 18)
    requires Agree(LenTail(base, posState, len) + x, LenTail(base, posState, len') + y)
    ensures len == len' && Agree(x, y)
  {
    PowSix();
    hide PathSteps, BitsOf, Pow2;
    if len < 10 {
      SamePathNumber(base + 2 + posState * 8, 3, len - 2, x, len' - 2, y);
    } else if len < 18 {
      SamePathNumber(base + 130 + posState * 8, 3, len - 10, x, len' - 10, y);
    } else {
      SamePathNumber(base + 258, 8, len - 18, x, len' - 18, y);
    }
  }

  lemma SameLen(base: nat, posState: nat, len: nat, x: seq<Step>, len': nat, y: seq<Step>)
    requires MATCH_LEN_MIN <= len <= MATCH_LEN_MAX && MATCH_LEN_MIN <= len' <= MATCH_LEN_MAX
    requires Agree(LenSteps(base, posState, len) + x, LenSteps(base, posState, len') + y)
    ensures len == len' && Agree(x, y)
  {
    hide LenSteps, LenTail, LenHead;
    LenParts(base, posState, len, x);
    LenParts(base, posState, len', y);
    SameHead(base, len, LenTail(base, posState, len) + x, len', LenTail(base, posState, len') + y);
    SameTail(base, posState, len, x, len', y);
  }

  lemma PowSix()
    ensures Pow2(3) == 8 && Pow2(6) == 64 && Pow2(8) == 256
  {
    assert Pow2(3) == 8;
    assert Pow2(6) == 64;
  }

  // ---- Distances ------------------------------------------------------------------

  lemma Slot6(dist: nat)
    requires dist < UINT32
    ensures DistSlot(dist) < Pow2(6)
  {
    SlotWithin(dist);
    PowSix();
  }

  lemma SameFooter(slot: nat, v: nat, x: seq<Step>, w: nat, y: seq<Step>)
    requires v < Pow2(FooterBits(slot)) && w < Pow2(FooterBits(slot)) && slot < 64
    requires Agree(FooterSteps(slot, v) + x, FooterSteps(slot, w) + y)
    ensures v == w && Agree(x, y)
  {
    var n := FooterBits(slot);
    if slot < DIST_MODEL_START {
      assert FooterSteps(slot, v) + x == x && FooterSteps(slot, w) + y == y;
    } else if slot < DIST_MODEL_END {
      var base := DIST_SPECIAL + SlotBase(slot) - slot - 1;
      SamePath(base, BitsUp(n, v), x, BitsUp(n, w), y);
      SameBitsUp(n, v, w);
    } else {
      SameFar(n, v, x, w, y);
    }
  }

  lemma SameFar(n: nat, v: nat, x: seq<Step>, w: nat, y: seq<Step>)
    requires n >= ALIGN_BITS && v < Pow2(n) && w < Pow2(n)
    requires Agree(DirectSteps(BitsOf(n - ALIGN_BITS, v / ALIGN_SIZE)) + PathSteps(DIST_ALIGN, BitsUp(ALIGN_BITS, v % ALIGN_SIZE)) + x,
                   DirectSteps(BitsOf(n - ALIGN_BITS, w / ALIGN_SIZE)) + PathSteps(DIST_ALIGN, BitsUp(ALIGN_BITS, w % ALIGN_SIZE)) + y)
    ensures v == w && Agree(x, y)
  {
    var d, d' := DirectSteps(BitsOf(n - ALIGN_BITS, v / ALIGN_SIZE)), DirectSteps(BitsOf(n - ALIGN_BITS, w / ALIGN_SIZE));
    var a, a' := PathSteps(DIST_ALIGN, BitsUp(ALIGN_BITS, v % ALIGN_SIZE)), PathSteps(DIST_ALIGN, BitsUp(ALIGN_BITS, w % ALIGN_SIZE));
    hide DirectSteps, PathSteps, BitsOf, BitsUp, Agree;
    Regroup(d, a, x);
    Regroup(d', a', y);
    SameDirect(BitsOf(n - ALIGN_BITS, v / ALIGN_SIZE), a + x, BitsOf(n - ALIGN_BITS, w / ALIGN_SIZE), a' + y);
    Pow2Quarter(n);
    SameBits(n - ALIGN_BITS, v / ALIGN_SIZE, w / ALIGN_SIZE);
    SamePath(DIST_ALIGN, BitsUp(ALIGN_BITS, v % ALIGN_SIZE), x, BitsUp(ALIGN_BITS, w % ALIGN_SIZE), y);
    SameBitsUp(ALIGN_BITS, v % ALIGN_SIZE, w % ALIGN_SIZE);
  }

  lemma Pow2Quarter(n: nat)
    requires n >= 4
    ensures Pow2(n) == 16 * Pow2(n - 4) && Pow2(4) == 16
  {
    assert Pow2(n - 1) == 2 * Pow2(n - 2) && Pow2(n - 2) == 2 * Pow2(n - 3) && Pow2(n - 3) == 2 * Pow2(n - 4);
    assert Pow2(2) == 4;
  }

  lemma DistParts(len: nat, d: nat, x: seq<Step>)
    requires MATCH_LEN_MIN <= len && SlotBase(DistSlot(d)) <= d
    ensures DistSteps(len, d) + x
      == PathSteps(DIST_SLOT + DistState(len) * DIST_SLOTS, BitsOf(6, DistSlot(d))) + (FooterSteps(DistSlot(d), d - SlotBase(DistSlot(d))) + x)
  {
  }

  lemma SameDist(len: nat, d: nat, x: seq<Step>, e: nat, y: seq<Step>)
    requires MATCH_LEN_MIN <= len && d < UINT32 && e < UINT32 && Agree(DistSteps(len, d) + x, DistSteps(len, e) + y)
    ensures d == e && Agree(x, y)
  {
    hide DistSteps, PathSteps, BitsOf, FooterSteps, DistSlot, SlotBase, FooterBits, Pow2;
    DistInSlot(d);
    DistInSlot(e);
    Slot6(d);
    Slot6(e);
    PowSix();
    DistParts(len, d, x);
    DistParts(len, e, y);
    var s, s' := DistSlot(d), DistSlot(e);
    SamePathNumber(DIST_SLOT + DistState(len) * DIST_SLOTS, 6, s, FooterSteps(s, d - SlotBase(s)) + x, s', FooterSteps(s', e - SlotBase(s')) + y);
    SameFooter(s, d - SlotBase(s), x, e - SlotBase(s), y);
  }

  // ---- Symbols --------------------------------------------------------------------

  lemma SameLiteral(p: Props, c: Coding, history: seq<Byte>, a: Byte, x: seq<Step>, b: Byte, y: seq<Step>)
    requires p.lc <= 8 && Agree(LiteralSteps(p, c, history, a) + x, LiteralSteps(p, c, history, b) + y)
    ensures a == b && Agree(x, y)
  {
    hide Agree, LiteralCoder, PathSteps, MatchedSteps;
    var base := LITERAL + LITERAL_CODER_SIZE * LiteralCoder(p, history);
    assert Pow2(4) == 16;
    assert Pow2(8) == 256;
    if c.state < LIT_STATES {
      SamePathNumber(base, 8, a, x, b, y);
    } else {
      var matched := BitsOf(8, Back(history, c.rep0));
      SameMatched(base, matched, BitsOf(8, a), x, BitsOf(8, b), y);
      SameBits(8, a, b);
    }
  }

  lemma SameRep(state: State, posState: nat, s: Symbol, x: seq<Step>, s': Symbol, y: seq<Step>)
    requires s.ShortRep? || (s.LongRep? && SoundSymbol(s))
    requires s'.ShortRep? || (s'.LongRep? && SoundSymbol(s'))
    requires Agree(RepMatchSteps(state, posState, s) + x, RepMatchSteps(state, posState, s') + y)
    ensures s == s' && Agree(x, y)
  {
    var h, h' := RepHead(state, posState, s), RepHead(state, posState, s');
    RepParts(state, posState, s, x);
    RepParts(state, posState, s', y);
    var t, t' := RepTail(posState, s), RepTail(posState, s');
    hide RepMatchSteps, RepTail;
    SameRepHead(state, posState, s, t + x, s', t' + y);
    SameRepTail(posState, s, x, s', y);
  }

  /** Which kind of repeated match, and which distance. */
  function RepHead(state: State, posState: nat, s: Symbol): seq<Step> {
    if s.LongRep? then RepSteps(state, posState, s.which)
    else [Bit(IS_REP0 + state, false), Bit(IS_REP0_LONG + state * POS_STATES_MAX + posState, false)]
  }

  function RepTail(posState: nat, s: Symbol): seq<Step> {
    if s.LongRep? && s.len >= 2 then LenSteps(REP_LEN, posState, s.len) else []
  }

  lemma RepParts(state: State, posState: nat, s: Symbol, x: seq<Step>)
    requires s.ShortRep? || (s.LongRep? && SoundSymbol(s))
    ensures RepMatchSteps(state, posState, s) + x == RepHead(state, posState, s) + (RepTail(posState, s) + x)
  {
    hide LenSteps;
  }

  lemma SameRepHead(state: State, posState: nat, s: Symbol, x: seq<Step>, s': Symbol, y: seq<Step>)
    requires s.ShortRep? || (s.LongRep? && SoundSymbol(s))
    requires s'.ShortRep? || (s'.LongRep? && SoundSymbol(s'))
    requires Agree(RepHead(state, posState, s) + x, RepHead(state, posState, s') + y)
    ensures Agree(x, y) && s.ShortRep? == s'.ShortRep? && (s.LongRep? ==> s.which == s'.which)
  {
    hide Agree;
    var h, h' := RepHead(state, posState, s), RepHead(state, posState, s');
    AgreeHead(h, x, h', y);
    AgreeHead(h[1..], x, h'[1..], y);
    if |h| == 3 {
      AgreeHead(h[1..][1..], x, h'[1..][1..], y);
      assert h[1..][1..][1..] + x == x && h'[1..][1..][1..] + y == y;
    } else {
      assert h[1..][1..] + x == x && h'[1..][1..] + y == y;
    }
  }

  lemma SameRepTail(posState: nat, s: Symbol, x: seq<Step>, s': Symbol, y: seq<Step>)
    requires s.ShortRep? || (s.LongRep? && SoundSymbol(s))
    requires s'.ShortRep? || (s'.LongRep? && SoundSymbol(s'))
    requires s.ShortRep? == s'.ShortRep? && (s.LongRep? ==> s.which == s'.which)
    requires Agree(RepTail(posState, s) + x, RepTail(posState, s') + y)
    ensures s == s' && Agree(x, y)
  {
    hide LenSteps;
    if s.LongRep? {
      SameLen(REP_LEN, posState, s.len, x, s'.len, y);
    } else {
      assert [] + x == x && [] + y == y;
    }
  }

  /** The first decisions of a symbol, up to where its kind is told. */
  function KindHead(p: Props, c: Coding, history: seq<Byte>, s: Symbol): seq<Step> {
    var kind := IS_MATCH + c.state * POS_STATES_MAX + PosState(p, history);
    if s.Literal? then [Bit(kind, false)] else [Bit(kind, true), Bit(IS_REP + c.state, !s.Match?)]
  }

  function KindTail(p: Props, c: Coding, history: seq<Byte>, s: Symbol): seq<Step>
    requires p.lc <= 8 && SoundSymbol(s)
  {
    var pos := PosState(p, history);
    match s
    case Literal(byte) => LiteralSteps(p, c, history, byte)
    case Match(len, dist) => LenSteps(MATCH_LEN, pos, len) + DistSteps(len, dist)
    case _ => RepMatchSteps(c.state, pos, s)
  }

  lemma SymbolParts(p: Props, c: Coding, history: seq<Byte>, s: Symbol, x: seq<Step>)
    requires p.lc <= 8 && SoundSymbol(s)
    ensures SymbolSteps(p, c, history, s) + x == KindHead(p, c, history, s) + (KindTail(p, c, history, s) + x)
  {
    hide LenSteps, DistSteps, RepMatchSteps, LiteralSteps;
  }

  lemma SameKind(p: Props, c: Coding, history: seq<Byte>, s: Symbol, x: seq<Step>, s': Symbol, y: seq<Step>)
    requires Agree(KindHead(p, c, history, s) + x, KindHead(p, c, history, s') + y)
    ensures Agree(x, y) && s.Literal? == s'.Literal? && s.Match? == s'.Match?
  {
    hide Agree;
    var h, h' := KindHead(p, c, history, s), KindHead(p, c, history, s');
    AgreeHead(h, x, h', y);
    if |h| == 2 {
      AgreeHead(h[1..], x, h'[1..], y);
      assert h[1..][1..] + x == x && h'[1..][1..] + y == y;
    } else {
      assert h[1..] + x == x && h'[1..] + y == y;
    }
  }

  /** In the same place, one machine can make the decisions of one symbol only; so no symbol's
      decisions begin another's, and they tell the symbol. */
  lemma SameSymbol(p: Props, c: Coding, history: seq<Byte>, s: Symbol, x: seq<Step>, s': Symbol, y: seq<Step>)
    requires p.lc <= 8 && SoundSymbol(s) && SoundSymbol(s')
    requires Agree(SymbolSteps(p, c, history, s) + x, SymbolSteps(p, c, history, s') + y)
    ensures s == s' && Agree(x, y)
  {
    hide SymbolSteps, KindHead, LenSteps, DistSteps, RepMatchSteps, LiteralSteps, Agree;
    SymbolParts(p, c, history, s, x);
    SymbolParts(p, c, history, s', y);
    SameKind(p, c, history, s, KindTail(p, c, history, s) + x, s', KindTail(p, c, history, s') + y);
    match s
    case Literal(byte) =>
      SameLiteral(p, c, history, byte, x, s'.byte, y);
    case Match(len, dist) =>
      SameMatch(PosState(p, history), len, dist, x, s'.len, s'.dist, y);
    case _ =>
      SameRep(c.state, PosState(p, history), s, x, s', y);
  }

  lemma SameMatch(pos: nat, len: nat, dist: nat, x: seq<Step>, len': nat, dist': nat, y: seq<Step>)
    requires SoundSymbol(Match(len, dist)) && SoundSymbol(Match(len', dist'))
    requires Agree(LenSteps(MATCH_LEN, pos, len) + DistSteps(len, dist) + x, LenSteps(MATCH_LEN, pos, len') + DistSteps(len', dist') + y)
    ensures len == len' && dist == dist' && Agree(x, y)
  {
    hide LenSteps, DistSteps, Agree;
    Regroup(LenSteps(MATCH_LEN, pos, len), DistSteps(len, dist), x);
    Regroup(LenSteps(MATCH_LEN, pos, len'), DistSteps(len', dist'), y);
    SameLen(MATCH_LEN, pos, len, DistSteps(len, dist) + x, len', DistSteps(len', dist') + y);
    SameDist(len, dist, x, dist', y);
  }

  /** Two runs that one machine can make are the same run, as far as they both go: the symbols
      lzma_main tells are those that were encoded. */
  lemma {:induction false} SameRun(p: Props, t: Told, a: seq<Symbol>, x: seq<Step>, b: seq<Symbol>, y: seq<Step>)
    requires p.lc <= 8 && SoundRun(t, a) && SoundRun(t, b) && |a| == |b|
    requires Agree(RunSteps(p, t, a) + x, RunSteps(p, t, b) + y)
    ensures a == b && Agree(x, y)
  {
    if a == [] {
      assert RunSteps(p, t, a) + x == x && RunSteps(p, t, b) + y == y;
    } else {
      hide SoundSymbol, SymbolSteps, Agree;
      var m, s := RunLast(t, a);
      var m', s' := RunLast(t, b);
      RunNext(p, t, m, s);
      RunNext(p, t, m', s');
      var u, u' := TellAll(t, m), TellAll(t, m');
      hide RunSteps, SoundRun, TellAll, Copies;
      Regroup(RunSteps(p, t, m), SymbolSteps(p, u.coding, u.history, s), x);
      Regroup(RunSteps(p, t, m'), SymbolSteps(p, u'.coding, u'.history, s'), y);
      SameRun(p, t, m, SymbolSteps(p, u.coding, u.history, s) + x, m', SymbolSteps(p, u'.coding, u'.history, s') + y);
      SameSymbol(p, u.coding, u.history, s, x, s', y);
    }
  }

  /** What is written for a run tells the run. */
  lemma WrittenTells(p: Props, t: Told, a: seq<Symbol>, b: seq<Symbol>)
    requires p.lc <= 8 && SoundRun(t, a) && SoundRun(t, b) && |a| == |b| && RunSteps(p, t, a) == RunSteps(p, t, b)
    ensures a == b
  {
    EqualAgree(RunSteps(p, t, a));
    assert RunSteps(p, t, a) + [] == RunSteps(p, t, a) && RunSteps(p, t, b) + [] == RunSteps(p, t, b);
    SameRun(p, t, a, [], b, []);
  }
}
