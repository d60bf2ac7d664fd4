/** The branch filters of xz_dec_bcj.c: PowerPC, IA-64, ARM, ARM-Thumb and SPARC.

    A filter walks over a buffer and rewrites the target addresses of branch instructions;
    the decoder takes the position off, and the encoder puts it on.  Words are numbers here,
    and masks are quotients and remainders. */
module BcjFilters {
  import opened Words

  datatype Kind = PowerPc | Ia64 | Arm | ArmThumb | Sparc

  /** How many bytes a filter must see before it goes on. */
  function Window(k: Kind): (n: nat)
    ensures n == 4 || n == 16
  {
    if k == Ia64 then 16 else 4
  }

  /** The positions at which a filter can be reached. */
  predicate Aligned(k: Kind, at: nat) {
    match k
    case Ia64 => at % 16 == 0
    case ArmThumb => at % 2 == 0
    case _ => at % 4 == 0
  }

  // ---- Fields ---------------------------------------------------------------------

  const F21: nat := 0x20_0000
  const F22: nat := 0x40_0000
  const F23: nat := 0x80_0000
  const F24: nat := 0x100_0000
  const F26: nat := 0x400_0000
  const F41: nat := 0x200_0000_0000

  /** Taking the position off a field when decoding, putting it on when encoding, in
      arithmetic modulo the size of the field. */
  function Turn(a: nat, d: nat, m: nat, decode: bool): (r: nat)
    requires m > 0
    ensures r < m
  {
    if decode then (a - d) % m else (a + d) % m
  }

  /** A remainder may be taken before adding. */
  lemma ModAdd(x: int, d: int, m: nat)
    requires m > 0
    ensures (x % m + d) % m == (x + d) % m
  {
    var y := x % m + d;
    var p, q := y / m, x / m;
    assert x + d == (p + q) * m + y % m;
    RemainderIs(x + d, p + q, y % m, m);
  }

  /** What the decoder does to a field, the encoder undoes, and the other way round. */
  lemma TurnBack(a: nat, d: nat, m: nat, decode: bool)
    requires m > 0 && a < m
    ensures Turn(Turn(a, d, m, decode), d, m, !decode) == a
  {
    RemainderIs(a, 0, a, m);
    if decode {
      ModAdd(a - d, d, m);
    } else {
      var back: int := 0 - d;
      ModAdd(a + d, back, m);
    }
  }

  // ---- Numbers in bytes -----------------------------------------------------------

  function Big(b: seq<Byte>): (w: nat)
    requires |b| == 4
    ensures w < UINT32
  {
    Num8(b[0]) * 0x100_0000 + Num8(b[1]) * 0x1_0000 + Num8(b[2]) * 0x100 + Num8(b[3])
  }

  function BigBytes(w: nat): (b: seq<Byte>)
    requires w < UINT32
    ensures |b| == 4
  {
    [w / 0x100_0000, w / 0x1_0000 % 256, w / 0x100 % 256, w % 256]
  }

  lemma BigBack(w: nat)
    requires w < UINT32
    ensures Big(BigBytes(w)) == w
  {
  }

  lemma BigThere(b: seq<Byte>)
    requires |b| == 4
    ensures BigBytes(Big(b)) == b
  {
    FourDigits(b[0], b[1], b[2], b[3]);
  }

  lemma FourDigits(a: nat, b: nat, c: nat, d: nat)
    requires a < 256 && b < 256 && c < 256 && d < 256
    ensures var w := a * 0x100_0000 + b * 0x1_0000 + c * 0x100 + d;
      w / 0x100_0000 == a && w / 0x1_0000 % 256 == b && w / 0x100 % 256 == c && w % 256 == d
  {
    var w := a * 0x100_0000 + b * 0x1_0000 + c * 0x100 + d;
    assert w / 0x100 == a * 0x1_0000 + b * 0x100 + c;
    assert w / 0x1_0000 == a * 0x100 + b;
  }

  // ---- One instruction ------------------------------------------------------------

  /** A relative branch with link: opcode 18, AA clear, LK set. */
  predicate IsPowerPcBranch(w: nat) {
    w / F26 == 18 && w % 4 == 1
  }

  function PowerPcWord(w: nat, at: nat, decode: bool): (v: nat)
    requires w < UINT32
    ensures v < UINT32
  {
    if IsPowerPcBranch(w) then 18 * F26 + 4 * Turn(w / 4 % F24, at / 4, F24, decode) + 1 else w
  }

  lemma PowerPcBack(w: nat, at: nat, decode: bool)
    requires w < UINT32
    ensures PowerPcWord(PowerPcWord(w, at, decode), at, !decode) == w
  {
    if IsPowerPcBranch(w) {
      var a := w / 4 % F24;
      var t := Turn(a, at / 4, F24, decode);
      assert w == 18 * F26 + 4 * a + 1;
      PowerPcField(t);
      TurnBack(a, at / 4, F24, decode);
    }
  }

  lemma PowerPcField(t: nat)
    requires t < F24
    ensures var v := 18 * F26 + 4 * t + 1; IsPowerPcBranch(v) && v / 4 % F24 == t
  {
  }

  /** A call: the displacement's eight high bits are all equal to its sign. */
  predicate IsSparcCall(w: nat) {
    w / F22 == 0x100 || w / F22 == 0x1FF
  }

  function SparcCall(t: nat): (v: nat)
    requires t < F23
    ensures v < UINT32
  {
    if t < F22 then 0x4000_0000 + t else 0x7F80_0000 + t
  }

  function SparcWord(w: nat, at: nat, decode: bool): (v: nat)
    requires w < UINT32
    ensures v < UINT32
  {
    if IsSparcCall(w) then SparcCall(Turn(w % F23, at / 4, F23, decode)) else w
  }

  lemma SparcField(t: nat)
    requires t < F23
    ensures IsSparcCall(SparcCall(t)) && SparcCall(t) % F23 == t
  {
  }

  lemma SparcBack(w: nat, at: nat, decode: bool)
    requires w < UINT32
    ensures SparcWord(SparcWord(w, at, decode), at, !decode) == w
  {
    if IsSparcCall(w) {
      assert w == SparcCall(w % F23);
      SparcField(Turn(w % F23, at / 4, F23, decode));
      TurnBack(w % F23, at / 4, F23, decode);
    }
  }

  /** The pair of half-words of a long call. */
  predicate IsThumbPair(w: seq<Byte>)
    requires |w| >= 4
  {
    w[1] / 8 == 30 && w[3] / 8 == 31
  }

  function ThumbField(w: seq<Byte>): (a: nat)
    requires |w| >= 4
    ensures a < F22
  {
    Num8(w[1]) % 8 * 0x8_0000 + Num8(w[0]) * 0x800 + Num8(w[3]) % 8 * 0x100 + Num8(w[2])
  }

  function ThumbBytes(a: nat): (w: seq<Byte>)
    requires a < F22
    ensures |w| == 4
  {
    [a / 0x800 % 256, 0xF0 + a / 0x8_0000, a % 256, 0xF8 + a / 0x100 % 8]
  }

  lemma ThumbBack(a: nat)
    requires a < F22
    ensures IsThumbPair(ThumbBytes(a)) && ThumbField(ThumbBytes(a)) == a
  {
    var hi, lo := a / 0x800, a % 0x800;
    assert a == 0x800 * hi + lo;
    assert a / 0x8_0000 == hi / 256 && a / 0x100 % 8 == lo / 256 && a % 256 == lo % 256;
  }

  lemma ThumbThere(w: seq<Byte>)
    requires |w| == 4 && IsThumbPair(w)
    ensures ThumbBytes(ThumbField(w)) == w
  {
    var a, b, c, d := Num8(w[0]), Num8(w[1]) % 8, Num8(w[2]), Num8(w[3]) % 8;
    assert Num8(w[1]) == 0xF0 + b && Num8(w[3]) == 0xF8 + d;
    ThumbDigits(a, b, c, d);
  }

  lemma ThumbDigits(a: nat, b: nat, c: nat, d: nat)
    requires a < 256 && b < 8 && c < 256 && d < 8
    ensures var x := b * 0x8_0000 + a * 0x800 + d * 0x100 + c;
      x / 0x800 % 256 == a && x / 0x8_0000 == b && x % 256 == c && x / 0x100 % 8 == d
  {
    var x := b * 0x8_0000 + a * 0x800 + d * 0x100 + c;
    assert x / 0x100 == b * 0x800 + a * 8 + d;
    assert x / 0x800 == b * 0x100 + a;
  }

  // ---- IA-64 bundles --------------------------------------------------------------

  /** Which of the three slots may hold a branch, by template. */
  function BranchMask(template: nat): (m: nat)
    requires template < 32
    ensures m < 8
  {
    if template in {16, 17, 24, 25, 28, 29} then 4
    else if template in {18, 19} then 6
    else if template in {22, 23} then 7
    else 0
  }

  /** Whether slot 0, 1 or 2 is in a mask. */
  predicate Masked(mask: nat, slot: nat)
    requires slot < 3
  {
    if slot == 0 then mask % 2 == 1 else if slot == 1 then mask / 2 % 2 == 1 else mask / 4 % 2 == 1
  }

  predicate IsIa64Branch(x: nat) {
    x / 0x20_0000_0000 % 16 == 5 && x / 0x200 % 8 == 0
  }

  /** The address of a branch: twenty bits and, apart from them, a sign. */
  function Ia64Field(x: nat): (a: nat)
    ensures a < F21
  {
    x / 0x2000 % 0x10_0000 + x / 0x10_0000_0000 % 2 * 0x10_0000
  }

  function Ia64Put(x: nat, a: nat): (y: nat)
    requires x < F41 && a < F21
    ensures y < F41
  {
    x % 0x2000 + a % 0x10_0000 * 0x2000 + x / 0x2_0000_0000 % 8 * 0x2_0000_0000
      + a / 0x10_0000 * 0x10_0000_0000 + x / 0x20_0000_0000 * 0x20_0000_0000
  }

  function Ia64Slot(x: nat, at: nat, decode: bool): (y: nat)
    requires x < F41
    ensures y < F41
  {
    if IsIa64Branch(x) then Ia64Put(x, Turn(Ia64Field(x), at / 16, F21, decode)) else x
  }

  lemma Ia64PutField(x: nat, a: nat)
    requires x < F41 && a < F21
    ensures var y := Ia64Put(x, a);
      && Ia64Field(y) == a && Ia64Put(y, Ia64Field(x)) == x
      && (IsIa64Branch(y) <==> IsIa64Branch(x))
  {
    var u := x / 0x2000;
    var v := u / 0x10_0000;
    var x0, x1, x2, x3, x4 := x % 0x2000, u % 0x10_0000, v % 8, v / 8 % 2, v / 16;
    assert x == x0 + x1 * 0x2000 + x2 * 0x2_0000_0000 + x3 * 0x10_0000_0000 + x4 * 0x20_0000_0000;
    Ia64Digits(x0, x1, x2, x3, x4);
    Ia64Digits(x0, a % 0x10_0000, x2, a / 0x10_0000, x4);
    Ia64Same(x, Ia64Put(x, a), x0, x1, x2, x3, x4, a);
  }

  /** Two instructions that differ in the address alone. */
  lemma Ia64Same(x: nat, y: nat, x0: nat, x1: nat, x2: nat, x3: nat, x4: nat, a: nat)
    requires x0 < 0x2000 && x1 < 0x10_0000 && x2 < 8 && x3 < 2 && a < F21 && x < F41 && y < F41
    requires x == x0 + x1 * 0x2000 + x2 * 0x2_0000_0000 + x3 * 0x10_0000_0000 + x4 * 0x20_0000_0000
    requires x % 0x2000 == x0 && x / 0x2000 % 0x10_0000 == x1 && x / 0x2_0000_0000 % 8 == x2
    requires x / 0x10_0000_0000 % 2 == x3 && x / 0x20_0000_0000 == x4 && x / 0x200 % 8 == x0 / 0x200 % 8
    requires y % 0x2000 == x0 && y / 0x2000 % 0x10_0000 == a % 0x10_0000 && y / 0x2_0000_0000 % 8 == x2
    requires y / 0x10_0000_0000 % 2 == a / 0x10_0000 && y / 0x20_0000_0000 == x4 && y / 0x200 % 8 == x0 / 0x200 % 8
    ensures Ia64Field(y) == a && Ia64Put(y, Ia64Field(x)) == x
    ensures IsIa64Branch(y) <==> IsIa64Branch(x)
  {
    assert Ia64Field(y) == a % 0x10_0000 + a / 0x10_0000 * 0x10_0000;
    assert Ia64Field(x) == x1 + x3 * 0x10_0000;
    OneCarry(x1, x3);
  }

  lemma OneCarry(lo: nat, hi: nat)
    requires lo < 0x10_0000
    ensures (lo + hi * 0x10_0000) % 0x10_0000 == lo && (lo + hi * 0x10_0000) / 0x10_0000 == hi
  {
  }

  lemma Ia64Digits(x0: nat, x1: nat, x2: nat, x3: nat, x4: nat)
    requires x0 < 0x2000 && x1 < 0x10_0000 && x2 < 8 && x3 < 2
    ensures var x := x0 + x1 * 0x2000 + x2 * 0x2_0000_0000 + x3 * 0x10_0000_0000 + x4 * 0x20_0000_0000;
      && x % 0x2000 == x0 && x / 0x2000 % 0x10_0000 == x1 && x / 0x2_0000_0000 % 8 == x2
      && x / 0x10_0000_0000 % 2 == x3 && x / 0x20_0000_0000 == x4 && x / 0x200 % 8 == x0 / 0x200 % 8
  {
    var x := x0 + x1 * 0x2000 + x2 * 0x2_0000_0000 + x3 * 0x10_0000_0000 + x4 * 0x20_0000_0000;
    var u := x1 + 0x10_0000 * (x2 + x3 * 8 + x4 * 16);
    assert x == x0 + 0x2000 * u;
    assert x / 0x2000 == u;
    assert x / 0x2_0000_0000 == x2 + x3 * 8 + x4 * 16;
    assert x / 0x10_0000_0000 == x3 + x4 * 2;
    assert x / 0x200 == x0 / 0x200 + 16 * u;
  }

  lemma Ia64SlotBack(x: nat, at: nat, decode: bool)
    requires x < F41
    ensures Ia64Slot(Ia64Slot(x, at, decode), at, !decode) == x
  {
    if IsIa64Branch(x) {
      var a := Ia64Field(x);
      Ia64PutField(x, Turn(a, at / 16, F21, decode));
      TurnBack(a, at / 16, F21, decode);
    }
  }

  const B46: nat := 0x4000_0000_0000
  const B87: nat := 0x80_0000_0000_0000_0000_0000
  const B128: nat := 0x1_0000_0000_0000_0000_0000_0000_0000_0000

  /** A bundle of 128 bits: a template and three slots. */
  function Bundle(t: nat, s0: nat, s1: nat, s2: nat): (w: nat)
    requires t < 32 && s0 < F41 && s1 < F41 && s2 < F41
    ensures w < B128
  {
    t + 32 * s0 + B46 * s1 + B87 * s2
  }

  function Slot0(w: nat): (x: nat)
    ensures x < F41
  {
    w / 32 % F41
  }

  function Slot1(w: nat): (x: nat)
    ensures x < F41
  {
    w / B46 % F41
  }

  function Slot2(w: nat): (x: nat)
    requires w < B128
    ensures x < F41
  {
    w / B87
  }

  lemma BundleParts(t: nat, s0: nat, s1: nat, s2: nat)
    requires t < 32 && s0 < F41 && s1 < F41 && s2 < F41
    ensures var w := Bundle(t, s0, s1, s2); w % 32 == t && Slot0(w) == s0 && Slot1(w) == s1 && Slot2(w) == s2
  {
    var w := Bundle(t, s0, s1, s2);
    var u, v := s0 + F41 * (s1 + F41 * s2), s1 + F41 * s2;
    assert w == t + 32 * u;
    assert w / 32 == u;
    assert w == (t + 32 * s0) + B46 * v;
    assert w / B46 == v;
    assert w == (t + 32 * s0 + B46 * s1) + B87 * s2;
  }

  lemma BundleThere(w: nat)
    requires w < B128
    ensures Bundle(w % 32, Slot0(w), Slot1(w), Slot2(w)) == w
  {
    var u := w / 32;
    var v := u / F41;
    assert w / B46 == v;
    assert w / B87 == v / F41;
  }

  function MaskedSlot(mask: nat, slot: nat, x: nat, at: nat, decode: bool): (y: nat)
    requires slot < 3 && x < F41
    ensures y < F41
  {
    if Masked(mask, slot) then Ia64Slot(x, at, decode) else x
  }

  function Ia64Bundle(w: nat, at: nat, decode: bool): (v: nat)
    requires w < B128
    ensures v < B128
  {
    var m := BranchMask(w % 32);
    Bundle(w % 32, MaskedSlot(m, 0, Slot0(w), at, decode), MaskedSlot(m, 1, Slot1(w), at, decode),
           MaskedSlot(m, 2, Slot2(w), at, decode))
  }

  lemma MaskedSlotBack(mask: nat, slot: nat, x: nat, at: nat, decode: bool)
    requires slot < 3 && x < F41
    ensures MaskedSlot(mask, slot, MaskedSlot(mask, slot, x, at, decode), at, !decode) == x
  {
    hide Ia64Slot;
    Ia64SlotBack(x, at, decode);
  }

  lemma Ia64BundleBack(w: nat, at: nat, decode: bool)
    requires w < B128
    ensures Ia64Bundle(Ia64Bundle(w, at, decode), at, !decode) == w
  {
    hide Bundle, Slot0, Slot1, Slot2, MaskedSlot;
    var m := BranchMask(w % 32);
    BundleThere(w);
    BundleParts(w % 32, MaskedSlot(m, 0, Slot0(w), at, decode), MaskedSlot(m, 1, Slot1(w), at, decode),
                MaskedSlot(m, 2, Slot2(w), at, decode));
    MaskedSlotBack(m, 0, Slot0(w), at, decode);
    MaskedSlotBack(m, 1, Slot1(w), at, decode);
    MaskedSlotBack(m, 2, Slot2(w), at, decode);
  }

  // ---- A step of a filter, and a whole buffer ------------------------------------

  lemma PowValues()
    ensures Pow256(3) == F24 && Pow256(4) == UINT32 && Pow256(16) == B128
    ensures Pow256(5) == 0x100_0000_0000 && Pow256(6) == 0x1_0000_0000_0000 && Pow256(10) == 0x1_0000_0000_0000_0000_0000
  {
    assert Pow256(1) == 256 && Pow256(2) == 0x1_0000 && Pow256(3) == F24;
    assert Pow256(4) == 256 * Pow256(3) && Pow256(5) == 256 * Pow256(4) && Pow256(6) == 256 * Pow256(5);
    assert Pow256(7) == 256 * Pow256(6) && Pow256(8) == 256 * Pow256(7) && Pow256(9) == 256 * Pow256(8);
    assert Pow256(10) == 256 * Pow256(9) && Pow256(11) == 256 * Pow256(10) && Pow256(12) == 256 * Pow256(11);
    assert Pow256(13) == 256 * Pow256(12) && Pow256(14) == 256 * Pow256(13) && Pow256(15) == 256 * Pow256(14);
    assert Pow256(16) == 256 * Pow256(15);
  }

  function ArmBytes(w: seq<Byte>, at: nat, decode: bool): (v: seq<Byte>)
    requires |w| == 4
    ensures |v| == 4
  {
    if w[3] == 0xEB then LittleBytes(3, Turn(Little(w[..3]), at / 4 + 2, F24, decode)) + [0xEB] else w
  }

  function ThumbStep(w: seq<Byte>, at: nat, decode: bool): (v: seq<Byte>)
    requires |w| == 4
    ensures |v| == if IsThumbPair(w) then 4 else 2
  {
    if IsThumbPair(w) then ThumbBytes(Turn(ThumbField(w), at / 2 + 2, F22, decode)) else w[..2]
  }

  function Ia64Bytes(w: seq<Byte>, at: nat, decode: bool): (v: seq<Byte>)
    requires |w| == 16
    ensures |v| == 16
  {
    LittleBound(w);
    PowValues();
    LittleBytes(16, Ia64Bundle(Little(w), at, decode))
  }

  /** What a filter makes of a window at a position; the result is what it has dealt with. */
  function Piece(k: Kind, at: nat, decode: bool, w: seq<Byte>): (v: seq<Byte>)
    requires |w| == Window(k)
    ensures 2 <= |v| <= Window(k) && (k != ArmThumb ==> |v| == Window(k))
  {
    match k
    case PowerPc => BigBytes(PowerPcWord(Big(w), at, decode))
    case Sparc => BigBytes(SparcWord(Big(w), at, decode))
    case Arm => ArmBytes(w, at, decode)
    case ArmThumb => ThumbStep(w, at, decode)
    case Ia64 => Ia64Bytes(w, at, decode)
  }

  /** What a filter makes of a buffer; a short rest it leaves for later. */
  function Filter(k: Kind, at: nat, decode: bool, s: seq<Byte>): (f: seq<Byte>)
    ensures |s| < |f| + Window(k) && |f| <= |s|
    decreases |s|
  {
    if |s| < Window(k) then
      []
    else
      var v := Piece(k, at, decode, s[..Window(k)]);
      v + Filter(k, at + |v|, decode, s[|v|..])
  }

  /** A whole stream: its last few bytes stay as they are. */
  function WholeStream(k: Kind, at: nat, decode: bool, s: seq<Byte>): (t: seq<Byte>)
    ensures |t| == |s|
  {
    Filter(k, at, decode, s) + s[|Filter(k, at, decode, s)|..]
  }

  lemma ThumbTwoOrFour(at: nat, decode: bool, w: seq<Byte>)
    requires |w| == 4
    ensures |ThumbStep(w, at, decode)| in {2, 4}
  {
    hide ThumbStep;
  }

  lemma ThumbPiece(at: nat, decode: bool, w: seq<Byte>)
    requires |w| == 4
    ensures Piece(ArmThumb, at, decode, w) == ThumbStep(w, at, decode)
  {
    hide ThumbStep;
  }

  lemma OnGrid(k: Kind, at: nat, n: nat)
    requires Aligned(k, at) && (n == Window(k) || (k == ArmThumb && n == 2))
    ensures Aligned(k, at + n)
  {
  }

  lemma PieceAligned(k: Kind, at: nat, decode: bool, w: seq<Byte>)
    requires |w| == Window(k) && Aligned(k, at)
    ensures Aligned(k, at + |Piece(k, at, decode, w)|)
  {
    hide Piece, ThumbStep, IsThumbPair, Aligned;
    if k == ArmThumb {
      ThumbTwoOrFour(at, decode, w);
      ThumbPiece(at, decode, w);
    }
    OnGrid(k, at, |Piece(k, at, decode, w)|);
  }

  lemma {:induction false} FilterAligned(k: Kind, at: nat, decode: bool, s: seq<Byte>)
    requires Aligned(k, at)
    ensures Aligned(k, at + |Filter(k, at, decode, s)|)
    decreases |s|
  {
    hide Piece, Aligned;
    if |s| >= Window(k) {
      var v := Piece(k, at, decode, s[..Window(k)]);
      PieceAligned(k, at, decode, s[..Window(k)]);
      FilterAligned(k, at + |v|, decode, s[|v|..]);
    }
  }

  lemma FilterSteps(k: Kind, at: nat, decode: bool, s: seq<Byte>)
    requires |s| >= Window(k)
    ensures var v := Piece(k, at, decode, s[..Window(k)]);
      Filter(k, at, decode, s) == v + Filter(k, at + |v|, decode, s[|v|..])
  {
  }

  lemma FilterShort(k: Kind, at: nat, decode: bool, s: seq<Byte>)
    requires |s| < Window(k)
    ensures Filter(k, at, decode, s) == []
  {
  }

  /** Filtering can stop and go on: a buffer may come in parts of any sizes. */
  lemma {:induction false} FilterJoin(k: Kind, at: nat, decode: bool, s: seq<Byte>, t: seq<Byte>)
    ensures var n := |Filter(k, at, decode, s)|;
      Filter(k, at, decode, s + t) == Filter(k, at, decode, s) + Filter(k, at + n, decode, s[n..] + t)
    decreases |s|
  {
    hide Piece, Filter;
    if |s| < Window(k) {
      FilterShort(k, at, decode, s);
      assert s[0..] == s;
    } else {
      var v := Piece(k, at, decode, s[..Window(k)]);
      FilterSteps(k, at, decode, s);
      FilterSteps(k, at, decode, s + t);
      assert (s + t)[..Window(k)] == s[..Window(k)];
      assert (s + t)[|v|..] == s[|v|..] + t;
      FilterJoin(k, at + |v|, decode, s[|v|..], t);
      var f := Filter(k, at + |v|, decode, s[|v|..]);
      assert s[|v|..][|f|..] == s[|v| + |f|..];
      Regroup(v, f, Filter(k, at + |v| + |f|, decode, s[|v| + |f|..] + t));
    }
  }

  // ---- Undoing --------------------------------------------------------------------

  lemma ArmBack(w: seq<Byte>, at: nat, decode: bool)
    requires |w| == 4
    ensures ArmBytes(ArmBytes(w, at, decode), at, !decode) == w
  {
    hide Little, LittleBytes, Turn;
    if w[3] == 0xEB {
      var low := w[..3];
      LittleBound(low);
      PowValues();
      var t := Turn(Little(low), at / 4 + 2, F24, decode);
      var v := ArmBytes(w, at, decode);
      assert v[..3] == LittleBytes(3, t) && v[3] == 0xEB;
      LittleBack(3, t);
      TurnBack(Little(low), at / 4 + 2, F24, decode);
      LittleThere(low);
      assert low + [0xEB] == w;
    }
  }

  lemma ThumbStepBack(w: seq<Byte>, at: nat, decode: bool)
    requires |w| == 4 && IsThumbPair(w)
    ensures ThumbStep(ThumbStep(w, at, decode), at, !decode) == w
  {
    var a := ThumbField(w);
    ThumbBack(Turn(a, at / 2 + 2, F22, decode));
    TurnBack(a, at / 2 + 2, F22, decode);
    ThumbThere(w);
  }

  lemma Ia64BytesBack(w: seq<Byte>, at: nat, decode: bool)
    requires |w| == 16
    ensures Ia64Bytes(Ia64Bytes(w, at, decode), at, !decode) == w
  {
    hide Little, LittleBytes, Ia64Bundle;
    LittleBound(w);
    PowValues();
    var x := Little(w);
    LittleBack(16, Ia64Bundle(x, at, decode));
    Ia64BundleBack(x, at, decode);
    LittleThere(w);
  }

  lemma PieceBack(k: Kind, at: nat, decode: bool, w: seq<Byte>)
    requires |w| == Window(k) && |Piece(k, at, decode, w)| == |w|
    ensures Piece(k, at, !decode, Piece(k, at, decode, w)) == w
  {
    hide BigBytes, Big, PowerPcWord, SparcWord, ArmBytes, ThumbStep, Ia64Bytes;
    match k
    case PowerPc =>
      BigBack(PowerPcWord(Big(w), at, decode));
      PowerPcBack(Big(w), at, decode);
      BigThere(w);
    case Sparc =>
      BigBack(SparcWord(Big(w), at, decode));
      SparcBack(Big(w), at, decode);
      BigThere(w);
    case Arm => ArmBack(w, at, decode);
    case ArmThumb => ThumbStepBack(w, at, decode);
    case Ia64 => Ia64BytesBack(w, at, decode);
  }

  lemma WholeSteps(k: Kind, at: nat, decode: bool, s: seq<Byte>)
    requires |s| >= Window(k)
    ensures var v := Piece(k, at, decode, s[..Window(k)]);
      WholeStream(k, at, decode, s) == v + WholeStream(k, at + |v|, decode, s[|v|..])
  {
    hide Piece, Filter;
    FilterSteps(k, at, decode, s);
    var v := Piece(k, at, decode, s[..Window(k)]);
    var n := |Filter(k, at + |v|, decode, s[|v|..])|;
    assert s[|v|..][n..] == s[|v| + n..];
  }

  lemma ThumbStepMarks(at: nat, decode: bool, w: seq<Byte>, j: nat)
    requires |w| == 4 && j % 2 == 1 && j < |ThumbStep(w, at, decode)|
    ensures ThumbStep(w, at, decode)[j] / 8 == w[j] / 8
  {
    hide ThumbField, Turn;
    assert j == 1 || j == 3;
  }

  /** The top five bits of the second byte of every half-word survive; whether a half-word
      begins or ends a long call can still be seen. */
  lemma {:induction false} ThumbMarks(at: nat, decode: bool, s: seq<Byte>, j: nat)
    requires j < |s| && j % 2 == 1
    ensures WholeStream(ArmThumb, at, decode, s)[j] / 8 == s[j] / 8
    decreases |s|
  {
    if |s| < 4 {
      WholeShort(ArmThumb, at, decode, s);
    } else {
      hide WholeStream, ThumbStep;
      var w := s[..4];
      var v := Piece(ArmThumb, at, decode, w);
      WholeSteps(ArmThumb, at, decode, s);
      if j < |v| {
        ThumbStepMarks(at, decode, w, j);
      } else {
        assert (j - |v|) % 2 == 1 by { ThumbTwoOrFour(at, decode, w); }
        ThumbMarks(at + |v|, decode, s[|v|..], j - |v|);
      }
    }
  }

  /** A filter is a bijection on buffers of any length: the encoder's form undoes the
      decoder's, and the other way round. */
  lemma {:induction false} WholeBack(k: Kind, at: nat, decode: bool, s: seq<Byte>)
    ensures WholeStream(k, at, !decode, WholeStream(k, at, decode, s)) == s
    decreases |s|
  {
    hide Piece, WholeStream;
    if |s| < Window(k) {
      WholeShort(k, at, decode, s);
      WholeShort(k, at, !decode, s);
    } else {
      var n := Window(k);
      var w := s[..n];
      var v := Piece(k, at, decode, w);
      var rest := WholeStream(k, at + |v|, decode, s[|v|..]);
      WholeSteps(k, at, decode, s);
      WholeBack(k, at + |v|, decode, s[|v|..]);
      var t := v + rest;
      WholeSteps(k, at, !decode, t);
      if |v| == n {
        PieceBack(k, at, decode, w);
        assert t[..n] == v && t[n..] == rest;
        assert w + s[n..] == s;
      } else {
        ThumbApart(at, decode, s);
        assert t[2..] == rest;
        assert s[..2] + s[2..] == s;
      }
    }
  }

  lemma WholeShort(k: Kind, at: nat, decode: bool, s: seq<Byte>)
    requires |s| < Window(k)
    ensures WholeStream(k, at, decode, s) == s
  {
  }

  /** A half-word that does not begin a long call still does not after filtering. */
  lemma ThumbApart(at: nat, decode: bool, s: seq<Byte>)
    requires |s| >= 4 && |Piece(ArmThumb, at, decode, s[..4])| != 4
    ensures var t := Piece(ArmThumb, at, decode, s[..4]) + WholeStream(ArmThumb, at + 2, decode, s[2..]);
      Piece(ArmThumb, at, decode, s[..4]) == s[..2] && Piece(ArmThumb, at, !decode, t[..4]) == s[..2]
  {
    hide WholeStream;
    var r := WholeStream(ArmThumb, at + 2, decode, s[2..]);
    ThumbMarks(at + 2, decode, s[2..], 1);
    var t := s[..2] + r;
    assert t[..4][..2] == s[..2] && t[..4][3] == r[1];
    assert s[2..][1] == s[..4][3];
  }
}
