/** The filters of xz_dec_bcj.c as they run: in place, in 32-bit arithmetic, with a position
    that wraps. */
module BcjInPlace {
  import opened Words
  import opened BcjFilters

  /** A sequence with some of its elements replaced. */
  function Patched(a: seq<Byte>, p: nat, x: seq<Byte>): (b: seq<Byte>)
    requires p + |x| <= |a|
    ensures |b| == |a|
  {
    a[..p] + x + a[p + |x|..]
  }

  lemma PatchNext(a: seq<Byte>, p: nat, x: seq<Byte>, y: seq<Byte>)
    requires p + |x| + |y| <= |a|
    ensures Patched(Patched(a, p, x), p + |x|, y) == Patched(a, p, x + y)
  {
  }

  lemma PatchSame(a: seq<Byte>, p: nat, n: nat)
    requires p + n <= |a|
    ensures Patched(a, p, a[p..p + n]) == a
  {
  }

  lemma PatchAhead(a: seq<Byte>, p: nat, x: seq<Byte>, n: nat)
    requires p + |x| + n <= |a|
    ensures Patched(a, p, x)[p + |x|..p + |x| + n] == a[p + |x|..p + |x| + n]
  {
  }

  // ---- The loop of every filter ---------------------------------------------------

  /** A filter has dealt with the first bytes of its buffer. */
  ghost predicate Partly(k: Kind, at: nat, was: seq<Byte>, from: nat, size: nat, now: seq<Byte>, i: nat, out: seq<Byte>) {
    && from + size <= |was| && i <= size && |out| == i && now == Patched(was, from, out)
    && Filter(k, at, true, was[from..from + size]) == out + Filter(k, at + i, true, was[from + i..from + size])
  }

  ghost predicate Filtered(k: Kind, at: nat, was: seq<Byte>, from: nat, size: nat, now: seq<Byte>, i: nat) {
    && from + size <= |was| && i == |Filter(k, at, true, was[from..from + size])|
    && now == Patched(was, from, Filter(k, at, true, was[from..from + size]))
  }

  lemma PartlyBegin(k: Kind, at: nat, was: seq<Byte>, from: nat, size: nat)
    requires from + size <= |was|
    ensures Partly(k, at, was, from, size, was, 0, [])
  {
    hide Filter;
  }

  lemma PartlyEnd(k: Kind, at: nat, was: seq<Byte>, from: nat, size: nat, now: seq<Byte>, i: nat, out: seq<Byte>)
    requires Partly(k, at, was, from, size, now, i, out) && size - i < Window(k)
    ensures Filtered(k, at, was, from, size, now, i)
  {
    hide Filter;
    FilterShort(k, at + i, true, was[from + i..from + size]);
    assert out + [] == out;
  }

  /** What is still ahead is as it was. */
  lemma PartlyAhead(k: Kind, at: nat, was: seq<Byte>, from: nat, size: nat, now: seq<Byte>, i: nat, out: seq<Byte>)
    requires Partly(k, at, was, from, size, now, i, out) && size - i >= Window(k)
    ensures |now| == |was| && now[from + i..from + i + Window(k)] == was[from + i..from + i + Window(k)]
  {
    hide Filter;
    PatchAhead(was, from, out, Window(k));
  }

  lemma PartlyNext(k: Kind, at: nat, was: seq<Byte>, from: nat, size: nat, now: seq<Byte>, i: nat, out: seq<Byte>, v: seq<Byte>)
    requires Partly(k, at, was, from, size, now, i, out) && size - i >= Window(k)
    requires v == Piece(k, at + i, true, was[from + i..from + i + Window(k)])
    ensures from + i + |v| <= |now|
    ensures Partly(k, at, was, from, size, Patched(now, from + i, v), i + |v|, out + v)
  {
    hide Filter, Piece;
    PatchNext(was, from, out, v);
    var s := was[from + i..from + size];
    FilterSteps(k, at + i, true, s);
    assert s[..Window(k)] == was[from + i..from + i + Window(k)];
    assert s[|v|..] == was[from + i + |v|..from + size];
    Regroup(out, v, Filter(k, at + i + |v|, true, s[|v|..]));
  }

  // ---- Words in a buffer ----------------------------------------------------------

  method GetBe32(buf: array<Byte>, p: nat) returns (w: nat)
    requires p + 4 <= buf.Length
    ensures w == Big(buf[p..p + 4])
  {
    w := Num8(buf[p]) * 0x100_0000 + Num8(buf[p + 1]) * 0x1_0000 + Num8(buf[p + 2]) * 0x100 + Num8(buf[p + 3]);
  }

  method PutBe32(buf: array<Byte>, p: nat, w: nat)
    requires p + 4 <= buf.Length && w < UINT32
    modifies buf
    ensures buf[..] == Patched(old(buf[..]), p, BigBytes(w))
  {
    buf[p], buf[p + 1], buf[p + 2], buf[p + 3] := w / 0x100_0000, w / 0x1_0000 % 256, w / 0x100 % 256, w % 256;
  }

  // ---- PowerPC --------------------------------------------------------------------

  lemma PowerPcMasks(w: nat, pos: nat, at: nat)
    requires w < UINT32 && IsPowerPcBranch(w) && at % 4 == 0 && pos % UINT32 == at % UINT32
    ensures (w % F26 / 4 * 4 - pos) % UINT32 % F26 / 4 * 4 + 0x4800_0001 == PowerPcWord(w, at, true)
  {
    var a, d := w / 4 % F24, at / 4;
    assert w % F26 / 4 == a;
    WrapField26(4 * a, pos, at);
    FourTimes(a, d);
  }

  lemma WrapField26(x: nat, pos: nat, at: nat)
    requires pos % UINT32 == at % UINT32
    ensures (x - pos) % UINT32 % F26 == (x - at) % F26
  {
    var p, q := pos / UINT32, at / UINT32;
    assert x - pos == x - at + UINT32 * (q - p);
  }

  lemma FourTimes(a: int, d: int)
    ensures (4 * a - 4 * d) % F26 == 4 * ((a - d) % F24)
  {
  }

  lemma PowerPcStep(at: nat, w: seq<Byte>)
    requires |w| == 4
    ensures Piece(PowerPc, at, true, w) == BigBytes(PowerPcWord(Big(w), at, true))
    ensures !IsPowerPcBranch(Big(w)) ==> Piece(PowerPc, at, true, w) == w
  {
    hide Big, BigBytes;
    BigThere(w);
  }

  /** The body of bcj_powerpc's loop. */
  method PowerPcTurn(buf: array<Byte>, p: nat, pos: nat, ghost at: nat)
    requires p + 4 <= buf.Length && pos % UINT32 == at % UINT32 && Aligned(PowerPc, at)
    modifies buf
    ensures buf[..] == Patched(old(buf[..]), p, Piece(PowerPc, at, true, old(buf[p..p + 4])))
  {
    hide Piece, Big, BigBytes;
    ghost var now := buf[..];
    assert now[p..p + 4] == buf[p..p + 4];
    PowerPcStep(at, buf[p..p + 4]);
    var instr := GetBe32(buf, p);
    if instr / F26 == 18 && instr % 4 == 1 {
      PowerPcMasks(instr, pos, at);
      instr := instr % F26 / 4 * 4;
      instr := (instr - pos) % UINT32;
      instr := instr % F26 / 4 * 4;
      PutBe32(buf, p, instr + 0x4800_0001);
    } else {
      PatchSame(now, p, 4);
    }
  }

  method BcjPowerPc(buf: array<Byte>, from: nat, size: nat, pos: nat, ghost at: nat) returns (i: nat)
    requires from + size <= buf.Length && pos == at % UINT32 && Aligned(PowerPc, at)
    modifies buf
    ensures Filtered(PowerPc, at, old(buf[..]), from, size, buf[..], i)
  {
    hide Filter, Piece, Partly, Filtered, Patched, Aligned;
    ghost var was, out := buf[..], [];
    PartlyBegin(PowerPc, at, was, from, size);
    i := 0;
    while i + 4 <= size
      invariant i <= size && Aligned(PowerPc, at + i)
      invariant Partly(PowerPc, at, was, from, size, buf[..], i, out)
    {
      ghost var now := buf[..];
      PartlyAhead(PowerPc, at, was, from, size, now, i, out);
      assert buf[from + i..from + i + 4] == now[from + i..from + i + 4];
      PowerPcTurn(buf, from + i, pos + i, at + i);
      ghost var v := Piece(PowerPc, at + i, true, was[from + i..from + i + 4]);
      PieceAligned(PowerPc, at + i, true, was[from + i..from + i + 4]);
      PartlyNext(PowerPc, at, was, from, size, now, i, out, v);
      out := out + v;
      i := i + 4;
    }
    PartlyEnd(PowerPc, at, was, from, size, buf[..], i, out);
  }

  // ---- SPARC ----------------------------------------------------------------------

  lemma SparcMasks(w: nat, pos: nat, at: nat)
    requires w < UINT32 && IsSparcCall(w) && at % 4 == 0 && pos % UINT32 == at % UINT32
    ensures var v := (w * 4 % UINT32 - pos) % UINT32 / 4;
      v % F22 + (if v / F22 % 2 == 1 then 0x7FC0_0000 else 0x4000_0000) == SparcWord(w, at, true)
  {
    var v := (w * 4 % UINT32 - pos) % UINT32 / 4;
    var d := at / 4;
    Wrap32(4 * w, pos, 4 * d);
    FourTimes30(w, d);
    assert v == (w - d) % 0x4000_0000;
    Narrow23(w, d);
    var t := Turn(w % F23, d, F23, true);
    assert v % F23 == t;
    SignAndRest(v, t);
  }

  lemma Wrap32(x: int, pos: nat, at: nat)
    requires pos % UINT32 == at % UINT32
    ensures (x % UINT32 - pos) % UINT32 == (x - at) % UINT32
  {
    var p, q, r := pos / UINT32, at / UINT32, x / UINT32;
    assert x % UINT32 - pos == x - at + UINT32 * (q - p - r);
  }

  lemma FourTimes30(a: int, d: int)
    ensures (4 * a - 4 * d) % UINT32 / 4 == (a - d) % 0x4000_0000
  {
  }

  lemma Narrow23(w: nat, d: nat)
    ensures (w - d) % 0x4000_0000 % F23 == (w % F23 - d) % F23
  {
    var q, r := w / F23, (w - d) / 0x4000_0000;
    assert (w - d) % 0x4000_0000 == w % F23 - d + F23 * (q - 0x80 * r);
  }

  lemma SignAndRest(v: nat, t: nat)
    requires v % F23 == t
    ensures v % F22 + (if v / F22 % 2 == 1 then 0x7FC0_0000 else 0x4000_0000) == SparcCall(t)
  {
  }

  lemma SparcStep(at: nat, w: seq<Byte>)
    requires |w| == 4
    ensures Piece(Sparc, at, true, w) == BigBytes(SparcWord(Big(w), at, true))
    ensures !IsSparcCall(Big(w)) ==> Piece(Sparc, at, true, w) == w
  {
    hide Big, BigBytes;
    BigThere(w);
  }

  /** The body of bcj_sparc's loop.  The sign bit is spread by taking it from 0x40000000. */
  method SparcTurn(buf: array<Byte>, p: nat, pos: nat, ghost at: nat)
    requires p + 4 <= buf.Length && pos % UINT32 == at % UINT32 && Aligned(Sparc, at)
    modifies buf
    ensures buf[..] == Patched(old(buf[..]), p, Piece(Sparc, at, true, old(buf[p..p + 4])))
  {
    hide Piece, Big, BigBytes;
    ghost var now := buf[..];
    assert now[p..p + 4] == buf[p..p + 4];
    SparcStep(at, buf[p..p + 4]);
    var instr := GetBe32(buf, p);
    if instr / F22 == 0x100 || instr / F22 == 0x1FF {
      SparcMasks(instr, pos, at);
      instr := instr * 4 % UINT32;
      instr := (instr - pos) % UINT32;
      instr := instr / 4;
      instr := instr % F22 + (if instr / F22 % 2 == 1 then 0x7FC0_0000 else 0x4000_0000);
      PutBe32(buf, p, instr);
    } else {
      PatchSame(now, p, 4);
    }
  }

  method BcjSparc(buf: array<Byte>, from: nat, size: nat, pos: nat, ghost at: nat) returns (i: nat)
    requires from + size <= buf.Length && pos == at % UINT32 && Aligned(Sparc, at)
    modifies buf
    ensures Filtered(Sparc, at, old(buf[..]), from, size, buf[..], i)
  {
    hide Filter, Piece, Partly, Filtered, Patched, Aligned;
    ghost var was, out := buf[..], [];
    PartlyBegin(Sparc, at, was, from, size);
    i := 0;
    while i + 4 <= size
      invariant i <= size && Aligned(Sparc, at + i)
      invariant Partly(Sparc, at, was, from, size, buf[..], i, out)
    {
      ghost var now := buf[..];
      PartlyAhead(Sparc, at, was, from, size, now, i, out);
      assert buf[from + i..from + i + 4] == now[from + i..from + i + 4];
      SparcTurn(buf, from + i, pos + i, at + i);
      ghost var v := Piece(Sparc, at + i, true, was[from + i..from + i + 4]);
      PieceAligned(Sparc, at + i, true, was[from + i..from + i + 4]);
      PartlyNext(Sparc, at, was, from, size, now, i, out, v);
      out := out + v;
      i := i + 4;
    }
    PartlyEnd(Sparc, at, was, from, size, buf[..], i, out);
  }

  // ---- ARM ------------------------------------------------------------------------

  lemma ArmMasks(a: nat, pos: nat, at: nat)
    requires a < F24 && at % 4 == 0 && pos % UINT32 == at % UINT32
    ensures (a * 4 - (pos + 8)) % UINT32 / 4 % F24 == Turn(a, at / 4 + 2, F24, true)
  {
    var d := at / 4 + 2;
    assert a * 4 % UINT32 == a * 4;
    Shifted(pos, at, 8);
    Wrap32(4 * a, pos + 8, 4 * d);
    FourTimes30(a, d);
    Narrow24(a, d);
  }

  lemma Shifted(pos: nat, at: nat, n: nat)
    requires pos % UINT32 == at % UINT32
    ensures (pos + n) % UINT32 == (at + n) % UINT32
  {
    var p, q := pos / UINT32, at / UINT32;
    assert pos + n == at + n + UINT32 * (p - q);
  }

  lemma Narrow24(a: nat, d: nat)
    ensures (a - d) % 0x4000_0000 % F24 == (a - d) % F24
  {
  }

  /** The low three bytes of a number. */
  lemma ThreeBytes(x: nat)
    ensures LittleBytes(3, x % F24) == [x % 256, x / 0x100 % 256, x / 0x1_0000 % 256]
  {
    var u := x / 256;
    var v := u / 256;
    var b0, b1, b2 := x % 256, u % 256, v % 256;
    Quotient(x, 256, 256);
    Quotient(x, 0x1_0000, 256);
    assert x % F24 == b0 + 256 * (b1 + 256 * b2);
    LowDigit(b0, b1 + 256 * b2);
    LowDigit(b1, b2);
    assert LittleBytes(1, b2) == [b2] + LittleBytes(0, b2 / 256);
    assert LittleBytes(2, b1 + 256 * b2) == [b1] + LittleBytes(1, b2);
  }

  lemma Quotient(x: nat, m: nat, n: nat)
    requires n == 256 && (m == 256 || m == 0x1_0000)
    ensures x / m / n == x / (m * n)
    ensures x % (m * n) == x % m + m * (x / m % n)
  {
  }

  lemma LittleThree(b: seq<Byte>)
    requires |b| == 3
    ensures Little(b) == Num8(b[0]) + Num8(b[1]) * 0x100 + Num8(b[2]) * 0x1_0000
  {
    assert b[1..][1..] == b[2..] && b[2..][1..] == [];
    assert Little(b[2..]) == b[2] + 256 * Little([]);
    assert Little(b[1..]) == b[1] + 256 * Little(b[2..]);
  }

  /** The body of bcj_arm's loop. */
  method ArmTurn(buf: array<Byte>, p: nat, pos: nat, ghost at: nat)
    requires p + 4 <= buf.Length && pos % UINT32 == at % UINT32 && Aligned(Arm, at)
    modifies buf
    ensures buf[..] == Patched(old(buf[..]), p, Piece(Arm, at, true, old(buf[p..p + 4])))
  {
    hide Little, LittleBytes, Turn;
    ghost var now := buf[..];
    ghost var w := buf[p..p + 4];
    assert now[p..p + 4] == w;
    if buf[p + 3] == 0xEB {
      LittleThree(w[..3]);
      var addr := Num8(buf[p]) + Num8(buf[p + 1]) * 0x100 + Num8(buf[p + 2]) * 0x1_0000;
      ArmMasks(addr, pos, at);
      addr := addr * 4;
      addr := (addr - (pos + 8)) % UINT32;
      addr := addr / 4;
      ThreeBytes(addr);
      buf[p] := addr % 256;
      buf[p + 1] := addr / 0x100 % 256;
      buf[p + 2] := addr / 0x1_0000 % 256;
      assert buf[..] == Patched(now, p, [addr % 256, addr / 0x100 % 256, addr / 0x1_0000 % 256] + [0xEB]);
    } else {
      PatchSame(now, p, 4);
    }
  }

  method BcjArm(buf: array<Byte>, from: nat, size: nat, pos: nat, ghost at: nat) returns (i: nat)
    requires from + size <= buf.Length && pos == at % UINT32 && Aligned(Arm, at)
    modifies buf
    ensures Filtered(Arm, at, old(buf[..]), from, size, buf[..], i)
  {
    hide Filter, Piece, Partly, Filtered, Patched, Aligned;
    ghost var was, out := buf[..], [];
    PartlyBegin(Arm, at, was, from, size);
    i := 0;
    while i + 4 <= size
      invariant i <= size && Aligned(Arm, at + i)
      invariant Partly(Arm, at, was, from, size, buf[..], i, out)
    {
      ghost var now := buf[..];
      PartlyAhead(Arm, at, was, from, size, now, i, out);
      assert buf[from + i..from + i + 4] == now[from + i..from + i + 4];
      ArmTurn(buf, from + i, pos + i, at + i);
      ghost var v := Piece(Arm, at + i, true, was[from + i..from + i + 4]);
      PieceAligned(Arm, at + i, true, was[from + i..from + i + 4]);
      PartlyNext(Arm, at, was, from, size, now, i, out, v);
      out := out + v;
      i := i + 4;
    }
    PartlyEnd(Arm, at, was, from, size, buf[..], i, out);
  }

  // ---- ARM-Thumb ------------------------------------------------------------------

  lemma ThumbMasks(a: nat, pos: nat, at: nat)
    requires a < F22 && at % 2 == 0 && pos % UINT32 == at % UINT32
    ensures (a * 2 - (pos + 4)) % UINT32 / 2 % F22 == Turn(a, at / 2 + 2, F22, true)
  {
    var d := at / 2 + 2;
    assert a * 2 % UINT32 == a * 2;
    Shifted(pos, at, 4);
    Wrap32(2 * a, pos + 4, 2 * d);
    TwoTimes31(a, d);
    Narrow22(a, d);
  }

  lemma TwoTimes31(a: int, d: int)
    ensures (2 * a - 2 * d) % UINT32 / 2 == (a - d) % 0x8000_0000
  {
  }

  lemma Narrow22(a: nat, d: nat)
    ensures (a - d) % 0x8000_0000 % F22 == (a - d) % F22
  {
  }

  lemma ThumbNarrow(x: nat)
    ensures ThumbBytes(x % F22) == [x / 0x800 % 256, 0xF0 + x / 0x8_0000 % 8, x % 256, 0xF8 + x / 0x100 % 8]
  {
    var u := x / 256;
    var v := u / 8;
    var z := v / 256;
    var a, b, c, d := v % 256, z % 8, x % 256, u % 8;
    assert x / 0x800 == v;
    assert x / 0x8_0000 == z by { assert v / 256 == x / 0x8_0000; }
    assert x % F22 == b * 0x8_0000 + a * 0x800 + d * 0x100 + c by {
      assert x == c + 256 * (d + 8 * (a + 256 * (b + 8 * (z / 8))));
    }
    ThumbDigits(a, b, c, d);
  }

  /** The body of bcj_armthumb's loop. */
  method ThumbTurn(buf: array<Byte>, p: nat, pos: nat, ghost at: nat) returns (pair: bool)
    requires p + 4 <= buf.Length && pos % UINT32 == at % UINT32 && Aligned(ArmThumb, at)
    modifies buf
    ensures buf[..] == Patched(old(buf[..]), p, Piece(ArmThumb, at, true, old(buf[p..p + 4])))
    ensures |Piece(ArmThumb, at, true, old(buf[p..p + 4]))| == if pair then 4 else 2
  {
    hide ThumbBytes, Turn;
    ghost var now := buf[..];
    ghost var w := buf[p..p + 4];
    assert now[p..p + 4] == w && now[p..p + 2] == w[..2];
    pair := buf[p + 1] / 8 == 30 && buf[p + 3] / 8 == 31;
    if pair {
      var addr := Num8(buf[p + 1]) % 8 * 0x8_0000 + Num8(buf[p]) * 0x800 + Num8(buf[p + 3]) % 8 * 0x100 + Num8(buf[p + 2]);
      assert addr == ThumbField(w);
      ThumbMasks(addr, pos, at);
      addr := addr * 2;
      addr := (addr - (pos + 4)) % UINT32;
      addr := addr / 2;
      ThumbNarrow(addr);
      PutThumb(buf, p, addr);
    } else {
      PatchSame(now, p, 2);
    }
  }

  method PutThumb(buf: array<Byte>, p: nat, addr: nat)
    requires p + 4 <= buf.Length
    modifies buf
    ensures buf[..] == Patched(old(buf[..]), p, [addr / 0x800 % 256, 0xF0 + addr / 0x8_0000 % 8, addr % 256, 0xF8 + addr / 0x100 % 8])
  {
    buf[p + 1] := 0xF0 + addr / 0x8_0000 % 8;
    buf[p] := addr / 0x800 % 256;
    buf[p + 3] := 0xF8 + addr / 0x100 % 8;
    buf[p + 2] := addr % 256;
  }

  method BcjArmThumb(buf: array<Byte>, from: nat, size: nat, pos: nat, ghost at: nat) returns (i: nat)
    requires from + size <= buf.Length && pos == at % UINT32 && Aligned(ArmThumb, at)
    modifies buf
    ensures Filtered(ArmThumb, at, old(buf[..]), from, size, buf[..], i)
  {
    hide Filter, Piece, Partly, Filtered, Patched, Aligned;
    ghost var was, out := buf[..], [];
    PartlyBegin(ArmThumb, at, was, from, size);
    i := 0;
    while i + 4 <= size
      invariant i <= size && Aligned(ArmThumb, at + i)
      invariant Partly(ArmThumb, at, was, from, size, buf[..], i, out)
    {
      ghost var now := buf[..];
      PartlyAhead(ArmThumb, at, was, from, size, now, i, out);
      assert buf[from + i..from + i + 4] == now[from + i..from + i + 4];
      var pair := ThumbTurn(buf, from + i, pos + i, at + i);
      ghost var v := Piece(ArmThumb, at + i, true, was[from + i..from + i + 4]);
      PieceAligned(ArmThumb, at + i, true, was[from + i..from + i + 4]);
      PartlyNext(ArmThumb, at, was, from, size, now, i, out, v);
      out := out + v;
      if pair {
        i := i + 2;
      }
      i := i + 2;
    }
    PartlyEnd(ArmThumb, at, was, from, size, buf[..], i, out);
  }
}
