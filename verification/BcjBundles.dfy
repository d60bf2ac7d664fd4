/** bcj_ia64: three instructions of 41 bits in a bundle of 128, each rewritten in the 48-bit
    window that holds it. */
module BcjBundles {
  import opened Words
  import opened BcjFilters
  import opened BcjInPlace

  // ---- 48-bit windows -------------------------------------------------------------

  method GetLe48(buf: array<Byte>, p: nat) returns (instr: nat)
    requires p + 6 <= buf.Length
    ensures instr == Little(buf[p..p + 6])
  {
    hide Little, Pow256;
    instr := 0;
    NothingYet();
    assert buf[p..p] == [];
    for j := 0 to 6
      invariant instr == Little(buf[p..p + j])
    {
      LittleOne(buf[p..p + j], buf[p + j]);
      assert buf[p..p + j] + [buf[p + j]] == buf[p..p + j + 1];
      instr := instr + Pow256(j) * Num8(buf[p + j]);
    }
  }

  lemma NothingYet()
    ensures Little([]) == 0 && LittleBytes(0, 0) == []
  {
  }

  lemma LittleOne(b: seq<Byte>, x: Byte)
    ensures Little(b + [x]) == Little(b) + Pow256(|b|) * Num8(x)
  {
    LittleJoin(b, [x]);
    assert [x][1..] == [];
    assert Little([x]) == x;
  }

  method PutLe48(buf: array<Byte>, p: nat, instr: nat)
    requires p + 6 <= buf.Length
    modifies buf
    ensures buf[..] == Patched(old(buf[..]), p, LittleBytes(6, instr))
  {
    hide LittleBytes, Pow256;
    ghost var was := buf[..];
    NoBytes(instr);
    for j := 0 to 6
      invariant buf[..] == Patched(was, p, LittleBytes(j, instr))
    {
      NextByte(j, instr);
      buf[p + j] := instr / Pow256(j) % 256;
    }
  }

  lemma NoBytes(x: nat)
    ensures LittleBytes(0, x) == []
  {
  }

  lemma {:induction false} NextByte(j: nat, x: nat)
    ensures LittleBytes(j + 1, x) == LittleBytes(j, x) + [x / Pow256(j) % 256]
  {
    if j > 0 {
      NextByte(j - 1, x / 256);
      DivideTwice(x, Pow256(j - 1));
    } else {
      assert x / Pow256(0) == x;
      NoBytes(x / 256);
    }
  }

  // ---- One slot of a bundle -------------------------------------------------------

  function SlotOf(w: nat, slot: nat): (x: nat)
    requires w < B128 && slot < 3
    ensures x < F41
  {
    if slot == 0 then Slot0(w) else if slot == 1 then Slot1(w) else Slot2(w)
  }

  function WithSlot(w: nat, slot: nat, y: nat): (v: nat)
    requires w < B128 && slot < 3 && y < F41
    ensures v < B128
  {
    Bundle(w % 32, if slot == 0 then y else Slot0(w), if slot == 1 then y else Slot1(w), if slot == 2 then y else Slot2(w))
  }

  /** Where the window of a slot begins, and what power of two the slot begins at in it. */
  function BytePos(slot: nat): nat { 5 * slot }

  function BitScale(slot: nat): (m: nat)
    ensures m >= 1
  {
    if slot == 0 then 32 else if slot == 1 then 64 else 128
  }

  /** An instruction in its window, with the bits of the next one above it. */
  lemma NormFields(x: nat, h: nat)
    requires x < F41
    ensures var norm := x + F41 * h;
      && (IsIa64Branch(norm) <==> IsIa64Branch(x)) && Ia64Field(norm) == Ia64Field(x)
      && norm / 0x2000 % 0x10_0000 == x / 0x2000 % 0x10_0000 && norm / 0x10_0000_0000 % 2 == x / 0x10_0000_0000 % 2
  {
    AboveBits(x, h);
    DropMultiples(x / 0x200, x / 0x2000, x / 0x10_0000_0000, x / 0x20_0000_0000, h);
  }

  lemma DropMultiples(a: nat, b: nat, c: nat, d: nat, h: nat)
    ensures (a + 0x1_0000_0000 * h) % 8 == a % 8 && (b + 0x1000_0000 * h) % 0x10_0000 == b % 0x10_0000
    ensures (c + 32 * h) % 2 == c % 2 && (d + 16 * h) % 16 == d % 16
  {
  }

  lemma AboveBits(x: nat, h: nat)
    ensures var norm := x + F41 * h;
      && norm / 0x200 == x / 0x200 + 0x1_0000_0000 * h && norm / 0x2000 == x / 0x2000 + 0x1000_0000 * h
      && norm / 0x10_0000_0000 == x / 0x10_0000_0000 + 32 * h && norm / 0x20_0000_0000 == x / 0x20_0000_0000 + 16 * h
  {
  }

  /** Clearing the address bits of an instruction and putting in others. */
  function NormPut(norm: nat, a: nat): (n: int) {
    norm - norm / 0x2000 % 0x10_0000 * 0x2000 - norm / 0x10_0000_0000 % 2 * 0x10_0000_0000
      + a % 0x10_0000 * 0x2000 + a / 0x10_0000 % 2 * 0x10_0000_0000
  }

  lemma NormPutIs(x: nat, h: nat, a: nat)
    requires x < F41
    ensures NormPut(x + F41 * h, a) == Ia64Put(x, a % F21) + F41 * h
  {
    hide IsIa64Branch, Ia64Field;
    NormFields(x, h);
    var u := x / 0x2000;
    var v := u / 0x10_0000;
    Ia64Digits(x % 0x2000, u % 0x10_0000, v % 8, v / 8 % 2, v / 16);
    TwentyOne(a);
    DigitSum(x, u, v);
  }

  lemma TwentyOne(a: nat)
    ensures a % F21 % 0x10_0000 == a % 0x10_0000 && a % F21 / 0x10_0000 == a / 0x10_0000 % 2
  {
  }

  lemma DigitSum(x: nat, u: nat, v: nat)
    requires u == x / 0x2000 && v == u / 0x10_0000
    ensures x == x % 0x2000 + u % 0x10_0000 * 0x2000 + v % 8 * 0x2_0000_0000 + v / 8 % 2 * 0x10_0000_0000 + v / 16 * 0x20_0000_0000
  {
    var t := v / 8;
    assert v / 16 == t / 2;
    assert v == v % 8 + 8 * (t % 2 + 2 * (v / 16));
    assert u == u % 0x10_0000 + 0x10_0000 * v;
  }

  /** A bundle around the window of one of its slots. */
  lemma BundleAround(b: seq<Byte>, slot: nat)
    requires |b| == 16 && slot < 3
    ensures Little(b) == Little(b[..BytePos(slot)]) + Pow256(BytePos(slot)) * Little(b[BytePos(slot)..BytePos(slot) + 6])
      + Pow256(BytePos(slot) + 6) * Little(b[BytePos(slot) + 6..])
    ensures Little(b[..BytePos(slot)]) < Pow256(BytePos(slot)) && Little(b[BytePos(slot)..BytePos(slot) + 6]) < Pow256(6)
  {
    hide Little;
    var p := BytePos(slot);
    var lo, mid, hi := b[..p], b[p..p + 6], b[p + 6..];
    assert b == (lo + mid) + hi;
    LittleJoin(lo + mid, hi);
    LittleJoin(lo, mid);
    LittleBound(lo);
    LittleBound(mid);
  }

  lemma ElevenBytes()
    ensures Pow256(0) == 1 && Pow256(5) == 0x100_0000_0000 && Pow256(6) == 0x1_0000_0000_0000
    ensures Pow256(10) == 0x1_0000_0000_0000_0000_0000 && Pow256(11) == 0x100_0000_0000_0000_0000_0000 && Pow256(16) == B128
  {
    PowValues();
    assert Pow256(11) == 256 * Pow256(10);
  }

  lemma WindowNumbers(w: nat, slot: nat, lo: nat, instr: nat, hi: nat)
    requires w < B128 && slot < 3
    requires w == lo + Pow256(BytePos(slot)) * instr + Pow256(BytePos(slot) + 6) * hi
    requires lo < Pow256(BytePos(slot)) && instr < Pow256(6)
    ensures instr / BitScale(slot) % F41 == SlotOf(w, slot)
  {
    ElevenBytes();
    hide Pow256, Slot0, Slot1, Slot2;
    if slot == 0 {
      assert w == instr + 0x1_0000_0000_0000 * hi;
      Window0(instr, hi);
    } else if slot == 1 {
      assert w == lo + 0x100_0000_0000 * instr + 0x100_0000_0000_0000_0000_0000 * hi;
      Window1(lo, instr, hi);
    } else {
      assert w == lo + 0x1_0000_0000_0000_0000_0000 * instr + B128 * hi;
      Window2(lo, instr, hi);
    }
  }

  lemma Window0(instr: nat, hi: nat)
    ensures Slot0(instr + 0x1_0000_0000_0000 * hi) == instr / 32 % F41
  {
    assert (instr + 0x1_0000_0000_0000 * hi) / 32 == instr / 32 + 0x800_0000_0000 * hi;
  }

  lemma Window1(lo: nat, instr: nat, hi: nat)
    requires lo < 0x100_0000_0000
    ensures Slot1(lo + 0x100_0000_0000 * instr + 0x100_0000_0000_0000_0000_0000 * hi) == instr / 64 % F41
  {
    var w := lo + 0x100_0000_0000 * instr + 0x100_0000_0000_0000_0000_0000 * hi;
    var y := instr + 0x1_0000_0000_0000 * hi;
    assert w == lo + 0x100_0000_0000 * y;
    assert w / 0x100_0000_0000 == y;
    assert w / B46 == y / 64;
    assert y / 64 == instr / 64 + 0x400_0000_0000 * hi;
  }

  lemma Window2(lo: nat, instr: nat, hi: nat)
    requires lo < 0x1_0000_0000_0000_0000_0000 && instr < 0x1_0000_0000_0000
    requires lo + 0x1_0000_0000_0000_0000_0000 * instr + B128 * hi < B128
    ensures Slot2(lo + 0x1_0000_0000_0000_0000_0000 * instr + B128 * hi) == instr / 128 % F41
  {
    var w := lo + 0x1_0000_0000_0000_0000_0000 * instr;
    assert hi == 0;
    assert w / 0x1_0000_0000_0000_0000_0000 == instr;
    assert w / B87 == instr / 128;
  }

  lemma BundleMoved(w: nat, v: nat, slot: nat, y: nat)
    requires w < B128 && slot < 3 && y < F41
    requires v == w + Pow256(BytePos(slot)) * BitScale(slot) * (y - SlotOf(w, slot))
    ensures v == WithSlot(w, slot, y)
  {
    ElevenBytes();
    hide Pow256;
    BundleThere(w);
  }

  lemma InstrMoved(instr: nat, slot: nat, x: nat, h: nat, y: nat)
    requires slot < 3 && instr / BitScale(slot) == x + F41 * h && x < F41 && y < F41 && instr < 0x1_0000_0000_0000
    ensures var moved := instr % BitScale(slot) + (y + F41 * h) * BitScale(slot);
      moved == instr + BitScale(slot) * (y - x) && 0 <= moved < 0x1_0000_0000_0000
  {
    if slot == 0 {
    } else if slot == 1 {
    } else {
    }
  }

  lemma ScaleIs(slot: nat)
    requires slot < 3
    ensures Pow2((5 + 41 * slot) % 8) == BitScale(slot) && (5 + 41 * slot) / 8 == BytePos(slot)
  {
    assert Pow2(3) == 8 && Pow2(5) == 4 * Pow2(3) && Pow2(6) == 2 * Pow2(5) && Pow2(7) == 2 * Pow2(6);
    if slot == 0 {
    } else if slot == 1 {
    } else {
    }
  }

  lemma Ia64Masks(a: nat, pos: nat, at: nat)
    requires a < F21 && at % 16 == 0 && pos % UINT32 == at % UINT32
    ensures (a * 16 - pos) % UINT32 / 16 % F21 == Turn(a, at / 16, F21, true)
  {
    var d := at / 16;
    assert a * 16 % UINT32 == a * 16;
    Wrap32(16 * a, pos, 16 * d);
    SixteenTimes28(a, d);
    Narrow21(a, d);
  }

  lemma SixteenTimes28(a: int, d: int)
    ensures (16 * a - 16 * d) % UINT32 / 16 == (a - d) % 0x1000_0000
  {
  }

  lemma Narrow21(a: nat, d: nat)
    ensures (a - d) % 0x1000_0000 % F21 == (a - d) % F21
  {
  }

  /** A bundle whose slot has been turned. */
  function SlotTurned(w: nat, slot: nat, at: nat): (v: nat)
    requires w < B128 && slot < 3
    ensures v < B128
  {
    WithSlot(w, slot, Ia64Slot(SlotOf(w, slot), at, true))
  }

  lemma SlotNumbers(w: nat, slot: nat, instr: nat, at: nat, a: nat)
    requires w < B128 && slot < 3 && instr < Pow256(6) && instr / BitScale(slot) % F41 == SlotOf(w, slot)
    requires IsIa64Branch(instr / BitScale(slot))
    requires a % F21 == Turn(Ia64Field(instr / BitScale(slot)), at / 16, F21, true)
    ensures var moved := instr % BitScale(slot) + NormPut(instr / BitScale(slot), a) * BitScale(slot);
      && 0 <= moved < Pow256(6)
      && moved == instr + BitScale(slot) * (Ia64Slot(SlotOf(w, slot), at, true) - SlotOf(w, slot))
  {
    ElevenBytes();
    hide SlotOf, Ia64Put, NormPut, Pow256, BitScale, Turn, IsIa64Branch, Ia64Field;
    var norm := instr / BitScale(slot);
    var x, h := norm % F41, norm / F41;
    NormFields(x, h);
    NormPutIs(x, h, a);
    InstrMoved(instr, slot, x, h, Ia64Put(x, a % F21));
  }

  lemma SlotBytes(b: seq<Byte>, slot: nat, at: nat, moved: nat)
    requires |b| == 16 && slot < 3 && Little(b) < B128 && moved < Pow256(6)
    requires var w := Little(b);
      moved == Little(b[BytePos(slot)..BytePos(slot) + 6]) + BitScale(slot) * (Ia64Slot(SlotOf(w, slot), at, true) - SlotOf(w, slot))
    ensures Patched(b, BytePos(slot), LittleBytes(6, moved)) == LittleBytes(16, SlotTurned(Little(b), slot, at))
  {
    hide Little, LittleBytes, Pow256, BitScale, WithSlot, Ia64Slot, SlotOf;
    var w := Little(b);
    var p := BytePos(slot);
    var instr, mid := Little(b[p..p + 6]), LittleBytes(6, moved);
    var c := Patched(b, p, mid);
    BundleAround(b, slot);
    BundleAround(c, slot);
    assert c[..p] == b[..p] && c[p + 6..] == b[p + 6..] && c[p..p + 6] == mid;
    LittleBack(6, moved);
    WindowMoved(w, Little(c), slot, Little(b[..p]), instr, moved, Little(b[p + 6..]), Ia64Slot(SlotOf(w, slot), at, true));
    LittleThere(c);
  }

  lemma WindowMoved(w: nat, v: nat, slot: nat, lo: nat, instr: nat, moved: nat, hi: nat, y: nat)
    requires w < B128 && slot < 3 && y < F41 && moved == instr + BitScale(slot) * (y - SlotOf(w, slot))
    requires w == lo + Pow256(BytePos(slot)) * instr + Pow256(BytePos(slot) + 6) * hi
    requires v == lo + Pow256(BytePos(slot)) * moved + Pow256(BytePos(slot) + 6) * hi
    ensures v == WithSlot(w, slot, y)
  {
    hide Pow256, BitScale, SlotOf, WithSlot;
    Distribute(Pow256(BytePos(slot)), instr, BitScale(slot), y - SlotOf(w, slot));
    BundleMoved(w, v, slot, y);
  }

  lemma Distribute(m: nat, x: int, k: int, d: int)
    ensures m * (x + k * d) == m * x + m * k * d
  {
  }

  /** The arithmetic of bcj_ia64's inner loop on a window. */
  method Ia64Instr(instr: nat, bitRes: nat, ghost w: nat, ghost slot: nat, pos: nat, ghost at: nat) returns (branch: bool, moved: nat)
    requires w < B128 && slot < 3 && Pow2(bitRes) == BitScale(slot) && instr < Pow256(6)
    requires instr / BitScale(slot) % F41 == SlotOf(w, slot) && pos % UINT32 == at % UINT32 && Aligned(Ia64, at)
    ensures branch <==> IsIa64Branch(SlotOf(w, slot))
    ensures branch ==> moved < Pow256(6) && moved == instr + BitScale(slot) * (Ia64Slot(SlotOf(w, slot), at, true) - SlotOf(w, slot))
  {
    hide Pow256, SlotOf, BitScale, Turn, Pow2, Ia64Slot;
    var norm := instr / Pow2(bitRes);
    SameBranch(w, slot, norm);
    branch, moved := norm / 0x20_0000_0000 % 16 == 5 && norm / 0x200 % 8 == 0, instr;
    if branch {
      var addr := norm / 0x2000 % 0x10_0000 + norm / 0x10_0000_0000 % 2 * 0x10_0000;
      Ia64Masks(addr, pos, at);
      addr := addr * 16;
      addr := (addr - pos) % UINT32;
      addr := addr / 16;
      SlotNumbers(w, slot, instr, at, addr);
      var cleared := norm - norm / 0x2000 % 0x10_0000 * 0x2000 - norm / 0x10_0000_0000 % 2 * 0x10_0000_0000;
      var put := cleared + addr % 0x10_0000 * 0x2000 + addr / 0x10_0000 % 2 * 0x10_0000_0000;
      moved := instr % Pow2(bitRes) + put * Pow2(bitRes);
    }
  }

  /** The body of bcj_ia64's inner loop, for a slot in the mask. */
  method SlotTurn(buf: array<Byte>, p: nat, ghost slot: nat, bitPos: nat, pos: nat, ghost at: nat)
    requires p + 16 <= buf.Length && slot < 3 && bitPos == 5 + 41 * slot
    requires pos % UINT32 == at % UINT32 && Aligned(Ia64, at) && Little(buf[p..p + 16]) < B128
    modifies buf
    ensures buf[..] == Patched(old(buf[..]), p, LittleBytes(16, SlotTurned(Little(old(buf[p..p + 16])), slot, at)))
  {
    hide Little, LittleBytes, Pow256, SlotTurned, SlotOf, BitScale, Pow2, Patched, Ia64Slot, IsIa64Branch;
    ghost var was, b := buf[..], buf[p..p + 16];
    assert was[p..p + 16] == b;
    ghost var w := Little(b);
    var bytePos, bitRes := bitPos / 8, bitPos % 8;
    ScaleIs(slot);
    BundleAround(b, slot);
    WindowNumbers(w, slot, Little(b[..bytePos]), Little(b[bytePos..bytePos + 6]), Little(b[bytePos + 6..]));
    assert b[bytePos..bytePos + 6] == buf[p + bytePos..p + bytePos + 6];
    var instr := GetLe48(buf, p + bytePos);
    var branch, moved := Ia64Instr(instr, bitRes, w, slot, pos, at);
    if branch {
      SlotBytes(b, slot, at, moved);
      PutLe48(buf, p + bytePos, moved);
      PatchInside(was, p, b, bytePos, LittleBytes(6, moved));
    } else {
      SlotUntouched(w, slot, at);
      LittleThere(b);
      PatchSame(was, p, 16);
    }
  }

  lemma SameBranch(w: nat, slot: nat, norm: nat)
    requires w < B128 && slot < 3 && norm % F41 == SlotOf(w, slot)
    ensures IsIa64Branch(norm) <==> IsIa64Branch(SlotOf(w, slot))
  {
    hide SlotOf, IsIa64Branch;
    NormFields(norm % F41, norm / F41);
  }

  lemma SlotUntouched(w: nat, slot: nat, at: nat)
    requires w < B128 && slot < 3 && !IsIa64Branch(SlotOf(w, slot))
    ensures SlotTurned(w, slot, at) == w
  {
    hide Bundle, Slot0, Slot1, Slot2;
    BundleThere(w);
  }

  lemma PatchInside(a: seq<Byte>, p: nat, b: seq<Byte>, q: nat, x: seq<Byte>)
    requires p + |b| <= |a| && a[p..p + |b|] == b && q + |x| <= |b|
    ensures Patched(a, p + q, x) == Patched(a, p, Patched(b, q, x))
  {
  }

  // ---- A bundle, and the whole filter ---------------------------------------------

  /** A bundle of which the first slots have been seen to. */
  function SlotsDone(w: nat, at: nat, slot: nat): (v: nat)
    requires w < B128 && slot <= 3
    ensures v < B128
  {
    var m := BranchMask(w % 32);
    Bundle(w % 32, if slot > 0 then MaskedSlot(m, 0, Slot0(w), at, true) else Slot0(w),
           if slot > 1 then MaskedSlot(m, 1, Slot1(w), at, true) else Slot1(w),
           if slot > 2 then MaskedSlot(m, 2, Slot2(w), at, true) else Slot2(w))
  }

  lemma SlotsBegin(w: nat, at: nat)
    requires w < B128
    ensures SlotsDone(w, at, 0) == w && SlotsDone(w, at, 3) == Ia64Bundle(w, at, true)
  {
    hide Bundle, MaskedSlot, Slot0, Slot1, Slot2;
    BundleThere(w);
  }

  lemma SlotsNext(w: nat, at: nat, slot: nat)
    requires w < B128 && slot < 3
    ensures SlotsDone(w, at, slot + 1)
      == if Masked(BranchMask(w % 32), slot) then SlotTurned(SlotsDone(w, at, slot), slot, at) else SlotsDone(w, at, slot)
  {
    hide Bundle, Slot0, Slot1, Slot2, Ia64Slot, Masked, BranchMask;
    var m := BranchMask(w % 32);
    BundleParts(w % 32, if slot > 0 then MaskedSlot(m, 0, Slot0(w), at, true) else Slot0(w),
                if slot > 1 then MaskedSlot(m, 1, Slot1(w), at, true) else Slot1(w),
                Slot2(w));
  }

  /** The low five bits of a bundle are those of its first byte. */
  lemma TemplateIs(b: seq<Byte>)
    requires |b| == 16
    ensures Little(b) % 32 == b[0] % 32
  {
    assert Little(b) == b[0] + 256 * Little(b[1..]);
    LowBits(b[0], Little(b[1..]));
  }

  lemma LowBits(a: nat, x: nat)
    ensures (a + 256 * x) % 32 == a % 32
  {
  }

  /** (mask >> slot) & 1. */
  lemma MaskBit(mask: nat, slot: nat)
    requires slot < 3
    ensures mask / Pow2(slot) % 2 == 1 <==> Masked(mask, slot)
  {
    assert Pow2(0) == 1 && Pow2(1) == 2 && Pow2(2) == 4;
  }

  lemma Bound16(b: seq<Byte>)
    requires |b| == 16
    ensures Little(b) < B128
  {
    LittleBound(b);
    ElevenBytes();
  }

  /** The body of bcj_ia64's outer loop. */
  method BundleTurn(buf: array<Byte>, p: nat, pos: nat, ghost at: nat)
    requires p + 16 <= buf.Length && pos % UINT32 == at % UINT32 && Aligned(Ia64, at)
    modifies buf
    ensures buf[..] == Patched(old(buf[..]), p, Piece(Ia64, at, true, old(buf[p..p + 16])))
  {
    hide Little, LittleBytes, Pow2, SlotTurned, SlotsDone, Masked, Ia64Bundle, BranchMask, Pow256;
    ghost var was, b := buf[..], buf[p..p + 16];
    assert was[p..p + 16] == b;
    ghost var w := Little(b);
    Bound16(b);
    TemplateIs(b);
    var mask := BranchMask(buf[p] % 32);
    SlotsBegin(w, at);
    LittleThere(b);
    PatchSame(was, p, 16);
    var slot, bitPos := 0, 5;
    while slot < 3
      invariant slot <= 3 && bitPos == 5 + 41 * slot
      invariant buf[..] == Patched(was, p, LittleBytes(16, SlotsDone(w, at, slot)))
    {
      SlotsNext(w, at, slot);
      MaskBit(mask, slot);
      if mask / Pow2(slot) % 2 != 0 {
        ghost var v := LittleBytes(16, SlotsDone(w, at, slot));
        assert buf[p..p + 16] == buf[..][p..p + 16] == v;
        Back16(SlotsDone(w, at, slot));
        SlotTurn(buf, p, slot, bitPos, pos, at);
        PatchTwice(was, p, v, LittleBytes(16, SlotTurned(Little(v), slot, at)));
      }
      slot, bitPos := slot + 1, bitPos + 41;
    }
  }

  lemma Back16(w: nat)
    requires w < B128
    ensures Little(LittleBytes(16, w)) == w
  {
    ElevenBytes();
    LittleBack(16, w);
  }

  lemma PatchTwice(a: seq<Byte>, p: nat, x: seq<Byte>, y: seq<Byte>)
    requires p + |x| <= |a| && |x| == |y|
    ensures Patched(Patched(a, p, x), p, y) == Patched(a, p, y)
  {
  }

  method BcjIa64(buf: array<Byte>, from: nat, size: nat, pos: nat, ghost at: nat) returns (i: nat)
    requires from + size <= buf.Length && pos == at % UINT32 && Aligned(Ia64, at)
    modifies buf
    ensures Filtered(Ia64, at, old(buf[..]), from, size, buf[..], i)
  {
    hide Filter, Piece, Partly, Filtered, Patched, Aligned;
    ghost var was, out := buf[..], [];
    PartlyBegin(Ia64, at, was, from, size);
    i := 0;
    while i + 16 <= size
      invariant i <= size && Aligned(Ia64, at + i)
      invariant Partly(Ia64, at, was, from, size, buf[..], i, out)
    {
      ghost var now := buf[..];
      PartlyAhead(Ia64, at, was, from, size, now, i, out);
      assert buf[from + i..from + i + 16] == now[from + i..from + i + 16];
      BundleTurn(buf, from + i, pos + i, at + i);
      ghost var v := Piece(Ia64, at + i, true, was[from + i..from + i + 16]);
      PieceAligned(Ia64, at + i, true, was[from + i..from + i + 16]);
      PartlyNext(Ia64, at, was, from, size, now, i, out, v);
      out := out + v;
      i := i + 16;
    }
    PartlyEnd(Ia64, at, was, from, size, buf[..], i, out);
  }
}
