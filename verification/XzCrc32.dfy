/** xz_crc32.c: the 32-bit checksum of the .xz format. */
module XzCrc32 {
  import opened Words
  import opened Gf2
  import opened Crc

  const POLY: nat := 0xEDB8_8320
  const ALL_ONES: nat := 0xFFFF_FFFF

  function Poly(): (p: Bits)
    ensures |p| == 32
  {
    Coefficients(Lsb, 32, POLY)
  }

  lemma TwoBits(n: nat, x: nat)
    ensures Coefficients(Lsb, n + 2, x) == [x % 2 == 1, x / 2 % 2 == 1] + Coefficients(Lsb, n, x / 4)
  {
    assert x / 2 / 2 == x / 4;
    assert Coefficients(Lsb, n + 1, x / 2) == [x / 2 % 2 == 1] + Coefficients(Lsb, n, x / 2 / 2);
    assert Coefficients(Lsb, n + 2, x) == [x % 2 == 1] + Coefficients(Lsb, n + 1, x / 2);
  }

  lemma FourBits(n: nat, x: nat)
    ensures Coefficients(Lsb, n + 4, x) == [x % 2 == 1, x / 2 % 2 == 1, x / 4 % 2 == 1, x / 8 % 2 == 1] + Coefficients(Lsb, n, x / 16)
  {
    hide Coefficients;
    TwoBits(n + 2, x);
    TwoBits(n, x / 4);
    assert x / 4 / 2 == x / 8 && x / 4 / 4 == x / 16;
  }

  lemma PolyLow()
    ensures Coefficients(Lsb, 16, 0xEDB8) == [
      false, false, false, true, true, true, false, true, true, false, true, true, false, true, true, true]
  {
    hide Coefficients;
    FourBits(12, 0xEDB8);
    FourBits(8, 0xEDB);
    FourBits(4, 0xED);
    FourBits(0, 0xE);
    assert Coefficients(Lsb, 0, 0) == [];
  }

  lemma PolyHigh()
    ensures Coefficients(Lsb, 32, 0xEDB8_8320) == [
      false, false, false, false, false, true, false, false, true, true, false, false, false, false, false, true] + Coefficients(Lsb, 16, 0xEDB8)
  {
    hide Coefficients;
    FourBits(28, 0xEDB8_8320);
    FourBits(24, 0xEDB_8832);
    FourBits(20, 0xED_B883);
    FourBits(16, 0xE_DB88);
  }

  /** The generator is x^32 + x^26 + x^23 + x^22 + x^16 + x^12 + x^11 + x^10 + x^8 + x^7 + x^5
      + x^4 + x^2 + x + 1; its leading coefficient is not kept in the word. */
  lemma PolyExponents(e: nat)
    requires e < 32
    ensures Poly()[31 - e] <==> e in {26, 23, 22, 16, 12, 11, 10, 8, 7, 5, 4, 2, 1, 0}
  {
    hide Coefficients;
    PolyLow();
    PolyHigh();
  }

  lemma Power32()
    ensures Pow2(32) == UINT32 && POLY < UINT32
  {
    Powers();
    assert Pow2(12) == 16 * Pow2(8) by { assert Pow2(10) == 4 * Pow2(8); }
    assert Pow2(16) == 16 * Pow2(12) by { assert Pow2(14) == 4 * Pow2(12); }
    assert Pow2(20) == 16 * Pow2(16) by { assert Pow2(18) == 4 * Pow2(16); }
    assert Pow2(24) == 16 * Pow2(20) by { assert Pow2(22) == 4 * Pow2(20); }
    assert Pow2(28) == 16 * Pow2(24) by { assert Pow2(26) == 4 * Pow2(24); }
    assert Pow2(32) == 16 * Pow2(28) by { assert Pow2(30) == 4 * Pow2(28); }
  }

  /** x >> k */
  function High(x: nat, k: nat): nat
    decreases k
  {
    if k == 0 then x else High(x / 2, k - 1)
  }

  lemma {:induction false} NothingHigh(x: nat, k: nat)
    requires x < Pow2(k)
    ensures High(x, k) == 0
    decreases k
  {
    if k > 0 {
      NothingHigh(x / 2, k - 1);
    }
  }

  lemma HighByte(x: nat)
    ensures High(x, 8) == x / 256
  {
    assert High(x, 4) == x / 2 / 2 / 2 / 2 == x / 16;
    assert High(x, 8) == High(x / 16, 4);
    assert High(x / 16, 4) == x / 16 / 16;
  }

  /** Low coefficients come first: those above the first eight follow them. */
  lemma {:induction false} LowThenHigh(k: nat, n: nat, x: nat)
    ensures Coefficients(Lsb, k + n, x) == Coefficients(Lsb, k, x) + Coefficients(Lsb, n, High(x, k))
    decreases k
  {
    if k > 0 {
      LowThenHigh(k - 1, n, x / 2);
    }
  }

  lemma ByteAlone(x: nat)
    requires x < 256
    ensures Coefficients(Lsb, 32, x) == Coefficients(Lsb, 8, x) + Zeros(24)
  {
    hide Coefficients, High;
    Powers();
    LowThenHigh(8, 24, x);
    HighByte(x);
    ZeroWord(Lsb, 24);
  }

  lemma TopEmpty(x: nat)
    requires x < UINT32
    ensures Coefficients(Lsb, 32, x) == Coefficients(Lsb, 8, x) + Coefficients(Lsb, 24, x / 256)
    ensures Coefficients(Lsb, 32, x / 256) == Coefficients(Lsb, 24, x / 256) + Zeros(8)
  {
    hide Coefficients, Pow2, High;
    LowThenHigh(8, 24, x);
    LowThenHigh(24, 8, x / 256);
    HighByte(x);
    Pow24();
    NothingHigh(x / 256, 24);
    ZeroWord(Lsb, 8);
  }

  lemma Pow24()
    ensures Pow2(24) == 0x100_0000
  {
    assert Pow2(8) == 256;
    assert Pow2(16) == 0x1_0000 by { assert Pow2(12) == 4096; }
    assert Pow2(24) == 0x100_0000 by { assert Pow2(20) == 0x10_0000; }
  }

  /** r after some of the eight steps for byte i. */
  ghost predicate Rolled(i: nat, j: nat, r: nat) {
    r < UINT32 && Coefficients(Lsb, 32, r) == Shifts(j, Coefficients(Lsb, 32, i), Poly())
  }

  lemma RolledOn(i: nat, j: nat, r: nat)
    requires Rolled(i, j, r)
    ensures Rolled(i, j + 1, StepLsb(r, POLY))
  {
    hide Coefficients, Shift, Pow2;
    Power32();
    LsbShifts(32, r, POLY);
    XorBound(32, r / 2, OrNone(r % 2 == 1, POLY));
    ShiftsMore(j, 1, Coefficients(Lsb, 32, i), Poly());
    assert Shifts(0, Shift(Coefficients(Lsb, 32, r), Poly()), Poly()) == Shift(Coefficients(Lsb, 32, r), Poly());
  }

  lemma RolledUp(i: nat, r: nat)
    requires i < 256 && Rolled(i, 8, r)
    ensures Holds(Lsb, 32, POLY, i, r)
  {
    hide Coefficients, Shifts, Pow2;
    Power32();
    ByteAlone(i);
  }

  /** xz_crc32_init.  Masking the polynomial with all ones or none, as the low bit says, is
      taking it or not. */
  method XzCrc32Init(table: array<nat>)
    requires table.Length == 256
    modifies table
    ensures TableFor(Lsb, 32, POLY, table[..])
  {
    hide Holds, Rolled, StepLsb;
    for i := 0 to 256
      invariant forall x | 0 <= x < i :: Holds(Lsb, 32, POLY, x, table[x])
    {
      var r := i;
      NotRolled(i);
      for j := 0 to 8
        invariant Rolled(i, j, r) && forall x | 0 <= x < i :: Holds(Lsb, 32, POLY, x, table[x])
      {
        RolledOn(i, j, r);
        r := StepLsb(r, POLY);
      }
      RolledUp(i, r);
      table[i] := r;
    }
    TableIs(table[..]);
  }

  lemma NotRolled(i: nat)
    requires i < 256
    ensures Rolled(i, 0, i)
  {
    hide Coefficients;
  }

  lemma TableIs(table: seq<nat>)
    requires |table| == 256 && forall x | 0 <= x < 256 :: Holds(Lsb, 32, POLY, x, table[x])
    ensures TableFor(Lsb, 32, POLY, table)
  {
  }

  // ---- The checksum ---------------------------------------------------------------------

  /** What a checksum should be: the register starts and ends inverted. */
  ghost predicate IsCrc32(start: nat, data: seq<Byte>, crc: nat) {
    && start < UINT32 && crc < UINT32
    && Coefficients(Lsb, 32, ALL_ONES - crc) == Checksum(Lsb, Coefficients(Lsb, 32, ALL_ONES - start), data, Poly())
  }

  lemma Looked32(table: seq<nat>, r: Bits, data: seq<Byte>, crc: nat, x: Byte)
    requires TableFor(Lsb, 32, POLY, table) && crc < UINT32 && |r| == 32
    requires Coefficients(Lsb, 32, crc) == Checksum(Lsb, r, data, Poly())
    ensures XorWord(x, crc % 256) < 256 == |table|
    ensures var next := XorWord(table[XorWord(x, crc % 256)], crc / 256);
      next < UINT32 && Coefficients(Lsb, 32, next) == Checksum(Lsb, r, data + [x], Poly())
  {
    hide Coefficients, XorWord, Feed, Entry, Checksum, Pow2;
    Powers();
    Power32();
    var k := XorWord(x, crc % 256);
    XorBound(8, x, crc % 256);
    assert Holds(Lsb, 32, POLY, k, table[k]);
    XorBound(32, table[k], crc / 256);
    XorIs(Lsb, 32, table[k], crc / 256);
    LookedBits(crc, x, k);
    ChecksumNext(Lsb, r, data, x, Poly());
  }

  lemma LookedBits(crc: nat, x: Byte, k: nat)
    requires crc < UINT32 && k == XorWord(x, crc % 256) && k < 256
    ensures Feed(Coefficients(Lsb, 32, crc), Coefficients(Lsb, 8, x), Poly())
      == Xor(EntryFor(Lsb, 32, POLY, k), Coefficients(Lsb, 32, crc / 256))
  {
    hide Coefficients, XorWord, Feed, Entry, Pow2;
    Powers();
    var r, m := Coefficients(Lsb, 32, crc), Coefficients(Lsb, 8, x);
    TableStep(r, m, Poly());
    TopEmpty(crc);
    assert r[..8] == Coefficients(Lsb, 8, crc) && r[8..] == Coefficients(Lsb, 24, crc / 256);
    Truncated(Lsb, 8, crc);
    XorIs(Lsb, 8, x, crc % 256);
    XorCommutes(Coefficients(Lsb, 8, crc), m);
  }

  /** The register after the bits of one byte, taken one by one. */
  function EightSteps(k: nat, r: nat): nat {
    if k == 0 then r else EightSteps(k - 1, StepLsb(r, POLY))
  }

  function Register(r: nat, data: seq<Byte>): nat {
    if data == [] then r else EightSteps(8, XorWord(Register(r, data[..|data| - 1]), data[|data| - 1]))
  }

  /** The checksum as a function: the register is inverted at both ends. */
  function Crc32(start: nat, data: seq<Byte>): (crc: nat)
    requires start < UINT32
    ensures crc < UINT32
  {
    RegisterBound(ALL_ONES - start, data);
    ALL_ONES - Register(ALL_ONES - start, data)
  }

  lemma {:induction false} EightIs(k: nat, r: nat)
    requires r < UINT32
    ensures EightSteps(k, r) < UINT32
    ensures Coefficients(Lsb, 32, EightSteps(k, r)) == Shifts(k, Coefficients(Lsb, 32, r), Poly())
  {
    hide Coefficients, Shift, Pow2, StepLsb;
    if k > 0 {
      StepBound(r);
      EightIs(k - 1, StepLsb(r, POLY));
      LsbShifts32(r);
    }
  }

  lemma LsbShifts32(r: nat)
    requires r < UINT32
    ensures Coefficients(Lsb, 32, StepLsb(r, POLY)) == Shift(Coefficients(Lsb, 32, r), Poly())
  {
    hide Coefficients, Shift, Pow2, StepLsb;
    Power32();
    LsbShifts(32, r, POLY);
  }

  lemma StepBound(r: nat)
    requires r < UINT32
    ensures StepLsb(r, POLY) < UINT32
  {
    hide XorWord, Pow2;
    Power32();
    XorBound(32, r / 2, OrNone(r % 2 == 1, POLY));
  }

  lemma {:induction false} RegisterBound(r: nat, data: seq<Byte>)
    requires r < UINT32
    ensures Register(r, data) < UINT32
    decreases |data|
  {
    hide XorWord, Pow2, EightSteps;
    if data != [] {
      RegisterBound(r, data[..|data| - 1]);
      XorBound32(Register(r, data[..|data| - 1]), data[|data| - 1]);
      EightIs(8, XorWord(Register(r, data[..|data| - 1]), data[|data| - 1]));
    }
  }

  lemma XorBound32(x: nat, y: nat)
    requires x < UINT32 && y < UINT32
    ensures XorWord(x, y) < UINT32
  {
    hide XorWord, Pow2;
    Power32();
    XorBound(32, x, y);
  }

  /** Bit by bit or byte by byte from the table, the checksum is the same. */
  lemma {:induction false} RegisterIs(r: nat, data: seq<Byte>)
    requires r < UINT32
    ensures Register(r, data) < UINT32
    ensures Coefficients(Lsb, 32, Register(r, data)) == Checksum(Lsb, Coefficients(Lsb, 32, r), data, Poly())
    decreases |data|
  {
    hide Coefficients, XorWord, Pow2, EightSteps, Checksum, Feed;
    if data == [] {
      ChecksumNone(Lsb, Coefficients(Lsb, 32, r), Poly());
    } else {
      var before, x := data[..|data| - 1], data[|data| - 1];
      RegisterIs(r, before);
      var q := Register(r, before);
      XorBound32(q, x);
      EightIs(8, XorWord(q, x));
      assert before + [x] == data;
      ChecksumNext(Lsb, Coefficients(Lsb, 32, r), before, x, Poly());
      FeedAtOnce(Coefficients(Lsb, 32, q), Coefficients(Lsb, 8, x), Poly());
      XorIs(Lsb, 32, q, x);
      ByteAlone(x);
    }
  }

  lemma Crc32Is(start: nat, data: seq<Byte>)
    requires start < UINT32
    ensures IsCrc32(start, data, Crc32(start, data))
  {
    hide Coefficients, Register, Checksum;
    RegisterIs(ALL_ONES - start, data);
  }

  /** The checksum of a message in two parts, as a function. */
  lemma Crc32OfJoin(start: nat, a: seq<Byte>, b: seq<Byte>)
    requires start < UINT32
    ensures Crc32(Crc32(start, a), b) == Crc32(start, a + b)
  {
    hide IsCrc32, Register, Crc32;
    Crc32Is(start, a);
    var mid := Crc32(start, a);
    Crc32Is(mid, b);
    Crc32Join(start, a, b, mid, Crc32(mid, b));
    Crc32Is(start, a + b);
    OneCrc32(start, a + b, Crc32(mid, b), Crc32(start, a + b));
  }

  /** xz_crc32 */
  method XzCrc32(table: array<nat>, buf: seq<Byte>, start: nat) returns (crc: nat)
    requires table.Length == 256 && TableFor(Lsb, 32, POLY, table[..]) && start < UINT32
    ensures IsCrc32(start, buf, crc) && crc == Crc32(start, buf)
  {
    hide Checksum, Coefficients, XorWord, TableFor, Register, Crc32;
    crc := ALL_ONES - start;
    ghost var r := Coefficients(Lsb, 32, crc);
    assert buf[..0] == [];
    ChecksumNone(Lsb, r, Poly());
    var i := 0;
    while i < |buf|
      invariant 0 <= i <= |buf| && crc < UINT32 && Coefficients(Lsb, 32, crc) == Checksum(Lsb, r, buf[..i], Poly())
    {
      assert buf[..i + 1] == buf[..i] + [buf[i]];
      Looked32(table[..], r, buf[..i], crc, buf[i]);
      crc := XorWord(table[XorWord(buf[i], crc % 256)], crc / 256);
      i := i + 1;
    }
    assert buf[..|buf|] == buf;
    crc := ALL_ONES - crc;
    Crc32Is(start, buf);
    OneCrc32(start, buf, crc, Crc32(start, buf));
  }

  /** A checksum is determined by the message and where it started. */
  lemma OneCrc32(start: nat, data: seq<Byte>, a: nat, b: nat)
    requires IsCrc32(start, data, a) && IsCrc32(start, data, b)
    ensures a == b
  {
    hide Coefficients, Checksum, Pow2;
    Power32();
    WordIs(Lsb, 32, ALL_ONES - a, ALL_ONES - b);
  }

  /** The checksum of a message in two parts is that of the second, continued from that of the
      first: the inversions between them cancel. */
  lemma Crc32Join(start: nat, a: seq<Byte>, b: seq<Byte>, mid: nat, crc: nat)
    requires IsCrc32(start, a, mid)
    ensures IsCrc32(mid, b, crc) <==> IsCrc32(start, a + b, crc)
  {
    hide Coefficients, Checksum;
    ChecksumJoin(Lsb, Coefficients(Lsb, 32, ALL_ONES - start), a, b, Poly());
  }

  /** The checksum is the remainder of polynomial division. */
  lemma Crc32Divides(start: nat, data: seq<Byte>, crc: nat)
    requires start < UINT32 && crc < UINT32
    ensures IsCrc32(start, data, crc) <==>
      Coefficients(Lsb, 32, ALL_ONES - crc) == Remainder(Dividend(Coefficients(Lsb, 32, ALL_ONES - start), MessageBits(Lsb, data)), Poly())
  {
    hide Coefficients, MessageBits, Remainder;
    FeedDivides(Coefficients(Lsb, 32, ALL_ONES - start), MessageBits(Lsb, data), Poly());
  }
}
