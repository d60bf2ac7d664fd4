/** The checksums of crc8.c and xz_crc32.c, with tables, in words. */
module Crc {
  import opened Words
  import opened Gf2

  /** Which end of a word has the highest coefficient. */
  datatype Order = Msb | Lsb

  function Coefficients(order: Order, n: nat, x: nat): (b: Bits)
    ensures |b| == n
    decreases n
  {
    if n == 0 then []
    else if order == Lsb then [x % 2 == 1] + Coefficients(Lsb, n - 1, x / 2)
    else Coefficients(Msb, n - 1, x / 2) + [x % 2 == 1]
  }

  /** x ^ y */
  function XorWord(x: nat, y: nat): (z: nat)
    decreases x + y
  {
    if x == 0 && y == 0 then 0 else 2 * XorWord(x / 2, y / 2) + if x % 2 != y % 2 then 1 else 0
  }

  lemma {:induction false} XorIs(order: Order, n: nat, x: nat, y: nat)
    ensures Coefficients(order, n, XorWord(x, y)) == Xor(Coefficients(order, n, x), Coefficients(order, n, y))
    decreases n
  {
    hide Coefficients, XorWord;
    if n > 0 {
      XorIs(order, n - 1, x / 2, y / 2);
      XorHalf(x, y);
      XorFromHalves(order, n, x, y, XorWord(x, y));
    } else {
      NoCoefficients(order, x, y, XorWord(x, y));
    }
  }

  lemma XorHalf(x: nat, y: nat)
    ensures XorWord(x, y) / 2 == XorWord(x / 2, y / 2) && (XorWord(x, y) % 2 == 1) == (x % 2 != y % 2)
  {
  }

  lemma {:induction false} XorBound(n: nat, x: nat, y: nat)
    requires x < Pow2(n) && y < Pow2(n)
    ensures XorWord(x, y) < Pow2(n)
    decreases n
  {
    if n > 0 {
      XorBound(n - 1, x / 2, y / 2);
      XorHalf(x, y);
    }
  }

  lemma {:induction false} ZeroWord(order: Order, n: nat)
    ensures Coefficients(order, n, 0) == Zeros(n)
  {
    if n > 0 {
      ZeroWord(order, n - 1);
    }
  }

  /** A word is its coefficients. */
  lemma {:induction false} WordIs(order: Order, n: nat, x: nat, y: nat)
    requires x < Pow2(n) && y < Pow2(n) && Coefficients(order, n, x) == Coefficients(order, n, y)
    ensures x == y
    decreases n
  {
    if n > 0 {
      var a, b := Coefficients(order, n, x), Coefficients(order, n, y);
      if order == Lsb {
        assert a[0] == b[0] && a[1..] == b[1..];
      } else {
        assert a[n - 1] == b[n - 1] && a[..n - 1] == b[..n - 1];
      }
      WordIs(order, n - 1, x / 2, y / 2);
    }
  }

  // ---- One step -----------------------------------------------------------------------

  function OrNone(b: bool, x: nat): nat { if b then x else 0 }

  lemma IfIs(order: Order, n: nat, b: bool, x: nat)
    ensures Coefficients(order, n, OrNone(b, x)) == If(b, Coefficients(order, n, x))
  {
    ZeroWord(order, n);
  }

  /** (t << 1) ^ (t & msbit ? poly : 0), in n bits. */
  function StepMsb(n: nat, t: nat, poly: nat): nat
    requires n >= 1
  {
    XorWord(2 * t % Pow2(n), OrNone(t / Pow2(n - 1) % 2 == 1, poly))
  }

  /** (t >> 1) ^ (t & 1 ? poly : 0) */
  function StepLsb(t: nat, poly: nat): nat {
    XorWord(t / 2, OrNone(t % 2 == 1, poly))
  }

  lemma {:induction false} FirstOfMsb(n: nat, x: nat)
    requires n >= 1
    ensures Coefficients(Msb, n, x)[0] == (x / Pow2(n - 1) % 2 == 1)
  {
    if n > 1 {
      FirstOfMsb(n - 1, x / 2);
      HalfPower(x, n - 2);
    } else {
      assert Coefficients(Msb, 0, x / 2) == [];
    }
  }

  lemma HalfPower(x: nat, k: nat)
    ensures x / 2 / Pow2(k) == x / Pow2(k + 1)
  {
    var u, m := x / 2, Pow2(k);
    var q, r := u / m, u % m;
    assert x == q * (2 * m) + (2 * r + x % 2) by { assert 2 * (q * m) == q * (2 * m); }
    QuotientIs(x, q, 2 * r + x % 2, 2 * m);
  }

  /** Coefficients above the word do not matter. */
  lemma {:induction false} Truncated(order: Order, n: nat, x: nat)
    ensures Coefficients(order, n, x % Pow2(n)) == Coefficients(order, n, x)
  {
    if n > 0 {
      HalfTruncated(x, n - 1);
      Truncated(order, n - 1, x / 2);
    }
  }

  lemma HalfTruncated(x: nat, k: nat)
    ensures x % Pow2(k + 1) / 2 == x / 2 % Pow2(k) && x % Pow2(k + 1) % 2 == x % 2
  {
    var u, m := x / 2, Pow2(k);
    var q, r := u / m, u % m;
    assert x == q * (2 * m) + (2 * r + x % 2) by { assert 2 * (q * m) == q * (2 * m); }
    RemainderIs(x, q, 2 * r + x % 2, 2 * m);
  }

  lemma {:induction false} DropFirstMsb(n: nat, x: nat)
    requires n >= 1
    ensures Coefficients(Msb, n, 2 * x) == Coefficients(Msb, n, x)[1..] + [false]
  {
    assert 2 * x / 2 == x && 2 * x % 2 == 0;
    TopApart(n - 1, x);
  }

  /** Of a word, the coefficient of its top bit and the rest. */
  lemma {:induction false} TopApart(k: nat, x: nat)
    ensures Coefficients(Msb, k + 1, x)[1..] == Coefficients(Msb, k, x)
  {
    if k > 0 {
      TopApart(k - 1, x / 2);
    }
  }

  lemma MsbShifts(n: nat, t: nat, poly: nat)
    requires n >= 1
    ensures Coefficients(Msb, n, StepMsb(n, t, poly)) == Shift(Coefficients(Msb, n, t), Coefficients(Msb, n, poly))
  {
    hide Coefficients, Xor, XorWord;
    XorIs(Msb, n, 2 * t % Pow2(n), OrNone(t / Pow2(n - 1) % 2 == 1, poly));
    Truncated(Msb, n, 2 * t);
    DropFirstMsb(n, t);
    FirstOfMsb(n, t);
    IfIs(Msb, n, t / Pow2(n - 1) % 2 == 1, poly);
  }

  /** A shift to the right leaves the top empty. */
  lemma {:induction false} DropFirstLsb(n: nat, x: nat)
    requires n >= 1 && x < Pow2(n)
    ensures Coefficients(Lsb, n, x / 2) == Coefficients(Lsb, n, x)[1..] + [false]
    ensures Coefficients(Lsb, n, x)[0] == (x % 2 == 1)
  {
    if n > 1 {
      DropFirstLsb(n - 1, x / 2);
      assert Coefficients(Lsb, n, x)[1..] == Coefficients(Lsb, n - 1, x / 2);
    } else {
      assert Pow2(1) == 2;
      assert Coefficients(Lsb, 0, x / 2 / 2) == Coefficients(Lsb, 0, x / 2) == [];
    }
  }

  lemma LsbShifts(n: nat, t: nat, poly: nat)
    requires n >= 1 && t < Pow2(n)
    ensures Coefficients(Lsb, n, StepLsb(t, poly)) == Shift(Coefficients(Lsb, n, t), Coefficients(Lsb, n, poly))
  {
    hide Coefficients, Xor, XorWord;
    XorIs(Lsb, n, t / 2, OrNone(t % 2 == 1, poly));
    DropFirstLsb(n, t);
    IfIs(Lsb, n, t % 2 == 1, poly);
  }

  // ---- Single bits ----------------------------------------------------------------------

  function OneHot(n: nat, i: nat): (b: Bits)
    ensures |b| == n
    ensures forall j | 0 <= j < n :: b[j] == (j == i)
  {
    seq(n, j => j == i)
  }

  lemma {:induction false} PowerWord(order: Order, n: nat, k: nat)
    requires k < n
    ensures Coefficients(order, n, Pow2(k)) == OneHot(n, if order == Lsb then k else n - 1 - k)
    decreases k
  {
    if k == 0 {
      ZeroWord(order, n - 1);
      assert Pow2(0) / 2 == 0;
    } else {
      assert Pow2(k) / 2 == Pow2(k - 1) && Pow2(k) % 2 == 0;
      PowerWord(order, n - 1, k - 1);
    }
  }

  /** Adding a bit that is not there. */
  lemma {:induction false} NoCarry(order: Order, n: nat, k: nat, j: nat)
    requires j / Pow2(k) % 2 == 0
    ensures Coefficients(order, n, Pow2(k) + j) == Xor(Coefficients(order, n, Pow2(k)), Coefficients(order, n, j))
    decreases n
  {
    hide Coefficients, Xor;
    if n > 0 {
      if k == 0 {
        LowBitFree(j);
        ZeroWord(order, n - 1);
        XorNothing(Coefficients(order, n - 1, j / 2));
      } else {
        LowBitKept(j, Pow2(k - 1));
        HalfPower(j, k - 1);
        NoCarry(order, n - 1, k - 1, j / 2);
      }
      XorFromHalves(order, n, Pow2(k), j, Pow2(k) + j);
    } else {
      NoCoefficients(order, Pow2(k), j, Pow2(k) + j);
    }
  }

  lemma NoCoefficients(order: Order, x: nat, y: nat, z: nat)
    ensures Coefficients(order, 0, z) == Xor(Coefficients(order, 0, x), Coefficients(order, 0, y))
  {
  }

  lemma LowBitFree(j: nat)
    requires j / Pow2(0) % 2 == 0
    ensures j % 2 == 0 && (Pow2(0) + j) / 2 == j / 2 && (Pow2(0) + j) % 2 == 1 && Pow2(0) / 2 == 0 && Pow2(0) % 2 == 1
  {
    assert Pow2(0) == 1;
    assert j / 1 == j;
  }

  lemma LowBitKept(j: nat, m: nat)
    ensures (2 * m + j) / 2 == m + j / 2 && (2 * m + j) % 2 == j % 2 && 2 * m / 2 == m && 2 * m % 2 == 0
  {
  }

  /** A word whose half is the sum of two halves, and whose low bit is the sum of two low bits. */
  lemma XorFromHalves(order: Order, n: nat, x: nat, y: nat, z: nat)
    requires n >= 1 && Coefficients(order, n - 1, z / 2) == Xor(Coefficients(order, n - 1, x / 2), Coefficients(order, n - 1, y / 2))
    requires (z % 2 == 1) == (x % 2 != y % 2)
    ensures Coefficients(order, n, z) == Xor(Coefficients(order, n, x), Coefficients(order, n, y))
  {
  }

  lemma XorNothing(b: Bits)
    ensures Xor(Zeros(|b|), b) == b && Xor(b, Zeros(|b|)) == b
  {
  }

  // ---- Tables -----------------------------------------------------------------------------

  /** What a table should hold for a byte: the register after the byte's eight steps. */
  function EntryFor(order: Order, n: nat, poly: nat, x: nat): (e: Bits)
    requires n >= 8
    ensures |e| == n
  {
    Entry(Coefficients(order, 8, x), Coefficients(order, n, poly))
  }

  ghost predicate Holds(order: Order, n: nat, poly: nat, x: nat, word: nat)
    requires n >= 8
  {
    word < Pow2(n) && Coefficients(order, n, word) == EntryFor(order, n, poly, x)
  }

  ghost predicate TableFor(order: Order, n: nat, poly: nat, table: seq<nat>)
    requires n >= 8
  {
    |table| == 256 && forall x | 0 <= x < 256 :: Holds(order, n, poly, x, table[x])
  }

  lemma ZeroEntry(order: Order, n: nat, poly: nat)
    requires n >= 8
    ensures Holds(order, n, poly, 0, 0)
  {
    hide Coefficients, Shifts;
    ZeroWord(order, 8);
    ZeroWord(order, n);
    var z := Zeros(8) + Zeros(n - 8);
    assert z[..8] == Zeros(8);
    ShiftsZeros(8, z, Coefficients(order, n, poly));
    assert z[8..] + Zeros(8) == Zeros(n);
  }

  /** The entry for a single bit: the register after that bit has come to the front and the
      steps that are left. */
  lemma BitEntry(order: Order, poly: nat, k: nat)
    requires k < 8
    ensures EntryFor(order, 8, poly, Pow2(k))
      == Shifts(if order == Lsb then 8 - k else k + 1, OneHot(8, 0), Coefficients(order, 8, poly))
  {
    hide Coefficients, Shifts;
    PowerWord(order, 8, k);
    var i := if order == Lsb then k else 7 - k;
    var p, b := Coefficients(order, 8, poly), OneHot(8, i);
    assert b + Zeros(0) == b;
    assert b[..i] == Zeros(i);
    ShiftsZeros(i, b, p);
    assert b[i..] + Zeros(i) == OneHot(8, 0);
    ShiftsMore(i, 8 - i, b, p);
  }

  /** The doubling: the entry for a byte with one bit more is found from two others. */
  lemma Doubling(order: Order, poly: nat, k: nat, j: nat, t: nat, word: nat)
    requires k < 8 && j / Pow2(k) % 2 == 0 && Holds(order, 8, poly, Pow2(k), t) && Holds(order, 8, poly, j, word)
    ensures Holds(order, 8, poly, Pow2(k) + j, XorWord(word, t))
  {
    hide Coefficients, Shifts, XorWord;
    NoCarry(order, 8, k, j);
    XorIs(order, 8, word, t);
    XorBound(8, word, t);
    var a, b, p := Coefficients(order, 8, Pow2(k)), Coefficients(order, 8, j), Coefficients(order, 8, poly);
    assert Xor(a, b) + Zeros(0) == Xor(a + Zeros(0), b + Zeros(0));
    ShiftsLinear(8, a + Zeros(0), b + Zeros(0), p);
    XorCommutes(Shifts(8, a + Zeros(0), p), Shifts(8, b + Zeros(0), p));
  }

  lemma XorCommutes(a: Bits, b: Bits)
    requires |a| == |b|
    ensures Xor(a, b) == Xor(b, a)
  {
  }

  lemma Powers()
    ensures Pow2(0) == 1 && Pow2(1) == 2 && Pow2(2) == 4 && Pow2(3) == 8 && Pow2(4) == 16
    ensures Pow2(5) == 32 && Pow2(6) == 64 && Pow2(7) == 128 && Pow2(8) == 256
  {
  }

  // ---- Messages ---------------------------------------------------------------------------

  /** The coefficients of a message, byte by byte. */
  function MessageBits(order: Order, data: seq<Byte>): Bits {
    if data == [] then [] else Coefficients(order, 8, data[0]) + MessageBits(order, data[1..])
  }

  lemma {:induction false} MessageJoin(order: Order, a: seq<Byte>, b: seq<Byte>)
    ensures MessageBits(order, a + b) == MessageBits(order, a) + MessageBits(order, b)
  {
    if a == [] {
      assert a + b == b;
    } else {
      assert (a + b)[1..] == a[1..] + b;
      MessageJoin(order, a[1..], b);
    }
  }

  lemma MessageOne(order: Order, x: Byte)
    ensures MessageBits(order, [x]) == Coefficients(order, 8, x)
  {
    assert [x][1..] == [];
  }

  /** What the bytes of a message make of a register. */
  function Checksum(order: Order, r: Bits, data: seq<Byte>, p: Bits): (s: Bits)
    requires |r| == |p| >= 1
    ensures |s| == |r|
  {
    Feed(r, MessageBits(order, data), p)
  }

  lemma ChecksumNext(order: Order, r: Bits, data: seq<Byte>, x: Byte, p: Bits)
    requires |r| == |p| >= 1
    ensures Checksum(order, r, data + [x], p) == Feed(Checksum(order, r, data, p), Coefficients(order, 8, x), p)
  {
    hide Feed, MessageBits;
    MessageJoin(order, data, [x]);
    MessageOne(order, x);
    FeedJoin(r, MessageBits(order, data), Coefficients(order, 8, x), p);
  }

  lemma ChecksumNone(order: Order, r: Bits, p: Bits)
    requires |r| == |p| >= 1
    ensures Checksum(order, r, [], p) == r
  {
  }

  /** The checksum of a message in two parts is that of the second, continued from that of the
      first. */
  lemma ChecksumJoin(order: Order, r: Bits, a: seq<Byte>, b: seq<Byte>, p: Bits)
    requires |r| == |p| >= 1
    ensures Checksum(order, r, a + b, p) == Checksum(order, Checksum(order, r, a, p), b, p)
  {
    MessageJoin(order, a, b);
    FeedJoin(r, MessageBits(order, a), MessageBits(order, b), p);
  }
}
