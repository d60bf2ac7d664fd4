/** crc8.c: building the table by doubling, and using it. */
module Crc8 {
  import opened Words
  import opened Gf2
  import opened Crc

  const CRC8_TABLE_SIZE: nat := 256

  /** The steps taken by t in crc8_populate_msb and crc8_populate_lsb. */
  ghost predicate Stepped(order: Order, poly: nat, t: nat, steps: nat) {
    t < 256 && Coefficients(order, 8, t) == Shifts(steps, OneHot(8, 0), Coefficients(order, 8, poly))
  }

  lemma FirstMsb(poly: nat)
    ensures Stepped(Msb, poly, 0x80, 0)
  {
    hide Coefficients;
    Powers();
    PowerWord(Msb, 8, 7);
  }

  lemma FirstLsb(poly: nat)
    ensures Stepped(Lsb, poly, 1, 0)
  {
    hide Coefficients;
    Powers();
    PowerWord(Lsb, 8, 0);
  }

  lemma NextMsb(poly: nat, t: nat, k: nat)
    requires Stepped(Msb, poly, t, k) && poly < 256
    ensures Stepped(Msb, poly, StepMsb(8, t, poly), k + 1)
  {
    hide Coefficients, Shift;
    Powers();
    MsbShifts(8, t, poly);
    XorBound(8, 2 * t % Pow2(8), OrNone(t / Pow2(7) % 2 == 1, poly));
    var p, b := Coefficients(Msb, 8, poly), OneHot(8, 0);
    ShiftsMore(k, 1, b, p);
    OneShift(Shifts(k, b, p), p);
  }

  lemma NextLsb(poly: nat, t: nat, k: nat)
    requires Stepped(Lsb, poly, t, k) && poly < 256
    ensures Stepped(Lsb, poly, StepLsb(t, poly), k + 1)
  {
    hide Coefficients, Shift;
    Powers();
    LsbShifts(8, t, poly);
    XorBound(8, t / 2, OrNone(t % 2 == 1, poly));
    var p, b := Coefficients(Lsb, 8, poly), OneHot(8, 0);
    ShiftsMore(k, 1, b, p);
    OneShift(Shifts(k, b, p), p);
  }

  lemma OneShift(r: Bits, p: Bits)
    requires |r| == |p| >= 1
    ensures Shifts(1, r, p) == Shift(r, p)
  {
    assert Shifts(0, Shift(r, p), p) == Shift(r, p);
  }

  lemma EntryReached(order: Order, poly: nat, t: nat, k: nat)
    requires k < 8 && Stepped(order, poly, t, if order == Lsb then 8 - k else k + 1)
    ensures Holds(order, 8, poly, Pow2(k), t)
  {
    hide Coefficients, Shifts;
    Powers();
    BitEntry(order, poly, k);
  }

  /** crc8_populate_msb */
  method Crc8PopulateMsb(table: array<nat>, polynomial: Byte)
    requires table.Length == CRC8_TABLE_SIZE
    modifies table
    ensures TableFor(Msb, 8, polynomial, table[..])
  {
    hide Holds, Stepped, StepMsb, Pow2;
    Powers();
    table[0] := 0;
    ZeroEntry(Msb, 8, polynomial);
    FirstMsb(polynomial);
    var t: nat := 0x80;
    var i := 1;
    ghost var k := 0;
    while i < CRC8_TABLE_SIZE
      invariant k <= 8 && i == Pow2(k) && Stepped(Msb, polynomial, t, k)
      invariant forall x | 0 <= x < i :: Holds(Msb, 8, polynomial, x, table[x])
      decreases 8 - k
    {
      PowerBelow(k);
      NextMsb(polynomial, t, k);
      t := StepMsb(8, t, polynomial);
      EntryReached(Msb, polynomial, t, k);
      for j := 0 to i
        invariant forall x | 0 <= x < i + j :: Holds(Msb, 8, polynomial, x, table[x])
      {
        LowPart(k, j);
        Doubling(Msb, polynomial, k, j, t, table[j]);
        table[i + j] := XorWord(table[j], t);
      }
      i := i * 2;
      k := k + 1;
    }
    TableDone(Msb, 8, polynomial, table[..]);
  }

  lemma PowerBelow(k: nat)
    requires k <= 8 && Pow2(k) < 256
    ensures k < 8 && 2 * Pow2(k) == Pow2(k + 1) <= 256
  {
    Powers();
  }

  lemma LowPart(k: nat, j: nat)
    requires j < Pow2(k)
    ensures j / Pow2(k) % 2 == 0
  {
    QuotientIs(j, 0, j, Pow2(k));
  }

  lemma TableDone(order: Order, n: nat, poly: nat, table: seq<nat>)
    requires n >= 8 && |table| == 256 && forall x | 0 <= x < 256 :: Holds(order, n, poly, x, table[x])
    ensures TableFor(order, n, poly, table)
  {
  }

  /** A multiple of 2 to the power of k. */
  predicate Spaced(x: nat, k: nat) {
    x % Pow2(k) == 0
  }

  lemma AllSpaced(x: nat)
    ensures Spaced(x, 0)
  {
    assert Pow2(0) == 1;
  }

  lemma HalfOf(k: nat)
    requires k <= 7
    ensures Pow2(k) / 2 == if k > 0 then Pow2(k - 1) else 0
  {
    Powers();
  }

  lemma Multiple(q: nat, m: nat)
    requires m > 0
    ensures q * m % m == 0 && q * m / m == q
  {
    RemainderIs(q * m, q, 0, m);
    QuotientIs(q * m, q, 0, m);
  }

  lemma TwiceTimes(h: nat, m: nat)
    ensures h * (2 * m) == (2 * h) * m && (h + 1) * (2 * m) == h * (2 * m) + 2 * m && (2 * h + 1) * m == (2 * h) * m + m
  {
  }

  /** A multiple of 2 to the power of k is one of the next power, or that and half of it. */
  lemma SpacedSplit(x: nat, k: nat)
    requires Spaced(x, k)
    ensures Spaced(x, k + 1) || (x >= Pow2(k) && Spaced(x - Pow2(k), k + 1))
  {
    hide Spaced, Pow2;
    var h := SplitFactor(x, k);
    TwiceTimes(h, Pow2(k));
    SpacedBy(h, k + 1);
  }

  lemma SplitFactor(x: nat, k: nat) returns (h: nat)
    requires Spaced(x, k)
    ensures x == (2 * h) * Pow2(k) || x == (2 * h + 1) * Pow2(k)
    ensures Pow2(k + 1) == 2 * Pow2(k)
  {
    var q := x / Pow2(k);
    h := q / 2;
    assert x == q * Pow2(k);
    assert q == 2 * h || q == 2 * h + 1;
  }

  lemma SpacedBy(h: nat, k: nat)
    ensures Spaced(h * Pow2(k), k)
  {
    Multiple(h, Pow2(k));
  }

  lemma SpacedFactor(j: nat, k: nat) returns (h: nat)
    requires Spaced(j, k + 1)
    ensures j == h * (2 * Pow2(k)) && Pow2(k + 1) == 2 * Pow2(k)
  {
    h := j / Pow2(k + 1);
  }

  lemma SpacedSum(j: nat, k: nat)
    requires Spaced(j, k + 1)
    ensures j / Pow2(k) % 2 == 0 && Spaced(j + Pow2(k), k) && Spaced(j, k) && Spaced(j + 2 * Pow2(k), k + 1)
  {
    hide Spaced, Pow2;
    var h := SpacedFactor(j, k);
    TwiceTimes(h, Pow2(k));
    Multiple(2 * h, Pow2(k));
    SpacedBy(2 * h, k);
    SpacedBy(2 * h + 1, k);
    SpacedBy(h + 1, k + 1);
  }

  lemma ApartOrSame(a: nat, b: nat, m: nat)
    requires m > 0 && a % m == 0 && b % m == 0 && a < b + m && b < a + m
    ensures a == b
  {
    var p, q := a / m, b / m;
    assert a == p * m && b == q * m;
    if p > q {
      assert a - b == (p - q) * m;
      AtLeast(p - q, m);
    } else if q > p {
      assert b - a == (q - p) * m;
      AtLeast(q - p, m);
    }
  }

  /** What comes between two steps of the inner loop. */
  lemma SpacedBetween(x: nat, j: nat, k: nat)
    requires Spaced(x, k) && Spaced(j, k + 1) && j <= x < j + 2 * Pow2(k)
    ensures Spaced(x, k + 1) || x == j + Pow2(k)
  {
    SpacedSplit(x, k);
    if !Spaced(x, k + 1) {
      ApartOrSame(x - Pow2(k), j, 2 * Pow2(k));
    }
  }

  lemma GapFits(j: nat, k: nat)
    requires k < 8 && j < 256 && Spaced(j, k + 1)
    ensures j + 2 * Pow2(k) <= 256
  {
    Powers();
    if j + 2 * Pow2(k) > 256 {
      assert Spaced(256, k + 1);
      ApartOrSame(j, 256, Pow2(k + 1));
    }
  }

  /** The inner loop of crc8_populate_lsb. */
  method FillSpaced(table: array<nat>, polynomial: Byte, t: nat, i: nat, ghost k: nat)
    requires table.Length == CRC8_TABLE_SIZE && k < 8 && i == Pow2(k) && Holds(Lsb, 8, polynomial, i, t)
    requires forall x | 0 <= x < 256 && Spaced(x, k + 1) :: Holds(Lsb, 8, polynomial, x, table[x])
    modifies table
    ensures forall x | 0 <= x < 256 && Spaced(x, k) :: Holds(Lsb, 8, polynomial, x, table[x])
  {
    hide Holds, Spaced, Pow2;
    var j := 0;
    NoneSpaced(k + 1);
    while j < CRC8_TABLE_SIZE
      invariant 0 <= j <= 256 && Spaced(j, k + 1)
      invariant forall x | 0 <= x < 256 && Spaced(x, k + 1) :: Holds(Lsb, 8, polynomial, x, table[x])
      invariant forall x | 0 <= x < j && Spaced(x, k) :: Holds(Lsb, 8, polynomial, x, table[x])
    {
      GapFits(j, k);
      SpacedSum(j, k);
      Doubling(Lsb, polynomial, k, j, t, table[j]);
      table[i + j] := XorWord(table[j], t);
      forall x | j <= x < j + 2 * i && Spaced(x, k)
        ensures Holds(Lsb, 8, polynomial, x, table[x])
      {
        SpacedBetween(x, j, k);
      }
      j := j + 2 * i;
    }
  }

  lemma NoneSpaced(k: nat)
    ensures Spaced(0, k)
  {
    RemainderIs(0, 0, 0, Pow2(k));
  }

  /** crc8_populate_lsb */
  method Crc8PopulateLsb(table: array<nat>, polynomial: Byte)
    requires table.Length == CRC8_TABLE_SIZE
    modifies table
    ensures TableFor(Lsb, 8, polynomial, table[..])
  {
    hide Holds, Stepped, StepLsb, Pow2;
    Powers();
    table[0] := 0;
    ZeroEntry(Lsb, 8, polynomial);
    FirstLsb(polynomial);
    var t: nat := 1;
    var i := CRC8_TABLE_SIZE / 2;
    ghost var k: int := 7;
    while i != 0
      invariant -1 <= k <= 7 && i == (if k >= 0 then Pow2(k) else 0) && Stepped(Lsb, polynomial, t, 7 - k)
      invariant forall x | 0 <= x < 256 && Spaced(x, k + 1) :: Holds(Lsb, 8, polynomial, x, table[x])
      decreases i
    {
      NextLsb(polynomial, t, 7 - k);
      t := StepLsb(t, polynomial);
      EntryReached(Lsb, polynomial, t, k);
      FillSpaced(table, polynomial, t, i, k);
      HalfOf(k);
      i := i / 2;
      k := k - 1;
    }
    forall x | 0 <= x < 256
      ensures Holds(Lsb, 8, polynomial, x, table[x])
    {
      assert Spaced(x, 0) by { AllSpaced(x); }
    }
    TableDone(Lsb, 8, polynomial, table[..]);
  }

  // ---- Using a table -------------------------------------------------------------------

  /** crc8: with a table for the polynomial, the register goes through all bits of the
      message. */
  method Crc8(ghost order: Order, ghost poly: nat, table: array<nat>, pdata: seq<Byte>, start: Byte) returns (crc: nat)
    requires table.Length == CRC8_TABLE_SIZE && TableFor(order, 8, poly, table[..])
    ensures crc < 256
    ensures Coefficients(order, 8, crc) == Checksum(order, Coefficients(order, 8, start), pdata, Coefficients(order, 8, poly))
  {
    hide Checksum, Coefficients, XorWord, TableFor, Pow2;
    Powers();
    crc := start;
    ghost var r, p := Coefficients(order, 8, start), Coefficients(order, 8, poly);
    var i := 0;
    assert pdata[..0] == [];
    ChecksumNone(order, r, p);
    while i < |pdata|
      invariant 0 <= i <= |pdata| && crc < 256 && Coefficients(order, 8, crc) == Checksum(order, r, pdata[..i], p)
    {
      assert pdata[..i + 1] == pdata[..i] + [pdata[i]];
      OneByte(order, poly, table[..], r, pdata[..i], crc, pdata[i]);
      crc := table[XorWord(crc, pdata[i]) % 256];
      i := i + 1;
    }
    assert pdata[..|pdata|] == pdata;
  }

  lemma OneByte(order: Order, poly: nat, table: seq<nat>, r: Bits, data: seq<Byte>, crc: nat, x: Byte)
    requires TableFor(order, 8, poly, table) && crc < 256 && |r| == 8
    requires Coefficients(order, 8, crc) == Checksum(order, r, data, Coefficients(order, 8, poly))
    ensures XorWord(crc, x) < 256 == |table| && table[XorWord(crc, x)] < 256
    ensures Coefficients(order, 8, table[XorWord(crc, x)]) == Checksum(order, r, data + [x], Coefficients(order, 8, poly))
  {
    hide Checksum, Coefficients, XorWord, Feed;
    Powers();
    XorBound(8, crc, x);
    ChecksumNext(order, r, data, x, Coefficients(order, 8, poly));
    Looked(order, poly, table, crc, x);
  }

  /** One look at the table is eight steps of the register. */
  lemma Looked(order: Order, poly: nat, table: seq<nat>, crc: nat, x: Byte)
    requires TableFor(order, 8, poly, table) && XorWord(crc, x) < 256
    ensures table[XorWord(crc, x)] < 256
    ensures Coefficients(order, 8, table[XorWord(crc, x)])
      == Feed(Coefficients(order, 8, crc), Coefficients(order, 8, x), Coefficients(order, 8, poly))
  {
    hide Coefficients, XorWord, Feed, Entry;
    Powers();
    var r, m, p := Coefficients(order, 8, crc), Coefficients(order, 8, x), Coefficients(order, 8, poly);
    assert Holds(order, 8, poly, XorWord(crc, x), table[XorWord(crc, x)]);
    XorIs(order, 8, crc, x);
    TableStep(r, m, p);
    assert r[..8] == r && r[8..] == [];
    NothingMore(Entry(Xor(r, m), p), Zeros(8));
  }

  lemma NothingMore(e: Bits, z: Bits)
    requires |e| == 8 && z == Zeros(8)
    ensures Xor(e, [] + z) == e
  {
  }

  /** crc8 is polynomial division, and its value is the only remainder there is. */
  lemma Crc8Divides(order: Order, poly: nat, start: Byte, pdata: seq<Byte>, crc: nat)
    requires Coefficients(order, 8, crc) == Checksum(order, Coefficients(order, 8, start), pdata, Coefficients(order, 8, poly))
    ensures Coefficients(order, 8, crc)
      == Remainder(Dividend(Coefficients(order, 8, start), MessageBits(order, pdata)), Coefficients(order, 8, poly))
  {
    FeedDivides(Coefficients(order, 8, start), MessageBits(order, pdata), Coefficients(order, 8, poly));
  }
}
