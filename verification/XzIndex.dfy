/** The Index of an .xz stream (section 4): what it looks like, and an automaton that takes it
    byte by byte. */
module XzIndex {
  import opened Words
  import opened XzVli
  import opened XzCrc32

  const UINT64: nat := 0x1_0000_0000_0000_0000

  type Word32 = x: nat | x < UINT32

  /** struct xz_dec_hash */
  datatype Hash = Hash(unpadded: nat, uncompressed: nat, crc32: Word32)

  /** The memory of a hash: two words of 64 bits, one of 32, and padding that is always zero. */
  function HashBytes(h: Hash): seq<Byte> {
    LittleBytes(8, h.unpadded) + LittleBytes(8, h.uncompressed) + LittleBytes(4, h.crc32) + [0, 0, 0, 0]
  }

  lemma Words64()
    ensures Pow256(4) == UINT32 && Pow256(8) == UINT64
  {
    assert Pow256(2) == 0x1_0000 && Pow256(4) == 0x1_0000 * Pow256(2) && Pow256(6) == 0x1_0000 * Pow256(4);
  }

  /** 24 bytes: the sum of the unpadded sizes, that of the uncompressed ones, the checksum so
      far, each with its lowest byte first, and zeros. */
  lemma HashBytesTell(h: Hash)
    requires h.unpadded < UINT64 && h.uncompressed < UINT64
    ensures var b := HashBytes(h);
      && |b| == 24 && Little(b[0..8]) == h.unpadded && Little(b[8..16]) == h.uncompressed && Little(b[16..20]) == h.crc32
      && b[20..] == [0, 0, 0, 0]
  {
    hide Little, LittleBytes;
    Words64();
    LittleBack(8, h.unpadded);
    LittleBack(8, h.uncompressed);
    LittleBack(4, h.crc32);
    var b := HashBytes(h);
    assert b[0..8] == LittleBytes(8, h.unpadded) && b[8..16] == LittleBytes(8, h.uncompressed) && b[16..20] == LittleBytes(4, h.crc32);
  }

  /** Comparing the memory of two hashes compares the hashes. */
  lemma HashBytesUnique(g: Hash, h: Hash)
    requires g.unpadded < UINT64 && g.uncompressed < UINT64 && h.unpadded < UINT64 && h.uncompressed < UINT64
    ensures HashBytes(g) == HashBytes(h) <==> g == h
  {
    hide HashBytes;
    HashBytesTell(g);
    HashBytesTell(h);
  }

  /** The hash after one more field of the records; unpadded and uncompressed sizes alternate. */
  function Hashed(h: Hash, first: bool, v: nat): Hash {
    if first then
      h.(unpadded := (h.unpadded + v) % UINT64)
    else
      var g := h.(uncompressed := (h.uncompressed + v) % UINT64);
      g.(crc32 := Crc32(g.crc32, HashBytes(g)))
  }

  function HashOf(fields: seq<nat>): Hash {
    if fields == [] then Hash(0, 0, 0)
    else Hashed(HashOf(fields[..|fields| - 1]), |fields| % 2 == 1, fields[|fields| - 1])
  }

  lemma HashNext(fields: seq<nat>, v: nat)
    ensures HashOf(fields + [v]) == Hashed(HashOf(fields), |fields| % 2 == 0, v)
  {
    hide Hashed;
    var all := fields + [v];
    assert all[..|fields|] == fields;
    Parity(|fields|);
    assert HashOf(all) == Hashed(HashOf(fields), |all| % 2 == 1, v);
  }

  lemma Parity(n: nat)
    ensures (n + 1) % 2 == 1 <==> n % 2 == 0
  {
  }

  /** The sum of every second field. */
  function Total(fields: seq<nat>, first: bool): nat {
    if fields == [] then 0
    else Total(fields[..|fields| - 1], first) + if (|fields| % 2 == 1) == first then fields[|fields| - 1] else 0
  }

  /** A hash knows the sums of both sizes. */
  lemma {:induction false} HashTotals(fields: seq<nat>)
    ensures HashOf(fields).unpadded == Total(fields, true) % UINT64 && HashOf(fields).uncompressed == Total(fields, false) % UINT64
  {
    if fields != [] {
      hide HashBytes, Crc32;
      var n := |fields| - 1;
      HashTotals(fields[..n]);
      SumAgain(Total(fields[..n], true), fields[n]);
      SumAgain(Total(fields[..n], false), fields[n]);
    }
  }

  lemma SumAgain(a: nat, v: nat)
    ensures (a % UINT64 + v) % UINT64 == (a + v) % UINT64
  {
  }

  // ---- What an Index looks like -----------------------------------------------------------

  function Vlis(xs: seq<nat>): seq<Byte> {
    if xs == [] then [] else Vlis(xs[..|xs| - 1]) + Vli(xs[|xs| - 1])
  }

  lemma VlisNext(xs: seq<nat>, v: nat)
    ensures Vlis(xs + [v]) == Vlis(xs) + Vli(v)
  {
    assert (xs + [v])[..|xs|] == xs;
  }

  function ZeroBytes(n: nat): (z: seq<Byte>)
    ensures |z| == n
  {
    if n == 0 then [] else ZeroBytes(n - 1) + [0]
  }

  /** How many bytes make a length a multiple of four. */
  function PadSize(n: nat): (k: nat)
    ensures k < 4 && (n + k) % 4 == 0
  {
    (4 - n % 4) % 4
  }

  /** Index Indicator, Number of Records, and the records' fields. */
  function Fields(count: nat, fields: seq<nat>): seq<Byte> {
    [0] + Vli(count) + Vlis(fields)
  }

  function Body(count: nat, fields: seq<nat>): seq<Byte> {
    Fields(count, fields) + ZeroBytes(PadSize(|Fields(count, fields)|))
  }

  function IndexBytes(count: nat, fields: seq<nat>): seq<Byte> {
    Body(count, fields) + LittleBytes(4, Crc32(0, Body(count, fields)))
  }

  /** The fields match the blocks that were decoded. */
  predicate Matches(count: nat, fields: seq<nat>, hash: Hash) {
    && count < VLI_LIMIT && |fields| == 2 * count && HashOf(fields) == hash
    && forall i | 0 <= i < |fields| :: fields[i] < VLI_LIMIT
  }

  // ---- The automaton ----------------------------------------------------------------------

  datatype Phase =
    | Field(counted: bool, fields: seq<nat>, part: seq<Byte>)
    | Padding(fields: seq<nat>)
    | Check(fields: seq<nat>, k: nat)
    | Accepted(fields: seq<nat>)
    | Rejected

  /** What follows when all fields, and perhaps some padding, have been seen. */
  function Settle(fields: seq<nat>, seen: seq<Byte>, hash: Hash): Phase {
    if |seen| % 4 != 0 then Padding(fields) else if HashOf(fields) == hash then Check(fields, 0) else Rejected
  }

  /** What follows a finished integer. */
  function FieldDone(counted: bool, fields: seq<nat>, v: nat, seen: seq<Byte>, count: nat, hash: Hash): Phase {
    if !counted then
      if v != count then Rejected else if count == 0 then Settle([], seen, hash) else Field(true, [], [])
    else
      if |fields| + 1 == 2 * count then Settle(fields + [v], seen, hash) else Field(true, fields + [v], [])
  }

  function FieldStep(counted: bool, fields: seq<nat>, part: seq<Byte>, seen: seq<Byte>, x: Byte, count: nat, hash: Hash): Phase {
    if x < 128 then
      if x == 0 && part != [] then Rejected else FieldDone(counted, fields, Value(part + [x]), seen + [x], count, hash)
    else
      if |part| + 1 >= VLI_BYTES_MAX then Rejected else Field(counted, fields, part + [x])
  }

  /** One byte. */
  function Next(p: Phase, seen: seq<Byte>, x: Byte, count: nat, hash: Hash): Phase {
    match p
    case Field(counted, fields, part) => FieldStep(counted, fields, part, seen, x, count, hash)
    case Padding(fields) => if x != 0 then Rejected else Settle(fields, seen + [x], hash)
    case Check(fields, k) =>
      if k >= 4 || k > |seen| || x != LittleBytes(4, Crc32(0, seen[..|seen| - k]))[k] then Rejected
      else if k == 3 then Accepted(fields) else Check(fields, k + 1)
    case _ => p
  }

  /** Any number of bytes; after a verdict the rest does not matter. */
  function After(p: Phase, seen: seq<Byte>, s: seq<Byte>, count: nat, hash: Hash): Phase
    decreases |s|
  {
    if s == [] then p else After(Next(p, seen, s[0], count, hash), seen + [s[0]], s[1..], count, hash)
  }

  /** The input may come in pieces of any sizes. */
  lemma {:induction false} AfterJoin(p: Phase, seen: seq<Byte>, s: seq<Byte>, t: seq<Byte>, count: nat, hash: Hash)
    ensures After(p, seen, s + t, count, hash) == After(After(p, seen, s, count, hash), seen + s, t, count, hash)
    decreases |s|
  {
    hide Next;
    if s == [] {
      assert s + t == t && seen + s == seen;
    } else {
      assert (s + t)[1..] == s[1..] + t;
      AfterJoin(Next(p, seen, s[0], count, hash), seen + [s[0]], s[1..], t, count, hash);
      assert (seen + [s[0]]) + s[1..] == seen + s;
    }
  }

  lemma AfterOne(p: Phase, seen: seq<Byte>, x: Byte, count: nat, hash: Hash)
    ensures After(p, seen, [x], count, hash) == Next(p, seen, x, count, hash)
  {
    hide Next;
    assert [x][1..] == [];
    assert After(Next(p, seen, x, count, hash), seen + [x], [], count, hash) == Next(p, seen, x, count, hash);
  }

  lemma {:induction false} VerdictStays(p: Phase, seen: seq<Byte>, s: seq<Byte>, count: nat, hash: Hash)
    requires p.Accepted? || p.Rejected?
    ensures After(p, seen, s, count, hash) == p
    decreases |s|
  {
    if s != [] {
      VerdictStays(p, seen + [s[0]], s[1..], count, hash);
    }
  }

  // ---- It accepts what an Index looks like, and nothing else ----------------------------------

  /** What has been seen, as the phase tells it. */
  ghost predicate Tells(p: Phase, seen: seq<Byte>, count: nat, hash: Hash) {
    match p
    case Field(counted, fields, part) =>
      && Open(part) && |part| < VLI_BYTES_MAX && (forall i | 0 <= i < |fields| :: fields[i] < VLI_LIMIT)
      && (if counted then |fields| < 2 * count && count < VLI_LIMIT && seen == Fields(count, fields) + part
          else fields == [] && seen == [0] + part)
    case Padding(fields) =>
      && |fields| == 2 * count && count < VLI_LIMIT && (forall i | 0 <= i < |fields| :: fields[i] < VLI_LIMIT)
      && |seen| % 4 != 0 && exists j: nat :: PadsTo(seen, Fields(count, fields), j)
    case Check(fields, k) =>
      Matches(count, fields, hash) && k < 4 && seen == Body(count, fields) + LittleBytes(4, Crc32(0, Body(count, fields)))[..k]
    case Accepted(fields) => Matches(count, fields, hash) && seen == IndexBytes(count, fields)
    case Rejected => true
  }

  /** Some bytes and then zeros, of which no more than are needed. */
  predicate PadsTo(seen: seq<Byte>, f: seq<Byte>, j: nat) {
    seen == f + ZeroBytes(j) && j <= PadSize(|f|)
  }

  lemma PadOne(f: seq<Byte>, j: nat)
    requires j <= PadSize(|f|)
    ensures (|f| + j) % 4 == 0 <==> j == PadSize(|f|)
  {
  }

  lemma SettleTells(fields: seq<nat>, seen: seq<Byte>, j: nat, count: nat, hash: Hash)
    requires PadsTo(seen, Fields(count, fields), j) && |fields| == 2 * count && count < VLI_LIMIT
    requires forall i | 0 <= i < |fields| :: fields[i] < VLI_LIMIT
    ensures Tells(Settle(fields, seen, hash), seen, count, hash)
  {
    hide Fields, HashOf, Crc32, LittleBytes, PadSize, ZeroBytes;
    PadOne(Fields(count, fields), j);
    if |seen| % 4 == 0 && HashOf(fields) == hash {
      var b := Body(count, fields);
      assert seen == b + LittleBytes(4, Crc32(0, b))[..0];
    }
  }

  lemma DoneTells(counted: bool, fields: seq<nat>, part: seq<Byte>, seen: seq<Byte>, x: Byte, count: nat, hash: Hash)
    requires Tells(Field(counted, fields, part), seen, count, hash) && x < 128 && (x != 0 || part == [])
    ensures Tells(FieldDone(counted, fields, Value(part + [x]), seen + [x], count, hash), seen + [x], count, hash)
  {
    hide Settle, HashOf, Value, Vli, PadSize, Tells;
    var b := part + [x];
    var v := Value(b);
    TellsField(counted, fields, part, seen, count, hash);
    BytesOfVli(part, x);
    var next := if counted then fields + [v] else [];
    assert seen + [x] == (if counted then Fields(count, fields) else [0]) + b;
    if !counted && v == count {
      assert Fields(count, []) == [0] + Vli(count) by { assert Vlis([]) == []; }
    }
    if counted {
      VlisNext(fields, v);
      assert Fields(count, next) == Fields(count, fields) + b;
    }
    if counted || v == count {
      assert seen + [x] == Fields(count, next);
      assert Fields(count, next) == Fields(count, next) + ZeroBytes(0);
      if |next| == 2 * count {
        assert PadsTo(seen + [x], Fields(count, next), 0);
        SettleTells(next, seen + [x], 0, count, hash);
      } else {
        FieldTells(next, seen + [x], count, hash);
      }
    } else {
      RejectedTells(seen + [x], count, hash);
    }
  }

  lemma RejectedTells(seen: seq<Byte>, count: nat, hash: Hash)
    ensures Tells(Rejected, seen, count, hash)
  {
  }

  lemma TellsField(counted: bool, fields: seq<nat>, part: seq<Byte>, seen: seq<Byte>, count: nat, hash: Hash)
    requires Tells(Field(counted, fields, part), seen, count, hash)
    ensures Open(part) && |part| < VLI_BYTES_MAX && (forall i | 0 <= i < |fields| :: fields[i] < VLI_LIMIT)
    ensures if counted then |fields| < 2 * count && count < VLI_LIMIT && seen == Fields(count, fields) + part
      else fields == [] && seen == [0] + part
  {
  }

  lemma FieldTells(fields: seq<nat>, seen: seq<Byte>, count: nat, hash: Hash)
    requires |fields| < 2 * count && count < VLI_LIMIT && (forall i | 0 <= i < |fields| :: fields[i] < VLI_LIMIT)
    requires seen == Fields(count, fields)
    ensures Tells(Field(true, fields, []), seen, count, hash)
  {
    assert seen + [] == seen;
  }

  /** Open bytes and a last one are the encoding of a value below the limit. */
  lemma BytesOfVli(part: seq<Byte>, x: Byte)
    requires Open(part) && |part| < VLI_BYTES_MAX && x < 128 && (x != 0 || part == [])
    ensures Vli(Value(part + [x])) == part + [x] && Value(part + [x]) < VLI_LIMIT
  {
    hide Vli, Value;
    var b := part + [x];
    assert Minimal(b);
    MinimalVli(b);
    Pow128Nine();
    VliSize(Value(b), VLI_BYTES_MAX);
  }

  lemma FieldStepTells(counted: bool, fields: seq<nat>, part: seq<Byte>, seen: seq<Byte>, x: Byte, count: nat, hash: Hash)
    requires Tells(Field(counted, fields, part), seen, count, hash)
    ensures Tells(FieldStep(counted, fields, part, seen, x, count, hash), seen + [x], count, hash)
  {
    hide FieldDone, Fields;
    if x < 128 && (x != 0 || part == []) {
      DoneTells(counted, fields, part, seen, x, count, hash);
    } else if x >= 128 {
      assert (if counted then Fields(count, fields) else [0]) + part + [x] == (if counted then Fields(count, fields) else [0]) + (part + [x]);
    }
  }

  lemma PaddingTells(fields: seq<nat>, seen: seq<Byte>, count: nat, hash: Hash)
    requires Tells(Padding(fields), seen, count, hash)
    ensures Tells(Settle(fields, seen + [0], hash), seen + [0], count, hash)
  {
    hide Fields, Settle;
    var f := Fields(count, fields);
    var j: nat :| PadsTo(seen, f, j);
    PadOne(f, j);
    assert f + ZeroBytes(j) + [0] == f + ZeroBytes(j + 1);
    SettleTells(fields, seen + [0], j + 1, count, hash);
  }

  lemma CheckTells(fields: seq<nat>, k: nat, seen: seq<Byte>, x: Byte, count: nat, hash: Hash)
    requires Tells(Check(fields, k), seen, count, hash)
    ensures Tells(Next(Check(fields, k), seen, x, count, hash), seen + [x], count, hash)
  {
    hide Body, Crc32, LittleBytes, Matches;
    var b := Body(count, fields);
    var c := LittleBytes(4, Crc32(0, b));
    assert seen[..|seen| - k] == b;
    if x == c[k] {
      assert c[..k] + [x] == c[..k + 1];
      assert seen + [x] == b + c[..k + 1];
      assert c[..4] == c;
    }
  }

  lemma NextTells(p: Phase, seen: seq<Byte>, x: Byte, count: nat, hash: Hash)
    requires Tells(p, seen, count, hash) && !p.Accepted?
    ensures Tells(Next(p, seen, x, count, hash), seen + [x], count, hash)
  {
    hide Settle, FieldStep;
    if p.Field? {
      FieldStepTells(p.counted, p.fields, p.part, seen, x, count, hash);
    } else if p.Padding? {
      PaddingTells(p.fields, seen, count, hash);
    } else if p.Check? {
      CheckTells(p.fields, p.k, seen, x, count, hash);
    }
  }

  /** Soundness: when the automaton accepts, what it took is an Index that matches the blocks. */
  lemma {:induction false} AcceptedIndex(p: Phase, seen: seq<Byte>, s: seq<Byte>, count: nat, hash: Hash) returns (n: nat)
    requires Tells(p, seen, count, hash) && After(p, seen, s, count, hash).Accepted?
    ensures n <= |s|
    ensures var fields := After(p, seen, s, count, hash).fields;
      Matches(count, fields, hash) && seen + s[..n] == IndexBytes(count, fields)
    decreases |s|
  {
    hide Next, IndexBytes;
    if p.Accepted? {
      VerdictStays(p, seen, s, count, hash);
      n := 0;
      assert seen + s[..0] == seen;
    } else {
      NextTells(p, seen, s[0], count, hash);
      n := AcceptedIndex(Next(p, seen, s[0], count, hash), seen + [s[0]], s[1..], count, hash);
      assert (seen + [s[0]]) + s[1..][..n] == seen + s[..n + 1];
      n := n + 1;
    }
  }

  // ---- It accepts all of them -----------------------------------------------------------------

  lemma {:induction false} ReadOpen(counted: bool, fields: seq<nat>, part: seq<Byte>, more: seq<Byte>, seen: seq<Byte>, count: nat, hash: Hash)
    requires Open(more) && |part| + |more| < VLI_BYTES_MAX
    ensures After(Field(counted, fields, part), seen, more, count, hash) == Field(counted, fields, part + more)
    decreases |more|
  {
    hide FieldDone;
    if more == [] {
      assert part + more == part;
    } else {
      assert Open(more[1..]);
      assert (part + [more[0]]) + more[1..] == part + more;
      ReadOpen(counted, fields, part + [more[0]], more[1..], seen + [more[0]], count, hash);
    }
  }

  lemma ReadVli(counted: bool, fields: seq<nat>, v: nat, seen: seq<Byte>, count: nat, hash: Hash)
    requires v < VLI_LIMIT
    ensures After(Field(counted, fields, []), seen, Vli(v), count, hash) == FieldDone(counted, fields, v, seen + Vli(v), count, hash)
  {
    hide FieldDone, Vli, Value, Next, After;
    var e := Vli(v);
    VliMinimal(v);
    Pow128Nine();
    VliSize(v, VLI_BYTES_MAX);
    var part, x := e[..|e| - 1], e[|e| - 1];
    assert e == part + [x];
    AfterJoin(Field(counted, fields, []), seen, part, [x], count, hash);
    ReadOpen(counted, fields, [], part, seen, count, hash);
    assert [] + part == part;
    AfterOne(Field(counted, fields, part), seen + part, x, count, hash);
    assert (seen + part) + [x] == seen + e;
    NextField(counted, fields, part, seen + part, x, count, hash);
  }

  /** The last byte of an integer of which a part had been read before, or of none. */
  lemma ReadLast(counted: bool, fields: seq<nat>, part: seq<Byte>, more: seq<Byte>, seen: seq<Byte>, count: nat, hash: Hash)
    requires more != [] && Open((part + more)[..|part + more| - 1]) && |part + more| <= VLI_BYTES_MAX
    ensures var all := part + more; var x := all[|all| - 1];
      After(Field(counted, fields, part), seen, more, count, hash)
        == FieldStep(counted, fields, all[..|all| - 1], seen + more[..|more| - 1], x, count, hash)
  {
    hide FieldStep, Next, After;
    var all := part + more;
    var front, x := more[..|more| - 1], more[|more| - 1];
    assert all[..|all| - 1] == part + front;
    assert forall i | 0 <= i < |front| :: front[i] == (part + front)[|part| + i];
    assert more == front + [x];
    AfterJoin(Field(counted, fields, part), seen, front, [x], count, hash);
    ReadOpen(counted, fields, part, front, seen, count, hash);
    AfterOne(Field(counted, fields, part + front), seen + front, x, count, hash);
    NextIsFieldStep(counted, fields, part + front, seen + front, x, count, hash);
  }

  lemma NextIsFieldStep(counted: bool, fields: seq<nat>, part: seq<Byte>, seen: seq<Byte>, x: Byte, count: nat, hash: Hash)
    ensures Next(Field(counted, fields, part), seen, x, count, hash) == FieldStep(counted, fields, part, seen, x, count, hash)
  {
    hide FieldStep;
  }

  lemma NextField(counted: bool, fields: seq<nat>, part: seq<Byte>, seen: seq<Byte>, x: Byte, count: nat, hash: Hash)
    requires x < 128 && (x != 0 || part == [])
    ensures Next(Field(counted, fields, part), seen, x, count, hash)
      == FieldDone(counted, fields, Value(part + [x]), seen + [x], count, hash)
  {
  }

  const START: Phase := Field(false, [], [])

  /** All but the Index Indicator. */
  function Tail(count: nat, fields: seq<nat>): seq<Byte> {
    Vli(count) + Vlis(fields)
  }

  lemma {:induction false} ReadFields(count: nat, fields: seq<nat>, i: nat, hash: Hash)
    requires i <= |fields| == 2 * count && count < VLI_LIMIT && forall i | 0 <= i < |fields| :: fields[i] < VLI_LIMIT
    ensures [0] + Tail(count, fields[..i]) == Fields(count, fields[..i])
    ensures After(START, [0], Tail(count, fields[..i]), count, hash)
      == if i == |fields| then Settle(fields, Fields(count, fields), hash) else Field(true, fields[..i], [])
  {
    hide After, Vli, Settle;
    assert fields[..|fields|] == fields;
    assert [0] + Tail(count, fields[..i]) == Fields(count, fields[..i]);
    if i == 0 {
      assert fields[..0] == [];
      assert Vli(count) + [] == Vli(count);
      ReadVli(false, [], count, [0], count, hash);
      assert [0] + Vli(count) == Fields(count, []);
    } else {
      ReadFields(count, fields, i - 1, hash);
      var before, v := fields[..i - 1], fields[i - 1];
      assert before + [v] == fields[..i];
      VlisNext(before, v);
      assert Tail(count, fields[..i]) == Tail(count, before) + Vli(v);
      AfterJoin(START, [0], Tail(count, before), Vli(v), count, hash);
      ReadVli(true, before, v, [0] + Tail(count, before), count, hash);
      assert ([0] + Tail(count, before)) + Vli(v) == Fields(count, fields[..i]);
    }
  }

  lemma {:induction false} ReadPadding(count: nat, fields: seq<nat>, j: nat, hash: Hash)
    requires Matches(count, fields, hash) && j <= PadSize(|Fields(count, fields)|)
    ensures After(START, [0], Tail(count, fields) + ZeroBytes(j), count, hash)
      == if j == PadSize(|Fields(count, fields)|) then Check(fields, 0) else Padding(fields)
  {
    hide After, Vli, Vlis, HashOf, Next;
    var f := Fields(count, fields);
    PadOne(f, j);
    assert [0] + Tail(count, fields) == f;
    if j == 0 {
      assert fields[..|fields|] == fields;
      ReadFields(count, fields, |fields|, hash);
      assert Tail(count, fields) + ZeroBytes(0) == Tail(count, fields);
    } else {
      var t := Tail(count, fields) + ZeroBytes(j - 1);
      ReadPadding(count, fields, j - 1, hash);
      assert Tail(count, fields) + ZeroBytes(j) == t + [0];
      AfterJoin(START, [0], t, [0], count, hash);
      AfterOne(Padding(fields), [0] + t, 0, count, hash);
      NextPadding(fields, [0] + t, count, hash);
      assert |([0] + t) + [0]| == |f| + j;
    }
  }

  lemma NextPadding(fields: seq<nat>, seen: seq<Byte>, count: nat, hash: Hash)
    ensures Next(Padding(fields), seen, 0, count, hash) == Settle(fields, seen + [0], hash)
  {
    hide Settle;
  }

  lemma {:induction false} ReadCheck(count: nat, fields: seq<nat>, k: nat, hash: Hash)
    requires Matches(count, fields, hash) && 1 <= k <= 4
    ensures var b := Body(count, fields);
      After(START, [0], b[1..] + LittleBytes(4, Crc32(0, b))[..k], count, hash) == if k == 4 then Accepted(fields) else Check(fields, k)
    decreases k
  {
    hide After, Next, LittleBytes, Crc32, Fields;
    var b := Body(count, fields);
    var c := LittleBytes(4, Crc32(0, b));
    BodyTail(count, fields);
    var before := b[1..] + c[..k - 1];
    if k == 1 {
      ReadPadding(count, fields, PadSize(|Fields(count, fields)|), hash);
      assert before == b[1..];
    } else {
      ReadCheck(count, fields, k - 1, hash);
    }
    assert b[1..] + c[..k] == before + [c[k - 1]];
    AfterJoin(START, [0], before, [c[k - 1]], count, hash);
    assert [0] + before == b + c[..k - 1];
    AfterOne(Check(fields, k - 1), b + c[..k - 1], c[k - 1], count, hash);
    NextCheck(fields, k - 1, b, count, hash);
  }

  lemma BodyTail(count: nat, fields: seq<nat>)
    ensures Body(count, fields) != [] && Body(count, fields)[0] == 0
    ensures Body(count, fields)[1..] == Tail(count, fields) + ZeroBytes(PadSize(|Fields(count, fields)|))
  {
    hide Vli, Vlis;
    assert Fields(count, fields) == [0] + Tail(count, fields);
  }

  lemma NextCheck(fields: seq<nat>, k: nat, b: seq<Byte>, count: nat, hash: Hash)
    requires k < 4
    ensures var c := LittleBytes(4, Crc32(0, b));
      Next(Check(fields, k), b + c[..k], c[k], count, hash) == if k == 3 then Accepted(fields) else Check(fields, k + 1)
  {
    hide LittleBytes, Crc32;
    var c := LittleBytes(4, Crc32(0, b));
    assert (b + c[..k])[..|b|] == b;
  }

  /** Completeness: an Index that matches the blocks is accepted, whatever follows it. */
  lemma IndexAccepted(count: nat, fields: seq<nat>, hash: Hash, more: seq<Byte>)
    requires Matches(count, fields, hash)
    ensures After(START, [0], IndexBytes(count, fields)[1..] + more, count, hash) == Accepted(fields)
  {
    hide After, LittleBytes, Crc32, Body;
    var b := Body(count, fields);
    var c := LittleBytes(4, Crc32(0, b));
    BodyTail(count, fields);
    ReadCheck(count, fields, 4, hash);
    assert c[..4] == c;
    assert IndexBytes(count, fields)[1..] == b[1..] + c;
    AfterJoin(START, [0], b[1..] + c, more, count, hash);
    VerdictStays(Accepted(fields), [0] + (b[1..] + c), more, count, hash);
  }

  /** What an Index says is determined by its bytes. */
  lemma IndexUnique(count: nat, fields: seq<nat>, other: seq<nat>, hash: Hash)
    requires Matches(count, fields, hash) && Matches(count, other, hash) && IndexBytes(count, fields) == IndexBytes(count, other)
    ensures fields == other
  {
    hide After, IndexBytes;
    IndexAccepted(count, fields, hash, []);
    IndexAccepted(count, other, hash, []);
  }
}
