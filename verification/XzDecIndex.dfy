/** The Index part of xz_dec_stream.c, as it runs: on input that comes in pieces. */
module XzDecIndex {
  import opened Words
  import opened XzBuffer
  import opened Gf2
  import opened Crc
  import opened XzCrc32
  import opened XzVli
  import opened XzIndex

  datatype Sequence = SeqIndex | SeqIndexPadding | SeqIndexCrc32 | SeqStreamFooter
  datatype IndexSequence = IndexCount | IndexUnpadded | IndexUncompressed

  lemma {:induction false} Pow2Sevens(k: nat)
    ensures Pow2(7 * k) == Pow128(k)
  {
    if k > 0 {
      Pow2Sevens(k - 1);
      assert Pow2(7 * k) == 16 * Pow2(7 * k - 4) by { assert Pow2(7 * k - 2) == 4 * Pow2(7 * k - 4); }
      assert Pow2(7 * k - 4) == 8 * Pow2(7 * k - 7) by { assert Pow2(7 * k - 5) == 4 * Pow2(7 * k - 7); }
      assert 7 * k - 7 == 7 * (k - 1);
    }
  }

  /** Bytes that cannot begin an integer: a last byte of zero, or one byte too many. */
  predicate Misformed(b: seq<Byte>) {
    && 1 <= |b| <= VLI_BYTES_MAX && Open(b[..|b| - 1])
    && if b[|b| - 1] < 128 then b[|b| - 1] == 0 && |b| > 1 else |b| == VLI_BYTES_MAX
  }

  /** The integers that can be told: nothing misformed begins an encoding of nine bytes. */
  lemma MisformedIsNone(b: seq<Byte>, x: nat)
    requires Misformed(b) && x < VLI_LIMIT
    ensures !(b <= Vli(x))
  {
    hide Vli, Value;
    VliMinimal(x);
    Pow128Nine();
    VliSize(x, VLI_BYTES_MAX);
  }

  class XzDecIndexPart {
    const table: array<nat>
    const blockCount: nat
    const blockHash: Hash
    var sequence: Sequence
    var pos: nat
    var vli: nat
    var inStart: nat
    var crc32: nat
    var indexSequence: IndexSequence
    var indexSize: nat
    var indexCount: nat
    var hash: Hash
    /** All bytes of the Index that have been taken, and what they amount to. */
    ghost var seen: seq<Byte>
    ghost var phase: Phase

    /** The state after the Index Indicator, for blocks of which so many have been decoded. */
    constructor (table: array<nat>, blockCount: nat, blockHash: Hash, b: XzBuf)
      requires table.Length == 256 && TableFor(Lsb, 32, POLY, table[..]) && b.inPos < |b.input| && b.input[b.inPos] == 0
      modifies b
      ensures this.table == table && this.blockCount == blockCount && this.blockHash == blockHash
      ensures b.inPos == old(b.inPos) + 1 && b.input == old(b.input) && seen == [0] && phase == START && Holds(b)
    {
      this.table, this.blockCount, this.blockHash := table, blockCount, blockHash;
      sequence, pos, vli, crc32, indexSequence, indexSize, indexCount, hash := SeqIndex, 0, 0, 0, IndexCount, 0, 0, Hash(0, 0, 0);
      inStart := b.inPos;
      seen, phase := [0], START;
      new;
      b.inPos := b.inPos + 1;
      Crc32Nothing();
      assert b.input[inStart..b.inPos] == [0];
    }

    lemma Crc32Nothing()
      ensures Crc32(0, []) == 0
    {
    }

    // ---- The invariant --------------------------------------------------------------

    /** The part of an integer that has been taken. */
    ghost predicate VliState(part: seq<Byte>)
      reads `pos, `vli
    {
      Open(part) && |part| < VLI_BYTES_MAX && pos == 7 * |part| && (part != [] ==> vli == Value(part))
    }

    /** Which field comes after so many. */
    function Which(n: nat): IndexSequence {
      if n % 2 == 0 then IndexUnpadded else IndexUncompressed
    }

    /** What the counters say of the fields that have been taken. */
    ghost predicate Counts(counted: bool, fields: seq<nat>)
      reads `indexSequence, `indexCount, `hash
    {
      && hash == HashOf(fields)
      && if !counted then indexSequence == IndexCount && fields == []
         else indexCount == blockCount - |fields| / 2 > 0 && indexSequence == Which(|fields|)
    }

    /** Size and checksum cover what was taken up to the last update, and the input since. */
    ghost predicate Covered(b: XzBuf)
      reads `crc32, `indexSize, `inStart, `seen, b
    {
      && inStart <= b.inPos <= |b.input| && crc32 < UINT32 && indexSize <= |seen|
      && crc32 == Crc32(0, seen[..indexSize]) && seen[indexSize..] == b.input[inStart..b.inPos]
    }

    ghost predicate Checking(k: nat)
      reads `crc32, `pos, `seen
    {
      k < 4 && k <= |seen| && crc32 == Crc32(0, seen[..|seen| - k]) && pos == 8 * k
    }

    /** The state is what the phase says. */
    ghost predicate Stands(b: XzBuf)
      reads this, b
    {
      match phase
      case Field(counted, fields, part) => sequence == SeqIndex && Counts(counted, fields) && VliState(part) && Covered(b)
      case Padding(fields) => sequence == SeqIndexPadding && hash == HashOf(fields) && pos == 0 && Covered(b) && |seen| % 4 != 0
      case Check(fields, k) => sequence == SeqIndexCrc32 && Checking(k)
      case _ => false
    }

    ghost predicate Holds(b: XzBuf)
      reads this, b, table
    {
      table.Length == 256 && TableFor(Lsb, 32, POLY, table[..]) && b.inPos <= |b.input| && Stands(b)
    }

    // ---- dec_vli --------------------------------------------------------------------

    /** dec_vli.  The byte's bits lie above those of the value so far; putting them in is adding. */
    method DecVli(b: XzBuf, ghost part: seq<Byte>) returns (ret: Ret)
      requires VliState(part) && b.inPos <= |b.input|
      modifies `pos, `vli, b`inPos
      ensures old(b.inPos) <= b.inPos <= |b.input| && (ret != XzOk ==> old(b.inPos) < b.inPos)
      ensures var all := part + b.input[old(b.inPos)..b.inPos];
        && (ret == XzOk ==> VliState(all) && b.inPos == |b.input|)
        && (ret == XzStreamEnd ==> Minimal(all) && |all| <= VLI_BYTES_MAX && vli == Value(all) && pos == 0)
        && (ret == XzDataError ==> Misformed(all))
    {
      hide Value;
      if pos == 0 {
        vli := 0;
      }
      ghost var i0 := b.inPos;
      ghost var all := part;
      assert b.input[i0..i0] == [];
      ValueNothing();
      while b.inPos < |b.input|
        invariant i0 <= b.inPos <= |b.input| && all == part + b.input[i0..b.inPos]
        invariant Open(all) && |all| < VLI_BYTES_MAX && pos == 7 * |all| && vli == Value(all)
      {
        var byte := b.input[b.inPos];
        b.inPos := b.inPos + 1;
        ValueNext(all, byte);
        Pow2Sevens(|all|);
        vli := vli + Pow2(pos) * (byte % 128);
        assert part + b.input[i0..b.inPos] == all + [byte];
        all := all + [byte];
        if byte < 128 {
          if byte == 0 && pos != 0 {
            return XzDataError;
          }
          pos := 0;
          return XzStreamEnd;
        }
        pos := pos + 7;
        if pos == 7 * VLI_BYTES_MAX {
          return XzDataError;
        }
      }
      ret := XzOk;
    }

    lemma ValueNothing()
      ensures Value([]) == 0
    {
    }

    // ---- The rest -------------------------------------------------------------------

    /** What was taken is added to what has been seen. */
    ghost method Saw(more: seq<Byte>)
      modifies `seen, `phase
      ensures seen == old(seen) + more && phase == After(old(phase), old(seen), more, blockCount, blockHash)
    {
      phase := After(phase, seen, more, blockCount, blockHash);
      seen := seen + more;
    }

    /** index_update */
    method IndexUpdate(b: XzBuf)
      requires Covered(b) && table.Length == 256 && TableFor(Lsb, 32, POLY, table[..])
      modifies `crc32, `indexSize, `inStart
      ensures Covered(b) && indexSize == |seen| && inStart == b.inPos && crc32 == Crc32(0, seen)
    {
      hide Crc32, TableFor, Feed;
      var used := b.input[inStart..b.inPos];
      Crc32OfJoin(0, seen[..indexSize], used);
      TwoParts(seen, indexSize, used);
      indexSize := indexSize + |used|;
      crc32 := XzCrc32.XzCrc32(table, used, crc32);
      // the source sets in_start anew when it is called again
      inStart := b.inPos;
      assert seen[indexSize..] == [] == b.input[inStart..b.inPos];
    }

    lemma TwoParts(seen: seq<Byte>, n: nat, used: seq<Byte>)
      requires n <= |seen| && seen[n..] == used
      ensures seen[..n] + used == seen && n + |used| == |seen| && seen[..|seen|] == seen
    {
    }

    /** A field that is finished goes into the counters. */
    method TakeField(ghost counted: bool, ghost fields: seq<nat>) returns (ok: bool)
      requires Counts(counted, fields) && (counted ==> |fields| < 2 * blockCount)
      requires table.Length == 256 && TableFor(Lsb, 32, POLY, table[..])
      modifies `indexSequence, `indexCount, `hash
      ensures ok <==> counted || vli == blockCount
      ensures ok ==> hash == HashOf(if counted then fields + [vli] else [])
      ensures ok ==> indexCount == blockCount - (if counted then |fields| + 1 else 0) / 2
      ensures ok ==> indexSequence == Which(if counted then |fields| + 1 else 0)
    {
      hide HashOf, Hashed, Crc32, TableFor, HashBytes, Which;
      ok := true;
      Halves(|fields|);
      if indexSequence == IndexCount {
        HashNothing();
        indexCount := vli;
        if indexCount != blockCount {
          return false;
        }
        indexSequence := IndexUnpadded;
      } else if indexSequence == IndexUnpadded {
        HashNext(fields, vli);
        UnpaddedHash(hash, vli);
        hash := hash.(unpadded := (hash.unpadded + vli) % UINT64);
        indexSequence := IndexUncompressed;
      } else {
        HashNext(fields, vli);
        UncompressedHash(hash, vli);
        hash := hash.(uncompressed := (hash.uncompressed + vli) % UINT64);
        var crc := XzCrc32.XzCrc32(table, HashBytes(hash), hash.crc32);
        hash := hash.(crc32 := crc);
        indexCount := indexCount - 1;
        indexSequence := IndexUnpadded;
      }
    }

    lemma HashNothing()
      ensures HashOf([]) == Hash(0, 0, 0)
    {
    }

    lemma Halves(n: nat)
      ensures Which(0) == IndexUnpadded && Which(n) != IndexCount && (Which(n) == IndexUnpadded <==> n % 2 == 0)
      ensures if Which(n) == IndexUnpadded then (n + 1) / 2 == n / 2 && Which(n + 1) == IndexUncompressed
        else (n + 1) / 2 == n / 2 + 1 && Which(n + 1) == IndexUnpadded
    {
    }

    lemma UnpaddedHash(h: Hash, v: nat)
      ensures Hashed(h, true, v) == h.(unpadded := (h.unpadded + v) % UINT64)
    {
    }

    lemma UncompressedHash(h: Hash, v: nat)
      ensures var g := h.(uncompressed := (h.uncompressed + v) % UINT64); Hashed(h, false, v) == g.(crc32 := Crc32(g.crc32, HashBytes(g)))
    {
    }

    /** What the bytes that dec_vli took do to the phase. */
    lemma VliPhase(counted: bool, fields: seq<nat>, part: seq<Byte>, more: seq<Byte>)
      requires Open(part) && |part| < VLI_BYTES_MAX
      ensures var all := part + more;
        var p := After(Field(counted, fields, part), seen, more, blockCount, blockHash);
        && (Open(all) && |all| < VLI_BYTES_MAX ==> p == Field(counted, fields, all))
        && (more != [] && Minimal(all) && |all| <= VLI_BYTES_MAX ==>
              p == FieldDone(counted, fields, Value(all), seen + more, blockCount, blockHash))
        && (more != [] && Misformed(all) ==> p == Rejected)
    {
      hide After, FieldDone, Value;
      var all := part + more;
      if Open(all) && |all| < VLI_BYTES_MAX {
        assert forall i | 0 <= i < |more| :: more[i] == all[|part| + i];
        ReadOpen(counted, fields, part, more, seen, blockCount, blockHash);
      }
      if more != [] && (Minimal(all) || Misformed(all)) && |all| <= VLI_BYTES_MAX {
        ReadLast(counted, fields, part, more, seen, blockCount, blockHash);
        LastStep(counted, fields, all, seen + more[..|more| - 1]);
        assert (seen + more[..|more| - 1]) + [all[|all| - 1]] == seen + more;
      }
    }

    lemma LastStep(counted: bool, fields: seq<nat>, all: seq<Byte>, before: seq<Byte>)
      requires (Minimal(all) || Misformed(all)) && |all| <= VLI_BYTES_MAX
      ensures var p := FieldStep(counted, fields, all[..|all| - 1], before, all[|all| - 1], blockCount, blockHash);
        if Minimal(all) then p == FieldDone(counted, fields, Value(all), before + [all[|all| - 1]], blockCount, blockHash) else p == Rejected
    {
      hide FieldDone, Value;
      assert all == all[..|all| - 1] + [all[|all| - 1]];
    }

    /** One turn of dec_index: an integer, or what there is of it, goes into the counters. */
    method DecOneField(b: XzBuf, ghost counted: bool, ghost fields: seq<nat>, ghost part: seq<Byte>) returns (ret: Ret, more: bool, ghost next: seq<nat>)
      requires Holds(b) && phase == Field(counted, fields, part)
      modifies this, b`inPos
      ensures old(b.inPos) <= b.inPos <= |b.input| && sequence == SeqIndex
      ensures seen == old(seen) + b.input[old(b.inPos)..b.inPos]
      ensures phase == After(old(phase), old(seen), b.input[old(b.inPos)..b.inPos], blockCount, blockHash)
      ensures more ==> phase == Field(true, next, []) && Holds(b) && old(b.inPos) < b.inPos
      ensures !more && ret == XzOk ==> phase.Field? && Holds(b) && b.inPos == |b.input| && indexSize == |seen|
      ensures !more && ret == XzStreamEnd ==> phase == Settle(next, seen, blockHash) && hash == HashOf(next) && pos == 0 && Covered(b)
      ensures !more && ret == XzDataError ==> phase == Rejected
    {
      hide After, Settle, HashOf, TableFor, Vli, Value, Crc32, FieldDone, Minimal, Misformed;
      ghost var i1, seen1 := b.inPos, seen;
      next, more := fields, false;
      ret := DecVli(b, part);
      ghost var bytes := b.input[i1..b.inPos];
      VliPhase(counted, fields, part, bytes);
      Saw(bytes);
      CoveredOn(b, i1, seen1);
      if ret != XzStreamEnd {
        IndexUpdate(b);
        return;
      }
      var ok := TakeField(counted, fields);
      DoneIs(counted, fields, seen);
      if !ok {
        ret := XzDataError;
        return;
      }
      next := if counted then fields + [vli] else [];
      more := indexCount > 0;
    }

    /** dec_index */
    method DecIndex(b: XzBuf) returns (ret: Ret, ghost fields: seq<nat>)
      requires Holds(b) && phase.Field?
      modifies this, b`inPos
      ensures old(b.inPos) <= b.inPos <= |b.input| && sequence == SeqIndex
      ensures seen == old(seen) + b.input[old(b.inPos)..b.inPos]
      ensures phase == After(old(phase), old(seen), b.input[old(b.inPos)..b.inPos], blockCount, blockHash)
      ensures ret == XzOk ==> phase.Field? && Holds(b) && b.inPos == |b.input| && indexSize == |seen|
      ensures ret == XzStreamEnd ==> phase == Settle(fields, seen, blockHash) && hash == HashOf(fields) && pos == 0 && Covered(b)
      ensures ret == XzDataError ==> phase == Rejected
    {
      hide After, Settle, HashOf, TableFor, Holds, Covered;
      ghost var i0, seen0, phase0 := b.inPos, seen, phase;
      HoldsBounds(b);
      assert b.input[i0..i0] == [];
      AfterNothing(phase, seen);
      var more := true;
      fields := [];
      ret := XzOk;
      while more
        invariant i0 <= b.inPos <= |b.input| && (more ==> Holds(b) && phase.Field?) && sequence == SeqIndex
        invariant seen == seen0 + b.input[i0..b.inPos]
        invariant phase == After(phase0, seen0, b.input[i0..b.inPos], blockCount, blockHash)
        invariant !more && ret == XzOk ==> phase.Field? && Holds(b) && b.inPos == |b.input| && indexSize == |seen|
        invariant !more && ret == XzStreamEnd ==> phase == Settle(fields, seen, blockHash) && hash == HashOf(fields) && pos == 0 && Covered(b)
        invariant !more && ret == XzDataError ==> phase == Rejected
        decreases more, |b.input| - b.inPos
      {
        ghost var i1 := b.inPos;
        ret, more, fields := DecOneField(b, phase.counted, phase.fields, phase.part);
        Further(b.input, i0, i1, b.inPos, seen0, phase0);
      }
    }

    lemma HoldsBounds(b: XzBuf)
      requires Holds(b) && phase.Field?
      ensures b.inPos <= |b.input| && sequence == SeqIndex
    {
    }

    lemma AfterNothing(p: Phase, s: seq<Byte>)
      ensures After(p, s, [], blockCount, blockHash) == p && s + [] == s
    {
    }

    lemma Further(input: seq<Byte>, i0: nat, i1: nat, i2: nat, seen0: seq<Byte>, phase0: Phase)
      requires i0 <= i1 <= i2 <= |input|
      ensures input[i0..i1] + input[i1..i2] == input[i0..i2]
      ensures After(phase0, seen0, input[i0..i2], blockCount, blockHash)
        == After(After(phase0, seen0, input[i0..i1], blockCount, blockHash), seen0 + input[i0..i1], input[i1..i2], blockCount, blockHash)
      ensures (seen0 + input[i0..i1]) + input[i1..i2] == seen0 + input[i0..i2]
    {
      hide After;
      assert input[i0..i1] + input[i1..i2] == input[i0..i2];
      AfterJoin(phase0, seen0, input[i0..i1], input[i1..i2], blockCount, blockHash);
    }

    /** What has been taken since stays covered by the input. */
    lemma CoveredOn(b: XzBuf, i1: nat, seen1: seq<Byte>)
      requires inStart <= i1 <= b.inPos <= |b.input| && crc32 < UINT32 && indexSize <= |seen1|
      requires crc32 == Crc32(0, seen1[..indexSize]) && seen1[indexSize..] == b.input[inStart..i1]
      requires seen == seen1 + b.input[i1..b.inPos]
      ensures Covered(b)
    {
      hide Crc32;
      assert seen[..indexSize] == seen1[..indexSize];
      assert seen[indexSize..] == seen1[indexSize..] + b.input[i1..b.inPos];
      assert b.input[inStart..b.inPos] == b.input[inStart..i1] + b.input[i1..b.inPos];
    }

    /** What a finished integer leads to, in terms of the counters. */
    lemma DoneIs(counted: bool, fields: seq<nat>, s: seq<Byte>)
      requires counted ==> |fields| / 2 < blockCount
      ensures var p := FieldDone(counted, fields, vli, s, blockCount, blockHash);
        var next := if counted then fields + [vli] else [];
        if !counted && vli != blockCount then p == Rejected
        else if blockCount - |next| / 2 == 0 then p == Settle(next, s, blockHash)
        else p == Field(true, next, [])
    {
      hide Settle;
    }

    /** Index Padding, and the comparison of the hashes. */
    method DecPadding(b: XzBuf, ghost fields: seq<nat>) returns (ret: Ret)
      requires table.Length == 256 && TableFor(Lsb, 32, POLY, table[..]) && Covered(b)
      requires sequence == SeqIndexPadding && phase == Settle(fields, seen, blockHash) && hash == HashOf(fields) && pos == 0
      modifies this, b`inPos
      ensures old(b.inPos) <= b.inPos <= |b.input|
      ensures seen == old(seen) + b.input[old(b.inPos)..b.inPos]
      ensures phase == After(old(phase), old(seen), b.input[old(b.inPos)..b.inPos], blockCount, blockHash)
      ensures ret == XzOk ==> phase.Padding? && Holds(b) && b.inPos == |b.input| && indexSize == |seen|
      ensures ret == XzStreamEnd ==> phase == Check(fields, 0) && Holds(b)
      ensures ret == XzDataError ==> phase == Rejected
    {
      hide After, HashOf, TableFor, Crc32, Covered;
      ghost var i0, seen0, phase0 := b.inPos, seen, phase;
      CoveredSize(b);
      assert b.input[i0..i0] == [];
      AfterNothing(phase, seen);
      while (indexSize + (b.inPos - inStart)) % 4 != 0
        invariant i0 <= b.inPos <= |b.input| && Covered(b) && indexSize + (b.inPos - inStart) == |seen| && inStart <= b.inPos
        invariant sequence == SeqIndexPadding && phase == Settle(fields, seen, blockHash) && hash == HashOf(fields) && pos == 0
        invariant seen == seen0 + b.input[i0..b.inPos]
        invariant phase == After(phase0, seen0, b.input[i0..b.inPos], blockCount, blockHash)
        decreases |b.input| - b.inPos
      {
        if b.inPos == |b.input| {
          IndexUpdate(b);
          return XzOk;
        }
        ret := TakePadding(b, fields);
        Further(b.input, i0, b.inPos - 1, b.inPos, seen0, phase0);
        if ret == XzDataError {
          return;
        }
      }
      IndexUpdate(b);
      if blockHash != hash {
        return XzDataError;
      }
      sequence := SeqIndexCrc32;
      assert seen[..|seen|] == seen;
      ret := XzStreamEnd;
    }

    /** One byte of Index Padding. */
    method TakePadding(b: XzBuf, ghost fields: seq<nat>) returns (ret: Ret)
      requires Covered(b) && b.inPos < |b.input| && phase == Padding(fields)
      modifies `seen, `phase, b`inPos
      ensures b.inPos == old(b.inPos) + 1 && Covered(b) && seen == old(seen) + b.input[old(b.inPos)..b.inPos]
      ensures phase == After(old(phase), old(seen), b.input[old(b.inPos)..b.inPos], blockCount, blockHash)
      ensures ret == if b.input[old(b.inPos)] != 0 then XzDataError else XzOk
      ensures phase == if ret == XzDataError then Rejected else Settle(fields, seen, blockHash)
      ensures indexSize + (b.inPos - inStart) == |seen|
    {
      hide After, HashOf, Crc32, Settle;
      ghost var i1, seen1 := b.inPos, seen;
      var x := b.input[b.inPos];
      b.inPos := b.inPos + 1;
      assert b.input[i1..b.inPos] == [x];
      AfterOne(phase, seen, x, blockCount, blockHash);
      Saw([x]);
      CoveredOn(b, i1, seen1);
      CoveredSize(b);
      ret := if x != 0 then XzDataError else XzOk;
    }

    lemma CoveredSize(b: XzBuf)
      requires Covered(b)
      ensures inStart <= b.inPos <= |b.input| && indexSize + (b.inPos - inStart) == |seen|
    {
    }

    lemma {:induction false} LittleAt(n: nat, x: nat, k: nat)
      requires k < n
      ensures LittleBytes(n, x)[k] == x / Pow256(k) % 256
    {
      if k > 0 {
        LittleAt(n - 1, x / 256, k - 1);
        DivideTwice(x, Pow256(k - 1));
      } else {
        assert x / Pow256(0) == x;
      }
    }

    lemma {:induction false} Pow2Bytes(k: nat)
      ensures Pow2(8 * k) == Pow256(k)
    {
      if k > 0 {
        Pow2Bytes(k - 1);
        assert Pow2(8 * k) == 16 * Pow2(8 * k - 4) by { assert Pow2(8 * k - 2) == 4 * Pow2(8 * k - 4); }
        assert Pow2(8 * k - 4) == 16 * Pow2(8 * k - 8) by { assert Pow2(8 * k - 6) == 4 * Pow2(8 * k - 8); }
        assert 8 * k - 8 == 8 * (k - 1);
      }
    }

    /** One byte of the CRC32 field. */
    method TakeCheck(b: XzBuf, ghost fields: seq<nat>, ghost k: nat) returns (ret: Ret)
      requires b.inPos < |b.input| && phase == Check(fields, k) && Checking(k)
      modifies `seen, `phase, `pos, b`inPos
      ensures b.inPos == old(b.inPos) + 1 && seen == old(seen) + b.input[old(b.inPos)..b.inPos]
      ensures phase == After(old(phase), old(seen), b.input[old(b.inPos)..b.inPos], blockCount, blockHash)
      ensures ret == XzDataError ==> phase == Rejected
      ensures ret != XzDataError ==> ret == XzOk && pos == 8 * (k + 1)
      ensures ret != XzDataError ==> if k == 3 then phase == Accepted(fields) else phase == Check(fields, k + 1) && Checking(k + 1)
    {
      hide After, Crc32, LittleBytes;
      ghost var i1 := b.inPos;
      var x := b.input[b.inPos];
      b.inPos := b.inPos + 1;
      assert b.input[i1..b.inPos] == [x];
      AfterOne(phase, seen, x, blockCount, blockHash);
      LittleAt(4, crc32, k);
      Pow2Bytes(k);
      assert (seen + [x])[..|seen + [x]| - (k + 1)] == seen[..|seen| - k];
      Saw([x]);
      if crc32 / Pow2(pos) % 256 != x {
        return XzDataError;
      }
      pos := pos + 8;
      ret := XzOk;
    }

    /** crc32_validate */
    method Crc32Validate(b: XzBuf) returns (ret: Ret)
      requires phase.Check? && Holds(b)
      modifies `seen, `phase, `pos, `crc32, b`inPos
      ensures old(b.inPos) <= b.inPos <= |b.input|
      ensures seen == old(seen) + b.input[old(b.inPos)..b.inPos]
      ensures phase == After(old(phase), old(seen), b.input[old(b.inPos)..b.inPos], blockCount, blockHash)
      ensures ret == XzOk ==> phase.Check? && Holds(b) && b.inPos == |b.input|
      ensures ret == XzStreamEnd ==> phase.Accepted? && crc32 == 0 && pos == 0
      ensures ret == XzDataError ==> phase == Rejected
    {
      hide After, TableFor, Checking, Settle, Next;
      ghost var i0, seen0, phase0, fields := b.inPos, seen, phase, phase.fields;
      ghost var k := phase.k;
      CheckingSays(k);
      assert b.input[i0..i0] == [];
      AfterNothing(phase, seen);
      while true
        invariant i0 <= b.inPos <= |b.input| && k < 4 && phase == Check(fields, k) && Checking(k) && pos == 8 * k
        invariant seen == seen0 + b.input[i0..b.inPos]
        invariant phase == After(phase0, seen0, b.input[i0..b.inPos], blockCount, blockHash)
        decreases 4 - k
      {
        if b.inPos == |b.input| {
          return XzOk;
        }
        ret := TakeCheck(b, fields, k);
        Further(b.input, i0, b.inPos - 1, b.inPos, seen0, phase0);
        if ret == XzDataError {
          return;
        }
        k := k + 1;
        if pos >= 32 {
          break;
        }
      }
      crc32, pos := 0, 0;
      ret := XzStreamEnd;
    }

    lemma CheckingSays(k: nat)
      requires Checking(k)
      ensures k < 4 && pos == 8 * k
    {
    }

    // ---- Calls ----------------------------------------------------------------------

    /** Between calls: size and checksum cover all that was taken. */
    ghost predicate Resting()
      reads this, table
    {
      && table.Length == 256 && TableFor(Lsb, 32, POLY, table[..])
      && match phase
         case Field(counted, fields, part) => sequence == SeqIndex && Counts(counted, fields) && VliState(part) && UpToDate()
         case Padding(fields) => sequence == SeqIndexPadding && hash == HashOf(fields) && pos == 0 && |seen| % 4 != 0 && UpToDate()
         case Check(fields, k) => sequence == SeqIndexCrc32 && Checking(k)
         case _ => false
    }

    ghost predicate UpToDate()
      reads `crc32, `indexSize, `seen
    {
      indexSize == |seen| && crc32 < UINT32 && crc32 == Crc32(0, seen)
    }

    lemma Rests(b: XzBuf)
      requires Holds(b) && (phase.Check? || indexSize == |seen|)
      ensures Resting()
    {
      hide Crc32, TableFor, Counts, VliState, HashOf;
      assert seen[..|seen|] == seen;
    }

    lemma Wakes(b: XzBuf)
      requires Resting() && b.inPos <= |b.input| && inStart == b.inPos
      ensures Holds(b)
    {
      hide Crc32, TableFor, Counts, VliState, HashOf;
      assert seen[..|seen|] == seen && seen[|seen|..] == [] == b.input[inStart..b.inPos];
    }

    /** dec_main, from the Index on. */
    method Continue(b: XzBuf) returns (ret: Ret)
      requires Holds(b)
      modifies this, b`inPos
      ensures old(b.inPos) <= b.inPos <= |b.input|
      ensures seen == old(seen) + b.input[old(b.inPos)..b.inPos]
      ensures phase == After(old(phase), old(seen), b.input[old(b.inPos)..b.inPos], blockCount, blockHash)
      ensures ret == XzOk ==> Resting() && b.inPos == |b.input|
      ensures ret == XzStreamEnd ==> phase.Accepted? && sequence == SeqStreamFooter
      ensures ret == XzDataError ==> phase == Rejected
    {
      hide After, TableFor, HashOf, Settle, Crc32;
      ghost var i0, seen0, phase0 := b.inPos, seen, phase;
      ghost var fields := if phase.Field? then [] else phase.fields;
      assert b.input[i0..i0] == [];
      AfterNothing(phase, seen);
      if sequence == SeqIndex {
        ret, fields := DecIndex(b);
        if ret == XzOk {
          Rests(b);
        }
        if ret != XzStreamEnd {
          return;
        }
        sequence := SeqIndexPadding;
      } else if sequence == SeqIndexPadding {
        SettlesAgain(phase.fields);
      }
      if sequence == SeqIndexPadding {
        ghost var i1 := b.inPos;
        ret := DecPadding(b, fields);
        Further(b.input, i0, i1, b.inPos, seen0, phase0);
        if ret == XzOk {
          Rests(b);
        }
        if ret != XzStreamEnd {
          return;
        }
      }
      ghost var i2 := b.inPos;
      ret := Crc32Validate(b);
      Further(b.input, i0, i2, b.inPos, seen0, phase0);
      if ret == XzOk {
        Rests(b);
      }
      if ret != XzStreamEnd {
        return;
      }
      sequence := SeqStreamFooter;
    }

    lemma SettlesAgain(fields: seq<nat>)
      requires phase == Padding(fields) && |seen| % 4 != 0
      ensures phase == Settle(fields, seen, blockHash)
    {
    }

    /** A later call of dec_main. */
    method Call(b: XzBuf) returns (ret: Ret)
      requires Resting() && b.inPos <= |b.input|
      modifies this, b`inPos
      ensures old(b.inPos) <= b.inPos <= |b.input|
      ensures seen == old(seen) + b.input[old(b.inPos)..b.inPos]
      ensures phase == After(old(phase), old(seen), b.input[old(b.inPos)..b.inPos], blockCount, blockHash)
      ensures ret == XzOk ==> Resting() && b.inPos == |b.input|
      ensures ret == XzStreamEnd ==> phase.Accepted? && sequence == SeqStreamFooter
      ensures ret == XzDataError ==> phase == Rejected
    {
      hide Holds, After, Crc32, TableFor, Counts, VliState, HashOf, Checking;
      inStart := b.inPos;
      Wakes(b);
      ret := Continue(b);
    }
  }

  // ---- Input in pieces ------------------------------------------------------------------

  function Whole(chunks: seq<seq<Byte>>): seq<Byte> {
    if chunks == [] then [] else chunks[0] + Whole(chunks[1..])
  }

  /** What a phase makes the decoder return. */
  function Verdict(p: Phase): Ret {
    if p.Accepted? then XzStreamEnd else if p.Rejected? then XzDataError else XzOk
  }

  /** The Index may come in pieces of any sizes, also empty ones: what is returned in the end
      depends on the bytes alone. */
  method RunIndex(d: XzDecIndexPart, chunks: seq<seq<Byte>>) returns (ret: Ret)
    requires d.Resting()
    modifies d
    ensures ret == Verdict(After(old(d.phase), old(d.seen), Whole(chunks), d.blockCount, d.blockHash))
    ensures ret == XzOk ==> d.Resting()
  {
    hide d.Resting, After;
    ghost var p0, s0 := d.phase, d.seen;
    d.AfterNothing(p0, s0);
    Goes(d);
    ret := XzOk;
    var none := new Byte[0];
    for i := 0 to |chunks|
      invariant d.Resting() && ret == XzOk
      invariant After(p0, s0, Whole(chunks), d.blockCount, d.blockHash) == After(d.phase, d.seen, Whole(chunks[i..]), d.blockCount, d.blockHash)
    {
      ghost var p, s := d.phase, d.seen;
      assert chunks[i..][1..] == chunks[i + 1..];
      var b := new XzBuf(chunks[i], none);
      ret := d.Call(b);
      ghost var bytes := b.input[0..b.inPos];
      var rest := chunks[i][b.inPos..];
      assert Whole(chunks[i..]) == bytes + (rest + Whole(chunks[i + 1..]));
      AfterJoin(p, s, bytes, rest + Whole(chunks[i + 1..]), d.blockCount, d.blockHash);
      if ret != XzOk {
        VerdictStays(d.phase, d.seen, rest + Whole(chunks[i + 1..]), d.blockCount, d.blockHash);
        return;
      }
      assert rest == [] && rest + Whole(chunks[i + 1..]) == Whole(chunks[i + 1..]);
    }
    assert chunks[|chunks|..] == [];
    d.AfterNothing(d.phase, d.seen);
    Goes(d);
  }

  lemma Goes(d: XzDecIndexPart)
    requires d.Resting()
    ensures Verdict(d.phase) == XzOk
  {
  }

  /** The decoder ends well exactly when what came begins with an Index, and one that matches
      the blocks that were decoded. */
  lemma EndsWell(chunks: seq<seq<Byte>>, count: nat, hash: Hash)
    ensures Verdict(After(START, [0], Whole(chunks), count, hash)) == XzStreamEnd <==>
      exists fields :: Matches(count, fields, hash) && IndexBytes(count, fields) <= [0] + Whole(chunks)
  {
    hide After, IndexBytes, Matches;
    var s := Whole(chunks);
    var p := After(START, [0], s, count, hash);
    if p.Accepted? {
      StartTells(count, hash);
      var n := AcceptedIndex(START, [0], s, count, hash);
      assert [0] + s[..n] <= [0] + s;
    }
    if fields :| Matches(count, fields, hash) && IndexBytes(count, fields) <= [0] + s {
      var e := IndexBytes(count, fields);
      BeginsZero(count, fields);
      var more := ([0] + s)[|e|..];
      assert [0] + s == e + more;
      assert s == ([0] + s)[1..] == e[1..] + more;
      IndexAccepted(count, fields, hash, more);
    }
  }

  lemma StartTells(count: nat, hash: Hash)
    ensures Tells(START, [0], count, hash)
  {
    assert [0] + [] == [0];
  }

  lemma BeginsZero(count: nat, fields: seq<nat>)
    ensures IndexBytes(count, fields) != [] && IndexBytes(count, fields)[0] == 0
  {
    hide Fields, LittleBytes, Crc32;
    BodyTail(count, fields);
  }
}
