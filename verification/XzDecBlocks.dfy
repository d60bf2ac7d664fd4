/** What xz_dec_stream.c keeps of the blocks it decodes, and the Index that has to match it. */
module XzDecBlocks {
  import opened Words
  import opened XzBuffer
  import opened Gf2
  import opened Crc
  import opened XzCrc32
  import opened XzVli
  import opened XzIndex
  import opened XzDecIndex

  /** A size that the Block Header does not tell. */
  const VLI_UNKNOWN: nat := 0xFFFF_FFFF_FFFF_FFFF

  /** What a Block Header may say of a size that has been observed so far, or in the end. */
  predicate Admits(declared: nat, observed: nat, end: bool) {
    declared == VLI_UNKNOWN || (if end then observed == declared else observed <= declared)
  }

  class XzDecBlockPart {
    const table: array<nat>
    /** check_type is XZ_CHECK_CRC32; else it is XZ_CHECK_NONE. */
    const checked: bool
    var headerSize: nat
    var headerCompressed: nat
    var headerUncompressed: nat
    var compressed: nat
    var uncompressed: nat
    var crc32: nat
    var count: nat
    var hash: Hash
    /** The unpadded and the uncompressed size of each block that has been decoded. */
    ghost var sizes: seq<nat>

    /** xz_dec_reset */
    constructor (table: array<nat>, checked: bool)
      requires table.Length == 256 && TableFor(Lsb, 32, POLY, table[..])
      ensures this.table == table && this.checked == checked && Valid() && sizes == [] && crc32 == 0
    {
      this.table, this.checked := table, checked;
      headerSize, headerCompressed, headerUncompressed, compressed, uncompressed := 0, 0, 0, 0, 0;
      crc32, count, hash := 0, 0, Hash(0, 0, 0);
      sizes := [];
    }

    ghost predicate Valid()
      reads this, table
    {
      && table.Length == 256 && TableFor(Lsb, 32, POLY, table[..]) && crc32 < UINT32
      && |sizes| == 2 * count && hash == HashOf(sizes)
    }

    /** The end of dec_block_header. */
    method StartBlock(headerSize: nat, headerCompressed: nat, headerUncompressed: nat)
      requires Valid()
      modifies `headerSize, `headerCompressed, `headerUncompressed, `compressed, `uncompressed
      ensures Valid() && compressed == 0 && uncompressed == 0
      ensures this.headerSize == headerSize && this.headerCompressed == headerCompressed && this.headerUncompressed == headerUncompressed
    {
      this.headerSize, this.headerCompressed, this.headerUncompressed := headerSize, headerCompressed, headerUncompressed;
      compressed, uncompressed := 0, 0;
    }

    ghost predicate Fits(end: bool)
      reads `headerCompressed, `headerUncompressed, `compressed, `uncompressed
    {
      Admits(headerCompressed, compressed, end) && Admits(headerUncompressed, uncompressed, end)
    }

    /** dec_block, after the decoder of the compressed data has returned ret, having taken so
        many bytes and given these. */
    method DecBlock(ret: Ret, taken: nat, out: seq<Byte>) returns (r: Ret)
      requires Valid() && compressed + taken < VLI_UNKNOWN && uncompressed + |out| < VLI_UNKNOWN
      modifies `compressed, `uncompressed, `crc32, `count, `hash, `sizes
      ensures Valid() && compressed == old(compressed) + taken && uncompressed == old(uncompressed) + |out|
      ensures r == if Fits(ret == XzStreamEnd) then ret else XzDataError
      ensures crc32 == if checked && Fits(false) then Crc32(old(crc32), out) else old(crc32)
      ensures r == XzStreamEnd ==> sizes == old(sizes) + [headerSize + compressed + (if checked then 4 else 0), uncompressed]
      ensures r != XzStreamEnd ==> sizes == old(sizes)
    {
      hide Crc32, HashOf, Hashed, HashBytes, TableFor;
      compressed := compressed + taken;
      uncompressed := uncompressed + |out|;
      if compressed > headerCompressed || uncompressed > headerUncompressed {
        return XzDataError;
      }
      if checked {
        crc32 := XzCrc32.XzCrc32(table, out, crc32);
      }
      if ret == XzStreamEnd {
        if headerCompressed != VLI_UNKNOWN && headerCompressed != compressed {
          return XzDataError;
        }
        if headerUncompressed != VLI_UNKNOWN && headerUncompressed != uncompressed {
          return XzDataError;
        }
        CountBlock();
      }
      r := ret;
    }

    /** The block's unpadded size: header, compressed data, and check. */
    ghost function Unpadded(): nat
      reads `headerSize, `compressed
    {
      headerSize + compressed + if checked then 4 else 0
    }

    /** The unpadded size is added in one or two parts, modulo 2^64. */
    method AddUnpadded(sum: nat) returns (u: nat)
      ensures u == (sum + Unpadded()) % UINT64
    {
      u := (sum + headerSize + compressed) % UINT64;
      if checked {
        AddsUp(sum, headerSize + compressed);
        u := (u + 4) % UINT64;
      }
    }

    /** The sizes go into the hash. */
    method CountSizes()
      requires table.Length == 256 && TableFor(Lsb, 32, POLY, table[..])
      modifies `hash
      ensures hash == HashWith(old(hash), Unpadded(), uncompressed)
    {
      hide Crc32, HashBytes, TableFor, Unpadded;
      var u := AddUnpadded(hash.unpadded);
      var c := (hash.uncompressed + uncompressed) % UINT64;
      hash := Hash(u, c, hash.crc32);
      var crc := XzCrc32.XzCrc32(table, HashBytes(hash), hash.crc32);
      hash := Hash(u, c, crc);
    }

    /** The last part of dec_block. */
    method CountBlock()
      requires Valid()
      modifies `count, `hash, `sizes
      ensures Valid() && count == old(count) + 1
      ensures sizes == old(sizes) + [Unpadded(), uncompressed]
    {
      hide HashOf, HashWith, TableFor;
      HashTwo(sizes, Unpadded(), uncompressed);
      CountSizes();
      count := count + 1;
      sizes := sizes + [Unpadded(), uncompressed];
    }
  }

  /** A hash after both sizes of one more block. */
  function HashWith(h: Hash, unpadded: nat, uncompressed: nat): Hash {
    var g := Hash((h.unpadded + unpadded) % UINT64, (h.uncompressed + uncompressed) % UINT64, h.crc32);
    Hash(g.unpadded, g.uncompressed, Crc32(h.crc32, HashBytes(g)))
  }

  lemma AddsUp(a: nat, size: nat)
    ensures ((a + size) % UINT64 + 4) % UINT64 == (a + (size + 4)) % UINT64
  {
  }

  lemma HashTwo(sizes: seq<nat>, unpadded: nat, uncompressed: nat)
    requires |sizes| % 2 == 0
    ensures HashOf(sizes + [unpadded, uncompressed]) == HashWith(HashOf(sizes), unpadded, uncompressed)
  {
    hide HashOf, HashBytes, Crc32;
    HashNext(sizes, unpadded);
    HashNext(sizes + [unpadded], uncompressed);
    assert sizes + [unpadded, uncompressed] == sizes + [unpadded] + [uncompressed];
  }

  // ---- Whole runs -------------------------------------------------------------------------

  /** What one call of the inner decoder takes and gives. */
  datatype Call = Call(taken: nat, out: seq<Byte>)

  /** A block: what its header says, and the calls that decode it, of which the last ends it. */
  datatype Block = Block(headerSize: nat, compressed: nat, uncompressed: nat, calls: seq<Call>)

  function Taken(calls: seq<Call>): nat {
    if calls == [] then 0 else Taken(calls[..|calls| - 1]) + calls[|calls| - 1].taken
  }

  function Given(calls: seq<Call>): seq<Byte> {
    if calls == [] then [] else Given(calls[..|calls| - 1]) + calls[|calls| - 1].out
  }

  /** The sizes of a block are those its header tells, if it does. */
  predicate Keeps(b: Block) {
    Admits(b.compressed, Taken(b.calls), true) && Admits(b.uncompressed, |Given(b.calls)|, true)
  }

  function Sizes(blocks: seq<Block>, checked: bool): (sizes: seq<nat>)
    ensures |sizes| == 2 * |blocks|
  {
    if blocks == [] then []
    else
      var b := blocks[|blocks| - 1];
      Sizes(blocks[..|blocks| - 1], checked)
        + [b.headerSize + Taken(b.calls) + (if checked then 4 else 0), |Given(b.calls)|]
  }

  predicate Sane(b: Block) {
    b.calls != [] && Taken(b.calls) < VLI_UNKNOWN && |Given(b.calls)| < VLI_UNKNOWN
  }

  lemma {:induction false} CallsGrow(calls: seq<Call>, n: nat)
    requires n <= |calls|
    ensures Taken(calls[..n]) <= Taken(calls) && |Given(calls[..n])| <= |Given(calls)|
    decreases |calls| - n
  {
    if n < |calls| {
      CallsGrow(calls, n + 1);
      assert calls[..n + 1][..n] == calls[..n];
    } else {
      assert calls[..n] == calls;
    }
  }

  /** One block, call by call: it is counted exactly when it keeps to its header. */
  method RunBlock(d: XzDecBlockPart, block: Block) returns (ok: bool)
    requires d.Valid() && Sane(block)
    modifies d
    ensures d.Valid() && (ok <==> Keeps(block))
    ensures ok ==> d.sizes == old(d.sizes) + Sizes([block], d.checked)
    ensures ok && d.checked ==> d.crc32 == Crc32(old(d.crc32), Given(block.calls))
  {
    hide d.Valid, Crc32;
    var calls := block.calls;
    d.StartBlock(block.headerSize, block.compressed, block.uncompressed);
    ghost var sizes, crc := d.sizes, d.crc32;
    CrcNothing(d, crc);
    assert calls[..0] == [] && calls[..|calls|] == calls;
    for n := 0 to |calls|
      invariant d.Valid() && d.headerSize == block.headerSize && d.headerCompressed == block.compressed && d.headerUncompressed == block.uncompressed
      invariant d.compressed == Taken(calls[..n]) && d.uncompressed == |Given(calls[..n])| && crc < UINT32
      invariant n < |calls| ==> d.sizes == sizes
      invariant n == |calls| ==> Keeps(block) && d.sizes == sizes + [block.headerSize + Taken(calls) + (if d.checked then 4 else 0), |Given(calls)|]
      invariant d.checked ==> d.crc32 == Crc32(crc, Given(calls[..n]))
    {
      CallsGrow(calls, n + 1);
      assert calls[..n + 1][..n] == calls[..n];
      ghost var before := d.crc32;
      var ret := if n + 1 == |calls| then XzStreamEnd else XzOk;
      var r := d.DecBlock(ret, calls[n].taken, calls[n].out);
      if r == XzDataError {
        return false;
      }
      if d.checked { Crc32OfJoin(crc, Given(calls[..n]), calls[n].out); }
    }
    SizesOne(block, d.checked);
    ok := true;
  }

  lemma CrcNothing(d: XzDecBlockPart, crc: nat)
    requires d.Valid() && crc == d.crc32
    ensures crc < UINT32 && Crc32(crc, []) == crc
  {
  }

  lemma SizesOne(b: Block, checked: bool)
    ensures Sizes([b], checked) == [b.headerSize + Taken(b.calls) + (if checked then 4 else 0), |Given(b.calls)|]
  {
    assert [b][..0] == [];
  }

  /** The Index after so many blocks, from its Index Indicator on, in pieces of any sizes. */
  method RunOwnIndex(d: XzDecBlockPart, chunks: seq<seq<Byte>>) returns (ret: Ret)
    requires d.Valid()
    ensures ret == XzStreamEnd <==>
      exists fields :: Matches(d.count, fields, HashOf(d.sizes)) && IndexBytes(d.count, fields) <= [0] + Whole(chunks)
  {
    hide HashOf, Matches, IndexBytes, TableFor, After;
    var none := new Byte[0];
    var b := new XzBuf([0], none);
    var x := new XzDecIndexPart(d.table, d.count, d.hash, b);
    assert b.input[b.inPos..b.inPos] == [];
    x.AfterNothing(START, [0]);
    var first := x.Continue(b);
    assert b.inPos == 1 && b.input[1..1] == [] && x.phase == START;
    StartGoesOn(x);
    ret := RunIndex(x, chunks);
    EndsWell(chunks, d.count, d.hash);
  }

  /** The blocks of a stream and then its Index.  It ends well exactly when all blocks keep to
      their headers and the Index has as many records, with the same hash, as there were
      blocks. */
  method RunStream(table: array<nat>, checked: bool, blocks: seq<Block>, chunks: seq<seq<Byte>>) returns (ret: Ret)
    requires table.Length == 256 && TableFor(Lsb, 32, POLY, table[..]) && forall b | b in blocks :: Sane(b)
    ensures ret == XzStreamEnd <==> AllKeep(blocks) && IndexComes(blocks, checked, chunks)
  {
    hide HashOf, Matches, IndexBytes, TableFor, Keeps, Sane, Sizes;
    var d := new XzDecBlockPart(table, checked);
    assert blocks[..|blocks|] == blocks;
    SizesNone(checked);
    for n := 0 to |blocks|
      invariant fresh(d) && d.Valid() && d.checked == checked && d.table == table
      invariant d.sizes == Sizes(blocks[..n], checked) && AllKeep(blocks[..n])
    {
      assert blocks[n] in blocks;
      var ok := RunBlock(d, blocks[n]);
      if !ok {
        return XzDataError;
      }
      SizesNext(blocks[..n], blocks[n], checked);
      assert blocks[..n + 1] == blocks[..n] + [blocks[n]];
    }
    ret := RunOwnIndex(d, chunks);
  }

  predicate AllKeep(blocks: seq<Block>) {
    forall b | b in blocks :: Keeps(b)
  }

  ghost predicate IndexComes(blocks: seq<Block>, checked: bool, chunks: seq<seq<Byte>>) {
    exists fields :: Matches(|blocks|, fields, HashOf(Sizes(blocks, checked))) && IndexBytes(|blocks|, fields) <= [0] + Whole(chunks)
  }

  lemma SizesNone(checked: bool)
    ensures Sizes([], checked) == []
  {
  }

  lemma SizesNext(blocks: seq<Block>, b: Block, checked: bool)
    ensures Sizes(blocks + [b], checked) == Sizes(blocks, checked) + Sizes([b], checked)
  {
    assert (blocks + [b])[..|blocks|] == blocks;
    SizesOne(b, checked);
  }

  lemma StartGoesOn(x: XzDecIndexPart)
    requires x.phase == START
    ensures !x.phase.Accepted? && x.phase != Rejected
  {
  }

  // ---- What a matching Index says ------------------------------------------------------------

  /** The Index that lists the blocks matches them, if all sizes can be told. */
  lemma OwnIndexMatches(blocks: seq<Block>, checked: bool)
    requires |blocks| < VLI_LIMIT && forall v | v in Sizes(blocks, checked) :: v < VLI_LIMIT
    ensures Matches(|blocks|, Sizes(blocks, checked), HashOf(Sizes(blocks, checked)))
  {
    hide HashOf, Sizes;
    var sizes := Sizes(blocks, checked);
    assert forall i | 0 <= i < |sizes| :: sizes[i] in sizes;
  }

  /** An Index that matches has as many records as there are blocks, and the same sums of
      unpadded and of uncompressed sizes; one record has the very sizes of its block. */
  lemma MatchesSays(blocks: seq<Block>, checked: bool, fields: seq<nat>)
    requires Matches(|blocks|, fields, HashOf(Sizes(blocks, checked)))
    ensures var sizes := Sizes(blocks, checked);
      && |fields| == |sizes|
      && Total(fields, true) % UINT64 == Total(sizes, true) % UINT64 && Total(fields, false) % UINT64 == Total(sizes, false) % UINT64
      && (|blocks| == 1 && (forall v | v in sizes :: v < UINT64) ==> fields == sizes)
  {
    hide HashOf, Total;
    var sizes := Sizes(blocks, checked);
    HashTotals(fields);
    HashTotals(sizes);
    if |blocks| == 1 && forall v | v in sizes :: v < UINT64 {
      TotalOfTwo(fields);
      TotalOfTwo(sizes);
      assert sizes[0] in sizes && sizes[1] in sizes;
      SmallIsItself(sizes[0]);
      SmallIsItself(sizes[1]);
      SmallIsItself(fields[0]);
      SmallIsItself(fields[1]);
    }
  }

  lemma SmallIsItself(x: nat)
    requires x < UINT64
    ensures x % UINT64 == x
  {
  }

  lemma TotalOfTwo(fields: seq<nat>)
    requires |fields| == 2
    ensures Total(fields, true) == fields[0] && Total(fields, false) == fields[1] && fields == [fields[0], fields[1]]
  {
    assert fields[..1][..0] == [] && Total(fields[..1], true) == fields[0] && Total(fields[..1], false) == 0;
  }
}
