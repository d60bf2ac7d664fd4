/** The control layer of LZMA2: xz_dec_lzma2_run. */
module Lzma2Control {
  import opened Words
  import opened XzBuffer
  import opened RangeCoder
  import opened RangeTrace
  import opened ByteBudget
  import opened RangeDecoder
  import opened XzDictionary
  import opened LzmaFormat
  import opened LzmaDecoder
  import opened LzmaChunks
  import opened LzmaAccept
  import opened Lzma2

  datatype Sequence =
    | Control | Uncompressed1 | Uncompressed2 | Compressed0 | Compressed1
    | Properties | LzmaPrepare | LzmaRun | CopyRun

  class XzDecLzma2 {
    const input: Lzma2Input
    var sequence: Sequence
    var nextSequence: Sequence
    var uncompressed: nat
    var needDictReset: bool
    var needProps: bool
    /** All bytes taken and made since the decoder was reset, the chunks finished, the bytes
        taken and made for the present chunk, and what had been made when the dictionary was
        last reset. */
    ghost var stream: seq<Byte>
    ghost var total: seq<Byte>
    ghost var chunks: seq<Chunk>
    ghost var chunk: seq<Byte>
    ghost var part: seq<Byte>
    ghost var resetAt: nat
    ghost var probs0: seq<Prob>

    /** xz_dec_lzma2_create and xz_dec_lzma2_reset, for a dictionary of this size. */
    constructor (size: nat)
      requires size > 0 && size % 16 == 0
      ensures Valid() && stream == [] && total == [] && chunks == [] && sequence == Control
      ensures fresh(input) && fresh(input.temp) && fresh(input.lzma) && fresh(input.lzma.rc) && fresh(input.lzma.dict)
      ensures fresh(input.lzma.dict.buf) && fresh(input.lzma.probs)
    {
      input := new Lzma2Input(size);
      sequence, nextSequence, uncompressed, needDictReset, needProps := Control, Control, 0, true, true;
      stream, total, chunks, chunk, part, resetAt, probs0 := [], [], [], [], [], 0, [];
    }

    /** All objects of the decoder. */
    ghost function Owned(): set<object> {
      {this, input, input.temp, input.lzma, input.lzma.rc, input.lzma.probs, input.lzma.dict, input.lzma.dict.buf}
    }

    // ---- The invariant ------------------------------------------------------------

    /** What every state has in common, but for what a control byte is about to change. */
    ghost predicate Booked()
      reads this, input, input.lzma, input.lzma.dict, input.lzma.dict.buf
    {
      && input.temp.Length == TEMP_SIZE && input.temp != input.lzma.dict.buf && input.lzma.probs.Length == PROBS_TOTAL
      && input.lzma.dict.Valid() && input.lzma.dict.start == input.lzma.dict.pos < input.lzma.dict.end
      && resetAt <= |total| && input.lzma.dict.history == total[resetAt..]
      && stream == Bytes(chunks) + chunk && total == Output(chunks) + part && Chained(chunks) && AllProper(chunks, input.lzma.dict.size)
      && (sequence != Control ==> !needDictReset)
    }

    /** Where the finished chunks, and the header of the present one, have led the stream. */
    ghost function Now(): Standing
      requires Chained(chunks)
      reads `chunks, `chunk
    {
      Led(Stand(chunks), chunk)
    }

    /** The decoder stands where the stream does. */
    ghost predicate Linked()
      reads `chunks, `chunk, `part, `total, `resetAt, `needDictReset, `needProps
    {
      && Chained(chunks) && resetAt <= |total| && total[resetAt..] == Now().history + part
      && needDictReset == Now().needDict && needProps == Now().needProps
    }

    ghost predicate Accounted()
      reads this, input, input.lzma, input.lzma.dict, input.lzma.dict.buf
    {
      Booked() && Linked()
    }

    /** Between LZMA chunks nothing is kept back. */
    ghost predicate Rested()
      reads input, input.lzma
    {
      input.lzma.len == 0 && input.tempSize == 0
    }

    /** The LZMA decoder may begin a chunk: its properties have been accepted, and its state is
        the one given. */
    ghost predicate CoderFresh(s: Standing)
      reads input, input.lzma, input.lzma.dict, input.lzma.dict.buf, input.lzma.rc, input.lzma.probs
    {
      && input.lzma.Valid() && input.lzma.rc.range == UINT32 - 1 && input.lzma.rc.code == 0
      && input.lzma.rc.initBytesLeft == RC_INIT_BYTES && CoderIs(s)
    }

    ghost predicate CoderIs(s: Standing)
      reads input.lzma, input.lzma.probs
    {
      input.lzma.Set() == s.props && input.lzma.Coded() == s.coding && input.lzma.probs[..] == s.probs
    }

    /** Where the header of the present LZMA chunk leads. */
    ghost predicate Leads()
      reads this, input, input.lzma, input.lzma.dict, input.lzma.dict.buf, input.lzma.rc, input.lzma.probs
    {
      && !needProps && Rested() && part == [] && IsLzma(chunk) && Chained(chunks)
      && if chunk[0] >= 0xC0 then nextSequence == Properties else nextSequence == LzmaPrepare && CoderFresh(Now())
    }

    ghost predicate CopyLeads()
      reads this, input, input.lzma, input.lzma.dict, input.lzma.dict.buf, input.lzma.rc, input.lzma.probs
    {
      IsCopy(chunk) && nextSequence == CopyRun && Rested() && Chained(chunks) && (!needProps ==> CoderFresh(Now()))
    }

    /** The five first bytes of an LZMA chunk are being read. */
    ghost predicate Preparing()
      reads this, input, input.lzma, input.lzma.dict, input.lzma.dict.buf, input.lzma.rc, input.lzma.probs
    {
      && IsLzma(chunk) && |chunk| >= HeaderSize(chunk) && uncompressed == DeclaredOut(chunk) && input.compressed == DeclaredIn(chunk)
      && !needProps && Rested() && part == [] && input.lzma.Valid() && Chained(chunks) && CoderIs(Now())
      && input.lzma.rc.range == UINT32 - 1 && input.lzma.rc.code == CodeOf(chunk[HeaderSize(chunk)..])
      && input.lzma.rc.initBytesLeft + |chunk| == HeaderSize(chunk) + RC_INIT_BYTES
    }

    /** An LZMA chunk is being decoded.  The bytes taken for it are decoded or kept, and what
        it has made and taken goes off what it declares. */
    ghost predicate Decoding()
      reads this, input, input.lzma, input.lzma.dict, input.lzma.dict.buf, input.temp, input.lzma.rc, input.lzma.probs
    {
      && IsLzma(chunk) && |chunk| >= HeaderSize(chunk) + RC_INIT_BYTES && !needProps && input.Kept()
      && chunk[HeaderSize(chunk) + RC_INIT_BYTES..] == input.Taken()
      && input.Whole() + RC_INIT_BYTES == DeclaredIn(chunk) && uncompressed + |part| == DeclaredOut(chunk)
      && input.lzma.rc.log.origin == Machine(Coder(UINT32 - 1, CodeOf(chunk[HeaderSize(chunk)..HeaderSize(chunk) + RC_INIT_BYTES]), []), probs0)
      && resetAt <= |total| && total[resetAt..] == input.before.history + part
      && Chained(chunks) && input.before == Told(Now().coding, Now().history)
      && probs0 == Now().probs && input.lzma.Set() == Now().props
      && Begun(input.before, input.symbols, Promised())
    }

    /** How much there is to be in the history when the present chunk is finished. */
    ghost function Promised(): nat
      requires IsLzma(chunk) && |chunk| >= 3
      reads `chunk, input`before
    {
      |input.before.history| + DeclaredOut(chunk)
    }

    /** No well-made stream begins with what has been taken and what the caller has left. */
    ghost predicate Spoilt(b: XzBuf)
      requires b.inPos <= |b.input|
      reads `stream, b`inPos, b`input
    {
      !Promising(stream + b.input[b.inPos..], input.lzma.dict.size)
    }

    /** What holds in each state. */
    ghost predicate State(s: Sequence)
      reads this, input, input.lzma, input.lzma.dict, input.lzma.dict.buf, input.temp, input.lzma.rc, input.lzma.probs
    {
      match s
      case Control => chunk == [] && part == [] && Rested() && Chained(chunks) && (!needProps && !needDictReset ==> CoderFresh(Now()))
      case Uncompressed1 => |chunk| == 1 && Leads() && uncompressed == Num8(chunk[0]) % 32 * 65536
      case Uncompressed2 => |chunk| == 2 && Leads() && uncompressed == Num8(chunk[0]) % 32 * 65536 + Num8(chunk[1]) * 256
      case Compressed0 =>
        if IsLzma(chunk) then |chunk| == 3 && Leads() && uncompressed == DeclaredOut(chunk)
        else |chunk| == 1 && CopyLeads() && part == []
      case Compressed1 =>
        if IsLzma(chunk) then |chunk| == 4 && Leads() && uncompressed == DeclaredOut(chunk) && input.compressed == Num8(chunk[3]) * 256
        else |chunk| == 2 && CopyLeads() && part == [] && input.compressed == Num8(chunk[1]) * 256
      case Properties =>
        |chunk| == 5 && IsLzma(chunk) && chunk[0] >= 0xC0 && !needProps && Rested() && part == []
        && uncompressed == DeclaredOut(chunk) && input.compressed == DeclaredIn(chunk)
      case LzmaPrepare => Preparing()
      case LzmaRun => Decoding() && uncompressed > 0
      case CopyRun =>
        CopyLeads() && |chunk| >= 3 && input.compressed > 0 && input.compressed + |chunk| == 3 + DeclaredIn(chunk) && part == chunk[3..]
    }

    ghost predicate Valid()
      reads this, input, input.lzma, input.lzma.dict, input.lzma.dict.buf, input.temp, input.lzma.rc, input.lzma.probs
    {
      Accounted() && State(sequence)
    }

    // ---- Steps --------------------------------------------------------------------

    /** The next byte of the input. */
    method Take(b: XzBuf) returns (x: Byte)
      requires Booked() && b.inPos < |b.input|
      modifies `stream, `chunk, b`inPos
      ensures Booked() && x == b.input[old(b.inPos)] && b.inPos == old(b.inPos) + 1
      ensures stream == old(stream) + [x] && chunk == old(chunk) + [x]
    {
      hide Chained, Bytes, Output, input.lzma.dict.Valid, AllProper;
      x := b.input[b.inPos];
      b.inPos := b.inPos + 1;
      Regroup(Bytes(chunks), chunk, [x]);
      stream := stream + [x];
      chunk := chunk + [x];
    }

    /** The next byte of a chunk that has begun. */
    method TakeNext(b: XzBuf) returns (x: Byte)
      requires Accounted() && b.inPos < |b.input| && chunk != []
      modifies `stream, `chunk, b`inPos
      ensures Accounted() && x == b.input[old(b.inPos)] && b.inPos == old(b.inPos) + 1
      ensures stream == old(stream) + [x] && chunk == old(chunk) + [x]
      ensures chunk[0] < 0xC0 || |old(chunk)| != 5 ==> Now() == old(Now())
      ensures Now() == old(Now()).(props := Now().props)
    {
      hide Booked, Chained, Led;
      LedMore(Stand(chunks), chunk, [b.input[b.inPos]]);
      x := Take(b);
    }

    /** The dictionary reset that a control byte asks for. */
    method ResetDict()
      requires Booked() && sequence == Control && Rested()
      modifies `needProps, `needDictReset, `resetAt, input.lzma.dict
      ensures Booked() && needProps && !needDictReset && resetAt == |total|
    {
      hide Chained, Bytes, Output, Ring, AllProper;
      needProps := true;
      needDictReset := false;
      input.lzma.dict.DictReset();
      resetAt := |total|;
    }

    /** After a control byte and the dictionary reset it may ask for. */
    ghost predicate Opened()
      reads this, input, input.lzma, input.lzma.dict, input.lzma.dict.buf, input.lzma.rc, input.lzma.probs
    {
      && Chained(chunks) && chunk != [] && part == [] && resetAt <= |total| && total[resetAt..] == Now().history
      && needDictReset == Now().needDict && needProps == (Resets(chunk) || Stand(chunks).needProps)
      && (!needProps ==> CoderFresh(Stand(chunks)))
    }

    lemma OpensReset()
      requires Booked() && Chained(chunks) && Resets(chunk) && part == [] && resetAt == |total| && needProps && !needDictReset
      ensures Opened()
    {
      hide Chained, Stand, Bytes, Output, input.lzma.dict.Valid, AllProper;
    }

    lemma OpensPlain()
      requires Chained(chunks) && chunk != [] && !Resets(chunk) && part == [] && resetAt <= |total| && total[resetAt..] == Stand(chunks).history
      requires !needDictReset && !Stand(chunks).needDict && needProps == Stand(chunks).needProps && (!needProps ==> CoderFresh(Stand(chunks)))
      ensures Opened()
    {
      hide Chained, Stand, CoderFresh;
    }

    /** What the control byte of an LZMA chunk says about resets and properties. */
    method LeadLzma(tmp: Byte) returns (ret: Ret)
      requires Booked() && Opened() && tmp >= 0x80 && chunk == [tmp] && Rested()
      modifies `nextSequence, `needProps, input.lzma.probs
      modifies input.lzma`rep0, input.lzma`rep1, input.lzma`rep2, input.lzma`rep3, input.lzma`state
      modifies input.lzma.rc`range, input.lzma.rc`code, input.lzma.rc`initBytesLeft
      ensures ret == XzOk || ret == XzDataError
      ensures ret == XzDataError <==> tmp < 0xC0 && old(needProps)
      ensures ret == XzOk ==> Accounted() && Leads()
    {
      hide Chained, Bytes, Output, Ring, input.lzma.dict.Valid, Stand, AllProper;
      if tmp >= 0xC0 {
        needProps := false;
        nextSequence := Properties;
      } else if needProps {
        return XzDataError;
      } else {
        nextSequence := LzmaPrepare;
        if tmp >= 0xA0 {
          input.lzma.LzmaReset();
        }
      }
      ret := XzOk;
    }

    /** The control byte of an LZMA chunk. */
    method StartLzma(tmp: Byte) returns (ret: Ret)
      requires Booked() && Opened() && sequence == Control && tmp >= 0x80 && chunk == [tmp] && Rested() && !needDictReset
      modifies `sequence, `nextSequence, `uncompressed, `needProps, input.lzma.probs
      modifies input.lzma`rep0, input.lzma`rep1, input.lzma`rep2, input.lzma`rep3, input.lzma`state
      modifies input.lzma.rc`range, input.lzma.rc`code, input.lzma.rc`initBytesLeft
      ensures ret == XzOk || ret == XzDataError
      ensures ret == XzDataError <==> tmp < 0xC0 && old(needProps)
      ensures ret == XzOk ==> Valid() && !needProps && sequence == Uncompressed1
    {
      hide Chained, Bytes, Output, Ring, input.lzma.dict.Valid, Decoding, Preparing, CopyLeads, Stand, CoderIs, AllProper;
      uncompressed := Num8(tmp) % 0x20 * 0x1_0000;
      sequence := Uncompressed1;
      ret := LeadLzma(tmp);
    }

    /** The control byte of an uncompressed chunk. */
    method StartCopy(tmp: Byte) returns (ret: Ret)
      requires Booked() && Opened() && sequence == Control && 0 < tmp < 0x80 && chunk == [tmp] && Rested() && !needDictReset
      modifies `sequence, `nextSequence
      ensures ret == XzOk || ret == XzDataError
      ensures ret == XzDataError <==> tmp > 0x02
      ensures ret == XzOk ==> Valid() && sequence == Compressed0
    {
      hide Chained, Bytes, Output, Ring, input.lzma.dict.Valid, AllProper;
      if tmp > 0x02 {
        return XzDataError;
      }
      sequence := Compressed0;
      nextSequence := CopyRun;
      ret := XzOk;
    }

    lemma StandsStill()
      requires Linked() && chunk == [] && part == []
      ensures Now() == Stand(chunks) && total[resetAt..] == Stand(chunks).history
      ensures needDictReset == Stand(chunks).needDict && needProps == Stand(chunks).needProps
    {
      hide Chained, Stand;
    }

    /** What a control byte that is refused says of the stream. */
    lemma ControlIsBad(b: XzBuf)
      requires Valid() && sequence == Control && b.inPos < |b.input|
      ensures var x := b.input[b.inPos];
        x != 0 && (2 < x < 0x80 || (x < 0xE0 && x != 1 && needDictReset) || (0x80 <= x < 0xC0 && needProps)) ==> Spoilt(b)
    {
      hide Chained, Stand, Promising, input.lzma.dict.Valid, CoderFresh;
      StandsStill();
      ControlPlain();
      var rest := b.input[b.inPos..];
      if rest[0] != 0 && (2 < rest[0] < 0x80 || (!Resets(rest) && needDictReset) || (0x80 <= rest[0] < 0xC0 && needProps)) {
        BadControl(chunks, rest, input.lzma.dict.size);
      }
    }

    /** SEQ_CONTROL: a control byte ends the stream, begins a chunk, or is refused.  No chunk
        begins before the dictionary has been reset, and no LZMA chunk without properties. */
    method StepControl(b: XzBuf) returns (ret: Ret)
      requires Valid() && sequence == Control && b.inPos < |b.input|
      modifies this, b`inPos, input.lzma.dict, input.lzma.probs
      modifies input.lzma`rep0, input.lzma`rep1, input.lzma`rep2, input.lzma`rep3, input.lzma`state
      modifies input.lzma.rc`range, input.lzma.rc`code, input.lzma.rc`initBytesLeft
      ensures b.inPos == old(b.inPos) + 1 && stream == old(stream) + [b.input[old(b.inPos)]]
      ensures total == old(total) && chunks == old(chunks)
      ensures ret == XzOk ==> Valid()
      ensures ret == XzStreamEnd <==> b.input[old(b.inPos)] == 0
      ensures ret == XzDataError ==> old(Spoilt(b))
      ensures ret == XzOk && b.input[old(b.inPos)] >= 0x80 ==> !needDictReset && !needProps
      ensures old(needDictReset) && ret == XzOk ==> b.input[old(b.inPos)] >= 0xE0 || b.input[old(b.inPos)] == 1
    {
      hide Chained, Stand, Bytes, Output, Ring, input.lzma.dict.Valid, Booked, CoderFresh, Opened, Promising, Led, AllProper;
      StandsStill();
      ControlIsBad(b);
      var tmp := Take(b);
      assert chunk == [tmp];
      if tmp == 0x00 {
        return XzStreamEnd;
      }
      if tmp >= 0xE0 || tmp == 0x01 {
        ResetDict();
        OpensReset();
      } else if needDictReset {
        return XzDataError;
      } else {
        OpensPlain();
      }
      if tmp >= 0x80 {
        ret := StartLzma(tmp);
      } else {
        ret := StartCopy(tmp);
      }
    }

    /** SEQ_UNCOMPRESSED_1 */
    method StepUncompressed1(b: XzBuf)
      requires Valid() && sequence == Uncompressed1 && b.inPos < |b.input|
      modifies `sequence, `uncompressed, `stream, `chunk, b`inPos, input`compressed
      ensures Valid() && b.inPos == old(b.inPos) + 1 && stream == old(stream) + [b.input[old(b.inPos)]]
    {
      hide Chained, Bytes, Output, Ring, input.lzma.dict.Valid, input.lzma.Valid, Rested, CoderFresh, Stand, CoderIs, input.Kept, AllProper;
      var x := TakeNext(b);
      uncompressed := uncompressed + Num8(x) * 0x100;
      sequence := Uncompressed2;
    }

    /** SEQ_UNCOMPRESSED_2 */
    method StepUncompressed2(b: XzBuf)
      requires Valid() && sequence == Uncompressed2 && b.inPos < |b.input|
      modifies `sequence, `uncompressed, `stream, `chunk, b`inPos, input`compressed
      ensures Valid() && b.inPos == old(b.inPos) + 1 && stream == old(stream) + [b.input[old(b.inPos)]]
    {
      hide Chained, Bytes, Output, Ring, input.lzma.dict.Valid, input.lzma.Valid, Rested, CoderFresh, Stand, CoderIs, input.Kept, AllProper;
      var x := TakeNext(b);
      uncompressed := uncompressed + x + 1;
      sequence := Compressed0;
    }

    /** SEQ_COMPRESSED_0 */
    method StepCompressed0(b: XzBuf)
      requires Valid() && sequence == Compressed0 && b.inPos < |b.input|
      modifies `sequence, `uncompressed, `stream, `chunk, b`inPos, input`compressed
      ensures Valid() && b.inPos == old(b.inPos) + 1 && stream == old(stream) + [b.input[old(b.inPos)]]
    {
      hide Chained, Bytes, Output, Ring, input.lzma.dict.Valid, input.lzma.Valid, Stand, CoderIs, input.Kept, AllProper;
      var x := TakeNext(b);
      input.compressed := Num8(x) * 0x100;
      sequence := Compressed1;
    }

    /** SEQ_COMPRESSED_1: the header is complete, but for the properties. */
    method StepCompressed1(b: XzBuf)
      requires Valid() && sequence == Compressed1 && b.inPos < |b.input|
      modifies `sequence, `stream, `chunk, b`inPos, input`compressed
      ensures Valid() && b.inPos == old(b.inPos) + 1 && stream == old(stream) + [b.input[old(b.inPos)]]
    {
      hide Chained, Bytes, Output, Ring, input.lzma.dict.Valid, input.lzma.Valid, Stand, CoderIs, input.Kept, AllProper;
      var x := TakeNext(b);
      input.compressed := input.compressed + x + 1;
      sequence := nextSequence;
      assert chunk[|chunk|..] == [];
    }

    lemma PropsAreBad(b: XzBuf)
      requires Valid() && sequence == Properties && b.inPos < |b.input|
      ensures (exists lc: nat, lp: nat, pb: nat :: PropsByte(b.input[b.inPos], lc, lp, pb)) || Spoilt(b)
    {
      hide Chained, Stand, Promising, input.lzma.dict.Valid, Bytes, PropsByte, AllProper;
      var rest := chunk + b.input[b.inPos..];
      assert rest[5] == b.input[b.inPos];
      Regroup(Bytes(chunks), chunk, b.input[b.inPos..]);
      if !exists lc: nat, lp: nat, pb: nat :: PropsByte(b.input[b.inPos], lc, lp, pb) {
        BadProps(chunks, rest, input.lzma.dict.size);
      }
    }

    /** SEQ_PROPERTIES: the byte is accepted exactly if it stands for properties within their
        bounds; on its own, without what follows in the same turn. */
    method StepProperties(b: XzBuf) returns (ret: Ret)
      requires Valid() && sequence == Properties && b.inPos < |b.input|
      modifies `sequence, `stream, `chunk, b`inPos, input.lzma.probs
      modifies input.lzma`lc, input.lzma`literalPosMask, input.lzma`posMask
      modifies input.lzma`rep0, input.lzma`rep1, input.lzma`rep2, input.lzma`rep3, input.lzma`state
      modifies input.lzma.rc`range, input.lzma.rc`code, input.lzma.rc`initBytesLeft
      ensures b.inPos == old(b.inPos) + 1 && stream == old(stream) + [b.input[old(b.inPos)]]
      ensures ret == XzOk <==> exists lc: nat, lp: nat, pb: nat :: PropsByte(b.input[old(b.inPos)], lc, lp, pb)
      ensures ret == XzOk || ret == XzDataError
      ensures ret == XzOk ==> Valid() && sequence == LzmaPrepare
      ensures ret == XzDataError ==> old(Spoilt(b))
    {
      hide Chained, Bytes, Output, Ring, input.lzma.dict.Valid, input.Kept, Stand, Led, PropsOf, SoundProps, Promising, AllProper;
      PropsAreBad(b);
      var x := TakeNext(b);
      var ok := AcceptProps(x);
      if !ok {
        return XzDataError;
      }
      LedProps(Stand(chunks), chunk);
      sequence := LzmaPrepare;
      assert chunk[|chunk|..] == [];
      ret := XzOk;
    }

    /** lzma_props, in terms of the byte. */
    method AcceptProps(x: Byte) returns (ok: bool)
      requires input.lzma.probs.Length == PROBS_TOTAL
      modifies input.lzma.probs, input.lzma`lc, input.lzma`literalPosMask, input.lzma`posMask
      modifies input.lzma`rep0, input.lzma`rep1, input.lzma`rep2, input.lzma`rep3, input.lzma`state
      modifies input.lzma.rc`range, input.lzma.rc`code, input.lzma.rc`initBytesLeft
      ensures ok <==> exists lc: nat, lp: nat, pb: nat :: PropsByte(x, lc, lp, pb)
      ensures ok ==> SoundProps(input.lzma.Set()) && input.lzma.Set() == PropsOf(x) && input.lzma.Coded() == NO_CODING
      ensures ok ==> input.lzma.probs[..] == EvenProbs()
      ensures ok ==> input.lzma.rc.range == UINT32 - 1 && input.lzma.rc.code == 0 && input.lzma.rc.initBytesLeft == RC_INIT_BYTES
    {
      ok := input.lzma.LzmaProps(x);
      if ok {
        ghost var lp: nat, pb: nat :| PropsByte(x, input.lzma.lc, lp, pb) && input.lzma.literalPosMask == Pow2(lp) - 1 && input.lzma.posMask == Pow2(pb) - 1;
        PropsOfByte(x, input.lzma.lc, lp, pb);
      }
    }

    /** rc_read_init: the first bytes of an LZMA chunk's data, as far as there is input. */
    method RcReadInit(b: XzBuf) returns (ok: bool)
      requires Valid() && sequence == LzmaPrepare && b.Valid()
      modifies `stream, `chunk, b`inPos, input.lzma.rc`code, input.lzma.rc`initBytesLeft
      ensures Valid() && b.Valid() && old(b.inPos) <= b.inPos && stream == old(stream) + b.input[old(b.inPos)..b.inPos]
      ensures ok <==> input.lzma.rc.initBytesLeft == 0
      ensures !ok ==> b.inPos == |b.input|
    {
      hide Chained, Bytes, Output, Ring, input.lzma.dict.Valid, input.lzma.Valid, Valid, AllProper;
      assert b.input[b.inPos..b.inPos] == [];
      while input.lzma.rc.initBytesLeft > 0
        invariant Valid() && b.Valid() && old(b.inPos) <= b.inPos && stream == old(stream) + b.input[old(b.inPos)..b.inPos]
        decreases input.lzma.rc.initBytesLeft
      {
        if b.inPos == |b.input| {
          return false;
        }
        ReadInitByte(b);
        TakeMore(b.input, old(b.inPos), b.inPos - 1, b.inPos);
        Regroup(old(stream), b.input[old(b.inPos)..b.inPos - 1], b.input[b.inPos - 1..b.inPos]);
      }
      ok := true;
    }

    /** One turn of the loop of rc_read_init. */
    method ReadInitByte(b: XzBuf)
      requires Valid() && sequence == LzmaPrepare && b.inPos < |b.input| && input.lzma.rc.initBytesLeft > 0
      modifies `stream, `chunk, b`inPos, input.lzma.rc`code, input.lzma.rc`initBytesLeft
      ensures Valid() && b.inPos == old(b.inPos) + 1 && stream == old(stream) + b.input[old(b.inPos)..b.inPos]
      ensures input.lzma.rc.initBytesLeft == old(input.lzma.rc.initBytesLeft) - 1
    {
      hide Chained, Bytes, Output, Ring, input.lzma.dict.Valid, input.lzma.Valid, CodeOf, input.Kept, Now, CoderIs, AllProper;
      ghost var h := HeaderSize(chunk);
      ghost var read := chunk[h..];
      var x := TakeNext(b);
      CodeNext(read, x);
      assert chunk[h..] == read + [x];
      input.lzma.rc.code := (input.lzma.rc.code * 256 + x) % UINT32;
      input.lzma.rc.initBytesLeft := input.lzma.rc.initBytesLeft - 1;
    }

    lemma SizeIsBad(b: XzBuf)
      requires Valid() && sequence == LzmaPrepare && b.Valid()
      ensures input.compressed >= RC_INIT_BYTES || Spoilt(b)
    {
      hide Chained, Stand, Promising, input.lzma.dict.Valid, input.lzma.Valid, Bytes, AllProper;
      var rest := chunk + b.input[b.inPos..];
      assert rest[0] == chunk[0] && rest[3] == chunk[3] && rest[4] == chunk[4];
      Regroup(Bytes(chunks), chunk, b.input[b.inPos..]);
      if input.compressed < RC_INIT_BYTES {
        BadSize(chunks, rest, input.lzma.dict.size);
      }
    }

    /** SEQ_LZMA_PREPARE: the chunk's data begins, once its first bytes are read. */
    method StepPrepare(b: XzBuf) returns (ret: Ret, more: bool)
      requires Valid() && sequence == LzmaPrepare && b.Valid()
      modifies `sequence, `stream, `chunk, `probs0, b`inPos, input`compressed, input`before, input`symbols
      modifies input.lzma.rc`code, input.lzma.rc`initBytesLeft, input.lzma.rc`log
      ensures b.Valid() && old(b.inPos) <= b.inPos && stream == old(stream) + b.input[old(b.inPos)..b.inPos]
      ensures more ==> Valid() && sequence == LzmaRun && ret == XzOk
      ensures !more ==> (ret == XzDataError || (ret == XzOk && Valid() && b.inPos == |b.input|))
      ensures ret == XzDataError ==> old(Spoilt(b))
    {
      hide Valid, Promising;
      assert b.input[b.inPos..b.inPos] == [];
      SizeIsBad(b);
      if input.compressed < RC_INIT_BYTES {
        return XzDataError, false;
      }
      var ok := RcReadInit(b);
      if !ok {
        return XzOk, false;
      }
      BeginRun();
      ret, more := XzOk, true;
    }

    /** The decoder's record of a chunk begins where its first bytes end. */
    method BeginDecoding()
      requires Accounted() && Preparing() && sequence == LzmaPrepare
      requires input.lzma.rc.initBytesLeft == 0 && input.compressed >= RC_INIT_BYTES
      modifies `sequence, `probs0, input`compressed, input`before, input`symbols, input.lzma.rc`log
      ensures Accounted() && Decoding() && uncompressed > 0 && sequence == LzmaRun
    {
      hide Chained, Bytes, Output, Ring, input.lzma.dict.Valid, input.lzma.Valid, input.Story, CodeOf, DeclaredIn, Now, AllProper;
      WholeRest(chunk, HeaderSize(chunk), RC_INIT_BYTES);
      input.compressed := input.compressed - RC_INIT_BYTES;
      input.Begin();
      probs0 := input.lzma.probs[..];
      assert input.Taken() == [];
      sequence := LzmaRun;
    }

    /** The data of an LZMA chunk begins. */
    method BeginRun()
      requires Valid() && sequence == LzmaPrepare && input.lzma.rc.initBytesLeft == 0 && input.compressed >= RC_INIT_BYTES
      modifies `sequence, `probs0, input`compressed, input`before, input`symbols, input.lzma.rc`log
      ensures Valid() && sequence == LzmaRun
    {
      hide Accounted, Preparing, Decoding, Leads, CopyLeads, CoderFresh;
      BeginDecoding();
    }

    /** Decoded, but not flushed: the newest bytes of the history are still to be handed over. */
    ghost predicate Pending()
      reads this, input, input.lzma, input.lzma.dict, input.lzma.dict.buf
    {
      && input.temp.Length == TEMP_SIZE && input.temp != input.lzma.dict.buf && input.lzma.probs.Length == PROBS_TOTAL
      && input.lzma.dict.Valid() && resetAt <= |total| && total[resetAt..] <= input.lzma.dict.history
      && |input.lzma.dict.history| - |total[resetAt..]| == input.lzma.dict.pos - input.lzma.dict.start
      && stream == Bytes(chunks) + chunk && total == Output(chunks) + part && AllProper(chunks, input.lzma.dict.size) && Linked()
      && sequence == LzmaRun && !needDictReset
    }

    lemma AccountedPending()
      requires Accounted() && sequence == LzmaRun
      ensures Pending()
    {
      hide Chained, Bytes, Output, Ring, AllProper;
    }

    lemma FlushedAccounted()
      requires Pending() && input.lzma.dict.pos == input.lzma.dict.start < input.lzma.dict.end
      ensures Accounted()
    {
      hide Chained, Bytes, Output, Ring, AllProper;
    }

    /** Unless the stream is spoilt, the present chunk holds an encoding of which the data goes
        on as the input does. */
    lemma AwaitsChunk(b: XzBuf) returns (e: Encoding)
      requires Accounted() && Decoding() && b.Valid()
      ensures Spoilt(b) || input.Awaits(b, e, Promised())
    {
      hide Chained, Bytes, Output, Ring, input.Story, Begun, Promising, AllProper, Stand, Led, Encodes, Comparable, CodeOf, NextIs;
      var rest := b.input[b.inPos..];
      Regroup(Bytes(chunks), chunk, rest);
      e := Encoding(input.lzma.rc.log.origin, input.lzma.Set(), input.before, rest, []);
      if !Spoilt(b) {
        var c := NextChunk(chunks, chunk + rest, input.lzma.dict.size);
        e := ChunkEncodes(Stand(chunks), chunk, rest, input.lzma.dict.size, c);
      }
    }

    /** dict_limit and lzma2_lzma. */
    method DecodeAhead(b: XzBuf) returns (ok: bool)
      requires Accounted() && Decoding() && sequence == LzmaRun && b.Valid()
      requires b.output != input.temp && b.output != input.lzma.dict.buf
      modifies b`inPos, input.lzma.dict`limit
      modifies input`symbols, input`compressed, input`tempSize, input.temp, input.lzma.rc`input, input.lzma.rc`inLimit
      modifies input.lzma.rc`range, input.lzma.rc`code, input.lzma.rc`inPos, input.lzma.rc`meter, input.lzma.rc`log, input.lzma.probs
      modifies input.lzma`rep0, input.lzma`rep1, input.lzma`rep2, input.lzma`rep3, input.lzma`state, input.lzma`len
      modifies input.lzma.dict`pos, input.lzma.dict`full, input.lzma.dict`history, input.lzma.dict.buf
      ensures ok ==> Pending() && Begun(input.before, input.symbols, Promised())
      ensures ok ==> input.Fed(b, old(input.Taken()), old(input.Whole()), old(b.inPos), old(input.symbols), old(input.Setting()))
      ensures ok ==> input.lzma.dict.pos - input.lzma.dict.start <= Min(b.output.Length - b.outPos, uncompressed)
      ensures ok && b.outPos < b.output.Length && uncompressed > 0 ==>
        input.lzma.dict.start < input.lzma.dict.pos || old(b.inPos) < b.inPos || (b.inPos == |b.input| && input.tempSize < input.compressed)
      ensures !ok ==> old(Spoilt(b))
    {
      hide Chained, Bytes, Output, Ring, input.Story, Now, Linked, Begun, Promising, AllProper;
      AccountedPending();
      ghost var e := AwaitsChunk(b);
      ghost var t, w, p, s, props := input.Taken(), input.Whole(), b.inPos, input.symbols, input.Setting();
      ok := input.LimitAndDecode(b, Min(b.output.Length - b.outPos, uncompressed), Promised());
      if ok {
        input.FedFacts(b, t, w, p, s, props);
        input.StoryHas();
      }
    }

    /** The first half of SEQ_LZMA_RUN: as much is decoded as the output and the chunk allow. */
    method RunDecode(b: XzBuf) returns (ok: bool)
      requires Accounted() && Decoding() && sequence == LzmaRun && b.Valid()
      requires b.output != input.temp && b.output != input.lzma.dict.buf
      modifies `stream, `chunk, b`inPos, input.lzma.dict`limit
      modifies input`symbols, input`compressed, input`tempSize, input.temp, input.lzma.rc`input, input.lzma.rc`inLimit
      modifies input.lzma.rc`range, input.lzma.rc`code, input.lzma.rc`inPos, input.lzma.rc`meter, input.lzma.rc`log, input.lzma.probs
      modifies input.lzma`rep0, input.lzma`rep1, input.lzma`rep2, input.lzma`rep3, input.lzma`state, input.lzma`len
      modifies input.lzma.dict`pos, input.lzma.dict`full, input.lzma.dict`history, input.lzma.dict.buf
      ensures ok ==> Pending() && Decoding() && b.Valid() && old(b.inPos) <= b.inPos
      ensures ok ==> stream == old(stream) + b.input[old(b.inPos)..b.inPos]
      ensures ok ==> input.lzma.dict.pos - input.lzma.dict.start <= Min(b.output.Length - b.outPos, uncompressed)
      ensures ok && b.outPos < b.output.Length && uncompressed > 0 ==>
        input.lzma.dict.start < input.lzma.dict.pos || old(b.inPos) < b.inPos || (b.inPos == |b.input| && input.tempSize < input.compressed)
      ensures !ok ==> old(Spoilt(b))
    {
      hide Chained, Bytes, Output, Ring, input.Story, Now, Linked, Begun, Promising, AllProper, Accounted, input.lzma.dict.Valid, input.Fed;
      ghost var t, w, p, s, props := input.Taken(), input.Whole(), b.inPos, input.symbols, input.Setting();
      ok := DecodeAhead(b);
      if ok {
        input.FedFacts(b, t, w, p, s, props);
        TakeIn(b.input[p..b.inPos]);
      }
    }

    /** The bytes that lzma2_lzma has taken are put to the account of the chunk. */
    ghost method TakeIn(bytes: seq<Byte>)
      requires stream == Bytes(chunks) + chunk && IsLzma(chunk) && |chunk| >= HeaderSize(chunk) + RC_INIT_BYTES && Chained(chunks) && Linked()
      modifies `stream, `chunk
      ensures stream == Bytes(chunks) + chunk && stream == old(stream) + bytes && Chained(chunks) && Now() == old(Now()) && Linked()
      ensures chunk == old(chunk) + bytes && HeaderSize(chunk) == HeaderSize(old(chunk)) && IsLzma(chunk)
      ensures DeclaredIn(chunk) == DeclaredIn(old(chunk)) && DeclaredOut(chunk) == DeclaredOut(old(chunk))
      ensures var h := HeaderSize(chunk); chunk[h..h + RC_INIT_BYTES] == old(chunk)[h..h + RC_INIT_BYTES]
      ensures var h := HeaderSize(chunk); chunk[h + RC_INIT_BYTES..] == old(chunk)[h + RC_INIT_BYTES..] + bytes
    {
      hide Bytes, Chained, Stand, Led;
      LedMore(Stand(chunks), chunk, bytes);
      Regroup(Bytes(chunks), chunk, bytes);
      stream := stream + bytes;
      chunk := chunk + bytes;
    }

    /** The second half of SEQ_LZMA_RUN: what has been decoded is handed over. */
    method RunFlush(b: XzBuf)
      requires Pending() && Decoding() && b.Valid() && b.output != input.temp && b.output != input.lzma.dict.buf
      requires input.lzma.dict.pos - input.lzma.dict.start <= Min(b.output.Length - b.outPos, uncompressed)
      modifies `uncompressed, `total, `part, b`outPos, b.output, input.lzma.dict`pos, input.lzma.dict`start
      ensures Accounted() && Decoding() && b.Valid() && old(b.outPos) <= b.outPos
      ensures total == old(total) + b.output[old(b.outPos)..b.outPos] && b.output[..old(b.outPos)] == old(b.output[..b.outPos])
      ensures b.outPos - old(b.outPos) == old(input.lzma.dict.pos - input.lzma.dict.start) == old(uncompressed) - uncompressed
    {
      hide Chained, Bytes, Output, Ring, input.Story, input.lzma.dict.Valid, CodeOf, Now, Booked, AllProper;
      ghost var h := input.lzma.dict.history;
      ghost var newest := h[|total[resetAt..]|..];
      var copied := input.Flush(b);
      assert newest == h[|h| - copied..] == b.output[old(b.outPos)..b.outPos];
      uncompressed := uncompressed - copied;
      TakeOut(newest);
      FlushedAccounted();
    }

    /** The bytes handed over are put to the account of the chunk. */
    ghost method TakeOut(bytes: seq<Byte>)
      requires total == Output(chunks) + part && resetAt <= |total|
      modifies `total, `part
      ensures total == Output(chunks) + part && total == old(total) + bytes && part == old(part) + bytes
      ensures resetAt <= |total| && total[resetAt..] == old(total)[resetAt..] + bytes
    {
      hide Output;
      Regroup(Output(chunks), part, bytes);
      total := total + bytes;
      part := part + bytes;
    }

    /** A chunk is finished, and another control byte comes next. */
    method CloseChunk(ghost c: Chunk)
      requires Accounted() && sequence != Control && c.bytes == chunk && c.out == part && Follows(Stand(chunks), c)
      requires ProperChunk(c, input.lzma.dict.size)
      modifies `sequence, `chunks, `chunk, `part
      ensures Accounted() && sequence == Control && chunk == [] && part == [] && chunks == old(chunks) + [c]
      ensures Chained(chunks) && Now() == LeftBy(old(Stand(chunks)), c)
    {
      hide Chained, Stand, GoodChunk, Bytes, Output, Ring, input.lzma.dict.Valid, ProperChunk, AllProper;
      ProperOn(chunks, c, input.lzma.dict.size);
      OneMoreChunk(chunks, c);
      ChainNext(chunks, c);
      chunks := chunks + [c];
      chunk, part := [], [];
      sequence := Control;
    }

    /** The end of an LZMA chunk: it has taken and made exactly what it declared, or it is
        refused. */
    method FinishRun(ghost b: XzBuf) returns (ret: Ret)
      requires Accounted() && Decoding() && sequence == LzmaRun && uncompressed == 0 && b.Valid()
      modifies `sequence, `chunks, `chunk, `part, input.lzma.rc`range, input.lzma.rc`code, input.lzma.rc`initBytesLeft
      ensures ret == XzOk <==> input.compressed == 0 && input.lzma.len == 0 && old(input.lzma.rc.code) == 0
      ensures ret == XzOk || ret == XzDataError
      ensures ret == XzOk ==> Valid() && sequence == Control
      ensures ret == XzDataError ==> old(Spoilt(b))
    {
      hide Chained, Stand, Now, Bytes, Output, Ring, Accounted, Decoding, Follows, LeftBy, Replayed, TellAll, CoderIs, input.lzma.Valid, AllProper;
      hide Promising, ProperChunk;
      NoneMissing();
      EndIsGood(b);
      if input.compressed > 0 || input.lzma.len > 0 || input.lzma.rc.code != 0 {
        return XzDataError;
      }
      ghost var c := Chunk(chunk, part, probs0, input.lzma.Set(), input.before, input.symbols);
      RunIsGood(c);
      RunIsProper(c);
      GoodEnd(c);
      CloseChunk(c);
      input.lzma.rc.RcReset();
      RestsAgain();
      ret := XzOk;
    }

    lemma RestsAgain()
      requires Accounted() && sequence == Control && chunk == [] && part == [] && Rested() && Chained(chunks) && CoderFresh(Now())
      ensures Valid()
    {
      hide Booked, Linked;
    }

    lemma NoneMissing()
      requires Accounted() && sequence == LzmaRun
      ensures Linked() && !needDictReset
    {
    }

    /** The chunk's data stands for what has been decoded, and the coder is left as it says. */
    lemma RunIsGood(c: Chunk)
      requires Accounted() && Decoding() && uncompressed == 0 && input.compressed == 0 && input.lzma.len == 0
      requires c == Chunk(chunk, part, probs0, input.lzma.Set(), input.before, input.symbols)
      ensures GoodChunk(c) && IsLzma(c.bytes) && Replayed(c).value.probs == input.lzma.probs[..]
      ensures TellAll(c.before, c.symbols).coding == input.lzma.Coded() && input.lzma.Valid() && input.tempSize == 0
    {
      hide Chained, Linked, Now, Bytes, Output, Ring, TellAll, SoundRun, RunSteps, CodeOf, AllProper;
      assert input.temp[..input.tempSize] == [];
      input.lzma.LastInside();
      LzCopyNone(input.lzma.dict.history, input.lzma.rep0);
      var data := HeaderSize(chunk) + RC_INIT_BYTES;
      var consumed := input.lzma.rc.log.consumed;
      assert chunk[data..] == consumed + [] == consumed;
      assert [] + consumed == consumed;
      assert chunk[data - RC_INIT_BYTES..data] == chunk[HeaderSize(chunk)..data];
    }

    lemma RunIsProper(c: Chunk)
      requires Decoding() && GoodChunk(c) && input.compressed == 0 && input.tempSize == 0 && input.lzma.rc.code == 0
      requires c == Chunk(chunk, part, probs0, input.lzma.Set(), input.before, input.symbols)
      ensures ProperChunk(c, input.lzma.dict.size)
    {
      hide Chained, Linked, Now, Bytes, Output, Ring, TellAll, SoundRun, RunSteps, CodeOf, Replay, AllProper;
      input.HeldIs();
      input.SetIsSound();
      assert input.temp[..0] == [];
      var data, consumed := HeaderSize(chunk) + RC_INIT_BYTES, input.lzma.rc.log.consumed;
      assert chunk[data..] == consumed + [] == consumed == [] + consumed;
      assert chunk[data - RC_INIT_BYTES..data] == chunk[HeaderSize(chunk)..data];
    }

    /** When all has been told, all of a proper chunk has been taken. */
    lemma EndIsGood(b: XzBuf)
      requires Accounted() && Decoding() && uncompressed == 0 && b.Valid()
      ensures Spoilt(b) || (input.compressed == 0 && input.lzma.len == 0 && input.lzma.rc.code == 0)
    {
      hide Chained, Bytes, Output, Ring, Begun, Promising, AllProper, Now, Encodes, Comparable, CodeOf, TellAll, SoundRun, RunSteps, NearRun, Replay;
      var e := AwaitsChunk(b);
      if !Spoilt(b) {
        var x := input.lzma.rc.log.consumed;
        assert x <= input.Taken() + b.input[b.inPos..];
        ComparablePart(x, input.Taken() + b.input[b.inPos..], e.data);
        input.HeldIs();
        assert |input.lzma.Telling().history| == |input.before.history| + |part| + input.lzma.len;
        AllTold(e, input.lzma.dict.size, Promised(), input.symbols, x);
      }
    }

    /** The chunk goes on from those before it, and leaves the stream where the coder stands. */
    lemma GoodEnd(c: Chunk)
      requires Linked() && Decoding() && !needDictReset && GoodChunk(c) && IsLzma(c.bytes) && Replayed(c).value.probs == input.lzma.probs[..]
      requires c == Chunk(chunk, part, probs0, input.lzma.Set(), input.before, input.symbols)
      requires TellAll(c.before, c.symbols).coding == input.lzma.Coded()
      ensures Follows(Stand(chunks), c) && CoderIs(LeftBy(Stand(chunks), c)) && !LeftBy(Stand(chunks), c).needProps
    {
      hide Chained, Stand, Led, GoodChunk, input.Kept, TellAll, SoundRun, RunSteps, CodeOf, Replayed;
    }

    lemma RunsOn()
      requires sequence == LzmaRun
      ensures Accounted() && Decoding() && uncompressed > 0 <==> Valid()
    {
      hide Accounted, Decoding;
    }

    /** The input is used up, or there is no room for what the present chunk still makes. */
    ghost predicate Halted(b: XzBuf)
      reads `sequence, b
    {
      b.inPos == |b.input| || (b.outPos == b.output.Length && (sequence == LzmaRun || sequence == CopyRun))
    }

    /** SEQ_LZMA_RUN.  If there is to be another turn, this one has got on. */
    method StepRun(b: XzBuf) returns (ret: Ret, more: bool)
      requires Valid() && sequence == LzmaRun && b.Valid() && b.output != input.temp && b.output != input.lzma.dict.buf
      modifies this, b`inPos, b`outPos, b.output, input`symbols, input`compressed, input`tempSize, input.temp
      modifies input.lzma.rc`range, input.lzma.rc`code, input.lzma.rc`inPos, input.lzma.rc`meter, input.lzma.rc`log
      modifies input.lzma.rc`input, input.lzma.rc`inLimit, input.lzma.rc`initBytesLeft, input.lzma.probs
      modifies input.lzma`rep0, input.lzma`rep1, input.lzma`rep2, input.lzma`rep3, input.lzma`state, input.lzma`len
      modifies input.lzma.dict`pos, input.lzma.dict`full, input.lzma.dict`history, input.lzma.dict`limit, input.lzma.dict`start, input.lzma.dict.buf
      ensures ret == XzOk || ret == XzDataError
      ensures ret == XzOk ==> Valid()
      ensures ret != XzDataError ==> b.Valid() && old(b.inPos) <= b.inPos && old(b.outPos) <= b.outPos
      ensures ret != XzDataError ==> stream == old(stream) + b.input[old(b.inPos)..b.inPos]
      ensures ret != XzDataError ==> total == old(total) + b.output[old(b.outPos)..b.outPos]
      ensures b.output[..old(b.outPos)] == old(b.output[..b.outPos])
      ensures more ==> ret == XzOk && (old(b.inPos) < b.inPos || old(b.outPos) < b.outPos)
      ensures ret == XzOk && !more ==> Halted(b)
      ensures ret == XzDataError ==> old(Spoilt(b))
    {
      hide Ring, input.Story, Accounted, Decoding, Pending, State, input.lzma.dict.Valid, input.lzma.Valid, Promising;
      RunsOn();
      ret, more := XzDataError, false;
      var ok := RunDecode(b);
      if !ok {
        return;
      }
      RunFlush(b);
      if uncompressed == 0 {
        WholeStays(b, old(stream), old(b.inPos));
        ret := FinishRun(b);
        more := ret == XzOk;
      } else {
        RunsOn();
        ret := XzOk;
        more := !(b.outPos == b.output.Length || (b.inPos == |b.input| && input.tempSize < input.compressed));
      }
    }

    /** A chunk has begun exactly if the decoder is not waiting for a control byte. */
    lemma ChunkBegun()
      requires Valid()
      ensures if sequence == Control then chunk == [] && part == [] else IsLzma(chunk) || IsCopy(chunk)
      ensures Chained(chunks) && stream == Bytes(chunks) + chunk && total == Output(chunks) + part
    {
      hide Chained, Bytes, Output, Ring, input.lzma.dict.Valid, AllProper, input.lzma.Valid, Stand, CoderIs, input.Kept;
    }

    /** The present chunk, if it is how a proper one begins, has taken and made no more than
        that one, and in the middle of its data has more to make. */
    lemma PartBegins(c: Chunk)
      requires Valid() && Chained(chunks) && NextIs(Stand(chunks), chunk, input.lzma.dict.size, c)
      ensures |chunk| <= |c.bytes| && part <= c.out && (sequence == LzmaRun || sequence == CopyRun ==> |part| < |c.out|)
    {
      hide Chained, Bytes, Output, Ring, input.lzma.dict.Valid, AllProper, input.lzma.Valid, Stand, CoderIs, Decoding, GoodRun;
      hide NearRun, SoundProps, EndsAtZero, Replayed, Led, input.Kept;
      assert forall i | 0 <= i < |chunk| && i < |c.bytes| :: chunk[i] == c.bytes[i];
      if sequence == LzmaRun {
        RunBegins(c);
      } else if sequence == CopyRun {
        assert |chunk| <= |c.bytes|;
        assert chunk[3..] <= c.bytes[3..];
      }
    }

    lemma RunBegins(c: Chunk)
      requires Accounted() && Decoding() && uncompressed > 0 && NextIs(Stand(chunks), chunk, input.lzma.dict.size, c)
      ensures |chunk| <= |c.bytes| && part <= c.out && |part| < |c.out|
    {
      hide Chained, Bytes, Output, Ring, AllProper, input.lzma.Valid, Stand, Led, RunSteps, TellAll, SoundRun, Replay, Begun, CodeOf, NearRun, Comparable;
      assert chunk + [] == chunk;
      var e := ChunkEncodes(Stand(chunks), chunk, [], input.lzma.dict.size, c);
      SameHeader(Stand(chunks), chunk, [], c);
      input.HeldIs();
      var x := input.lzma.rc.log.consumed;
      assert x <= input.Taken() == chunk[HeaderSize(chunk) + RC_INIT_BYTES..] + [];
      ComparablePart(x, input.Taken(), e.data);
      PartIsRight(c, input.lzma.dict.size, input.symbols, x);
      PartFirst(input.before.history, part, input.lzma.Telling().history, c.out);
    }

    lemma PartFirst(h: seq<Byte>, p: seq<Byte>, t: seq<Byte>, out: seq<Byte>)
      requires h + p <= t <= h + out
      ensures p <= out
    {
      assert p == (h + p)[|h|..] && out == (h + out)[|h|..];
      assert forall i | 0 <= i < |h + p| :: (h + p)[i] == t[i] == (h + out)[i];
    }

    /** The work of SEQ_COPY: bytes pass from the input to the output and the dictionary. */
    method CopyThrough(b: XzBuf)
      requires Valid() && sequence == CopyRun && b.Valid() && b.output != input.temp && b.output != input.lzma.dict.buf
      modifies `stream, `chunk, `total, `part, b`inPos, b`outPos, b.output, input`compressed
      modifies input.lzma.dict`pos, input.lzma.dict`full, input.lzma.dict`history, input.lzma.dict`start, input.lzma.dict.buf
      ensures Accounted() && CopyLeads() && b.Valid() && old(b.inPos) <= b.inPos && old(b.outPos) <= b.outPos
      ensures |chunk| >= 3 && input.compressed + |chunk| == 3 + DeclaredIn(chunk) && part == chunk[3..]
      ensures stream == old(stream) + b.input[old(b.inPos)..b.inPos] && total == old(total) + b.output[old(b.outPos)..b.outPos]
      ensures b.output[..old(b.outPos)] == old(b.output[..b.outPos])
      ensures input.compressed == old(input.compressed) - (b.inPos - old(b.inPos))
      ensures input.compressed == 0 || b.inPos == |b.input| || b.outPos == b.output.Length
    {
      hide Chained, Bytes, Output, Ring, input.lzma.Valid, input.lzma.dict.Valid, input.Kept, Now, CoderIs, Linked, AllProper;
      ghost var bytes := input.CopyIn(b);
      TakeThrough(bytes);
    }

    /** The bytes of an uncompressed chunk are put to its account. */
    ghost method TakeThrough(bytes: seq<Byte>)
      requires stream == Bytes(chunks) + chunk && total == Output(chunks) + part && Linked() && Chained(chunks) && IsCopy(chunk)
      requires resetAt <= |total|
      modifies `stream, `chunk, `total, `part
      ensures stream == Bytes(chunks) + chunk && total == Output(chunks) + part && Linked() && Chained(chunks) && IsCopy(chunk)
      ensures stream == old(stream) + bytes && chunk == old(chunk) + bytes && Now() == old(Now())
      ensures total == old(total) + bytes && part == old(part) + bytes
      ensures resetAt <= |total| && total[resetAt..] == old(total)[resetAt..] + bytes
      ensures |old(chunk)| >= 3 ==> DeclaredIn(chunk) == DeclaredIn(old(chunk)) && chunk[3..] == old(chunk)[3..] + bytes
    {
      hide Chained, Bytes, Output, Stand, Led, AllProper;
      LedMore(Stand(chunks), chunk, bytes);
      Regroup(Bytes(chunks), chunk, bytes);
      Regroup(Output(chunks), part, bytes);
      Regroup(Now().history, part, bytes);
      stream, chunk := stream + bytes, chunk + bytes;
      total, part := total + bytes, part + bytes;
    }

    /** The end of an uncompressed chunk. */
    method FinishCopy()
      requires Accounted() && CopyLeads() && sequence == CopyRun && input.compressed == 0
      requires |chunk| >= 3 && |chunk| == 3 + DeclaredIn(chunk) && part == chunk[3..]
      modifies `sequence, `chunks, `chunk, `part
      ensures Valid() && sequence == Control
    {
      hide Bytes, Output, Ring, GoodRun, input.lzma.Valid;
      CloseChunk(Chunk(chunk, part, probs0, input.lzma.Set(), input.before, input.symbols));
    }

    /** SEQ_COPY: an uncompressed chunk is copied through. */
    method StepCopy(b: XzBuf) returns (ret: Ret, more: bool)
      requires Valid() && sequence == CopyRun && b.Valid() && b.output != input.temp && b.output != input.lzma.dict.buf
      modifies `stream, `chunk, `total, `part, `chunks, `sequence, b`inPos, b`outPos, b.output, input`compressed
      modifies input.lzma.dict`pos, input.lzma.dict`full, input.lzma.dict`history, input.lzma.dict`start, input.lzma.dict.buf
      ensures ret == XzOk && Valid()
      ensures b.Valid() && old(b.inPos) <= b.inPos && old(b.outPos) <= b.outPos
      ensures stream == old(stream) + b.input[old(b.inPos)..b.inPos] && total == old(total) + b.output[old(b.outPos)..b.outPos]
      ensures b.output[..old(b.outPos)] == old(b.output[..b.outPos])
      ensures more ==> old(b.inPos) < b.inPos
      ensures !more ==> Halted(b)
    {
      hide Chained, Bytes, Output, Ring, Accounted, CopyLeads, AllProper;
      CopyThrough(b);
      ret := XzOk;
      more := input.compressed == 0;
      if more {
        FinishCopy();
      }
    }

    lemma WholeStays(b: XzBuf, stream0: seq<Byte>, inPos0: nat)
      requires inPos0 <= b.inPos <= |b.input| && stream == stream0 + b.input[inPos0..b.inPos]
      ensures stream + b.input[b.inPos..] == stream0 + b.input[inPos0..]
    {
      assert b.input[inPos0..b.inPos] + b.input[b.inPos..] == b.input[inPos0..];
      Regroup(stream0, b.input[inPos0..b.inPos], b.input[b.inPos..]);
    }

    /** What a turn of the loop has taken and made since some point. */
    ghost predicate Moved(b: XzBuf, stream0: seq<Byte>, total0: seq<Byte>, inPos0: nat, outPos0: nat)
      reads this, b, b.output
    {
      && b.Valid() && inPos0 <= b.inPos && outPos0 <= b.outPos
      && stream == stream0 + b.input[inPos0..b.inPos] && total == total0 + b.output[outPos0..b.outPos]
    }

    lemma MovedOn(b: XzBuf, stream0: seq<Byte>, total0: seq<Byte>, inPos0: nat, outPos0: nat, out: seq<Byte>,
                  stream1: seq<Byte>, total1: seq<Byte>, inPos1: nat, outPos1: nat)
      requires b.Valid() && inPos0 <= inPos1 <= |b.input| && stream1 == stream0 + b.input[inPos0..inPos1]
      requires outPos0 <= outPos1 <= |out| == b.output.Length && total1 == total0 + out[outPos0..outPos1] && b.output[..outPos1] == out[..outPos1]
      requires Moved(b, stream1, total1, inPos1, outPos1)
      ensures Moved(b, stream0, total0, inPos0, outPos0)
    {
      TakeMore(b.input, inPos0, inPos1, b.inPos);
      Regroup(stream0, b.input[inPos0..inPos1], b.input[inPos1..b.inPos]);
      assert b.output[outPos0..outPos1] == b.output[..outPos1][outPos0..] == out[outPos0..outPos1];
      TakeMore(b.output[..], outPos0, outPos1, b.outPos);
      Regroup(total0, b.output[outPos0..outPos1], b.output[outPos1..b.outPos]);
    }

    /** All chunks have been decoded, and the end marker follows. */
    ghost predicate Ended() reads this
    {
      stream == Bytes(chunks) + [0] && total == Output(chunks) && WellMade(chunks, input.lzma.dict.size)
    }

    /** A turn that reads one byte of a chunk's header, or the end marker. */
    method TurnHeader(b: XzBuf) returns (ret: Ret)
      requires Valid() && b.Valid() && b.inPos < |b.input|
      requires sequence in {Control, Uncompressed1, Uncompressed2, Compressed0, Compressed1}
      modifies this, b`inPos, input`compressed, input.lzma.dict, input.lzma.probs
      modifies input.lzma`rep0, input.lzma`rep1, input.lzma`rep2, input.lzma`rep3, input.lzma`state
      modifies input.lzma.rc`range, input.lzma.rc`code, input.lzma.rc`initBytesLeft
      ensures b.inPos == old(b.inPos) + 1 && stream == old(stream) + [b.input[old(b.inPos)]] && total == old(total)
      ensures ret == XzOk ==> Valid()
      ensures ret == XzStreamEnd ==> Ended()
      ensures ret == XzDataError ==> old(Spoilt(b))
    {
      hide Chained, Bytes, Output, Ring, input.lzma.dict.Valid, State, Promising, AllProper;
      ret := XzOk;
      if sequence == Control {
        ControlPlain();
        ret := StepControl(b);
        assert ret == XzStreamEnd ==> stream == old(stream) + [0];
      } else if sequence == Uncompressed1 {
        StepUncompressed1(b);
      } else if sequence == Uncompressed2 {
        StepUncompressed2(b);
      } else if sequence == Compressed0 {
        StepCompressed0(b);
      } else {
        StepCompressed1(b);
      }
    }

    lemma ControlPlain()
      requires Valid() && sequence == Control
      ensures stream == Bytes(chunks) && total == Output(chunks) && WellMade(chunks, input.lzma.dict.size)
    {
      hide Chained, Bytes, Output, Ring, AllProper;
      assert Bytes(chunks) + [] == Bytes(chunks) && Output(chunks) + [] == Output(chunks);
    }

    /** A turn that begins with the properties or the data of an LZMA chunk; each state leads on
        to the next in the same turn. */
    method TurnLzma(b: XzBuf) returns (ret: Ret, more: bool)
      requires Valid() && b.Valid() && b.output != input.temp && b.output != input.lzma.dict.buf
      requires sequence == LzmaRun || (sequence == Properties && b.inPos < |b.input|) || sequence == LzmaPrepare
      modifies this, b`inPos, b`outPos, b.output, input`symbols, input`before, input`compressed, input`tempSize, input.temp
      modifies input.lzma.rc, input.lzma, input.lzma.probs, input.lzma.dict, input.lzma.dict.buf
      ensures ret == XzOk || ret == XzDataError
      ensures ret == XzOk ==> Valid() && Moved(b, old(stream), old(total), old(b.inPos), old(b.outPos))
      ensures b.output[..old(b.outPos)] == old(b.output[..b.outPos])
      ensures more ==> ret == XzOk && (old(b.inPos) < b.inPos || old(b.outPos) < b.outPos)
      ensures ret == XzOk && !more ==> Halted(b)
      ensures ret == XzDataError ==> old(Spoilt(b))
    {
      hide Accounted, State, Promising;
      ghost var s0, t0, i0, o0 := stream, total, b.inPos, b.outPos;
      ret, more := XzOk, true;
      if sequence == Properties {
        ret := StepProperties(b);
        if ret != XzOk {
          return ret, false;
        }
        assert stream == s0 + b.input[i0..b.inPos];
      } else {
        assert b.input[i0..i0] == [];
      }
      ghost var s1, i1 := stream, b.inPos;
      WholeStays(b, s0, i0);
      if sequence == LzmaPrepare {
        ret, more := StepPrepare(b);
        TakeMore(b.input, i0, i1, b.inPos);
        Regroup(s0, b.input[i0..i1], b.input[i1..b.inPos]);
      }
      assert b.output[o0..o0] == [];
      if !more {
        return;
      }
      WholeStays(b, s0, i0);
      ghost var s2, i2, out := stream, b.inPos, b.output[..];
      ret, more := StepRun(b);
      if ret == XzOk {
        MovedOn(b, s0, t0, i0, o0, out, s2, t0, i2, o0);
      }
    }

    /** One turn of the loop of xz_dec_lzma2_run. */
    method Turn(b: XzBuf) returns (ret: Ret, more: bool)
      requires Valid() && b.Valid() && b.output != input.temp && b.output != input.lzma.dict.buf
      requires b.inPos < |b.input| || sequence == LzmaRun
      modifies this, b`inPos, b`outPos, b.output, input`symbols, input`before, input`compressed, input`tempSize, input.temp
      modifies input.lzma.rc, input.lzma, input.lzma.probs, input.lzma.dict, input.lzma.dict.buf
      ensures ret == XzOk ==> Valid()
      ensures ret == XzStreamEnd ==> Ended()
      ensures ret != XzDataError ==> Moved(b, old(stream), old(total), old(b.inPos), old(b.outPos))
      ensures b.output[..old(b.outPos)] == old(b.output[..b.outPos])
      ensures more ==> ret == XzOk && (old(b.inPos) < b.inPos || old(b.outPos) < b.outPos)
      ensures ret == XzOk && !more ==> Halted(b)
      ensures ret == XzDataError ==> old(Spoilt(b))
    {
      hide Accounted, State, Ended, Promising;
      if sequence == CopyRun {
        ret, more := StepCopy(b);
      } else if sequence == LzmaRun || sequence == LzmaPrepare || sequence == Properties {
        ret, more := TurnLzma(b);
      } else {
        assert b.output[b.outPos..b.outPos] == [];
        ret := TurnHeader(b);
        more := ret == XzOk;
        assert b.input[old(b.inPos)..b.inPos] == [b.input[old(b.inPos)]];
      }
    }

    /** How far a decoder has come that is still going: whichever well-made stream it has been
        given some of, it has not met the end marker, and what it has made is how the output of
        that stream begins; in the middle of a chunk's data, there is more to come. */
    lemma SoFar(made: seq<Chunk>)
      requires Valid() && WellMade(made, input.lzma.dict.size) && Comparable(stream, Bytes(made) + [0])
      ensures |stream| <= |Bytes(made)| && total <= Output(made)
      ensures sequence == LzmaRun || sequence == CopyRun ==> total < Output(made)
    {
      hide Bytes, Output, Chained, Stand, Follows, ProperChunk, Comparable, Accounted, State;
      var n := |chunks|;
      ChunkBegun();
      Onward(chunks, chunk, made, input.lzma.dict.size);
      if n == |made| {
        assert made[..n] == made;
      } else {
        BytesFrom(made, n);
        PartBegins(made[n]);
        OutputBegins(made, n + 1);
        assert made[..n + 1] == made[..n] + [made[n]];
        OneMoreChunk(made[..n], made[n]);
        assert Output(made[..n]) + part <= Output(made[..n]) + made[n].out;
      }
    }

    /** The end marker that the decoder has met is that of the stream. */
    lemma AtEnd(made: seq<Chunk>)
      requires Ended() && WellMade(made, input.lzma.dict.size) && Comparable(stream, Bytes(made) + [0])
      ensures stream == Bytes(made) + [0] && total == Output(made)
    {
      hide Bytes, Output, Chained, ProperChunk, Comparable;
      var x, y := Completed(Bytes(chunks), [0], Bytes(made));
      NoFurther(chunks, x, made, y);
      NoFurther(made, y, chunks, x);
      ChainsMeet(chunks, x, made, y);
      assert made[..|chunks|] == made;
    }

    /** The caller has all that is still missing of this stream. */
    ghost predicate Has(b: XzBuf, made: seq<Chunk>)
      requires b.inPos <= |b.input|
      reads `stream, b`inPos, b`input
    {
      WellMade(made, input.lzma.dict.size) && Bytes(made) + [0] <= stream + b.input[b.inPos..]
    }

    /** What a call makes of a stream that the caller has all of. */
    lemma Decodes(b: XzBuf, ret: Ret, made: seq<Chunk>, whole: seq<Byte>)
      requires b.Valid() && WellMade(made, input.lzma.dict.size) && Bytes(made) + [0] <= whole
      requires ret != XzDataError && stream + b.input[b.inPos..] == whole
      requires ret == XzStreamEnd ==> Ended()
      requires ret == XzOk ==> Valid() && Halted(b)
      ensures if ret == XzStreamEnd then stream == Bytes(made) + [0] && total == Output(made) else b.outPos == b.output.Length && total < Output(made)
    {
      hide Bytes, Output, WellMade, Valid, Ended;
      var all := Bytes(made) + [0];
      assert stream <= whole;
      ComparablePart(stream, whole, all);
      if ret == XzStreamEnd {
        AtEnd(made);
      } else {
        SoFar(made);
      }
    }

    /** The loop of xz_dec_lzma2_run goes on until the input is used up or the output is full,
        or the end marker or an error is met. */
    method RunLoop(b: XzBuf) returns (ret: Ret)
      requires Valid() && b.Valid() && b.output != input.temp && b.output != input.lzma.dict.buf
      modifies this, b`inPos, b`outPos, b.output, input`symbols, input`before, input`compressed, input`tempSize, input.temp
      modifies input.lzma.rc, input.lzma, input.lzma.probs, input.lzma.dict, input.lzma.dict.buf
      ensures ret == XzOk ==> Valid() && Halted(b)
      ensures ret == XzStreamEnd ==> Ended()
      ensures ret != XzDataError ==> Moved(b, old(stream), old(total), old(b.inPos), old(b.outPos))
      ensures b.output[..old(b.outPos)] == old(b.output[..b.outPos])
      ensures ret == XzDataError ==> old(Spoilt(b))
    {
      hide Accounted, State, Ended, Promising;
      ghost var s0, t0, i0, o0 := stream, total, b.inPos, b.outPos;
      assert b.input[i0..i0] == [] && b.output[o0..o0] == [];
      while b.inPos < |b.input| || sequence == LzmaRun
        invariant Valid() && Moved(b, s0, t0, i0, o0) && b.output[..o0] == old(b.output[..b.outPos])
        decreases |b.input| - b.inPos + b.output.Length - b.outPos
      {
        ghost var s1, t1, i1, o1, out := stream, total, b.inPos, b.outPos, b.output[..];
        var more;
        WholeStays(b, s0, i0);
        ret, more := Turn(b);
        assert b.output[..o0] == b.output[..o1][..o0];
        if ret != XzDataError {
          MovedOn(b, s0, t0, i0, o0, out, s1, t1, i1, o1);
        }
        if !more {
          return;
        }
      }
      ret := XzOk;
    }

    /** xz_dec_lzma2_run.  All that it takes goes to chunks in order, and so does all that it
        makes; every chunk finished takes and makes exactly what its header declares, and makes
        what its data stands for.  An error means that no well-made stream begins with what was
        taken before and the caller has given now.  When the caller has all of a well-made
        stream, it is decoded to its end, or as far as there is room. */
    method XzDecLzma2Run(b: XzBuf) returns (ret: Ret)
      requires Valid() && b.Valid() && b.output != input.temp && b.output != input.lzma.dict.buf
      modifies this, b`inPos, b`outPos, b.output, input`symbols, input`before, input`compressed, input`tempSize, input.temp
      modifies input.lzma.rc, input.lzma, input.lzma.probs, input.lzma.dict, input.lzma.dict.buf
      ensures ret == XzOk ==> Valid() && Halted(b)
      ensures ret == XzStreamEnd ==> Ended()
      ensures ret != XzDataError ==> Moved(b, old(stream), old(total), old(b.inPos), old(b.outPos))
      ensures b.output[..old(b.outPos)] == old(b.output[..b.outPos])
      ensures ret == XzDataError ==> old(Spoilt(b))
      ensures forall made {:trigger old(Has(b, made))} | old(Has(b, made)) ::
        if ret == XzStreamEnd then stream == Bytes(made) + [0] && total == Output(made)
        else ret == XzOk && b.outPos == b.output.Length && total < Output(made)
    {
      hide Valid, Ended, WellMade, Bytes, Output;
      ghost var s0, i0 := stream, b.inPos;
      ret := RunLoop(b);
      forall made | old(Has(b, made))
        ensures ret != XzDataError
        ensures if ret == XzStreamEnd then stream == Bytes(made) + [0] && total == Output(made) else b.outPos == b.output.Length && total < Output(made)
      {
        assert Comparable(s0 + b.input[i0..], Bytes(made) + [0]);
        WholeStays(b, s0, i0);
        Decodes(b, ret, made, s0 + b.input[i0..]);
      }
    }
  }

  /** The stream tells the output: two decoders that have met the end marker of the same stream
      have made the same, however it was handed to them, and whatever their dictionaries. */
  lemma SameStreamSameOutput(d: XzDecLzma2, e: XzDecLzma2)
    requires d.Ended() && e.Ended() && d.stream == e.stream
    ensures d.total == e.total
  {
    OneOutput(d.chunks, e.chunks);
  }
}
