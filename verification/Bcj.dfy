/** The wrapper of xz_dec_bcj.c: a filter behind the LZMA2 decoder, which works in pieces of
    any size, and hides that. */
module Bcj {
  import opened Words
  import opened XzBuffer
  import opened XzDictionary
  import opened LzmaChunks
  import opened LzmaAccept
  import opened Lzma2Control
  import opened BcjFilters
  import opened BcjInPlace
  import opened BcjBundles

  const TEMP_BUF: nat := 16

  /** What has been filtered of a source, and the rest of it. */
  function Ready(k: Kind, source: seq<Byte>): seq<Byte> {
    Filter(k, 0, true, source)
  }

  function Rest(k: Kind, source: seq<Byte>): (r: seq<Byte>)
    ensures |r| < Window(k)
  {
    source[|Ready(k, source)|..]
  }

  /** More of the source arrives behind what could not be filtered. */
  lemma More(k: Kind, source: seq<Byte>, more: seq<Byte>)
    ensures var n := |Ready(k, source)|;
      var f := Filter(k, n, true, Rest(k, source) + more);
      && Ready(k, source + more) == Ready(k, source) + f
      && Rest(k, source + more) == (Rest(k, source) + more)[|f|..]
  {
    hide Filter;
    FilterJoin(k, 0, true, source, more);
    var n := |Ready(k, source)|;
    var f := Filter(k, n, true, Rest(k, source) + more);
    assert (source + more)[n..] == Rest(k, source) + more;
    assert (source + more)[n + |f|..] == (source + more)[n..][|f|..];
  }

  class XzDecBcj {
    const kind: Kind
    /** What the LZMA2 decoder returned last. */
    var ret: Ret
    /** Position in the stream, as 32 bits. */
    var pos: nat
    const temp: array<Byte>
    var tempFiltered: nat
    var tempSize: nat
    /** All that callers have been given. */
    ghost var given: seq<Byte>

    /** xz_dec_bcj_create and xz_dec_bcj_reset */
    constructor (kind: Kind)
      ensures this.kind == kind && given == [] && Holds([]) && ret == XzOk && fresh(temp)
    {
      this.kind, ret, pos, tempFiltered, tempSize, given := kind, XzOk, 0, 0, 0, [];
      temp := new Byte[TEMP_BUF](i => 0);
    }

    /** What has been given and what is ready in temp are the filtered source; what follows in
        temp is its rest.  At the end of the source the rest is ready as it is. */
    ghost predicate Holds(source: seq<Byte>)
      reads this, temp
    {
      && temp.Length == TEMP_BUF && tempFiltered <= tempSize <= TEMP_BUF
      && match ret
         case XzOk =>
           && given + temp[..tempFiltered] == Ready(kind, source) && temp[tempFiltered..tempSize] == Rest(kind, source)
           && pos == |Ready(kind, source)| % UINT32
         case XzStreamEnd => given + temp[..tempFiltered] == WholeStream(kind, 0, true, source)
         case XzDataError => false
    }

    /** bcj_apply */
    method BcjApply(buf: array<Byte>, start: nat, end: nat, ghost at: nat) returns (filtered: nat)
      requires start <= end <= buf.Length && pos == at % UINT32 && Aligned(kind, at)
      modifies `pos, buf
      ensures Filtered(kind, at, old(buf[..]), start, end - start, buf[..], filtered) && filtered <= end - start
      ensures pos == (at + filtered) % UINT32
    {
      hide Filter, Aligned, Filtered;
      match kind {
        case PowerPc => filtered := BcjPowerPc(buf, start, end - start, pos, at);
        case Ia64 => filtered := BcjIa64(buf, start, end - start, pos, at);
        case Arm => filtered := BcjArm(buf, start, end - start, pos, at);
        case ArmThumb => filtered := BcjArmThumb(buf, start, end - start, pos, at);
        case Sparc => filtered := BcjSparc(buf, start, end - start, pos, at);
      }
      Shifted(pos, at, filtered);
      FilteredWithin(at, old(buf[..]), start, end, buf[..], filtered);
      pos := (pos + filtered) % UINT32;
    }

    lemma FilteredWithin(at: nat, was: seq<Byte>, start: nat, end: nat, now: seq<Byte>, filtered: nat)
      requires start <= end <= |was| && Filtered(kind, at, was, start, end - start, now, filtered)
      ensures filtered <= end - start
    {
      hide Filter;
    }

    /** bcj_flush */
    method BcjFlush(b: XzBuf)
      requires b.Valid() && b.output != temp && temp.Length == TEMP_BUF && tempFiltered <= tempSize <= TEMP_BUF
      modifies `tempFiltered, `tempSize, `given, temp, b`outPos, b.output
      ensures b.Valid() && old(b.outPos) <= b.outPos && tempFiltered <= tempSize <= TEMP_BUF
      ensures given == old(given) + b.output[old(b.outPos)..b.outPos]
      ensures given + temp[..tempFiltered] == old(given + temp[..tempFiltered])
      ensures temp[tempFiltered..tempSize] == old(temp[tempFiltered..tempSize])
      ensures b.output[..old(b.outPos)] == old(b.output[..b.outPos])
      ensures tempFiltered > 0 ==> b.outPos == b.output.Length
      ensures b.outPos - old(b.outPos) == if old(tempFiltered) < b.output.Length - old(b.outPos) then old(tempFiltered) else b.output.Length - old(b.outPos)
    {
      var room := b.output.Length - b.outPos;
      var copySize := if tempFiltered < room then tempFiltered else room;
      ghost var first := temp[..copySize];
      CopyOut(b, copySize);
      given := given + first;
      tempFiltered := tempFiltered - copySize;
      tempSize := tempSize - copySize;
      MoveDown(copySize, tempFiltered, tempSize);
      Regroup(old(given), first, temp[..tempFiltered]);
    }

    /** memmove within temp, to its beginning. */
    method MoveDown(n: nat, ghost filtered: nat, size: nat)
      requires filtered <= size && n + size <= temp.Length
      modifies temp
      ensures old(temp[..n]) + temp[..filtered] == old(temp[..n + filtered]) && temp[filtered..size] == old(temp[n + filtered..n + size])
    {
      ghost var t := temp[..];
      forall i | 0 <= i < size {
        temp[i] := temp[n + i];
      }
      FlushedParts(t, temp[..], n, filtered, size);
      assert temp[..filtered] == temp[..][..filtered] && temp[filtered..size] == temp[..][filtered..size];
    }

    lemma FlushedParts(t: seq<Byte>, u: seq<Byte>, n: nat, filtered: nat, size: nat)
      requires |t| == |u| && filtered <= size && n + size <= |t| && forall i | 0 <= i < size :: u[i] == t[n + i]
      ensures t[..n] + u[..filtered] == t[..n + filtered] && u[filtered..size] == t[n + filtered..n + size]
    {
    }

    /** memcpy from temp to the output. */
    method CopyOut(b: XzBuf, n: nat)
      requires b.Valid() && b.output != temp && n <= temp.Length && n <= b.output.Length - b.outPos
      modifies b`outPos, b.output
      ensures b.outPos == old(b.outPos) + n && b.output[old(b.outPos)..b.outPos] == temp[..n]
      ensures b.output[..old(b.outPos)] == old(b.output[..b.outPos])
    {
      forall i | 0 <= i < n {
        b.output[b.outPos + i] := temp[i];
      }
      b.outPos := b.outPos + n;
    }

    // ---- Running ------------------------------------------------------------------

    /** The LZMA2 decoder, the buffer and temp are apart. */
    ghost predicate Apart(lzma2: XzDecLzma2, b: XzBuf)
      reads b`output
    {
      && lzma2.input.temp != temp && lzma2.input.lzma.dict.buf != temp && b.output != temp
      && b.output != lzma2.input.temp && b.output != lzma2.input.lzma.dict.buf
    }

    /** A call to xz_dec_lzma2_run. */
    method Decode(lzma2: XzDecLzma2, b: XzBuf)
      requires lzma2.Valid() && b.Valid() && b.output != lzma2.input.temp && b.output != lzma2.input.lzma.dict.buf
      modifies `ret, lzma2.Owned(), b`inPos, b`outPos, b.output
      ensures ret == XzOk ==> lzma2.Valid() && (b.inPos == |b.input| || b.outPos == b.output.Length)
      ensures ret == XzStreamEnd ==> lzma2.Ended()
      ensures ret != XzDataError ==> b.Valid() && old(b.inPos) <= b.inPos && old(b.outPos) <= b.outPos
      ensures ret != XzDataError ==> lzma2.stream == old(lzma2.stream) + b.input[old(b.inPos)..b.inPos]
      ensures ret != XzDataError ==> lzma2.total == old(lzma2.total) + b.output[old(b.outPos)..b.outPos]
      ensures b.output[..old(b.outPos)] == old(b.output[..b.outPos])
      ensures ret == XzDataError ==> old(lzma2.Spoilt(b))
    {
      hide lzma2.Valid, lzma2.Ended, lzma2.Spoilt;
      ret := lzma2.XzDecLzma2Run(b);
    }

    /** What has been taken from the input and put into the output since some point. */
    ghost predicate Passed(lzma2: XzDecLzma2, b: XzBuf, stream0: seq<Byte>, given0: seq<Byte>, inPos0: nat, outPos0: nat)
      reads `given, lzma2`stream, b, b.output
    {
      && b.Valid() && inPos0 <= b.inPos && outPos0 <= b.outPos
      && lzma2.stream == stream0 + b.input[inPos0..b.inPos] && given == given0 + b.output[outPos0..b.outPos]
    }

    ghost predicate TakenSince(lzma2: XzDecLzma2, b: XzBuf, stream0: seq<Byte>, inPos0: nat)
      reads lzma2`stream, b
    {
      b.Valid() && inPos0 <= b.inPos && lzma2.stream == stream0 + b.input[inPos0..b.inPos]
    }

    /** What a filter has done to a stretch of a buffer that holds the rest of an earlier
        source and what came after it. */
    lemma Stretch(source: seq<Byte>, more: seq<Byte>, was: seq<Byte>, now: seq<Byte>, start: nat, end: nat, filtered: nat)
      requires start <= end <= |was| && was[start..end] == Rest(kind, source) + more
      requires Filtered(kind, |Ready(kind, source)|, was, start, end - start, now, filtered) && filtered <= end - start
      ensures |now| == |was| && now[..start] == was[..start]
      ensures Ready(kind, source) + now[start..start + filtered] == Ready(kind, source + more)
      ensures now[start + filtered..end] == Rest(kind, source + more)
      ensures |Ready(kind, source + more)| == |Ready(kind, source)| + filtered
    {
      hide Filter, Ready, Rest;
      More(kind, source, more);
      var f := Filter(kind, |Ready(kind, source)|, true, was[start..end]);
      assert start + (end - start) == end;
      assert now == was[..start] + f + was[start + |f|..];
      assert now[start..start + filtered] == f;
      assert now[start + filtered..end] == was[start..end][filtered..];
    }

    /** What lies in the output from outStart on: up to mid it is ready, and then comes the rest. */
    ghost predicate Produced(b: XzBuf, source: seq<Byte>, outStart: nat, mid: nat)
      reads this, b, b.output
    {
      && b.Valid() && outStart <= mid <= b.outPos && pos == |Ready(kind, source)| % UINT32
      && given + b.output[outStart..mid] == Ready(kind, source) && b.output[mid..b.outPos] == Rest(kind, source)
    }

    /** A buffer that begins as it did. */
    ghost predicate SameFront(now: seq<Byte>, was: seq<Byte>, n: nat) {
      n <= |now| && n <= |was| && now[..n] == was[..n]
    }

    /** Filling the output from temp and from the LZMA2 decoder, and filtering that. */
    method FillOutput(lzma2: XzDecLzma2, b: XzBuf) returns (filtered: nat)
      requires lzma2.Valid() && b.Valid() && Apart(lzma2, b) && Holds(lzma2.total) && ret == XzOk && tempFiltered == 0
      requires tempSize <= b.output.Length - b.outPos
      modifies `ret, `pos, lzma2.Owned(), b`inPos, b`outPos, b.output
      ensures ret == XzOk ==> lzma2.Valid() && (b.inPos == |b.input| || b.outPos == b.output.Length)
      ensures ret == XzStreamEnd ==> lzma2.Ended()
      ensures ret != XzDataError ==> Produced(b, lzma2.total, old(b.outPos), old(b.outPos) + filtered)
      ensures ret != XzDataError ==> TakenSince(lzma2, b, old(lzma2.stream), old(b.inPos))
      ensures SameFront(b.output[..], old(b.output[..]), old(b.outPos))
      ensures ret == XzDataError ==> old(lzma2.Spoilt(b))
    {
      hide Filter, Ready, Rest, Filtered, Aligned, lzma2.Valid, lzma2.Ended, lzma2.Spoilt;
      var outStart := b.outPos;
      ghost var source := lzma2.total;
      assert given == Ready(kind, source) by { assert temp[..0] == []; }
      CopyOut(b, tempSize);
      ghost var o1 := b.outPos;
      assert b.output[outStart..o1] == Rest(kind, source);
      filtered := 0;
      ghost var out := b.output[..];
      Decode(lzma2, b);
      assert b.output[..outStart] == b.output[..o1][..outStart] == out[..o1][..outStart];
      if ret == XzDataError {
        return;
      }
      ghost var more := b.output[o1..b.outPos];
      assert b.output[outStart..o1] == b.output[..o1][outStart..] == out[outStart..o1];
      ghost var was := b.output[..];
      assert was[outStart..b.outPos] == Rest(kind, source) + more;
      StartAligned(source);
      filtered := BcjApply(b.output, outStart, b.outPos, |Ready(kind, source)|);
      Stretch(source, more, was, b.output[..], outStart, b.outPos, filtered);
    }

    lemma StartAligned(source: seq<Byte>)
      ensures Aligned(kind, |Ready(kind, source)|)
    {
      hide Filter;
      FilterAligned(kind, 0, true, source);
    }

    /** Moving what could not be filtered from the output back to temp. */
    method KeepUnfiltered(b: XzBuf, ghost outStart: nat, mid: nat, ghost source: seq<Byte>)
      requires b.Valid() && outStart <= mid <= b.outPos && b.output != temp && temp.Length == TEMP_BUF && ret == XzOk && tempFiltered == 0
      requires given + b.output[outStart..mid] == Ready(kind, source) && b.output[mid..b.outPos] == Rest(kind, source)
      requires pos == |Ready(kind, source)| % UINT32
      modifies `given, `tempSize, temp, b`outPos
      ensures Holds(source) && b.outPos == mid && b.outPos + tempSize == old(b.outPos)
      ensures given == old(given) + b.output[outStart..mid]
    {
      hide Filter, Ready, Rest;
      given := given + b.output[outStart..mid];
      tempSize := b.outPos - mid;
      b.outPos := mid;
      forall i | 0 <= i < tempSize {
        temp[i] := b.output[b.outPos + i];
      }
      assert temp[..0] == [] && given + [] == given;
      assert temp[0..tempSize] == b.output[mid..mid + tempSize];
    }

    /** Decoding straight into the output buffer, with what was in temp before it. */
    method RunDirect(lzma2: XzDecLzma2, b: XzBuf) returns (done: bool)
      requires lzma2.Valid() && b.Valid() && Apart(lzma2, b) && Holds(lzma2.total) && ret == XzOk && tempFiltered == 0
      requires tempSize <= b.output.Length - b.outPos
      modifies this, temp, lzma2.Owned(), b`inPos, b`outPos, b.output
      ensures ret != XzDataError ==> Holds(lzma2.total) && Passed(lzma2, b, old(lzma2.stream), old(given), old(b.inPos), old(b.outPos))
      ensures SameFront(b.output[..], old(b.output[..]), old(b.outPos))
      ensures ret == XzOk ==> lzma2.Valid() && tempFiltered == 0
      ensures ret == XzOk && done ==> b.inPos == |b.input|
      ensures ret == XzOk && !done ==> b.output.Length <= b.outPos + tempSize
      ensures ret != XzOk ==> done
      ensures ret == XzStreamEnd ==> lzma2.Ended() && given == WholeStream(kind, 0, true, lzma2.total)
      ensures ret == XzDataError ==> old(lzma2.Spoilt(b))
    {
      hide Filter, Ready, Rest, lzma2.Valid, lzma2.Ended, SameFront, lzma2.Spoilt;
      var outStart := b.outPos;
      done := true;
      var filtered := FillOutput(lzma2, b);
      if ret == XzDataError {
        return;
      }
      assert temp[..0] == [];
      if ret == XzStreamEnd {
        given := given + b.output[outStart..b.outPos];
        AllReady(lzma2.total, b.output[..], old(given), outStart, outStart + filtered, b.outPos);
        return;
      }
      KeepUnfiltered(b, outStart, outStart + filtered, lzma2.total);
      done := b.outPos + tempSize < b.output.Length;
    }

    lemma AllReady(source: seq<Byte>, out: seq<Byte>, before: seq<Byte>, start: nat, mid: nat, end: nat)
      requires start <= mid <= end <= |out| && before + out[start..mid] == Ready(kind, source) && out[mid..end] == Rest(kind, source)
      ensures before + out[start..end] == WholeStream(kind, 0, true, source)
    {
      hide Filter;
      assert out[start..end] == out[start..mid] + out[mid..end];
      Regroup(before, out[start..mid], out[mid..end]);
    }

    /** With temp full, more can be filtered than was waiting. */
    lemma FullTemp(at: nat, s: seq<Byte>, waiting: nat)
      requires |s| == TEMP_BUF && waiting < Window(kind)
      ensures waiting < |Filter(kind, at, true, s)|
    {
      hide Piece;
      if kind == Ia64 {
        FilterSteps(kind, at, true, s);
      }
    }

    /** A call to xz_dec_lzma2_run with temp in the place of the output buffer. */
    method DecodeToTemp(lzma2: XzDecLzma2, b: XzBuf)
      requires lzma2.Valid() && b.Valid() && Apart(lzma2, b) && temp.Length == TEMP_BUF && tempSize <= TEMP_BUF
      modifies `ret, `tempSize, temp, lzma2.Owned(), b`inPos, b`outPos, b`output
      ensures b.output == old(b.output) && b.outPos == old(b.outPos)
      ensures ret != XzDataError ==> old(tempSize) <= tempSize <= TEMP_BUF && b.Valid() && old(b.inPos) <= b.inPos
      ensures ret != XzDataError ==> lzma2.total == old(lzma2.total) + temp[old(tempSize)..tempSize]
      ensures temp[..old(tempSize)] == old(temp[..tempSize])
      ensures ret != XzDataError ==> lzma2.stream == old(lzma2.stream) + b.input[old(b.inPos)..b.inPos]
      ensures ret == XzOk ==> lzma2.Valid() && (b.inPos == |b.input| || tempSize == TEMP_BUF)
      ensures ret == XzStreamEnd ==> lzma2.Ended()
      ensures ret == XzDataError ==> old(lzma2.Spoilt(b))
    {
      hide lzma2.Valid, lzma2.Ended, lzma2.Spoilt;
      var out, outPos := b.output, b.outPos;
      b.output, b.outPos := temp, tempSize;
      Decode(lzma2, b);
      tempSize := b.outPos;
      b.output, b.outPos := out, outPos;
    }

    /** Filling temp from the LZMA2 decoder, and filtering that.  At the end of the stream the
        last bytes are ready as they are. */
    method FillTemp(lzma2: XzDecLzma2, b: XzBuf)
      requires lzma2.Valid() && b.Valid() && Apart(lzma2, b) && Holds(lzma2.total) && ret == XzOk && tempFiltered == 0
      modifies `ret, `pos, `tempFiltered, `tempSize, temp, lzma2.Owned(), b`inPos, b`outPos, b`output
      ensures b.output == old(b.output) && b.outPos == old(b.outPos)
      ensures ret != XzDataError ==> Holds(lzma2.total) && b.Valid() && old(b.inPos) <= b.inPos
      ensures ret != XzDataError ==> lzma2.stream == old(lzma2.stream) + b.input[old(b.inPos)..b.inPos]
      ensures ret == XzOk ==> lzma2.Valid() && (b.inPos == |b.input| || old(tempSize) < tempFiltered)
      ensures ret == XzStreamEnd ==> lzma2.Ended() && tempFiltered == tempSize
      ensures ret == XzDataError ==> old(lzma2.Spoilt(b))
    {
      hide Filter, Ready, Rest, Filtered, Aligned, lzma2.Valid, lzma2.Ended, lzma2.Spoilt;
      ghost var source, size := lzma2.total, tempSize;
      assert given == Ready(kind, source) by { assert temp[..0] == []; }
      assert temp[..tempSize] == Rest(kind, source) by { assert temp[0..tempSize] == temp[..tempSize]; }
      DecodeToTemp(lzma2, b);
      if ret == XzDataError {
        return;
      }
      ghost var was, more := temp[..], temp[size..tempSize];
      assert was[0..tempSize] == temp[..size] + more;
      StartAligned(source);
      tempFiltered := BcjApply(temp, 0, tempSize, |Ready(kind, source)|);
      Stretch(source, more, was, temp[..], 0, tempSize, tempFiltered);
      assert temp[..][0..tempFiltered] == temp[..tempFiltered];
      assert temp[..][tempFiltered..tempSize] == temp[tempFiltered..tempSize];
      if tempSize == TEMP_BUF {
        FilledOver(was, tempFiltered, temp[..], |Ready(kind, source)|, size);
      }
      if ret == XzStreamEnd {
        AllReady(lzma2.total, temp[..], given, 0, tempFiltered, tempSize);
        assert temp[..][0..tempSize] == temp[..tempSize];
        tempFiltered := tempSize;
      }
    }

    lemma FilledOver(was: seq<Byte>, filtered: nat, now: seq<Byte>, at: nat, waiting: nat)
      requires Filtered(kind, at, was, 0, TEMP_BUF, now, filtered) && |was| == TEMP_BUF && waiting < Window(kind)
      ensures waiting < filtered
    {
      hide Filter;
      assert was[0..0 + TEMP_BUF] == was;
      FullTemp(at, was, waiting);
    }

    // ---- The whole ----------------------------------------------------------------

    /** Between calls: the decoder goes on, or some of its last output still waits. */
    ghost predicate Between(lzma2: XzDecLzma2)
      reads this, temp, lzma2, lzma2.Owned()
    {
      && Holds(lzma2.total) && (ret == XzOk ==> lzma2.Valid())
      && (ret == XzStreamEnd ==> tempFiltered > 0 && lzma2.Ended())
    }

    /** xz_dec_bcj_run, from after the first flush to the filling of temp. */
    method RunTemp(lzma2: XzDecLzma2, b: XzBuf) returns (r: Ret)
      requires lzma2.Valid() && b.Valid() && Apart(lzma2, b) && Holds(lzma2.total) && ret == XzOk && tempFiltered == 0
      requires b.outPos < b.output.Length <= b.outPos + tempSize
      modifies this, temp, lzma2.Owned(), b`inPos, b`outPos, b`output, b.output
      ensures b.output == old(b.output) && b.output[..old(b.outPos)] == old(b.output[..b.outPos])
      ensures r == XzOk ==> Between(lzma2) && (b.outPos == b.output.Length || (b.inPos == |b.input| && ret == XzOk))
      ensures r == XzStreamEnd ==> lzma2.Ended() && given == WholeStream(kind, 0, true, lzma2.total)
      ensures r != XzDataError ==> Passed(lzma2, b, old(lzma2.stream), old(given), old(b.inPos), old(b.outPos))
      ensures r == XzDataError ==> old(lzma2.Spoilt(b))
    {
      hide Filter, Ready, Rest, lzma2.Valid, lzma2.Ended, WholeStream, lzma2.Spoilt;
      FillTemp(lzma2, b);
      if ret == XzDataError {
        return XzDataError;
      }
      BcjFlush(b);
      if tempFiltered > 0 {
        return XzOk;
      }
      assert temp[..0] == [] && given + [] == given;
      r := ret;
    }

    lemma PassedOn(lzma2: XzDecLzma2, b: XzBuf, stream0: seq<Byte>, given0: seq<Byte>, inPos0: nat, outPos0: nat,
                   out: seq<Byte>, stream1: seq<Byte>, given1: seq<Byte>, inPos1: nat, outPos1: nat)
      requires inPos0 <= inPos1 <= |b.input| && stream1 == stream0 + b.input[inPos0..inPos1]
      requires outPos0 <= outPos1 <= |out| && given1 == given0 + out[outPos0..outPos1]
      requires Passed(lzma2, b, stream1, given1, inPos1, outPos1) && b.output[..outPos1] == out[..outPos1]
      ensures Passed(lzma2, b, stream0, given0, inPos0, outPos0)
    {
      assert b.input[inPos0..b.inPos] == b.input[inPos0..inPos1] + b.input[inPos1..b.inPos];
      Regroup(stream0, b.input[inPos0..inPos1], b.input[inPos1..b.inPos]);
      assert b.output[outPos0..outPos1] == b.output[..outPos1][outPos0..] == out[outPos0..outPos1];
      assert b.output[outPos0..b.outPos] == b.output[outPos0..outPos1] + b.output[outPos1..b.outPos];
      Regroup(given0, b.output[outPos0..outPos1], b.output[outPos1..b.outPos]);
    }

    /** xz_dec_bcj_run, when nothing filtered is waiting. */
    method RunOn(lzma2: XzDecLzma2, b: XzBuf) returns (r: Ret)
      requires lzma2.Valid() && Holds(lzma2.total) && ret == XzOk && tempFiltered == 0 && b.Valid() && Apart(lzma2, b)
      modifies this, temp, lzma2.Owned(), b`inPos, b`outPos, b`output, b.output
      ensures b.output == old(b.output) && b.output[..old(b.outPos)] == old(b.output[..b.outPos])
      ensures r == XzOk ==> Between(lzma2) && (b.outPos == b.output.Length || (b.inPos == |b.input| && ret == XzOk))
      ensures r == XzStreamEnd ==> lzma2.Ended() && given == WholeStream(kind, 0, true, lzma2.total)
      ensures r != XzDataError ==> Passed(lzma2, b, old(lzma2.stream), old(given), old(b.inPos), old(b.outPos))
      ensures r == XzDataError ==> old(lzma2.Spoilt(b))
    {
      hide Filter, Ready, Rest, lzma2.Valid, lzma2.Ended, WholeStream, Holds, Passed;
      ghost var s0, g0, i0, o0 := lzma2.stream, given, b.inPos, b.outPos;
      NothingPassed(lzma2, b);
      if tempSize < b.output.Length - b.outPos || tempSize == 0 {
        var done := RunDirect(lzma2, b);
        if done {
          return ret;
        }
      }
      PassedSays(lzma2, b, s0, g0, i0, o0);
      r := ret;
      if b.outPos < b.output.Length {
        ghost var s1, g1, i1, o1, out := lzma2.stream, given, b.inPos, b.outPos, b.output[..];
        lzma2.WholeStays(b, s0, i0);
        r := RunTemp(lzma2, b);
        if r != XzDataError {
          PassedOn(lzma2, b, s0, g0, i0, o0, out, s1, g1, i1, o1);
        }
        assert b.output[..o0] == b.output[..o1][..o0] == out[..o1][..o0];
      }
    }

    lemma NothingPassed(lzma2: XzDecLzma2, b: XzBuf)
      requires b.Valid()
      ensures Passed(lzma2, b, lzma2.stream, given, b.inPos, b.outPos)
    {
      assert b.input[b.inPos..b.inPos] == [] && b.output[b.outPos..b.outPos] == [];
    }

    lemma PassedSays(lzma2: XzDecLzma2, b: XzBuf, stream0: seq<Byte>, given0: seq<Byte>, inPos0: nat, outPos0: nat)
      requires Passed(lzma2, b, stream0, given0, inPos0, outPos0)
      ensures b.Valid() && inPos0 <= b.inPos && outPos0 <= b.outPos
      ensures lzma2.stream == stream0 + b.input[inPos0..b.inPos] && given == given0 + b.output[..][outPos0..b.outPos]
    {
      assert b.output[..][outPos0..b.outPos] == b.output[outPos0..b.outPos];
    }

    /** xz_dec_bcj_run, in terms of what the LZMA2 decoder has made. */
    method FlushAndRun(lzma2: XzDecLzma2, b: XzBuf) returns (r: Ret)
      requires Between(lzma2) && b.Valid() && Apart(lzma2, b)
      modifies this, temp, lzma2.Owned(), b`inPos, b`outPos, b`output, b.output
      ensures b.output == old(b.output) && b.output[..old(b.outPos)] == old(b.output[..b.outPos])
      ensures r == XzOk ==> Between(lzma2) && (b.outPos == b.output.Length || (b.inPos == |b.input| && ret == XzOk))
      ensures r == XzStreamEnd ==> lzma2.Ended() && given == WholeStream(kind, 0, true, lzma2.total)
      ensures r != XzDataError ==> Passed(lzma2, b, old(lzma2.stream), old(given), old(b.inPos), old(b.outPos))
      ensures r == XzDataError ==> old(lzma2.Spoilt(b))
    {
      hide Filter, Ready, Rest, lzma2.Valid, lzma2.Ended, WholeStream, lzma2.Spoilt;
      ghost var g0, o0 := given, b.outPos;
      assert b.input[b.inPos..b.inPos] == [] && b.output[o0..o0] == [];
      if tempFiltered > 0 {
        BcjFlush(b);
        if tempFiltered > 0 {
          return XzOk;
        }
        if ret == XzStreamEnd {
          assert temp[..0] == [] && given + [] == given;
          return XzStreamEnd;
        }
      }
      ghost var s1, g1, i1, o1, out := lzma2.stream, given, b.inPos, b.outPos, b.output[..];
      assert b.input[i1..i1] == [] && out[o0..o1] == b.output[o0..o1];
      r := RunOn(lzma2, b);
      if r != XzDataError {
        PassedOn(lzma2, b, s1, g0, i1, o0, out, s1, g1, i1, o1);
      }
      assert b.output[..o0] == b.output[..o1][..o0] == out[..o1][..o0];
    }

    /** What a call makes of a stream that the caller has all of. */
    lemma Unpacks(lzma2: XzDecLzma2, b: XzBuf, r: Ret, made: seq<Chunk>, whole: seq<Byte>)
      requires b.Valid() && WellMade(made, lzma2.input.lzma.dict.size) && Bytes(made) + [0] <= whole
      requires r != XzDataError && lzma2.stream + b.input[b.inPos..] == whole
      requires r == XzOk ==> Between(lzma2) && (b.outPos == b.output.Length || (b.inPos == |b.input| && ret == XzOk))
      requires r == XzStreamEnd ==> lzma2.Ended() && given == WholeStream(kind, 0, true, lzma2.total)
      ensures if r == XzStreamEnd then lzma2.stream == Bytes(made) + [0] && given == WholeStream(kind, 0, true, Output(made)) else b.outPos == b.output.Length
    {
      hide Bytes, Output, WellMade, lzma2.Valid, lzma2.Ended, WholeStream, Holds;
      assert lzma2.stream <= whole;
      ComparablePart(lzma2.stream, whole, Bytes(made) + [0]);
      if r == XzStreamEnd {
        lzma2.AtEnd(made);
      } else if b.outPos < b.output.Length {
        lzma2.SoFar(made);
      }
    }

    /** xz_dec_bcj_run, in multi-call mode.  However the output buffers are cut and however much
        the LZMA2 decoder yields, callers are given the filtered output of that decoder, with
        its last few bytes as they are.  When the caller has all of a well-made stream, it is
        decoded to its end, or until there is no more room. */
    method XzDecBcjRun(lzma2: XzDecLzma2, b: XzBuf) returns (r: Ret)
      requires Between(lzma2) && b.Valid() && Apart(lzma2, b)
      modifies this, temp, lzma2.Owned(), b`inPos, b`outPos, b`output, b.output
      ensures b.output == old(b.output) && b.output[..old(b.outPos)] == old(b.output[..b.outPos])
      ensures r == XzOk ==> Between(lzma2) && (b.outPos == b.output.Length || (b.inPos == |b.input| && ret == XzOk))
      ensures r == XzStreamEnd ==> lzma2.Ended() && given == WholeStream(kind, 0, true, lzma2.total)
      ensures r != XzDataError ==> Passed(lzma2, b, old(lzma2.stream), old(given), old(b.inPos), old(b.outPos))
      ensures r == XzDataError ==> old(lzma2.Spoilt(b))
      ensures forall made {:trigger old(lzma2.Has(b, made))} | old(lzma2.Has(b, made)) ::
        if r == XzStreamEnd then lzma2.stream == Bytes(made) + [0] && given == WholeStream(kind, 0, true, Output(made))
        else r == XzOk && b.outPos == b.output.Length
    {
      hide Bytes, Output, WellMade, lzma2.Valid, lzma2.Ended, WholeStream, Between;
      ghost var s0, i0 := lzma2.stream, b.inPos;
      r := FlushAndRun(lzma2, b);
      forall made | old(lzma2.Has(b, made))
        ensures r != XzDataError
        ensures if r == XzStreamEnd then lzma2.stream == Bytes(made) + [0] && given == WholeStream(kind, 0, true, Output(made)) else b.outPos == b.output.Length
      {
        assert Comparable(s0 + b.input[i0..], Bytes(made) + [0]);
        lzma2.WholeStays(b, s0, i0);
        Unpacks(lzma2, b, r, made, s0 + b.input[i0..]);
      }
    }
  }
}
