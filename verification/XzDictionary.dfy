/** The history buffer of the LZMA2 decoder: a circular dictionary that stands for the most
    recent part of everything decoded so far (multi-call mode). */
module XzDictionary {
  import opened Words
  import opened XzBuffer
  import opened RangeCoder
  import opened RangeTrace

  /** Where the byte written d + 1 bytes ago is. */
  function BackIndex(pos: nat, end: nat, d: nat): int {
    if d < pos then pos - 1 - d else pos - 1 - d + end
  }

  ghost predicate RingAt(buf: seq<Byte>, pos: nat, end: nat, history: seq<Byte>, d: nat) {
    && 0 <= BackIndex(pos, end, d) < |buf| && d < |history|
    && buf[BackIndex(pos, end, d)] == history[|history| - 1 - d]
  }

  /** The buffer holds the last full bytes of the history. */
  ghost predicate Ring(buf: seq<Byte>, pos: nat, end: nat, full: nat, history: seq<Byte>) {
    && pos <= full <= end <= |buf| && (full == pos || full == end)
    && full == (if |history| < end then |history| else end)
    && forall d: nat | d < full :: RingAt(buf, pos, end, history, d)
  }

  /** The position agrees with the length of the history in its low bits. */
  predicate InStep(length: nat, pos: nat) {
    length % 16 == pos % 16
  }

  lemma InStepOn(length: nat, pos: nat, n: nat)
    requires InStep(length, pos)
    ensures InStep(length + n, pos + n)
  {
  }

  lemma InStepWrap(length: nat, end: nat)
    requires InStep(length, end) && end % 16 == 0
    ensures InStep(length, 0)
  {
  }

  function Max(a: nat, b: nat): nat { if a < b then b else a }

  lemma RingPut(buf: seq<Byte>, pos: nat, end: nat, full: nat, history: seq<Byte>, byte: Byte)
    requires Ring(buf, pos, end, full, history) && pos < end
    ensures Ring(buf[pos := byte], pos + 1, end, Max(full, pos + 1), history + [byte])
  {
    var full', h, b, next := Max(full, pos + 1), history + [byte], buf[pos := byte], pos + 1;
    forall d: nat | d < full' ensures RingAt(b, next, end, h, d) {
      if d > 0 {
        assert RingAt(buf, pos, end, history, d - 1);
      }
    }
  }

  /** The end of the buffer and its beginning are the same place. */
  lemma RingWrap(buf: seq<Byte>, end: nat, full: nat, history: seq<Byte>)
    requires Ring(buf, end, end, full, history)
    ensures Ring(buf, 0, end, full, history)
  {
    forall d: nat | d < full ensures RingAt(buf, 0, end, history, d) {
      assert RingAt(buf, end, end, history, d);
    }
  }

  /** The newest n bytes lie before pos. */
  lemma RingNewest(buf: seq<Byte>, pos: nat, end: nat, full: nat, history: seq<Byte>, n: nat)
    requires Ring(buf, pos, end, full, history) && n <= pos
    ensures n <= |history| && pos <= |buf| && buf[pos - n..pos] == history[|history| - n..]
  {
    var newest, last := buf[pos - n..pos], history[|history| - n..];
    forall i | 0 <= i < n ensures newest[i] == last[i] {
      assert RingAt(buf, pos, end, history, n - 1 - i);
    }
  }

  /** Writing a run of bytes. */
  lemma {:induction false} RingPutAll(buf: seq<Byte>, pos: nat, end: nat, full: nat, history: seq<Byte>, bytes: seq<Byte>)
    requires Ring(buf, pos, end, full, history) && pos + |bytes| <= end
    ensures bytes != [] ==> Ring(buf[..pos] + bytes + buf[pos + |bytes|..], pos + |bytes|, end, Max(full, pos + |bytes|), history + bytes)
  {
    if bytes != [] {
      var n := |bytes| - 1;
      RingPutAll(buf, pos, end, full, history, bytes[..n]);
      var b := buf[..pos] + bytes[..n] + buf[pos + n..];
      assert n == 0 ==> b == buf && history + bytes[..n] == history;
      RingPut(b, pos + n, end, Max(full, pos + n), history + bytes[..n], bytes[n]);
      assert b[pos + n := bytes[n]] == buf[..pos] + bytes + buf[pos + |bytes|..];
      assert history + bytes[..n] + [bytes[n]] == history + bytes;
    }
  }

  /** The copy of a match: each byte is the one d + 1 before it, which may itself have been
      copied just now. */
  function LzCopy(history: seq<Byte>, d: nat, n: nat): (h: seq<Byte>)
    requires n > 0 ==> d < |history|
    ensures |h| == |history| + n && h[..|history|] == history
  {
    if n == 0 then history
    else
      var h := LzCopy(history, d, n - 1);
      h + [h[|h| - 1 - d]]
  }

  lemma LzCopyNone(history: seq<Byte>, d: nat)
    ensures LzCopy(history, d, 0) == history
  {
  }

  lemma LzCopyNext(history: seq<Byte>, d: nat, n: nat)
    requires d < |history|
    ensures var h := LzCopy(history, d, n); LzCopy(history, d, n + 1) == h + [h[|h| - 1 - d]]
  {
  }

  /** A copy may be made in two parts. */
  lemma {:induction false} LzCopyJoin(history: seq<Byte>, d: nat, m: nat, n: nat)
    requires m + n > 0 ==> d < |history|
    ensures LzCopy(history, d, m + n) == LzCopy(LzCopy(history, d, m), d, n)
  {
    if n > 0 { LzCopyJoin(history, d, m, n - 1); }
  }

  /** A copied run repeats with period d + 1. */
  lemma {:induction false} LzCopyPeriod(history: seq<Byte>, d: nat, n: nat, i: nat)
    requires d < |history| && |history| <= i < |history| + n
    ensures LzCopy(history, d, n)[i] == LzCopy(history, d, n)[i - d - 1]
  {
    var h := LzCopy(history, d, n - 1);
    if i < |history| + n - 1 {
      LzCopyPeriod(history, d, n - 1, i);
    }
  }

  /** memcpy */
  method Memcpy(dst: array<Byte>, at: nat, src: seq<Byte>)
    requires at + |src| <= dst.Length
    modifies dst
    ensures dst[..] == old(dst[..at]) + src + old(dst[at + |src|..])
  {
    forall i | 0 <= i < |src| {
      dst[at + i] := src[i];
    }
  }

  /** The dictionary size of a properties byte, as xz_dec_lzma2_reset computes it. */
  function DictSize(props: Byte): (size: nat)
    requires props <= 39
    ensures size > 0 && size % 16 == 0
  {
    ShiftWhole(2 + props % 2, props / 2 + 11);
    ShiftLeft(2 + props % 2, props / 2 + 11)
  }

  lemma {:induction false} ShiftScale(x: nat, n: nat)
    ensures ShiftLeft(x, n) == x * Pow2(n)
  {
    if n > 0 {
      ShiftScale(x, n - 1);
      assert 2 * (x * Pow2(n - 1)) == x * (2 * Pow2(n - 1));
    }
  }

  lemma PowStep(h: nat)
    ensures Pow2(h + 1) == 2 * Pow2(h) && Pow2(h + 2) == 4 * Pow2(h)
  {
    assert Pow2(h + 2) == 2 * Pow2(h + 1);
  }

  lemma PowEleven(h: nat)
    ensures Pow2(h + 11) == 2048 * Pow2(h)
  {
    hide Pow2;
    PowStep(h);
    PowStep(h + 2);
    PowStep(h + 4);
    PowStep(h + 6);
    PowStep(h + 8);
    PowStep(h + 10);
  }

  lemma PowNineteen()
    ensures Pow2(19) == 0x8_0000
  {
    hide Pow2;
    PowEleven(8);
    PowStep(0);
    PowStep(2);
    PowStep(4);
    PowStep(6);
    assert Pow2(0) == 1 by { PowZero(); }
  }

  lemma PowZero()
    ensures Pow2(0) == 1
  {
  }

  lemma DictSizeIs(props: Byte)
    requires props <= 39
    ensures DictSize(props) == (if props % 2 == 0 then 4096 else 6144) * Pow2(props / 2)
  {
    hide Pow2, ShiftLeft;
    ShiftScale(2 + props % 2, props / 2 + 11);
    PowEleven(props / 2);
    if props % 2 == 0 {
      assert 2 * (2048 * Pow2(props / 2)) == 4096 * Pow2(props / 2);
    } else {
      assert 3 * (2048 * Pow2(props / 2)) == 6144 * Pow2(props / 2);
    }
  }

  /** The sizes are 4 KiB and 6 KiB, doubled once for every two of the byte, up to 3 GiB. */
  lemma DictSizes(props: Byte)
    requires props <= 39
    ensures DictSize(props) == (if props % 2 == 0 then 4096 else 6144) * Pow2(props / 2)
    ensures DictSize(props) <= DictSize(39) == 0xC000_0000
  {
    hide Pow2, ShiftLeft;
    DictSizeIs(props);
    DictSizeIs(39);
    PowNineteen();
    PowersGrow(props / 2, 19);
  }

  lemma {:induction false} PowersGrow(m: nat, n: nat)
    requires m <= n
    ensures Pow2(m) <= Pow2(n)
  {
    if m < n { PowersGrow(m, n - 1); }
  }

  lemma {:induction false} ShiftWhole(x: nat, n: nat)
    requires n >= 4
    ensures ShiftLeft(x, n) % 16 == 0
  {
    if n == 4 {
      assert ShiftLeft(x, 1) == 2 * x && ShiftLeft(x, 2) == 4 * x && ShiftLeft(x, 3) == 8 * x;
    } else {
      ShiftWhole(x, n - 1);
      var q := ShiftLeft(x, n - 1) / 16;
      assert ShiftLeft(x, n) == 16 * (2 * q);
    }
  }

  lemma WrapOnce(x: nat, end: nat)
    requires x <= end && end > 0
    ensures x % end == if x == end then 0 else x
  {
    if x == end { RemainderIs(x, 1, 0, end); } else { RemainderIs(x, 0, x, end); }
  }

  lemma WrapTwice(x: nat, y: nat, end: nat)
    requires end > 0
    ensures (x % end + y) % end == (x + y) % end
  {
    var q, r := (x % end + y) / end, (x % end + y) % end;
    var k := x / end;
    assert x == k * end + x % end;
    assert x + y == (k + q) * end + r by { assert (k + q) * end == k * end + q * end; }
    RemainderIs(x + y, k + q, r, end);
  }

  class Dictionary {
    const buf: array<Byte>
    var start: nat
    var pos: nat
    var full: nat
    var limit: nat
    const end: nat
    const size: nat
    /** Everything decoded since the dictionary was last reset. */
    ghost var history: seq<Byte>

    /** xz_dec_lzma2_reset, for a dictionary of this size, with the buffer allocated. */
    constructor (size: nat)
      requires size > 0 && size % 16 == 0
      ensures Valid() && history == [] && fresh(buf) && end == size && start == pos == limit == 0
    {
      buf := new Byte[size];
      start, pos, full, limit := 0, 0, 0, 0;
      end, this.size := size, size;
      history := [];
    }

    ghost predicate Valid()
      reads this, buf
    {
      && start <= pos && limit <= end == size && end > 0 && end % 16 == 0 && InStep(|history|, pos)
      && Ring(buf[..], pos, end, full, history)
    }

    /** dict_reset */
    method DictReset()
      requires Valid()
      modifies this
      ensures Valid() && history == [] && start == pos == limit == 0
    {
      start, pos, limit, full := 0, 0, 0, 0;
      history := [];
    }

    /** dict_limit: no more than out_max bytes, and no more than the buffer has room for. */
    method DictLimit(outMax: nat)
      requires Valid()
      modifies `limit
      ensures Valid() && pos <= limit && limit - pos == Min(outMax, end - pos)
    {
      if end - pos <= outMax {
        limit := end;
      } else {
        limit := pos + outMax;
      }
    }

    /** dict_get: the byte d + 1 back, or zero while there is none. */
    method DictGet(dist: nat) returns (byte: Byte)
      requires Valid() && (dist < full || full == 0)
      ensures full == 0 <==> history == []
      ensures byte == if history == [] then 0 else history[|history| - 1 - dist]
    {
      var offset := pos - dist - 1;
      if dist >= pos {
        offset := offset + end;
      }
      assert full > 0 ==> RingAt(buf[..], pos, end, history, dist);
      byte := if full > 0 then buf[offset] else 0;
    }

    /** dict_put */
    method DictPut(byte: Byte)
      requires Valid() && pos < limit
      modifies `pos, `full, `history, buf
      ensures Valid() && history == old(history) + [byte] && pos == old(pos) + 1 && full >= old(full)
    {
      hide InStep;
      InStepOn(|history|, pos, 1);
      RingPut(buf[..], pos, end, full, history, byte);
      buf[pos] := byte;
      pos := pos + 1;
      if full < pos {
        full := pos;
      }
      history := history + [byte];
    }

    /** One turn of the loop of dict_repeat. */
    method CopyOne(back: nat, dist: nat) returns (next: nat)
      requires Ring(buf[..], pos, end, Max(full, pos), history) && pos < end && dist < Max(full, pos) && back == BackIndex(pos, end, dist)
      modifies `pos, `history, buf
      ensures pos == old(pos) + 1 && Ring(buf[..], pos, end, Max(full, pos), history) && dist < Max(full, pos)
      ensures dist < |old(history)| && history == old(history) + [old(history)[|old(history)| - 1 - dist]]
      ensures next == BackIndex(pos, end, dist)
    {
      assert RingAt(buf[..], pos, end, history, dist);
      var byte := buf[back];
      RingPut(buf[..], pos, end, Max(full, pos), history, byte);
      history := history + [byte];
      buf[pos] := byte;
      pos := pos + 1;
      next := back + 1;
      if next == end {
        next := 0;
      }
    }

    /** The loop of dict_repeat, before full is brought up to date. */
    method RepeatLoop(first: nat, dist: nat, count: nat)
      requires Ring(buf[..], pos, end, Max(full, pos), history) && pos + count <= end && dist < |history|
      requires dist < Max(full, pos) && first == BackIndex(pos, end, dist)
      modifies `pos, `history, buf
      ensures Ring(buf[..], pos, end, Max(full, pos), history) && pos == old(pos) + count
      ensures history == LzCopy(old(history), dist, count)
    {
      hide Ring, LzCopy;
      var left: nat := count;
      var back := first;
      LzCopyNone(history, dist);
      while left > 0
        invariant left <= count && pos == old(pos) + (count - left)
        invariant Ring(buf[..], pos, end, Max(full, pos), history) && history == LzCopy(old(history), dist, count - left)
        invariant dist < Max(full, pos) && back == BackIndex(pos, end, dist)
      {
        LzCopyNext(old(history), dist, count - left);
        back := CopyOne(back, dist);
        left := left - 1;
      }
    }

    /** dict_repeat copies as much of a match as there is room for, unless it reaches back
        further than the history or the dictionary. */
    method DictRepeat(len: nat, dist: nat) returns (ok: bool, left: nat)
      requires Valid() && pos < limit && len > 0
      modifies `pos, `full, `history, buf
      ensures Valid() && full >= old(full)
      ensures ok <==> dist < old(full) && dist < size
      ensures !ok ==> left == len && pos == old(pos) && history == old(history)
      ensures ok ==> left == len - Min(limit - old(pos), len) && pos == old(pos) + (len - left) && dist < |old(history)|
      ensures ok ==> history == LzCopy(old(history), dist, len - left)
    {
      if dist >= full || dist >= size {
        return false, len;
      }
      left := len - Min(limit - pos, len);
      var back := pos - dist - 1;
      if dist >= pos {
        back := back + end;
      }
      hide InStep;
      InStepOn(|history|, pos, len - left);
      RepeatLoop(back, dist, len - left);
      if full < pos {
        full := pos;
      }
      ok := true;
    }

    /** The end of the buffer is its beginning. */
    method WrapPos()
      requires Ring(buf[..], pos, end, full, history) && end > 0 && end % 16 == 0 && InStep(|history|, pos)
      modifies `pos
      ensures Ring(buf[..], pos, end, full, history) && pos < end && InStep(|history|, pos)
      ensures pos == if old(pos) == end then 0 else old(pos)
    {
      hide InStep;
      if pos == end {
        InStepWrap(|history|, end);
        RingWrap(buf[..], end, full, history);
        pos := 0;
      }
    }

    /** The same bytes to the output. */
    method PutOut(b: XzBuf, bytes: seq<Byte>)
      requires b.Valid() && |bytes| <= b.output.Length - b.outPos
      modifies b`outPos, b.output
      ensures b.outPos == old(b.outPos) + |bytes|
      ensures b.output[..] == old(b.output[..b.outPos]) + bytes + old(b.output[..])[b.outPos..]
    {
      Memcpy(b.output, b.outPos, bytes);
      b.outPos := b.outPos + |bytes|;
    }

    /** One turn of the loop of dict_uncompressed: as many bytes as the input, the output and
        the rest of the buffer allow. */
    method CopyChunk(b: XzBuf, left: nat) returns (rest: nat)
      requires Valid() && start == pos < end && b.Valid() && b.output != buf
      requires left > 0 && b.inPos < |b.input| && b.outPos < b.output.Length
      modifies `pos, `full, `start, `history, buf, b`inPos, b`outPos, b.output
      ensures Valid() && start == pos < end && b.Valid() && rest < left && full >= old(full) && pos == (old(pos) + (left - rest)) % end
      ensures b.inPos == old(b.inPos) + (left - rest) && b.outPos == old(b.outPos) + (left - rest)
      ensures history == old(history) + b.input[old(b.inPos)..b.inPos]
      ensures b.output[..] == old(b.output[..b.outPos]) + b.input[old(b.inPos)..b.inPos] + old(b.output[..])[b.outPos..]
    {
      hide InStep, Ring;
      var size := Min(|b.input| - b.inPos, b.output.Length - b.outPos);
      if size > end - pos {
        size := end - pos;
      }
      if size > left {
        size := left;
      }
      rest := left - size;
      var bytes := b.input[b.inPos..b.inPos + size];
      InStepOn(|history|, pos, size);
      PutAll(bytes);
      WrapOnce(old(pos) + size, end);
      WrapPos();
      PutOut(b, bytes);
      start := pos;
      b.inPos := b.inPos + size;
    }

    /** The memcpy into the dictionary. */
    method PutAll(bytes: seq<Byte>)
      requires Ring(buf[..], pos, end, full, history) && bytes != [] && pos + |bytes| <= end
      modifies `pos, `full, `history, buf
      ensures Ring(buf[..], pos, end, full, history) && pos == old(pos) + |bytes| && full >= old(full)
      ensures history == old(history) + bytes
    {
      RingPutAll(buf[..], pos, end, full, history, bytes);
      Memcpy(buf, pos, bytes);
      pos := pos + |bytes|;
      if full < pos {
        full := pos;
      }
      history := history + bytes;
    }

    /** dict_uncompressed copies from the input to the dictionary and to the output, until one
        of them, or the chunk, ends.  It moves pos, around the end of the buffer, but not limit,
        and so pos may come to lie beyond limit. */
    method DictUncompressed(b: XzBuf, left: nat) returns (rest: nat)
      requires Valid() && start == pos < end && b.Valid() && b.output != buf
      modifies `pos, `full, `start, `history, buf, b`inPos, b`outPos, b.output
      ensures Valid() && start == pos < end && b.Valid() && full >= old(full)
      ensures limit == old(limit) && pos == (old(pos) + (left - rest)) % end
      ensures pos <= limit <==> (old(pos) + (left - rest)) % end <= old(limit)
      ensures left - rest == Min(left, Min(|b.input| - old(b.inPos), b.output.Length - old(b.outPos))) >= 0
      ensures b.inPos == old(b.inPos) + (left - rest) && b.outPos == old(b.outPos) + (left - rest)
      ensures history == old(history) + b.input[old(b.inPos)..b.inPos]
      ensures b.output[..] == old(b.output[..b.outPos]) + b.input[old(b.inPos)..b.inPos] + old(b.output[..])[b.outPos..]
    {
      hide InStep, Ring;
      rest := left;
      WrapOnce(pos, end);
      ghost var out := b.output[..];
      while rest > 0 && b.inPos < |b.input| && b.outPos < b.output.Length
        invariant Valid() && start == pos < end && b.Valid() && full >= old(full) && rest <= left
        invariant limit == old(limit) && pos == (old(pos) + (left - rest)) % end
        invariant b.inPos == old(b.inPos) + (left - rest) && b.outPos == old(b.outPos) + (left - rest)
        invariant history == old(history) + b.input[old(b.inPos)..b.inPos]
        invariant b.output[..] == out[..old(b.outPos)] + b.input[old(b.inPos)..b.inPos] + out[b.outPos..]
        decreases rest
      {
        ghost var i, j, o, more := b.inPos, b.outPos, b.output[..], rest;
        rest := CopyChunk(b, rest);
        WrapTwice(old(pos) + (left - more), more - rest, end);
        TakeMore(b.input, old(b.inPos), i, b.inPos);
        assert o[..j] == out[..old(b.outPos)] + b.input[old(b.inPos)..i];
        assert o[b.outPos..] == out[b.outPos..];
      }
    }

    /** dict_flush hands over what has been decoded since the last flush. */
    method DictFlush(b: XzBuf) returns (copied: nat)
      requires Valid() && b.Valid() && b.output != buf && pos - start <= b.output.Length - b.outPos
      modifies `pos, `start, b`outPos, b.output
      ensures Valid() && start == pos < end && b.Valid() && history == old(history) && full == old(full)
      ensures copied == old(pos - start) <= |history| && b.outPos == old(b.outPos) + copied
      ensures b.output[..] == old(b.output[..b.outPos]) + history[|history| - copied..] + old(b.output[..])[b.outPos..]
    {
      hide InStep, Ring;
      copied := pos - start;
      RingNewest(buf[..], pos, end, full, history, copied);
      var bytes := buf[start..pos];
      WrapPos();
      Memcpy(b.output, b.outPos, bytes);
      start := pos;
      b.outPos := b.outPos + copied;
    }
  }
  /** One byte copied through a new dictionary: pos is beyond limit. */
  method BeyondLimit() returns (d: Dictionary)
    ensures d.Valid() && d.pos == 1 && d.limit == 0
  {
    d := new Dictionary(16);
    var out := new Byte[1];
    var b := new XzBuf([0], out);
    var rest := d.DictUncompressed(b, 1);
  }
}
