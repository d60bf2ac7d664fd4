/** kfifo.c: a first-in, first-out queue in a ring buffer, with indices that wrap. */
module Kfifo {
  import opened Words
  import opened KfifoRing
  import opened KfifoRecords

  datatype Errno = Ok | Einval | Enomem

  /** rounddown_pow_of_two */
  function RoundDown(n: nat): (p: nat)
    requires n >= 1
    ensures p >= 1
  {
    if n == 1 then 1 else 2 * RoundDown(n / 2)
  }

  /** The largest power of two that is not more. */
  lemma {:induction false} RoundDownIs(n: nat) returns (e: nat)
    requires n >= 1
    ensures RoundDown(n) == Pow2(e) && Pow2(e) <= n < 2 * Pow2(e)
  {
    if n == 1 {
      e := 0;
    } else {
      var f := RoundDownIs(n / 2);
      e := f + 1;
    }
  }

  lemma {:induction false} PowerGrows(e: nat, f: nat)
    requires e <= f
    ensures Pow2(e) <= Pow2(f)
  {
    if e < f {
      PowerGrows(e, f - 1);
    }
  }

  lemma RoundDownSize(n: nat)
    requires 2 <= n < UINT32
    ensures RingSize(RoundDown(n)) && RoundDown(n) <= n < 2 * RoundDown(n)
  {
    var e := RoundDownIs(n);
    PowerOf32();
    if e >= 32 {
      PowerGrows(32, e);
      assert false;
    }
    if e == 0 {
      assert false;
    }
  }

  class Fifo {
    var data: array?<Byte>
    var mask: nat
    var esize: nat
    var inn: nat
    var out: nat
    /** The indices had they not wrapped. */
    ghost var inTotal: nat
    ghost var outTotal: nat

    ghost predicate Valid()
      reads this
    {
      && data != null && esize >= 1 && RingSize(mask + 1) && data.Length == Bytes(mask + 1, esize) < UINT32
      && inn == inTotal % UINT32 && out == outTotal % UINT32 && outTotal <= inTotal <= outTotal + mask + 1
    }

    /** The number of elements in the queue. */
    ghost function Used(): nat
      requires Valid()
      reads this
    {
      inTotal - outTotal
    }

    /** The bytes in the queue. */
    ghost function Contents(): (c: seq<Byte>)
      requires Valid()
      reads this, data
      ensures |c| == Bytes(Used(), esize)
    {
      Queue(data[..], outTotal, Used(), mask + 1, esize)
    }

    /** __kfifo_alloc; whether memory can be had is given. */
    method KfifoAlloc(size: nat, esize: nat, memory: bool) returns (ret: Errno)
      requires 1 <= size < UINT32 && esize >= 1 && (memory ==> size * esize < UINT32)
      modifies this
      ensures ret == if size < 2 then Einval else if memory then Ok else Enomem
      ensures ret == Ok ==> Valid() && this.esize == esize && mask + 1 <= size < 2 * (mask + 1) && Used() == 0 && fresh(data)
      ensures ret != Ok ==> data == null && mask == 0
    {
      hide RingSize;
      var rounded := RoundDown(size);
      inn, out, inTotal, outTotal := 0, 0, 0, 0;
      this.esize := esize;
      if rounded < 2 {
        SmallSize(size);
        data, mask := null, 0;
        return Einval;
      }
      if size < 2 {
        assert false;
      }
      RoundDownSize(size);
      if !memory {
        data, mask := null, 0;
        return Enomem;
      }
      MulMonotone(rounded, size, esize);
      data := new Byte[rounded * esize];
      mask := rounded - 1;
      ret := Ok;
    }

    lemma SmallSize(size: nat)
      requires 1 <= size && RoundDown(size) < 2
      ensures size == 1
    {
    }

    /** kfifo_unused */
    method KfifoUnused() returns (n: nat)
      requires Valid()
      ensures n == mask + 1 - Used()
    {
      var q := RingDivides(mask + 1);
      Distance(inTotal, outTotal);
      n := (mask + 1 - (inn - out) % UINT32) % UINT32;
    }

    /** The two copies of kfifo_copy_in. */
    method CopyAround(src: seq<Byte>, count: nat, start: nat)
      requires data != null && start < data.Length && count <= data.Length && count <= |src|
      modifies data
      ensures data[..] == RingWrite(old(data[..]), start, src[..count])
    {
      hide RingWrite;
      var l := Min(count, data.Length - start);
      ghost var was := data[..];
      CopyHere(src, l, start);
      assert src[..count][..l] == src[..l];
      ghost var first := data[..];
      CopyHere(src[l..], count - l, 0);
      Around(src, l, count, first, data[..]);
      TwoCopies(was, start, src[..count], l, first);
    }

    method CopyHere(src: seq<Byte>, l: nat, start: nat)
      requires data != null && start + l <= data.Length && l <= |src|
      modifies data
      ensures data[..] == old(data[..])[..start] + src[..l] + old(data[..])[start + l..]
    {
      forall i | 0 <= i < l {
        data[start + i] := src[i];
      }
    }

    lemma Around(src: seq<Byte>, l: nat, count: nat, first: seq<Byte>, now: seq<Byte>)
      requires l <= count <= |src| && count - l <= |first| && now == first[..0] + src[l..][..count - l] + first[count - l..]
      ensures now == src[..count][l..] + first[count - l..]
    {
      assert src[l..][..count - l] == src[..count][l..];
    }

    lemma TwoCopies(d: seq<Byte>, p: nat, x: seq<Byte>, l: nat, first: seq<Byte>)
      requires p < |d| && |x| <= |d| && l == Min(|x|, |d| - p) && first == d[..p] + x[..l] + d[p + l..]
      ensures RingWrite(d, p, x) == x[l..] + first[|x| - l..]
    {
    }

    /** kfifo_copy_in */
    method KfifoCopyIn(src: seq<Byte>, len: nat, off: nat)
      requires data != null && esize >= 1 && data.Length == Bytes(mask + 1, esize)
      requires len <= mask + 1 && Bytes(len, esize) <= |src| && off < UINT32
      modifies data
      ensures Bytes(len, esize) <= Bytes(mask + 1, esize)
      ensures data[..] == RingWrite(old(data[..]), Pos(off, mask + 1, esize), src[..Bytes(len, esize)])
    {
      hide RingWrite;
      BytesWithin(len, mask + 1, esize);
      var start, count := off % (mask + 1), len;
      if esize != 1 {
        start, count := start * esize, count * esize;
      }
      assert start == Pos(off, mask + 1, esize) && count == Bytes(len, esize);
      CopyAround(src, count, start);
    }

    /** The two copies of kfifo_copy_out. */
    method CopyFromAround(dst: array<Byte>, count: nat, start: nat)
      requires data != null && dst != data && start < data.Length && count <= data.Length && count <= dst.Length
      modifies dst
      ensures dst[..] == RingRead(data[..], start, count) + old(dst[count..])
    {
      var l := Min(count, data.Length - start);
      forall i | 0 <= i < l {
        dst[i] := data[start + i];
      }
      forall i | 0 <= i < count - l {
        dst[l + i] := data[i];
      }
    }

    /** kfifo_copy_out */
    method KfifoCopyOut(dst: array<Byte>, len: nat, off: nat)
      requires data != null && data != dst && esize >= 1 && data.Length == Bytes(mask + 1, esize)
      requires len <= mask + 1 && Bytes(len, esize) <= dst.Length && off < UINT32
      modifies dst
      ensures Bytes(len, esize) <= Bytes(mask + 1, esize)
      ensures dst[..] == RingRead(data[..], Pos(off, mask + 1, esize), Bytes(len, esize)) + old(dst[Bytes(len, esize)..])
    {
      hide RingRead;
      BytesWithin(len, mask + 1, esize);
      var start, count := off % (mask + 1), len;
      if esize != 1 {
        start, count := start * esize, count * esize;
      }
      assert start == Pos(off, mask + 1, esize) && count == Bytes(len, esize);
      CopyFromAround(dst, count, start);
    }

    /** __kfifo_in */
    method KfifoIn(buf: seq<Byte>, len: nat) returns (n: nat)
      requires Valid() && Bytes(len, esize) <= |buf|
      modifies `inn, `inTotal, data
      ensures Valid() && n == Min(len, old(mask + 1 - Used())) && Bytes(n, esize) <= |buf|
      ensures Contents() == old(Contents()) + buf[..Bytes(n, esize)]
    {
      hide Queue, RingWrite, RingSize, Bytes, Pos;
      var l := KfifoUnused();
      n := len;
      if n > l {
        n := l;
      }
      BytesWithin(n, len, esize);
      QueueGrows(data[..], outTotal, Used(), n, buf[..Bytes(n, esize)], mask + 1, esize);
      KfifoCopyIn(buf, n, inn);
      PosOfIndex(inTotal, mask + 1, esize);
      StepIndex(inTotal, n);
      inn := (inn + n) % UINT32;
      inTotal := inTotal + n;
    }

    lemma PosOfIndex(total: nat, size: nat, esize: nat)
      requires size >= 1 && esize >= 1
      ensures Pos(total % UINT32, size, esize) == Pos(total, size, esize)
    {
      assert total % UINT32 % UINT32 == total % UINT32;
    }

    /** __kfifo_out_peek */
    method KfifoOutPeek(buf: array<Byte>, len: nat) returns (n: nat)
      requires Valid() && buf != data && Bytes(len, esize) <= buf.Length
      modifies buf
      ensures Valid() && n == Min(len, Used()) && Bytes(n, esize) <= buf.Length && Bytes(n, esize) <= |Contents()|
      ensures Contents() == old(Contents()) && buf[..] == Contents()[..Bytes(n, esize)] + old(buf[Bytes(n, esize)..])
    {
      hide RingRead, RingSize, Bytes;
      var q := RingDivides(mask + 1);
      Distance(inTotal, outTotal);
      var l := (inn - out) % UINT32;
      n := len;
      if n > l {
        n := l;
      }
      BytesWithin(n, len, esize);
      QueueShrinks(data[..], outTotal, Used(), n, mask + 1, esize);
      PosOfIndex(outTotal, mask + 1, esize);
      KfifoCopyOut(buf, n, out);
    }

    /** __kfifo_out */
    method KfifoOut(buf: array<Byte>, len: nat) returns (n: nat)
      requires Valid() && buf != data && Bytes(len, esize) <= buf.Length
      modifies `out, `outTotal, buf
      ensures Valid() && n == Min(len, old(Used())) && Bytes(n, esize) <= buf.Length && Bytes(n, esize) <= |old(Contents())|
      ensures buf[..] == old(Contents())[..Bytes(n, esize)] + old(buf[Bytes(n, esize)..])
      ensures Contents() == old(Contents())[Bytes(n, esize)..]
    {
      hide Queue, RingSize, Bytes;
      n := KfifoOutPeek(buf, len);
      QueueShrinks(data[..], outTotal, Used(), n, mask + 1, esize);
      StepIndex(outTotal, n);
      out := (out + n) % UINT32;
      outTotal := outTotal + n;
    }

    // ---- Record mode --------------------------------------------------------------

    /** __kfifo_peek_n */
    method KfifoPeekN(recsize: nat) returns (n: nat)
      requires Valid() && esize == 1 && 1 <= recsize <= 2 <= Used() + 2 - recsize
      ensures n == LengthIn(Contents()[..recsize])
    {
      PosOfIndex(outTotal, mask + 1, 1);
      ByteOfQueue(0);
      n := data[out % (mask + 1)];
      if recsize > 1 {
        ByteOfQueue(1);
        n := n + Num8(data[(out + 1) % UINT32 % (mask + 1)]) * 256;
      }
    }

    lemma ByteOfQueue(k: nat)
      requires Valid() && esize == 1 && k < Used() && k < 2
      ensures (out + k) % UINT32 % (mask + 1) < data.Length && data[(out + k) % UINT32 % (mask + 1)] == Contents()[k]
    {
      hide RingRead, RingSize, Wrap;
      var q := RingDivides(mask + 1);
      StepIndex(outTotal, k);
      IndexMoves(outTotal, k, mask + 1);
      ReadAt(data[..], Pos(outTotal, mask + 1, 1), Used(), k);
    }

    lemma BytesOne(n: nat)
      ensures Bytes(n, 1) == n
    {
    }

    lemma PosOne(total: nat, k: nat, size: nat)
      requires RingSize(size) && size >= 1 && k <= size
      ensures (total % UINT32 + k) % UINT32 % size == Pos(total + k, size, 1) == Wrap(Pos(total, size, 1) + k, size)
    {
      hide Wrap, RingSize;
      StepIndex(total, k);
      PosMoves(total, k, size, 1);
    }

    /** __kfifo_poke_n */
    method KfifoPokeN(n: nat, recsize: nat)
      requires Valid() && esize == 1 && 1 <= recsize <= 2
      modifies data
      ensures recsize <= data.Length && data[..] == RingWrite(old(data[..]), Pos(inTotal, mask + 1, 1), Header(n, recsize))
    {
      hide RingSize, RingWrite, Pos, Bytes, Wrap, Header;
      var first, second := inn % (mask + 1), (inn + 1) % UINT32 % (mask + 1);
      PokePlaces();
      ghost var was := data[..];
      WriteHeader(was, first, n, recsize);
      data[first] := n % 256;
      if recsize > 1 {
        data[second] := n / 256 % 256;
      }
    }

    lemma PokePlaces()
      requires Valid() && esize == 1
      ensures data.Length >= 2 && inn % (mask + 1) == Pos(inTotal, mask + 1, 1) < data.Length
      ensures (inn + 1) % UINT32 % (mask + 1) == Wrap(inn % (mask + 1) + 1, data.Length)
    {
      hide RingSize, Wrap;
      var q := RingDivides(mask + 1);
      BytesOne(mask + 1);
      PosOne(inTotal, 0, mask + 1);
      PosOne(inTotal, 1, mask + 1);
    }

    lemma WriteOne(d: seq<Byte>, p: nat, x: Byte)
      requires p < |d|
      ensures RingWrite(d, p, [x]) == d[p := x]
    {
    }

    lemma WriteHeader(d: seq<Byte>, p: nat, n: nat, recsize: nat)
      requires p < |d| && 1 <= recsize <= 2 <= |d|
      ensures RingWrite(d, p, Header(n, recsize))
        == if recsize == 1 then d[p := n % 256] else d[p := n % 256][Wrap(p + 1, |d|) := n / 256 % 256]
    {
      hide RingWrite;
      WriteOne(d, p, n % 256);
      if recsize == 2 {
        WriteOne(d[p := n % 256], Wrap(p + 1, |d|), n / 256 % 256);
        WriteOn(d, p, [n % 256], [n / 256 % 256]);
        assert [n % 256] + [n / 256 % 256] == Header(n, recsize);
      }
    }

    /** A header and a record, one behind the other. */
    method WriteRecord(buf: seq<Byte>, len: nat, recsize: nat)
      requires Valid() && esize == 1 && 1 <= recsize <= 2 && len <= |buf| && recsize + len <= mask + 1
      modifies data
      ensures recsize + len <= data.Length
      ensures data[..] == RingWrite(old(data[..]), Pos(inTotal, mask + 1, 1), Header(len, recsize) + buf[..len])
    {
      hide RingSize, RingWrite, Pos, Bytes, Header;
      BytesOne(mask + 1);
      BytesOne(len);
      BytesOne(recsize);
      ghost var was := data[..];
      PosMoves(inTotal, recsize, mask + 1, 1);
      WriteOn(was, Pos(inTotal, mask + 1, 1), Header(len, recsize), buf[..len]);
      KfifoPokeN(len, recsize);
      StepIndex(inTotal, recsize);
      PosOfIndex(inTotal + recsize, mask + 1, 1);
      KfifoCopyIn(buf, len, (inn + recsize) % UINT32);
    }

    /** __kfifo_in_r: a record goes in whole, behind its header, or not at all. */
    method KfifoInR(buf: seq<Byte>, len: nat, recsize: nat) returns (n: nat)
      requires Valid() && esize == 1 && 1 <= recsize <= 2 && len <= |buf|
      modifies `inn, `inTotal, data
      ensures Valid()
      ensures if old(Used()) + recsize + len <= mask + 1
        then n == len && Contents() == old(Contents()) + (Header(len, recsize) + buf[..len])
        else n == 0 && Contents() == old(Contents())
    {
      hide Queue, RingWrite, RingSize, Header, Pos, Bytes;
      var unused := KfifoUnused();
      if len + recsize > unused {
        return 0;
      }
      BytesOne(recsize + len);
      QueueGrows(data[..], outTotal, Used(), recsize + len, Header(len, recsize) + buf[..len], mask + 1, 1);
      WriteRecord(buf, len, recsize);
      StepIndex(inTotal, recsize + len);
      inn := (inn + (len + recsize)) % UINT32;
      inTotal := inTotal + (len + recsize);
      n := len;
    }

    /** kfifo_out_copy_r */
    method KfifoOutCopyR(buf: array<Byte>, len: nat, recsize: nat, ghost queue: seq<seq<Byte>>) returns (m: nat, n: nat)
      requires Valid() && esize == 1 && 1 <= recsize <= 2 && buf != data && len <= buf.Length
      requires queue != [] && Fits(queue, recsize) && Contents() == Records(queue, recsize)
      modifies buf
      ensures n == |queue[0]| && m == |Front(queue[0], len)| <= len && buf[..] == Front(queue[0], len) + old(buf[m..])
    {
      hide Queue, RingRead, RingSize, Records, LengthIn, Pos, Bytes;
      BytesOne(Used());
      BytesOne(recsize);
      FirstRecord(queue, recsize);
      BytesOne(Used() - recsize);
      n := KfifoPeekN(recsize);
      m := len;
      if m > n {
        m := n;
      }
      BytesOne(m);
      QueueShrinks(data[..], outTotal, Used(), recsize, mask + 1, 1);
      QueueShrinks(data[..], outTotal + recsize, Used() - recsize, m, mask + 1, 1);
      StepIndex(outTotal, recsize);
      PosOfIndex(outTotal + recsize, mask + 1, 1);
      FrontIs(queue[0], Contents(), recsize, m);
      QueueReads(data[..], outTotal + recsize, m, mask + 1);
      KfifoCopyOut(buf, m, (out + recsize) % UINT32);
    }

    lemma QueueReads(d: seq<Byte>, total: nat, n: nat, size: nat)
      requires size >= 1 && |d| == Bytes(size, 1) && n <= size
      ensures Bytes(n, 1) == n && Queue(d, total, n, size, 1) == RingRead(d, Pos(total, size, 1), n)
    {
    }

    lemma FrontIs(r: seq<Byte>, c: seq<Byte>, recsize: nat, m: nat)
      requires recsize + |r| <= |c| && c[recsize..recsize + |r|] == r && m <= |r|
      ensures c[recsize..][..m] == r[..m] && r[..|r|] == r
    {
      assert c[recsize..][..m] == c[recsize..recsize + |r|][..m];
    }

    /** Moving the index past a record. */
    method DropRecord(n: nat, recsize: nat, ghost queue: seq<seq<Byte>>)
      requires Valid() && esize == 1 && 1 <= recsize <= 2 && queue != [] && n == |queue[0]|
      requires Fits(queue, recsize) && Contents() == Records(queue, recsize)
      modifies `out, `outTotal
      ensures Valid() && Contents() == Records(queue[1..], recsize)
    {
      hide Queue, RingRead, RingSize, Records, LengthIn;
      FirstRecord(queue, recsize);
      QueueShrinks(data[..], outTotal, Used(), n + recsize, mask + 1, 1);
      StepIndex(outTotal, n + recsize);
      out := (out + (n + recsize)) % UINT32;
      outTotal := outTotal + (n + recsize);
    }

    /** in == out exactly when nothing is queued. */
    lemma EmptyWhen(queue: seq<seq<Byte>>, recsize: nat)
      requires Valid() && esize == 1 && 1 <= recsize <= 2 && Contents() == Records(queue, recsize)
      ensures inn == out <==> queue == []
    {
      hide Queue, RingSize;
      var q := RingDivides(mask + 1);
      Distance(inTotal, outTotal);
    }

    /** __kfifo_out_r: a short read still drops the whole record. */
    method KfifoOutR(buf: array<Byte>, len: nat, recsize: nat, ghost queue: seq<seq<Byte>>) returns (m: nat)
      requires Valid() && esize == 1 && 1 <= recsize <= 2 && buf != data && len <= buf.Length
      requires Fits(queue, recsize) && Contents() == Records(queue, recsize)
      modifies `out, `outTotal, buf
      ensures Valid() && m <= len
      ensures if queue == [] then m == 0 && buf[..] == old(buf[..]) && Contents() == old(Contents())
        else buf[..m] == Front(queue[0], len) && buf[m..] == old(buf[m..]) && Contents() == Records(queue[1..], recsize)
    {
      hide Queue, RingSize, Records;
      EmptyWhen(queue, recsize);
      if inn == out {
        return 0;
      }
      var n;
      m, n := KfifoOutCopyR(buf, len, recsize, queue);
      DropRecord(n, recsize, queue);
    }

    /** __kfifo_out_peek_r */
    method KfifoOutPeekR(buf: array<Byte>, len: nat, recsize: nat, ghost queue: seq<seq<Byte>>) returns (m: nat)
      requires Valid() && esize == 1 && 1 <= recsize <= 2 && buf != data && len <= buf.Length
      requires Fits(queue, recsize) && Contents() == Records(queue, recsize)
      modifies buf
      ensures Valid() && m <= len && Contents() == old(Contents())
      ensures if queue == [] then m == 0 && buf[..] == old(buf[..]) else buf[..m] == Front(queue[0], len) && buf[m..] == old(buf[m..])
    {
      hide Queue, RingSize, Records;
      EmptyWhen(queue, recsize);
      if inn == out {
        return 0;
      }
      var n;
      m, n := KfifoOutCopyR(buf, len, recsize, queue);
    }

    /** __kfifo_skip_r */
    method KfifoSkipR(recsize: nat, ghost queue: seq<seq<Byte>>)
      requires Valid() && esize == 1 && 1 <= recsize <= 2 && queue != []
      requires Fits(queue, recsize) && Contents() == Records(queue, recsize)
      modifies `out, `outTotal
      ensures Valid() && Contents() == Records(queue[1..], recsize)
    {
      hide Queue, RingSize, Records;
      FirstRecord(queue, recsize);
      var n := KfifoPeekN(recsize);
      DropRecord(n, recsize, queue);
    }
  }
}
