/** A ring of bytes, and indices that run on and wrap at 32 bits. */
module KfifoRing {
  import opened Words

  function Wrap(x: nat, m: nat): (y: nat)
    requires x < 2 * m
    ensures y < m
  {
    if x < m then x else x - m
  }

  /** The n bytes from p on, around the end. */
  function RingRead(d: seq<Byte>, p: nat, n: nat): (r: seq<Byte>)
    requires p < |d| && n <= |d|
    ensures |r| == n
  {
    if p + n <= |d| then d[p..p + n] else d[p..] + d[..p + n - |d|]
  }

  /** The ring with x written from p on, around the end. */
  function RingWrite(d: seq<Byte>, p: nat, x: seq<Byte>): (e: seq<Byte>)
    requires p < |d| && |x| <= |d|
    ensures |e| == |d|
  {
    var l := |d| - p;
    if |x| <= l then d[..p] + x + d[p + |x|..] else x[l..] + d[|x| - l..p] + x[..l]
  }

  lemma ReadAt(d: seq<Byte>, p: nat, n: nat, k: nat)
    requires p < |d| && n <= |d| && k < n
    ensures RingRead(d, p, n)[k] == d[Wrap(p + k, |d|)]
  {
  }

  /** How far i is after p. */
  function Ahead(p: nat, i: nat, m: nat): (k: nat)
    requires p < m && i < m
    ensures k < m && Wrap(p + k, m) == i
  {
    if p <= i then i - p else i + m - p
  }

  lemma WriteAt(d: seq<Byte>, p: nat, x: seq<Byte>, i: nat)
    requires p < |d| && |x| <= |d| && i < |d|
    ensures RingWrite(d, p, x)[i] == if Ahead(p, i, |d|) < |x| then x[Ahead(p, i, |d|)] else d[i]
  {
  }

  /** Writing behind what is there adds to it. */
  lemma Append(d: seq<Byte>, p: nat, m: nat, x: seq<Byte>)
    requires p < |d| && m + |x| <= |d|
    ensures RingRead(RingWrite(d, Wrap(p + m, |d|), x), p, m + |x|) == RingRead(d, p, m) + x
  {
    hide RingRead, RingWrite;
    var q := Wrap(p + m, |d|);
    var e := RingWrite(d, q, x);
    forall k | 0 <= k < m + |x|
      ensures RingRead(e, p, m + |x|)[k] == (RingRead(d, p, m) + x)[k]
    {
      ReadAt(e, p, m + |x|, k);
      WriteAt(d, q, x, Wrap(p + k, |d|));
      if k < m {
        ReadAt(d, p, m, k);
      }
    }
  }

  /** What was read is at the front; what follows is further on. */
  lemma Advance(d: seq<Byte>, p: nat, n: nat, m: nat)
    requires p < |d| && n <= m <= |d|
    ensures RingRead(d, p, n) == RingRead(d, p, m)[..n]
    ensures RingRead(d, Wrap(p + n, |d|), m - n) == RingRead(d, p, m)[n..]
  {
    hide RingRead;
    var q := Wrap(p + n, |d|);
    forall k | 0 <= k < n
      ensures RingRead(d, p, n)[k] == RingRead(d, p, m)[..n][k]
    {
      ReadAt(d, p, n, k);
      ReadAt(d, p, m, k);
    }
    forall k | 0 <= k < m - n
      ensures RingRead(d, q, m - n)[k] == RingRead(d, p, m)[n..][k]
    {
      ReadAt(d, q, m - n, k);
      ReadAt(d, p, m, n + k);
      assert Wrap(q + k, |d|) == Wrap(p + (n + k), |d|);
    }
  }

  /** Two pieces written one behind the other. */
  lemma WriteOn(d: seq<Byte>, p: nat, h: seq<Byte>, x: seq<Byte>)
    requires p < |d| && |h| + |x| <= |d|
    ensures RingWrite(RingWrite(d, p, h), Wrap(p + |h|, |d|), x) == RingWrite(d, p, h + x)
  {
    hide RingWrite;
    var q := Wrap(p + |h|, |d|);
    var e := RingWrite(d, p, h);
    forall i | 0 <= i < |d|
      ensures RingWrite(e, q, x)[i] == RingWrite(d, p, h + x)[i]
    {
      WriteAt(e, q, x, i);
      WriteAt(d, p, h, i);
      WriteAt(d, p, h + x, i);
    }
  }

  // ---- Sizes that are powers of two -----------------------------------------------

  /** A ring size: a power of two, at least two, that a 32-bit index can span. */
  ghost predicate RingSize(size: nat) {
    exists e: nat :: 1 <= e <= 31 && size == Pow2(e)
  }

  lemma {:induction false} PowerDivides(e: nat, f: nat)
    requires e <= f
    ensures Pow2(f) == Pow2(f - e) * Pow2(e)
  {
    if e > 0 {
      PowerDivides(e - 1, f - 1);
      Shuffle(Pow2(f - e), Pow2(e - 1));
    }
  }

  lemma Shuffle(a: nat, b: nat)
    ensures 2 * (a * b) == a * (2 * b)
  {
  }

  lemma PowerOf32()
    ensures Pow2(32) == UINT32
  {
    assert Pow2(8) == 256 by { assert Pow2(4) == 16; }
    PowerDivides(8, 16);
    PowerDivides(16, 32);
  }

  /** The range of the indices is a whole number of rings. */
  lemma RingDivides(size: nat) returns (q: nat)
    requires RingSize(size)
    ensures UINT32 == q * size && 2 <= size <= UINT32 / 2
  {
    var e: nat :| 1 <= e <= 31 && size == Pow2(e);
    PowerOf32();
    PowerDivides(e, 32);
    PowerDivides(1, e);
    PowerDivides(e, 31);
    q := Pow2(32 - e);
    assert Pow2(32) == 2 * Pow2(31);
    assert Pow2(e) >= 2 by { assert Pow2(1) == 2; }
    AtLeast(Pow2(31 - e), Pow2(e));
  }

  // ---- Indices --------------------------------------------------------------------

  /** Where an index that has wrapped points is where it would point had it not. */
  lemma IndexWraps(total: nat, size: nat, q: nat)
    requires size > 0 && UINT32 == q * size
    ensures total % UINT32 % size == total % size
  {
    var a, b := total / UINT32, total % UINT32;
    var c, r := b / size, b % size;
    assert total == a * (q * size) + (c * size + r);
    WholeRings(a, q, size, c, r);
  }

  lemma WholeRings(a: nat, q: nat, size: nat, c: nat, r: nat)
    requires r < size
    ensures (a * (q * size) + (c * size + r)) % size == r
  {
    Flatten(a, q, size, c);
    RemainderIs(a * (q * size) + (c * size + r), a * q + c, r, size);
  }

  lemma Flatten(a: nat, q: nat, m: nat, c: nat)
    ensures a * (q * m) + c * m == (a * q + c) * m
  {
  }

  lemma IndexAdvances(total: nat, n: nat, size: nat)
    requires size > 0 && n <= size
    ensures (total + n) % size == if n == size then total % size else Wrap(total % size + n, size)
  {
    var q, r := total / size, total % size;
    assert total == q * size + r;
    if r + n < size {
      RemainderIs(total + n, q, r + n, size);
    } else {
      assert total + n == (q + 1) * size + (r + n - size);
      RemainderIs(total + n, q + 1, r + n - size, size);
    }
  }

  /** The distance between indices that have wrapped. */
  lemma Distance(inTotal: nat, outTotal: nat)
    requires outTotal <= inTotal < outTotal + UINT32
    ensures (inTotal % UINT32 - outTotal % UINT32) % UINT32 == inTotal - outTotal
  {
    var a, b := inTotal / UINT32, outTotal / UINT32;
    assert inTotal % UINT32 - outTotal % UINT32 == inTotal - outTotal + UINT32 * (b - a);
  }

  lemma StepIndex(total: nat, n: nat)
    ensures (total % UINT32 + n) % UINT32 == (total + n) % UINT32
  {
  }

  lemma IndexMoves(total: nat, n: nat, size: nat)
    requires RingSize(size) && n <= size
    ensures total % UINT32 % size < size
    ensures (total + n) % UINT32 % size == Wrap(total % UINT32 % size + n, size)
  {
    var q := RingDivides(size);
    IndexWraps(total, size, q);
    IndexWraps(total + n, size, q);
    IndexAdvances(total, n, size);
  }

  lemma MulLess(a: nat, b: nat, m: nat)
    requires a < b && m >= 1
    ensures a * m < b * m
  {
    assert b * m == a * m + (b - a) * m;
    AtLeast(b - a, m);
  }

  lemma ScaledWrap(r: nat, n: nat, size: nat, esize: nat)
    requires r < size && n <= size && esize >= 1
    ensures r * esize < size * esize && n * esize <= size * esize
    ensures Wrap(r + n, size) * esize == Wrap(r * esize + n * esize, size * esize)
  {
    MulLess(r, size, esize);
    MulMonotone(n, size, esize);
    assert (r + n) * esize == r * esize + n * esize;
    if r + n >= size {
      assert (r + n - size) * esize == r * esize + n * esize - size * esize;
      MulMonotone(size, r + n, esize);
    } else {
      MulLess(r + n, size, esize);
    }
  }

  // ---- A queue of elements in a ring of bytes -------------------------------------

  /** The size of some elements in bytes. */
  function Bytes(n: nat, esize: nat): nat { n * esize }

  lemma BytesAdd(a: nat, b: nat, esize: nat)
    ensures Bytes(a + b, esize) == Bytes(a, esize) + Bytes(b, esize)
  {
  }

  lemma BytesWithin(n: nat, size: nat, esize: nat)
    requires n <= size
    ensures Bytes(n, esize) <= Bytes(size, esize)
  {
    MulMonotone(n, size, esize);
  }

  /** Where an index that has wrapped points in a buffer of bytes. */
  function Pos(total: nat, size: nat, esize: nat): (p: nat)
    requires size >= 1 && esize >= 1
    ensures p < Bytes(size, esize)
  {
    MulLess(total % UINT32 % size, size, esize);
    Bytes(total % UINT32 % size, esize)
  }

  lemma PosMoves(total: nat, n: nat, size: nat, esize: nat)
    requires RingSize(size) && size >= 1 && esize >= 1 && n <= size
    ensures Bytes(n, esize) <= Bytes(size, esize)
    ensures Pos(total + n, size, esize) == Wrap(Pos(total, size, esize) + Bytes(n, esize), Bytes(size, esize))
  {
    hide Wrap, RingSize;
    IndexMoves(total, n, size);
    ScaledWrap(total % UINT32 % size, n, size, esize);
  }

  /** The bytes of some elements from an index on. */
  function Queue(d: seq<Byte>, total: nat, used: nat, size: nat, esize: nat): (q: seq<Byte>)
    requires size >= 1 && esize >= 1 && |d| == Bytes(size, esize) && used <= size
    ensures |q| == Bytes(used, esize)
  {
    BytesWithin(used, size, esize);
    RingRead(d, Pos(total, size, esize), Bytes(used, esize))
  }

  /** What is written behind a queue joins it when the index moves on. */
  lemma QueueGrows(d: seq<Byte>, total: nat, used: nat, n: nat, x: seq<Byte>, size: nat, esize: nat)
    requires RingSize(size) && size >= 1 && esize >= 1 && |d| == Bytes(size, esize) && used + n <= size && |x| == Bytes(n, esize)
    ensures |x| <= |d|
    ensures Queue(RingWrite(d, Pos(total + used, size, esize), x), total, used + n, size, esize) == Queue(d, total, used, size, esize) + x
  {
    hide RingRead, RingWrite, Pos, Bytes, RingSize;
    BytesAdd(used, n, esize);
    BytesWithin(used + n, size, esize);
    PosMoves(total, used, size, esize);
    Append(d, Pos(total, size, esize), Bytes(used, esize), x);
  }

  /** What is left of a queue when the index moves on, and what is gone. */
  lemma QueueShrinks(d: seq<Byte>, total: nat, used: nat, n: nat, size: nat, esize: nat)
    requires RingSize(size) && size >= 1 && esize >= 1 && |d| == Bytes(size, esize) && n <= used <= size
    ensures Bytes(n, esize) <= Bytes(used, esize)
    ensures Queue(d, total, n, size, esize) == Queue(d, total, used, size, esize)[..Bytes(n, esize)]
    ensures Queue(d, total + n, used - n, size, esize) == Queue(d, total, used, size, esize)[Bytes(n, esize)..]
  {
    hide RingRead, Pos, Bytes, RingSize;
    BytesAdd(n, used - n, esize);
    BytesWithin(used, size, esize);
    PosMoves(total, n, size, esize);
    Advance(d, Pos(total, size, esize), Bytes(n, esize), Bytes(used, esize));
  }

  /** The power of two matters: an index that wraps goes on pointing where it should for all
      counts exactly when the range of the indices is a whole number of rings. */
  lemma PowerMatters(size: nat)
    requires size > 0
    ensures (forall total: nat :: total % UINT32 % size == total % size) <==> UINT32 % size == 0
  {
    if UINT32 % size == 0 {
      var q := UINT32 / size;
      assert UINT32 == q * size;
      forall total: nat
        ensures total % UINT32 % size == total % size
      {
        IndexWraps(total, size, q);
      }
    } else {
      var total: nat := UINT32;
      RemainderIs(total, 1, 0, UINT32);
      RemainderIs(0, 0, 0, size);
      assert total % UINT32 % size == 0;
    }
  }
}
