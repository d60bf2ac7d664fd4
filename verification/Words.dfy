/** Bytes and machine words as numbers, and the arithmetic they need. */
module Words {
  const UINT32: nat := 0x1_0000_0000

  type Byte = b: nat | b < 256

  /** A byte as a number that may grow. */
  function Num8(b: Byte): nat { b }

  function Min(a: nat, b: nat): nat { if a < b then a else b }

  function Pow2(n: nat): (p: nat)
    ensures p > 0
  {
    if n == 0 then 1 else 2 * Pow2(n - 1)
  }

  function Pow256(n: nat): (p: nat)
    ensures p > 0
  {
    if n == 0 then 1 else 256 * Pow256(n - 1)
  }

  lemma MulMonotone(a: nat, b: nat, p: nat)
    requires a <= b
    ensures a * p <= b * p
  {
    assert b * p == a * p + (b - a) * p;
  }

  lemma AtLeast(k: nat, m: nat)
    requires k >= 1
    ensures k * m >= m
  {
    assert k * m == (k - 1) * m + m;
  }

  /** Quotient and remainder are unique. */
  lemma RemainderIs(x: int, q: int, r: nat, m: nat)
    requires m > 0 && r < m && x == q * m + r
    ensures x % m == r
  {
    var q', r' := x / m, x % m;
    assert (q - q') * m == r' - r;
    if q > q' {
      AtLeast(q - q', m);
      assert false;
    } else if q < q' {
      assert (q' - q) * m == r - r';
      AtLeast(q' - q, m);
      assert false;
    }
  }

  lemma QuotientIs(x: nat, q: nat, r: nat, m: nat)
    requires m > 0 && r < m && x == q * m + r
    ensures x / m == q
  {
    RemainderIs(x, q, r, m);
    var q' := x / m;
    assert (q - q') * m == 0;
  }

  // ---- Little-endian numbers --------------------------------------------------------

  function Little(b: seq<Byte>): nat {
    if b == [] then 0 else b[0] + 256 * Little(b[1..])
  }

  function LittleBytes(n: nat, x: nat): (b: seq<Byte>)
    ensures |b| == n
  {
    if n == 0 then [] else [x % 256] + LittleBytes(n - 1, x / 256)
  }

  lemma {:induction false} LittleThere(b: seq<Byte>)
    ensures LittleBytes(|b|, Little(b)) == b
  {
    if b != [] {
      LittleThere(b[1..]);
      LowDigit(b[0], Little(b[1..]));
    }
  }

  lemma LowDigit(a: nat, x: nat)
    requires a < 256
    ensures (a + 256 * x) % 256 == a && (a + 256 * x) / 256 == x
  {
  }

  lemma {:induction false} LittleBack(n: nat, x: nat)
    requires x < Pow256(n)
    ensures Little(LittleBytes(n, x)) == x
  {
    if n > 0 {
      LittleBack(n - 1, x / 256);
      assert LittleBytes(n, x)[1..] == LittleBytes(n - 1, x / 256);
    }
  }

  lemma {:induction false} LittleBound(b: seq<Byte>)
    ensures Little(b) < Pow256(|b|)
  {
    if b != [] {
      LittleBound(b[1..]);
    }
  }

  lemma {:induction false} LittleJoin(a: seq<Byte>, b: seq<Byte>)
    ensures Little(a + b) == Little(a) + Pow256(|a|) * Little(b)
  {
    if a == [] {
      assert a + b == b;
    } else {
      LittleJoin(a[1..], b);
      assert (a + b)[1..] == a[1..] + b;
      RegroupLittle(Pow256(|a| - 1), Little(b));
    }
  }

  lemma RegroupLittle(m: nat, x: nat)
    ensures 256 * (m * x) == 256 * m * x
  {
  }

  lemma Regroup<T>(a: seq<T>, b: seq<T>, c: seq<T>)
    ensures a + (b + c) == (a + b) + c
  {
  }

  lemma DivideTwice(x: nat, m: nat)
    requires m >= 1
    ensures x / 256 / m == x / (256 * m)
  {
    var u := x / 256;
    var q, r := u / m, u % m;
    assert x == q * (256 * m) + (256 * r + x % 256) by { assert 256 * (q * m) == q * (256 * m); }
    QuotientIs(x, q, 256 * r + x % 256, 256 * m);
  }
}
