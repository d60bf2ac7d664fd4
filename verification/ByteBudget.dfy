/** Why 21 bytes of input are enough for one LZMA symbol: every decision costs range, and
    every byte read pays for a 256-fold. */
module ByteBudget {
  import opened Words
  import opened RangeCoder

  const LZMA_IN_REQUIRED: nat := 21
  /** The worst symbol: a match with a long length and a far distance.  With a near distance
      there is one decision more, but no direct bit. */
  const MAX_BITS: nat := 22
  const MAX_DIRECT: nat := 26

  predicate Allowed(bits: nat, direct: nat) {
    (bits <= MAX_BITS && direct <= MAX_DIRECT) || (bits <= MAX_BITS + 1 && direct == 0)
  }

  function Pow(b: nat, n: nat): (p: nat)
    ensures b > 0 ==> p > 0
  {
    if n == 0 then 1 else b * Pow(b, n - 1)
  }

  /** What has been spent since the range was start: bytes read, and decisions of each kind. */
  datatype Meter = Meter(start: nat, base: nat, bytes: nat, bits: nat, direct: nat)

  /** Multiplication by repeated addition, which keeps the solver from multiplying out the
      meter wherever it is merely passed on. */
  function Times(a: nat, b: nat): nat
    decreases b
  {
    if b == 0 then 0 else a + Times(a, b - 1)
  }

  lemma {:induction false} TimesIs(a: nat, b: nat)
    ensures Times(a, b) == a * b
    decreases b
  {
    if b > 0 { TimesIs(a, b - 1); }
  }

  function Product3(a: nat, b: nat, c: nat): nat {
    Times(Times(a, b), c)
  }

  lemma Product3Is(a: nat, b: nat, c: nat)
    ensures Product3(a, b, c) == a * b * c
  {
    TimesIs(a, b);
    TimesIs(a * b, c);
  }

  /** The range that is left bounds what has been read. */
  ghost predicate Metered(range: nat, m: Meter) {
    && MIN_RANGE <= m.start
    && Product3(m.start, Pow(256, m.bytes), Pow(1024, m.direct)) <= Product3(range, Pow(67, m.bits), Pow(2049, m.direct))
  }

  lemma MeteredIs(range: nat, m: Meter)
    ensures Metered(range, m) <==>
      MIN_RANGE <= m.start && m.start * Pow(256, m.bytes) * Pow(1024, m.direct) <= range * Pow(67, m.bits) * Pow(2049, m.direct)
  {
    Product3Is(m.start, Pow(256, m.bytes), Pow(1024, m.direct));
    Product3Is(range, Pow(67, m.bits), Pow(2049, m.direct));
  }

  lemma MeterStart(range: nat, base: nat)
    requires MIN_RANGE <= range
    ensures Metered(range, Meter(range, base, 0, 0, 0))
  {
  }

  lemma Scale(a: nat, b: nat, c: nat, x: nat, y: nat, z: nat, k: nat)
    requires a * b * c <= x * y * z
    ensures a * (k * b) * c <= k * x * y * z
  {
    assert a * (k * b) * c == k * (a * b * c);
    assert k * x * y * z == k * (x * y * z);
    MulMonotone(a * b * c, x * y * z, k);
    assert (a * b * c) * k == k * (a * b * c) && (x * y * z) * k == k * (x * y * z);
  }

  /** Reading a byte. */
  lemma MeterByte(range: nat, m: Meter)
    requires Metered(range, m)
    ensures Metered(range * 256, m.(bytes := m.bytes + 1))
  {
    MeteredIs(range, m);
    MeteredIs(range * 256, m.(bytes := m.bytes + 1));
    Scale(m.start, Pow(256, m.bytes), Pow(1024, m.direct), range, Pow(67, m.bits), Pow(2049, m.direct), 256);
  }

  lemma Grow(x: nat, x': nat, y: nat, z: nat, k: nat)
    requires x <= k * x'
    ensures x * y * z <= x' * (k * y) * z
  {
    MulMonotone(x, k * x', y * z);
    assert x * y * z == x * (y * z);
    assert x' * (k * y) * z == (k * x') * (y * z);
  }

  /** A decision with a probability. */
  lemma MeterBit(range: nat, after: nat, m: Meter)
    requires Metered(range, m) && range <= 67 * after
    ensures Metered(after, m.(bits := m.bits + 1))
  {
    MeteredIs(range, m);
    MeteredIs(after, m.(bits := m.bits + 1));
    Grow(range, after, Pow(67, m.bits), Pow(2049, m.direct), 67);
  }

  lemma GrowBoth(s: nat, a: nat, b: nat, x: nat, x': nat, y: nat, z: nat)
    requires s * a * b <= x * y * z && 1024 * x <= 2049 * x'
    ensures s * a * (1024 * b) <= x' * y * (2049 * z)
  {
    MulMonotone(s * a * b, x * y * z, 1024);
    assert s * a * (1024 * b) == (s * a * b) * 1024;
    assert (x * y * z) * 1024 == (1024 * x) * (y * z);
    MulMonotone(1024 * x, 2049 * x', y * z);
    assert x' * y * (2049 * z) == (2049 * x') * (y * z);
  }

  /** A direct bit. */
  lemma MeterDirect(range: nat, after: nat, m: Meter)
    requires Metered(range, m) && 1024 * range <= 2049 * after
    ensures Metered(after, m.(direct := m.direct + 1))
  {
    MeteredIs(range, m);
    MeteredIs(after, m.(direct := m.direct + 1));
    GrowBoth(m.start, Pow(256, m.bytes), Pow(1024, m.direct), range, after, Pow(67, m.bits), Pow(2049, m.direct));
  }

  lemma {:induction false} PowMonotone(b: nat, m: nat, n: nat)
    requires m <= n && b > 0
    ensures Pow(b, m) <= Pow(b, n)
  {
    if m < n {
      PowMonotone(b, m, n - 1);
      MulMonotone(1, b, Pow(b, n - 1));
    }
  }

  lemma Associate(a: nat, b: nat, c: nat)
    ensures a * (b * c) == a * b * c
  {
  }

  lemma {:induction false} PowAdd(b: nat, m: nat, n: nat)
    ensures Pow(b, m + n) == Pow(b, m) * Pow(b, n)
  {
    if m > 0 {
      PowAdd(b, m - 1, n);
      Associate(b, Pow(b, m - 1), Pow(b, n));
    }
  }

  lemma PowDouble(b: nat, n: nat, v: nat)
    requires Pow(b, n) == v
    ensures Pow(b, 2 * n) == v * v
  {
    PowAdd(b, n, n);
  }

  lemma PowNext(b: nat, n: nat, v: nat)
    requires Pow(b, n) == v
    ensures Pow(b, n + 1) == b * v
  {
  }

  lemma PowBits()
    ensures Pow(67, 22) == 14915769363385151583217201855136979828889
  {
    assert Pow(67, 1) == 67;
    PowDouble(67, 1, 67);
    PowDouble(67, 2, 4489);
    PowNext(67, 4, 20151121);
    PowDouble(67, 5, 1350125107);
    PowNext(67, 10, 1822837804551761449);
    PowDouble(67, 11, 122130132904968017083);
  }

  lemma PowHalves()
    ensures Pow(2049, 26) == 125918899217518453633900958890597229544971886455227662021651800695729695023620478259201
  {
    assert Pow(2049, 1) == 2049;
    PowDouble(2049, 1, 2049);
    PowNext(2049, 2, 4198401);
    PowDouble(2049, 3, 8602523649);
    PowDouble(2049, 6, 74003413131604275201);
    PowNext(2049, 12, 5476505155126900077850207277180543590401);
    PowDouble(2049, 13, 11221359062855018259515074710942933816731649);
  }

  lemma PowWhole()
    ensures Pow(1024, 26) == 1852673427797059126777135760139006525652319754650249024631321344126610074238976
  {
    assert Pow(1024, 1) == 1024;
    PowDouble(1024, 1, 1024);
    PowNext(1024, 2, 1048576);
    PowDouble(1024, 3, 1073741824);
    PowDouble(1024, 6, 1152921504606846976);
    PowNext(1024, 12, 1329227995784915872903807060280344576);
    PowDouble(1024, 13, 1361129467683753853853498429727072845824);
  }

  lemma PowBytes()
    ensures Pow(256, 21) == 374144419156711147060143317175368453031918731001856
  {
    assert Pow(256, 1) == 256;
    PowDouble(256, 1, 256);
    PowDouble(256, 2, 65536);
    PowNext(256, 4, 4294967296);
    PowDouble(256, 5, 1099511627776);
    PowDouble(256, 10, 1208925819614629174706176);
    PowNext(256, 20, 1461501637330902918203684832716283019655932542976);
  }

  /** 22 decisions and 26 direct bits do not pay for 21 bytes and the need of one more. */
  lemma Numbers()
    ensures RC_TOP_VALUE * Pow(67, MAX_BITS) * Pow(2049, MAX_DIRECT) < MIN_RANGE * Pow(256, LZMA_IN_REQUIRED) * Pow(1024, MAX_DIRECT)
  {
    PowBits();
    PowHalves();
    PowWhole();
    PowBytes();
  }

  lemma RegroupTimes(a: nat, k: nat, x: nat)
    ensures a * (k * x) == k * (a * x)
  {
  }

  lemma {:induction false} MoreDirect(a: nat, b: nat, d: nat, e: nat)
    requires d <= e && a * Pow(1024, d) <= b * Pow(2049, d)
    ensures a * Pow(1024, e) <= b * Pow(2049, e)
  {
    if d < e {
      MoreDirect(a, b, d, e - 1);
      RegroupTimes(a, 1024, Pow(1024, e - 1));
      RegroupTimes(b, 2049, Pow(2049, e - 1));
    }
  }

  lemma Product(a: nat, b: nat, c: nat, d: nat)
    requires a <= c && b <= d
    ensures a * b <= c * d
  {
    MulMonotone(a, c, b);
    MulMonotone(b, d, c);
    assert b * c == c * b && d * c == c * d;
  }

  lemma ProductTimes(a: nat, b: nat, c: nat, d: nat, k: nat)
    requires a <= c && b <= d
    ensures a * b * k <= c * d * k
  {
    Product(a, b, c, d);
    MulMonotone(a * b, c * d, k);
  }

  /** What a symbol can spend at most. */
  lemma MostSpent(range: nat, m: Meter)
    requires Metered(range, m) && range < RC_TOP_VALUE && Allowed(m.bits, m.direct)
    ensures (m.start * Pow(256, m.bytes)) * Pow(1024, MAX_DIRECT) <= (RC_TOP_VALUE * Pow(67, MAX_BITS)) * Pow(2049, MAX_DIRECT)
  {
    hide Pow, Times;
    MeteredIs(range, m);
    var a := m.start * Pow(256, m.bytes);
    if m.bits <= MAX_BITS {
      PowMonotone(67, m.bits, MAX_BITS);
      ProductTimes(range, Pow(67, m.bits), RC_TOP_VALUE, Pow(67, MAX_BITS), Pow(2049, m.direct));
      MoreDirect(a, RC_TOP_VALUE * Pow(67, MAX_BITS), m.direct, MAX_DIRECT);
    } else {
      OneMore(a, range);
    }
  }

  /** One decision more costs less than 26 direct bits. */
  lemma OneMore(a: nat, range: nat)
    requires a * Pow(1024, 0) <= range * Pow(67, MAX_BITS + 1) * Pow(2049, 0) && range < RC_TOP_VALUE
    ensures a * Pow(1024, MAX_DIRECT) <= (RC_TOP_VALUE * Pow(67, MAX_BITS)) * Pow(2049, MAX_DIRECT)
  {
    PowHalves();
    PowWhole();
    PowBits();
    var p := Pow(67, MAX_BITS);
    assert Pow(67, MAX_BITS + 1) == 67 * p && Pow(1024, 0) == 1 && Pow(2049, 0) == 1;
    assert a <= 67 * p * RC_TOP_VALUE;
    MulMonotone(a, 67 * p * RC_TOP_VALUE, Pow(1024, MAX_DIRECT));
  }

  /** What 21 bytes are worth at least. */
  lemma LeastWorth(start: nat, bytes: nat)
    requires MIN_RANGE <= start && LZMA_IN_REQUIRED <= bytes
    ensures (MIN_RANGE * Pow(256, LZMA_IN_REQUIRED)) * Pow(1024, MAX_DIRECT) <= (start * Pow(256, bytes)) * Pow(1024, MAX_DIRECT)
  {
    hide Pow;
    PowMonotone(256, LZMA_IN_REQUIRED, bytes);
    ProductTimes(MIN_RANGE, Pow(256, LZMA_IN_REQUIRED), start, Pow(256, bytes), Pow(1024, MAX_DIRECT));
  }

  /** A range that needs one more byte has had at most 20, within the decisions of a symbol. */
  lemma BytesBounded(range: nat, m: Meter)
    requires Metered(range, m) && range < RC_TOP_VALUE && Allowed(m.bits, m.direct)
    ensures m.bytes < LZMA_IN_REQUIRED
  {
    if m.bytes >= LZMA_IN_REQUIRED {
      MostSpent(range, m);
      LeastWorth(m.start, m.bytes);
      Numbers();
    }
  }
}
