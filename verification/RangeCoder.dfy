/** The adaptive binary range coder of LZMA, on values.

    One decision with probability p of being 0 splits the current interval; the decoder
    compares its code with the split.  Which codes lead to a given string of decisions is
    stated from the encoder's side, as an interval. */
module RangeCoder {
  import opened Words

  const RC_TOP_VALUE: nat := 0x100_0000
  const RC_BIT_MODEL_TOTAL: nat := 2048
  /** The probabilities that adapting can reach. */
  type Prob = p: nat | 31 <= p <= 2017 witness 1024

  /** The narrowest range a decision can leave, from a normalised one. */
  const MIN_RANGE: nat := 31 * 0x2000

  function ProbUp(p: Prob): Prob { p + (RC_BIT_MODEL_TOTAL - p) / 32 }
  function ProbDown(p: Prob): Prob { p - p / 32 }

  /** What the range decoder holds, with the bytes it has still to read. */
  datatype Coder = Coder(range: nat, code: nat, input: seq<Byte>)

  predicate Sound(c: Coder) {
    MIN_RANGE <= c.range < UINT32 && c.code < UINT32
  }

  /** rc_normalize; one shift is always enough. */
  function Normal(c: Coder): (d: Coder)
    requires Sound(c) && (c.range < RC_TOP_VALUE ==> c.input != [])
    ensures Sound(d) && RC_TOP_VALUE <= d.range
    ensures c.code < c.range ==> d.code < d.range
  {
    if c.range < RC_TOP_VALUE then Coder(c.range * 256, (c.code * 256 + c.input[0]) % UINT32, c.input[1..]) else c
  }

  /** Neither part of a split range is less than a 67th of it. */
  lemma SplitParts(range: nat, p: Prob)
    requires RC_TOP_VALUE <= range < UINT32
    ensures var b := range / RC_BIT_MODEL_TOTAL * p;
      MIN_RANGE <= b && MIN_RANGE <= range - b && range <= 67 * b && range <= 67 * (range - b)
  {
    var q := range / RC_BIT_MODEL_TOTAL;
    MulMonotone(31, p, q);
    MulMonotone(p, 2017, q);
    assert q * p == p * q;
  }

  /** The split of a normalised range. */
  function Bound(range: nat, p: Prob): (b: nat)
    requires RC_TOP_VALUE <= range < UINT32
    ensures MIN_RANGE <= b && MIN_RANGE <= range - b
    ensures range <= 67 * b && range <= 67 * (range - b)
  {
    SplitParts(range, p);
    range / RC_BIT_MODEL_TOTAL * p
  }

  function BitOf(c: Coder, p: Prob): bool
    requires Sound(c) && (c.range < RC_TOP_VALUE ==> c.input != [])
  {
    Normal(c).code >= Bound(Normal(c).range, p)
  }

  /** The state after a decision. */
  function Decided(c: Coder, p: Prob): (d: Coder)
    requires Sound(c) && (c.range < RC_TOP_VALUE ==> c.input != [])
    ensures Sound(d) && |c.input| - 1 <= |d.input| <= |c.input|
    ensures c.code < c.range ==> d.code < d.range
  {
    var n := Normal(c);
    var b := Bound(n.range, p);
    if n.code < b then n.(range := b) else n.(range := n.range - b, code := n.code - b)
  }

  function Adapted(p: Prob, bit: bool): Prob {
    if bit then ProbDown(p) else ProbUp(p)
  }

  /** A probability after a run of equal decisions. */
  function AdaptedBy(p: Prob, bit: bool, n: nat): Prob
    decreases n
  {
    if n == 0 then p else AdaptedBy(Adapted(p, bit), bit, n - 1)
  }

  /** A decision moves the probability a 32nd of the way to its end, rounded towards where it
      was. */
  lemma AdaptedIs(p: Prob, bit: bool)
    ensures var q := Adapted(p, bit); if bit then 32 * (p - q) <= p < 32 * (p - q) + 32 else 32 * (q - p) <= 2048 - p < 32 * (q - p) + 32
  {
  }

  /** From wherever it was, a run of 1s takes the probability of a 0 down to 31 and a run of
      0s takes it up to 2017, and there it stays. */
  lemma {:induction false} AdaptedReaches(p: Prob, bit: bool, n: nat)
    requires n >= if bit then p - 31 else 2017 - p
    ensures AdaptedBy(p, bit, n) == if bit then 31 else 2017
    decreases n
  {
    if n > 0 { AdaptedReaches(Adapted(p, bit), bit, n - 1); }
  }

  // ---- Strings of decisions -------------------------------------------------------

  /** An adaptive model: the probability of the next decision, given those before it. */
  type Model = seq<bool> -> Prob

  /** The next n decisions. */
  function Decisions(c: Coder, m: Model, before: seq<bool>, n: nat): (bits: seq<bool>)
    requires Sound(c) && n <= |c.input|
    ensures |bits| == n
    decreases n
  {
    if n == 0 then []
    else
      var bit := BitOf(c, m(before));
      [bit] + Decisions(Decided(c, m(before)), m, before + [bit], n - 1)
  }

  function Num(bytes: seq<Byte>): (x: nat)
    ensures x < Pow256(|bytes|)
  {
    if bytes == [] then 0
    else
      MulMonotone(bytes[0], 255, Pow256(|bytes| - 1));
      bytes[0] * Pow256(|bytes| - 1) + Num(bytes[1..])
  }

  /** The code with all the bytes that will ever be shifted into it. */
  function Whole(c: Coder): nat {
    c.code * Pow256(|c.input|) + Num(c.input)
  }

  /** An encoder's interval: its width, and how many bytes are yet to come. */
  datatype Width = Width(range: nat, left: nat)

  predicate SoundWidth(w: Width) {
    MIN_RANGE <= w.range < UINT32
  }

  function Wide(w: Width): (d: Width)
    requires SoundWidth(w) && (w.range < RC_TOP_VALUE ==> w.left > 0)
    ensures SoundWidth(d) && RC_TOP_VALUE <= d.range
  {
    if w.range < RC_TOP_VALUE then Width(w.range * 256, w.left - 1) else w
  }

  /** Encoding one decision: the low end moves up past the part for 0, or the range shrinks
      to that part. */
  function Low(w: Width, p: Prob, bit: bool): nat
    requires SoundWidth(w) && w.left > 0
  {
    if bit then Bound(Wide(w).range, p) * Pow256(Wide(w).left) else 0
  }

  function Narrow(w: Width, p: Prob, bit: bool): (d: Width)
    requires SoundWidth(w) && w.left > 0
    ensures SoundWidth(d) && w.left - 1 <= d.left
  {
    var b := Bound(Wide(w).range, p);
    Wide(w).(range := if bit then Wide(w).range - b else b)
  }

  /** Encoding a string of decisions. */
  function LowOf(w: Width, m: Model, before: seq<bool>, bits: seq<bool>): nat
    requires SoundWidth(w) && |bits| <= w.left
    decreases |bits|
  {
    if bits == [] then 0
    else Low(w, m(before), bits[0]) + LowOf(Narrow(w, m(before), bits[0]), m, before + [bits[0]], bits[1..])
  }

  function WidthOf(w: Width, m: Model, before: seq<bool>, bits: seq<bool>): (d: Width)
    requires SoundWidth(w) && |bits| <= w.left
    ensures SoundWidth(d)
    decreases |bits|
  {
    if bits == [] then w
    else WidthOf(Narrow(w, m(before), bits[0]), m, before + [bits[0]], bits[1..])
  }

  function Size(w: Width): nat {
    w.range * Pow256(w.left)
  }

  function WidthHere(c: Coder): Width { Width(c.range, |c.input|) }

  lemma Shift(a: nat, b: nat, p: nat)
    ensures (a * 256 + b) * p == a * (256 * p) + b * p
    ensures b == 0 ==> a * 256 * p == a * (256 * p)
  {
    assert a * 256 * p == a * (256 * p);
    assert (a * 256 + b) * p == a * 256 * p + b * p;
  }

  /** Shifting in a byte changes neither the whole code nor the size of the interval. */
  lemma NormalWhole(c: Coder)
    requires Sound(c) && c.input != [] && c.code < c.range
    ensures Whole(Normal(c)) == Whole(c) && WidthHere(Normal(c)) == Wide(WidthHere(c)) && Size(Wide(WidthHere(c))) == Size(WidthHere(c))
  {
    if c.range < RC_TOP_VALUE {
      var p := Pow256(|c.input| - 1);
      Shift(c.code, c.input[0], p);
      Shift(c.range, 0, p);
      assert (c.code * 256 + c.input[0]) % UINT32 == c.code * 256 + c.input[0];
    }
  }

  /** One decision: 0 is for the codes below the split. */
  lemma Split(code: nat, rest: nat, bound: nat, p: nat)
    requires p > 0 && rest < p
    ensures code < bound <==> code * p + rest < bound * p
    ensures code >= bound ==> (code - bound) * p + rest == code * p + rest - bound * p
  {
    if code < bound {
      assert (code + 1) * p <= bound * p by { MulMonotone(code + 1, bound, p); }
      assert (code + 1) * p == code * p + p;
    } else {
      MulMonotone(bound, code, p);
      assert (code - bound) * p == code * p - bound * p;
    }
  }

  lemma DecidedWhole(c: Coder, p: Prob)
    requires Sound(c) && c.input != [] && c.code < c.range
    ensures BitOf(c, p) <==> Whole(c) >= Low(WidthHere(c), p, true)
    ensures Whole(Decided(c, p)) == Whole(c) - Low(WidthHere(c), p, BitOf(c, p))
    ensures WidthHere(Decided(c, p)) == Narrow(WidthHere(c), p, BitOf(c, p))
  {
    NormalWhole(c);
    var n := Normal(c);
    Split(n.code, Num(n.input), Bound(n.range, p), Pow256(|n.input|));
  }

  /** The parts for 0 and 1 make up the interval. */
  lemma NarrowSize(w: Width, p: Prob)
    requires SoundWidth(w) && w.left > 0
    ensures Size(Narrow(w, p, false)) == Low(w, p, true)
    ensures Low(w, p, true) + Size(Narrow(w, p, true)) == Size(w)
  {
    var d := Wide(w);
    var b := Bound(d.range, p);
    var q := Pow256(d.left);
    assert b * q + (d.range - b) * q == d.range * q;
    assert w.range < RC_TOP_VALUE ==> w.range * (256 * q) == w.range * 256 * q;
  }

  lemma {:induction false} WidthInside(w: Width, m: Model, before: seq<bool>, bits: seq<bool>)
    requires SoundWidth(w) && |bits| <= w.left
    ensures LowOf(w, m, before, bits) + Size(WidthOf(w, m, before, bits)) <= Size(w)
    decreases |bits|
  {
    if bits != [] {
      NarrowSize(w, m(before));
      WidthInside(Narrow(w, m(before), bits[0]), m, before + [bits[0]], bits[1..]);
    }
  }

  /** The codes that decode to a given string are exactly those of the encoder's interval. */
  lemma {:induction false} Interval(c: Coder, m: Model, before: seq<bool>, bits: seq<bool>)
    requires Sound(c) && |bits| <= |c.input| && c.code < c.range
    ensures Decisions(c, m, before, |bits|) == bits <==>
      LowOf(WidthHere(c), m, before, bits) <= Whole(c) < LowOf(WidthHere(c), m, before, bits) + Size(WidthOf(WidthHere(c), m, before, bits))
    decreases |bits|
  {
    if bits == [] {
      WholeInside(c);
    } else {
      var p := m(before);
      var bit := BitOf(c, p);
      DecidedWhole(c, p);
      var rest := Decisions(Decided(c, p), m, before + [bit], |bits| - 1);
      assert Decisions(c, m, before, |bits|) == [bit] + rest;
      assert bits == [bits[0]] + bits[1..];
      if bit == bits[0] {
        Interval(Decided(c, p), m, before + [bit], bits[1..]);
        assert Decisions(c, m, before, |bits|) == bits <==> rest == bits[1..];
      } else {
        assert Decisions(c, m, before, |bits|)[0] != bits[0];
        NarrowSize(WidthHere(c), p);
        WidthInside(Narrow(WidthHere(c), p, bits[0]), m, before + [bits[0]], bits[1..]);
      }
    }
  }

  lemma WholeInside(c: Coder)
    requires c.code < c.range
    ensures Whole(c) < Size(WidthHere(c))
  {
    Split(c.code, Num(c.input), c.range, Pow256(|c.input|));
  }

  /** The intervals of different strings of the same length do not meet. */
  lemma Disjoint(c: Coder, m: Model, bits: seq<bool>, other: seq<bool>)
    requires Sound(c) && |bits| == |other| <= |c.input| && c.code < c.range && bits != other
    requires LowOf(WidthHere(c), m, [], bits) <= Whole(c) < LowOf(WidthHere(c), m, [], bits) + Size(WidthOf(WidthHere(c), m, [], bits))
    ensures !(LowOf(WidthHere(c), m, [], other) <= Whole(c) < LowOf(WidthHere(c), m, [], other) + Size(WidthOf(WidthHere(c), m, [], other)))
  {
    Interval(c, m, [], bits);
    Interval(c, m, [], other);
  }
}
