/** Polynomials over the field of two elements, as strings of coefficients with the highest
    first, and their division. */
module Gf2 {
  type Bits = seq<bool>

  function Xor(a: Bits, b: Bits): (c: Bits)
    requires |a| == |b|
    ensures |c| == |a|
    ensures forall i | 0 <= i < |a| :: c[i] == (a[i] != b[i])
  {
    seq(|a|, i requires 0 <= i < |a| => a[i] != b[i])
  }

  function Zeros(n: nat): (z: Bits)
    ensures |z| == n
    ensures forall i | 0 <= i < n :: !z[i]
  {
    seq(n, i => false)
  }

  /** p where b is set, and nothing where it is not. */
  function If(b: bool, p: Bits): (q: Bits)
    ensures |q| == |p|
  {
    if b then p else Zeros(|p|)
  }

  // ---- Division ---------------------------------------------------------------------

  /** The dividend after a step of long division: the divisor is taken off if the leading
      coefficient is one, and that coefficient is dropped. */
  function Brought(m: Bits, p: Bits): (b: Bits)
    requires |m| > |p|
    ensures |b| == |m| - 1
    ensures forall i | 0 <= i < |b| :: b[i] == (m[i + 1] != (If(m[0], p) + Zeros(|m| - 1 - |p|))[i])
  {
    Xor(m[1..|p| + 1], If(m[0], p)) + m[|p| + 1..]
  }

  /** Long division by the monic polynomial x^n + p: the remainder, of n coefficients. */
  function Remainder(m: Bits, p: Bits): (r: Bits)
    requires |m| >= |p|
    ensures |r| == |p|
    decreases |m|
  {
    if |m| == |p| then m else Remainder(Brought(m, p), p)
  }

  function Quotient(m: Bits, p: Bits): (q: Bits)
    requires |m| >= |p|
    ensures |q| == |m| - |p|
    decreases |m|
  {
    if |m| == |p| then [] else [m[0]] + Quotient(Brought(m, p), p)
  }

  /** The product of q and x^n + p. */
  function Product(q: Bits, p: Bits): (m: Bits)
    ensures |m| == |q| + |p|
  {
    if q == [] then Zeros(|p|)
    else [q[0]] + Xor(If(q[0], p) + Zeros(|q| - 1), Product(q[1..], p))
  }

  /** Dividend is quotient times divisor and remainder. */
  lemma {:induction false} DivisionHolds(m: Bits, p: Bits)
    requires |m| >= |p|
    ensures m == Xor(Product(Quotient(m, p), p), Zeros(|m| - |p|) + Remainder(m, p))
    decreases |m|
  {
    hide Brought, Xor, Zeros;
    if |m| == |p| {
      SumOfNothing(m, Zeros(|p|));
    } else {
      var rest := Brought(m, p);
      DivisionHolds(rest, p);
      var q, r := Quotient(rest, p), Remainder(m, p);
      assert ([m[0]] + q)[1..] == q;
      Reassemble(m, p, Product(q, p), r);
    }
  }

  lemma SumOfNothing(m: Bits, z: Bits)
    requires z == Zeros(|m|)
    ensures Xor(z, Zeros(0) + m) == m
  {
  }

  lemma Reassemble(m: Bits, p: Bits, product: Bits, r: Bits)
    requires |m| > |p| == |r| && |product| == |m| - 1
    requires Brought(m, p) == Xor(product, Zeros(|m| - 1 - |p|) + r)
    ensures m == Xor([m[0]] + Xor(If(m[0], p) + Zeros(|m| - 1 - |p|), product), Zeros(|m| - |p|) + r)
  {
    hide Brought, Xor;
    var rest := Brought(m, p);
    var s := If(m[0], p) + Zeros(|m| - 1 - |p|);
    var z, w := Zeros(|m| - 1 - |p|) + r, Zeros(|m| - |p|) + r;
    var all := Xor([m[0]] + Xor(s, product), w);
    forall i | 0 <= i < |m|
      ensures m[i] == all[i]
    {
      if i > 0 {
        assert w[i] == z[i - 1];
        assert rest[i - 1] == (product[i - 1] != z[i - 1]);
        assert rest[i - 1] == (m[i] != s[i - 1]);
      }
    }
  }

  /** The remainder is the only one: whatever quotient and n coefficients make up the dividend,
      they are those of the division. */
  lemma {:induction false} DivisionUnique(m: Bits, p: Bits, q: Bits, r: Bits)
    requires |m| == |q| + |p| && |r| == |p| && m == Xor(Product(q, p), Zeros(|q|) + r)
    ensures q == Quotient(m, p) && r == Remainder(m, p)
    decreases |q|
  {
    hide Brought, Xor, Zeros, Remainder, Quotient, Product;
    if q == [] {
      UniqueBase(m, p, r);
    } else {
      UniqueStep(m, p, q, r);
      DivisionUnique(Brought(m, p), p, q[1..], r);
      OneStep(m, p);
      assert [q[0]] + q[1..] == q;
    }
  }

  lemma OneStep(m: Bits, p: Bits)
    requires |m| > |p|
    ensures Quotient(m, p) == [m[0]] + Quotient(Brought(m, p), p) && Remainder(m, p) == Remainder(Brought(m, p), p)
  {
  }

  lemma UniqueBase(m: Bits, p: Bits, r: Bits)
    requires |m| == |p| == |r| && m == Xor(Product([], p), Zeros(0) + r)
    ensures [] == Quotient(m, p) && r == Remainder(m, p)
  {
    SumOfNothing(r, Zeros(|p|));
  }

  lemma ProductStep(q: Bits, p: Bits)
    requires q != []
    ensures Product(q, p) == [q[0]] + Xor(If(q[0], p) + Zeros(|q| - 1), Product(q[1..], p))
  {
  }

  lemma UniqueStep(m: Bits, p: Bits, q: Bits, r: Bits)
    requires q != [] && |m| == |q| + |p| && |r| == |p| && m == Xor(Product(q, p), Zeros(|q|) + r)
    ensures m[0] == q[0] && Brought(m, p) == Xor(Product(q[1..], p), Zeros(|q| - 1) + r)
  {
    hide Brought, Xor, Zeros, Product, If;
    var s := If(q[0], p) + Zeros(|q| - 1);
    var inner, whole := Product(q[1..], p), Product(q, p);
    ProductStep(q, p);
    var z, w := Zeros(|q| - 1) + r, Zeros(|q|) + r;
    BroughtIs(m, p);
    XorTail(whole, w);
    assert whole[1..] == Xor(s, inner);
    ZerosTail(|q|, r);
    XorCancel(s, inner, z);
  }

  lemma BroughtIs(m: Bits, p: Bits)
    requires |m| > |p|
    ensures Brought(m, p) == Xor(m[1..], If(m[0], p) + Zeros(|m| - 1 - |p|))
  {
  }

  lemma XorTail(a: Bits, b: Bits)
    requires |a| == |b| >= 1
    ensures Xor(a, b)[1..] == Xor(a[1..], b[1..]) && Xor(a, b)[0] == (a[0] != b[0])
  {
  }

  lemma ZerosTail(n: nat, r: Bits)
    requires n >= 1
    ensures (Zeros(n) + r)[1..] == Zeros(n - 1) + r && !(Zeros(n) + r)[0]
  {
  }

  lemma XorCancel(s: Bits, a: Bits, z: Bits)
    requires |s| == |a| == |z|
    ensures Xor(Xor(Xor(s, a), z), s) == Xor(a, z)
  {
  }

  // ---- The shift register -----------------------------------------------------------

  /** One step of the register: times x, modulo x^n + p. */
  function Shift(r: Bits, p: Bits): (s: Bits)
    requires |r| == |p| >= 1
    ensures |s| == |r|
  {
    Xor(r[1..] + [false], If(r[0], p))
  }

  function Shifts(k: nat, r: Bits, p: Bits): (s: Bits)
    requires |r| == |p| >= 1
    ensures |s| == |r|
  {
    if k == 0 then r else Shifts(k - 1, Shift(r, p), p)
  }

  lemma ShiftLinear(a: Bits, b: Bits, p: Bits)
    requires |a| == |b| == |p| >= 1
    ensures Shift(Xor(a, b), p) == Xor(Shift(a, p), Shift(b, p))
  {
  }

  lemma {:induction false} ShiftsLinear(k: nat, a: Bits, b: Bits, p: Bits)
    requires |a| == |b| == |p| >= 1
    ensures Shifts(k, Xor(a, b), p) == Xor(Shifts(k, a, p), Shifts(k, b, p))
  {
    hide Shift, Xor;
    if k > 0 {
      ShiftLinear(a, b, p);
      ShiftsLinear(k - 1, Shift(a, p), Shift(b, p), p);
    }
  }

  lemma {:induction false} ShiftsMore(k: nat, j: nat, r: Bits, p: Bits)
    requires |r| == |p| >= 1
    ensures Shifts(k + j, r, p) == Shifts(j, Shifts(k, r, p), p)
  {
    hide Shift;
    if k > 0 {
      ShiftsMore(k - 1, j, Shift(r, p), p);
    }
  }

  /** While only zeros come out, the register just moves. */
  lemma {:induction false} ShiftsZeros(k: nat, r: Bits, p: Bits)
    requires |r| == |p| >= 1 && k <= |r| && r[..k] == Zeros(k)
    ensures Shifts(k, r, p) == r[k..] + Zeros(k)
  {
    if k == 0 {
      assert r == r[0..] + Zeros(0);
    } else {
      assert !r[..k][0];
      var s := Shift(r, p);
      assert s == r[1..] + [false];
      assert s[..k - 1] == r[..k][1..];
      ShiftsZeros(k - 1, s, p);
      assert s[k - 1..] + Zeros(k - 1) == r[k..] + Zeros(k);
    }
  }

  /** Feeding a message bit by bit. */
  function Feed(r: Bits, m: Bits, p: Bits): (s: Bits)
    requires |r| == |p| >= 1
    ensures |s| == |r|
    decreases |m|
  {
    if m == [] then r else Feed(Shift([r[0] != m[0]] + r[1..], p), m[1..], p)
  }

  /** The checksum of a message in two parts is that of the second, continued from the first. */
  lemma {:induction false} FeedJoin(r: Bits, a: Bits, b: Bits, p: Bits)
    requires |r| == |p| >= 1
    ensures Feed(r, a + b, p) == Feed(Feed(r, a, p), b, p)
    decreases |a|
  {
    hide Shift;
    if a == [] {
      assert a + b == b;
    } else {
      assert (a + b)[1..] == a[1..] + b;
      FeedJoin(Shift([r[0] != a[0]] + r[1..], p), a[1..], b, p);
    }
  }

  /** Message and register together, as the dividend. */
  function Dividend(r: Bits, m: Bits): (d: Bits)
    ensures |d| == |r| + |m|
  {
    Xor(m + Zeros(|r|), r + Zeros(|m|))
  }

  /** The register ends with the remainder of the message, multiplied by x^n, with the first
      register added to its front. */
  lemma {:induction false} FeedDivides(r: Bits, m: Bits, p: Bits)
    requires |r| == |p| >= 1
    ensures Feed(r, m, p) == Remainder(Dividend(r, m), p)
    decreases |m|
  {
    var d, n := Dividend(r, m), |p|;
    if m == [] {
      assert d == r;
    } else {
      var s := Shift([r[0] != m[0]] + r[1..], p);
      FeedDivides(s, m[1..], p);
      FeedStep(r, m, p);
    }
  }

  lemma FeedStep(r: Bits, m: Bits, p: Bits)
    requires |r| == |p| >= 1 && m != []
    ensures var d, n := Dividend(r, m), |p|;
      Brought(d, p) == Dividend(Shift([r[0] != m[0]] + r[1..], p), m[1..])
  {
    var d, n := Dividend(r, m), |p|;
    var s := Shift([r[0] != m[0]] + r[1..], p);
    var e := Dividend(s, m[1..]);
    var rest := Brought(d, p);
    forall i | 0 <= i < |e|
      ensures rest[i] == e[i]
    {
      assert d[i + 1] == ((m + Zeros(n))[i + 1] != (r + Zeros(|m|))[i + 1]);
      assert e[i] == ((m[1..] + Zeros(n))[i] != (s + Zeros(|m| - 1))[i]);
    }
  }

  /** Feeding some bits is adding them to the front of the register and then shifting. */
  lemma {:induction false} FeedAtOnce(r: Bits, m: Bits, p: Bits)
    requires |r| == |p| >= 1 && |m| <= |r|
    ensures Feed(r, m, p) == Shifts(|m|, Xor(r, m + Zeros(|r| - |m|)), p)
    decreases |m|
  {
    hide Shift, Xor, Zeros;
    if m == [] {
      NothingAdded(r);
    } else {
      var x := Xor(r, m + Zeros(|r| - |m|));
      var s := Shift([r[0] != m[0]] + r[1..], p);
      FeedAtOnce(s, m[1..], p);
      assert Shift(x, p) == Xor(s, m[1..] + Zeros(|r| - |m| + 1)) by { AddLater(r, m, p); }
    }
  }

  lemma NothingAdded(r: Bits)
    ensures Xor(r, [] + Zeros(|r|)) == r
  {
  }

  lemma AddLater(r: Bits, m: Bits, p: Bits)
    requires |r| == |p| >= 1 && 1 <= |m| <= |r|
    ensures Shift(Xor(r, m + Zeros(|r| - |m|)), p) == Xor(Shift([r[0] != m[0]] + r[1..], p), m[1..] + Zeros(|r| - |m| + 1))
  {
  }

  /** The entry of a table for the next k bits to come out. */
  function Entry(b: Bits, p: Bits): (e: Bits)
    requires 1 <= |b| <= |p|
    ensures |e| == |p|
  {
    Shifts(|b|, b + Zeros(|p| - |b|), p)
  }

  /** A table takes k steps at once. */
  lemma TableStep(r: Bits, m: Bits, p: Bits)
    requires |r| == |p| >= 1 && 1 <= |m| <= |r|
    ensures Feed(r, m, p) == Xor(Entry(Xor(r[..|m|], m), p), r[|m|..] + Zeros(|m|))
  {
    hide Feed, Shifts, Xor, Zeros;
    var k := |m|;
    var front, back := Xor(r[..k], m) + Zeros(|r| - k), Zeros(k) + r[k..];
    FeedAtOnce(r, m, p);
    FrontAndBack(r, m);
    ShiftsLinear(k, front, back, p);
    assert back[..k] == Zeros(k) && back[k..] == r[k..];
    ShiftsZeros(k, back, p);
  }

  lemma FrontAndBack(r: Bits, m: Bits)
    requires |m| <= |r|
    ensures Xor(r, m + Zeros(|r| - |m|)) == Xor(Xor(r[..|m|], m) + Zeros(|r| - |m|), Zeros(|m|) + r[|m|..])
  {
  }
}
