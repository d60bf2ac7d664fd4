/** The variable-length integers of the .xz format (section 1.2). */
module XzVli {
  import opened Words

  const VLI_BYTES_MAX: nat := 9
  const VLI_LIMIT: nat := 0x8000_0000_0000_0000

  /** The encoding: seven bits to a byte, low bits first, with the high bit on all but the last. */
  function Vli(x: nat): (e: seq<Byte>)
    ensures e != []
  {
    if x < 128 then [x] else [x % 128 + 128] + Vli(x / 128)
  }

  /** What bytes stand for. */
  function Value(b: seq<Byte>): nat {
    if b == [] then 0 else b[0] % 128 + 128 * Value(b[1..])
  }

  /** Bytes with more to follow. */
  predicate Open(b: seq<Byte>) {
    forall i | 0 <= i < |b| :: b[i] >= 128
  }

  function Pow128(n: nat): (p: nat)
    ensures p >= 1
  {
    if n == 0 then 1 else 128 * Pow128(n - 1)
  }

  lemma Pow128Nine()
    ensures Pow128(9) == VLI_LIMIT
  {
    assert Pow128(3) == 0x20_0000;
    assert Pow128(6) == 0x20_0000 * Pow128(3) by { assert Pow128(5) == 128 * 128 * Pow128(3); }
    assert Pow128(9) == 0x20_0000 * Pow128(6) by { assert Pow128(8) == 128 * 128 * Pow128(6); }
  }

  lemma {:induction false} ValueNext(b: seq<Byte>, x: Byte)
    ensures Value(b + [x]) == Value(b) + Pow128(|b|) * (x % 128)
  {
    if b == [] {
      assert [x][1..] == [];
      assert [] + [x] == [x];
    } else {
      assert (b + [x])[1..] == b[1..] + [x];
      ValueNext(b[1..], x);
      Spread(Pow128(|b| - 1), x % 128);
    }
  }

  lemma Spread(m: nat, x: nat)
    ensures 128 * (m * x) == 128 * m * x
  {
  }

  /** An encoding is open bytes and a last one, which is not zero unless it is alone. */
  predicate Minimal(b: seq<Byte>) {
    && b != [] && (forall i | 0 <= i < |b| - 1 :: b[i] >= 128)
    && b[|b| - 1] < 128 && (b[|b| - 1] != 0 || |b| == 1)
  }

  lemma SevenBits(d: nat, x: nat)
    requires d < 128
    ensures (d + 128) % 128 == d && (d + 128 * x) % 128 == d && (d + 128 * x) / 128 == x
  {
  }

  lemma {:induction false} VliMinimal(x: nat)
    ensures Minimal(Vli(x)) && Value(Vli(x)) == x
  {
    hide Vli, Value, Minimal;
    if x < 128 {
      OneByte(x);
    } else {
      VliMinimal(x / 128);
      VliStep(x);
      LastNotZero(x / 128);
      var d: Byte := x % 128 + 128;
      MinimalStep(d, Vli(x / 128));
      SevenBits(x % 128, x / 128);
    }
  }

  lemma OneByte(x: nat)
    requires x < 128
    ensures Minimal(Vli(x)) && Value(Vli(x)) == x
  {
    assert [x][1..] == [];
  }

  lemma VliStep(x: nat)
    requires x >= 128
    ensures Vli(x) == [x % 128 + 128] + Vli(x / 128)
  {
  }

  lemma MinimalStep(d: Byte, c: seq<Byte>)
    requires d >= 128 && Minimal(c) && c[|c| - 1] != 0
    ensures Minimal([d] + c) && Value([d] + c) == d % 128 + 128 * Value(c)
  {
    hide Value;
    var b := [d] + c;
    assert b[1..] == c;
    assert Value(b) == b[0] % 128 + 128 * Value(b[1..]) by { ValueStep(b); }
    assert forall i | 1 <= i < |b| :: b[i] == c[i - 1];
  }

  lemma ValueStep(b: seq<Byte>)
    requires b != []
    ensures Value(b) == b[0] % 128 + 128 * Value(b[1..])
  {
  }

  /** A value that is not zero has an encoding whose last byte is not zero. */
  lemma {:induction false} LastNotZero(x: nat)
    requires x > 0
    ensures Vli(x)[|Vli(x)| - 1] > 0
  {
    if x >= 128 {
      LastNotZero(x / 128);
    }
  }

  /** The decoder inverts the encoder. */
  lemma {:induction false} MinimalVli(b: seq<Byte>)
    requires Minimal(b)
    ensures Vli(Value(b)) == b
  {
    hide Value, Vli;
    ValueStep(b);
    if |b| == 1 {
      assert b[1..] == [];
      OneByteVli(b[0]);
    } else {
      var c := b[1..];
      MinimalRest(b);
      MinimalVli(c);
      PositiveLast(c);
      SevenBits(b[0] % 128, Value(c));
      VliStep(Value(b));
      assert [b[0]] + c == b;
    }
  }

  lemma OneByteVli(x: Byte)
    requires x < 128
    ensures Value([]) == 0 && Vli(x) == [x]
  {
  }

  lemma MinimalRest(b: seq<Byte>)
    requires Minimal(b) && |b| > 1
    ensures Minimal(b[1..]) && b[0] >= 128 && b[|b| - 1] > 0
  {
    var c := b[1..];
    assert forall i | 0 <= i < |c| :: c[i] == b[i + 1];
  }

  lemma {:induction false} PositiveLast(b: seq<Byte>)
    requires b != [] && 0 < b[|b| - 1] < 128
    ensures Value(b) > 0
  {
    if |b| == 1 {
      assert b[1..] == [];
      assert Value(b) == b[0];
    } else {
      PositiveLast(b[1..]);
    }
  }

  /** Nine bytes are enough exactly for the values below 2^63. */
  lemma {:induction false} VliSize(x: nat, n: nat)
    requires n >= 1
    ensures |Vli(x)| <= n <==> x < Pow128(n)
  {
    if n == 1 {
      assert Pow128(0) == 1 && Pow128(1) == 128;
    } else {
      VliSize(x / 128, n - 1);
    }
  }

  /** No encoding begins another. */
  lemma VliPrefixFree(x: nat, y: nat, s: seq<Byte>, t: seq<Byte>)
    requires Vli(x) + s == Vli(y) + t
    ensures x == y && s == t
  {
    hide Vli, Value;
    VliMinimal(x);
    VliMinimal(y);
    var e, f := Vli(x), Vli(y);
    SameEnd(e, s, f, t);
    assert (e + s)[|e|..] == s && (f + t)[|f|..] == t;
    assert (e + s)[..|e|] == e && (f + t)[..|f|] == f;
  }

  lemma SameEnd(e: seq<Byte>, s: seq<Byte>, f: seq<Byte>, t: seq<Byte>)
    requires Minimal(e) && Minimal(f) && e + s == f + t
    ensures |e| == |f|
  {
    var i, j := |e| - 1, |f| - 1;
    assert (e + s)[i] == e[i] && (f + t)[j] == f[j];
  }
}
