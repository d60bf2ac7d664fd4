/** The chunks of an LZMA2 stream: what each takes and makes, how it goes on from those before
    it, and that a stream stands for one output only. */
module LzmaChunks {
  import opened Words
  import opened RangeCoder
  import opened RangeTrace
  import opened RangeDecoder
  import opened XzDictionary
  import opened LzmaFormat
  import opened LzmaDecoder
  import opened LzmaUnique

  // ---- Chunks ---------------------------------------------------------------------

  /** Whether a control byte begins an LZMA chunk, rather than an uncompressed one. */
  predicate IsLzma(h: seq<Byte>) {
    h != [] && h[0] >= 0x80
  }

  predicate IsCopy(h: seq<Byte>) {
    h != [] && 1 <= h[0] <= 2
  }

  function HeaderSize(h: seq<Byte>): nat {
    if IsLzma(h) then (if h[0] >= 0xC0 then 6 else 5) else 3
  }

  /** The sizes that the header of a chunk declares: five low bits of the control byte and two
      bytes for what it makes, two bytes for what it takes; each is stored less one. */
  function DeclaredOut(h: seq<Byte>): nat
    requires IsLzma(h) && |h| >= 3
  {
    Num8(h[0]) % 32 * 65536 + Num8(h[1]) * 256 + Num8(h[2]) + 1
  }

  function DeclaredIn(h: seq<Byte>): nat
    requires if IsLzma(h) then |h| >= 5 else |h| >= 3
  {
    if IsLzma(h) then Num8(h[3]) * 256 + Num8(h[4]) + 1 else Num8(h[1]) * 256 + Num8(h[2]) + 1
  }

  /** The code after some of the five bytes that begin an LZMA chunk's data; the first of them
      has no effect in the end. */
  function CodeOf(bytes: seq<Byte>): (c: nat)
    ensures c < UINT32
  {
    if bytes == [] then 0 else (CodeOf(bytes[..|bytes| - 1]) * 256 + bytes[|bytes| - 1]) % UINT32
  }

  lemma CodeNext(bytes: seq<Byte>, b: Byte)
    ensures CodeOf([]) == 0 && CodeOf(bytes + [b]) == (CodeOf(bytes) * 256 + b) % UINT32
  {
    assert (bytes + [b])[..|bytes|] == bytes;
  }

  lemma CodeOfFive(a: Byte, b: Byte, c: Byte, d: Byte, e: Byte)
    ensures CodeOf([a, b, c, d, e]) == ((Num8(b) * 256 + Num8(c)) * 256 + Num8(d)) * 256 + Num8(e)
  {
    hide CodeOf;
    CodeNext([], a);
    CodeNext([a], b);
    CodeNext([a, b], c);
    CodeNext([a, b, c], d);
    CodeNext([a, b, c, d], e);
    assert [] + [a] == [a] && [a] + [b] == [a, b] && [a, b] + [c] == [a, b, c];
    assert [a, b, c] + [d] == [a, b, c, d] && [a, b, c, d] + [e] == [a, b, c, d, e];
    FiveShifts(a, b, c, d, e, CodeOf([a]), CodeOf([a, b]), CodeOf([a, b, c]), CodeOf([a, b, c, d]), CodeOf([a, b, c, d, e]));
  }

  lemma FiveShifts(a: nat, b: nat, c: nat, d: nat, e: nat, c1: nat, c2: nat, c3: nat, c4: nat, c5: nat)
    requires a < 256 && b < 256 && c < 256 && d < 256 && e < 256
    requires c1 == a % UINT32 && c2 == (c1 * 256 + b) % UINT32 && c3 == (c2 * 256 + c) % UINT32
    requires c4 == (c3 * 256 + d) % UINT32 && c5 == (c4 * 256 + e) % UINT32
    ensures c5 == ((b * 256 + c) * 256 + d) * 256 + e
  {
    assert c1 == a;
    assert c2 == a * 256 + b;
    assert c3 == (a * 256 + b) * 256 + c;
    assert c4 == ((a * 256 + b) * 256 + c) * 256 + d;
    TopDrops(a, ((b * 256 + c) * 256 + d) * 256 + e);
  }

  lemma TopDrops(a: nat, r: nat)
    requires r < UINT32
    ensures (a * UINT32 + r) % UINT32 == r
  {
  }

  lemma WholeRest(s: seq<Byte>, a: nat, n: nat)
    requires |s| == a + n
    ensures s[a..a + n] == s[a..] && s[a + n..] == []
  {
  }

  /** A finished chunk: its bytes, what it made, and, for an LZMA chunk, the probabilities and
      properties it was decoded with, what had been told before, and the symbols it tells. */
  datatype Chunk = Chunk(bytes: seq<Byte>, out: seq<Byte>, probs: seq<Prob>, props: Props, before: Told, symbols: seq<Symbol>)

  ghost predicate GoodChunk(c: Chunk) {
    if IsLzma(c.bytes) then
      && |c.bytes| >= HeaderSize(c.bytes) + RC_INIT_BYTES
      && |c.bytes| == HeaderSize(c.bytes) + DeclaredIn(c.bytes) && |c.out| == DeclaredOut(c.bytes)
      && GoodRun(c)
    else
      && IsCopy(c.bytes) && |c.bytes| >= 3
      && |c.bytes| == 3 + DeclaredIn(c.bytes) && c.out == c.bytes[3..]
  }

  /** The decisions that an encoder writes for the symbols, made from the chunk's data. */
  ghost function Replayed(c: Chunk): Option<Machine>
    requires IsLzma(c.bytes) && |c.bytes| >= HeaderSize(c.bytes) + RC_INIT_BYTES
    requires c.props.lc <= 8 && SoundRun(c.before, c.symbols)
  {
    var data := HeaderSize(c.bytes) + RC_INIT_BYTES;
    Replay(Machine(Coder(UINT32 - 1, CodeOf(c.bytes[data - RC_INIT_BYTES..data]), c.bytes[data..]), c.probs),
           RunSteps(c.props, c.before, c.symbols))
  }

  /** The data of an LZMA chunk stands for the decisions an encoder writes for its symbols,
      and what it made is what they tell. */
  ghost predicate GoodRun(c: Chunk)
    requires IsLzma(c.bytes) && |c.bytes| >= HeaderSize(c.bytes) + RC_INIT_BYTES
  {
    && c.props.lc <= 8 && SoundRun(c.before, c.symbols) && Replayed(c).Some?
    && TellAll(c.before, c.symbols).history == c.before.history + c.out
  }

  function Bytes(chunks: seq<Chunk>): seq<Byte> {
    if chunks == [] then [] else Bytes(chunks[..|chunks| - 1]) + chunks[|chunks| - 1].bytes
  }

  function Output(chunks: seq<Chunk>): seq<Byte> {
    if chunks == [] then [] else Output(chunks[..|chunks| - 1]) + chunks[|chunks| - 1].out
  }

  lemma OneMoreChunk(chunks: seq<Chunk>, c: Chunk)
    ensures Bytes(chunks + [c]) == Bytes(chunks) + c.bytes && Output(chunks + [c]) == Output(chunks) + c.out
  {
    assert (chunks + [c])[..|chunks|] == chunks;
  }

  // ---- How a chunk goes on --------------------------------------------------------

  /** Where a stream stands between chunks: what has been made since the dictionary was last
      reset, what is still missing, and what the last LZMA chunk has left in the coder. */
  datatype Standing = Standing(history: seq<Byte>, needDict: bool, needProps: bool, props: Props, coding: Coding, probs: seq<Prob>)

  const NO_CODING := Coding(0, 0, 0, 0, 0)

  const START := Standing([], true, true, NO_PROPS, NO_CODING, [])

  /** Every decision as likely as not. */
  function EvenProbs(): (probs: seq<Prob>)
    ensures |probs| == PROBS_TOTAL
  {
    seq(PROBS_TOTAL, i => 1024)
  }

  /** The properties of a byte that is accepted for them. */
  function PropsOf(b: nat): Props {
    Props(b % 9, Pow2(b / 9 % 5) - 1, Pow2(b / 45) - 1)
  }

  lemma PropsOfByte(b: nat, lc: nat, lp: nat, pb: nat)
    requires PropsByte(b, lc, lp, pb)
    ensures PropsOf(b) == Props(lc, Pow2(lp) - 1, Pow2(pb) - 1)
  {
    hide Pow2;
    PropsDigits(lc, lp, pb);
  }

  lemma PropsDigits(lc: nat, lp: nat, pb: nat)
    requires lc < 9 && lp < 5
    ensures var b := (pb * 5 + lp) * 9 + lc; b % 9 == lc && b / 9 % 5 == lp && b / 45 == pb
  {
    var m := pb * 5 + lp;
    assert (m * 9 + lc) / 9 == m && (m * 9 + lc) % 9 == lc;
    assert m / 5 == pb && m % 5 == lp;
    assert (pb * 45 + (lp * 9 + lc)) / 45 == pb;
  }

  /** Whether a control byte asks for a dictionary reset. */
  predicate Resets(h: seq<Byte>) {
    h != [] && (h[0] >= 0xE0 || h[0] == 1)
  }

  /** What the header of a chunk, as far as it has been read, makes of where the stream stood:
      a dictionary reset, new properties, or a reset of the coder's state. */
  function Led(s: Standing, h: seq<Byte>): Standing {
    var w := if Resets(h) then s.(history := [], needDict := false, needProps := true) else s;
    if !IsLzma(h) || h[0] < 0xA0 then w
    else if h[0] < 0xC0 then w.(coding := NO_CODING, probs := EvenProbs())
    else w.(needProps := false, props := if |h| >= 6 then PropsOf(h[5]) else w.props, coding := NO_CODING, probs := EvenProbs())
  }

  lemma LedProps(s: Standing, h: seq<Byte>)
    requires |h| == 6 && h[0] >= 0xC0
    ensures Led(s, h).props == PropsOf(h[5]) && Led(s, h).coding == NO_CODING && Led(s, h).probs == EvenProbs() && !Led(s, h).needProps
  {
    hide PropsOf;
  }

  /** More of a chunk changes nothing, but for the properties byte. */
  lemma LedMore(s: Standing, h: seq<Byte>, x: seq<Byte>)
    requires h != []
    ensures h[0] < 0xC0 || |h| >= 6 || |h + x| < 6 ==> Led(s, h + x) == Led(s, h)
    ensures Led(s, h + x) == Led(s, h).(props := Led(s, h + x).props)
  {
    assert (h + x)[0] == h[0];
    assert |h| >= 6 ==> (h + x)[5] == h[5];
  }

  /** A chunk that goes on from where the stream stands. */
  ghost predicate Follows(s: Standing, c: Chunk) {
    var l := Led(s, c.bytes);
    && GoodChunk(c) && !l.needDict
    && (IsLzma(c.bytes) ==> !l.needProps && c.props == l.props && c.probs == l.probs && c.before == Told(l.coding, l.history))
  }

  /** Where the stream stands after it. */
  ghost function LeftBy(s: Standing, c: Chunk): Standing
    requires Follows(s, c)
  {
    var l := Led(s, c.bytes);
    if IsLzma(c.bytes) then
      l.(history := l.history + c.out, coding := TellAll(c.before, c.symbols).coding, probs := Replayed(c).value.probs)
    else l.(history := l.history + c.out)
  }

  /** Each chunk goes on from where those before it have left the stream. */
  ghost predicate Chained(chunks: seq<Chunk>)
    decreases |chunks|, 0
  {
    chunks == [] ||
    var n := |chunks| - 1;
    Chained(chunks[..n]) && Follows(Stand(chunks[..n]), chunks[n])
  }

  ghost function Stand(chunks: seq<Chunk>): Standing
    requires Chained(chunks)
    decreases |chunks|, 1
  {
    if chunks == [] then START else LeftBy(Stand(chunks[..|chunks| - 1]), chunks[|chunks| - 1])
  }

  lemma ChainNext(chunks: seq<Chunk>, c: Chunk)
    requires Chained(chunks) && Follows(Stand(chunks), c)
    ensures Chained(chunks + [c]) && Stand(chunks + [c]) == LeftBy(Stand(chunks), c)
  {
    assert (chunks + [c])[..|chunks|] == chunks;
  }

  lemma {:induction false} ChainGood(chunks: seq<Chunk>)
    requires Chained(chunks)
    ensures forall c | c in chunks :: GoodChunk(c)
  {
    hide GoodChunk, Led, LeftBy;
    if chunks != [] {
      var n := |chunks| - 1;
      ChainGood(chunks[..n]);
      assert chunks == chunks[..n] + [chunks[n]];
    }
  }

  // ---- One output -----------------------------------------------------------------

  /** Every symbol adds to the history. */
  lemma {:induction false} RunGrows(t: Told, symbols: seq<Symbol>)
    requires SoundRun(t, symbols)
    ensures |TellAll(t, symbols).history| >= |t.history| + |symbols|
  {
    if symbols != [] {
      hide SoundRun, TellAll;
      var init, last := RunLast(t, symbols);
      RunGrows(t, init);
      RunNext(NO_PROPS, t, init, last);
      SymbolGrows(TellAll(t, init), last);
    }
  }

  lemma SymbolGrows(t: Told, s: Symbol)
    requires SoundSymbol(s) && Copies(t, s)
    ensures |Tell(t, s).history| > |t.history|
  {
    hide NextCoding;
  }

  /** Of two runs that one machine can make, the shorter is how the longer begins. */
  lemma RunBegins(p: Props, t: Told, a: seq<Symbol>, b: seq<Symbol>)
    requires p.lc <= 8 && SoundRun(t, a) && SoundRun(t, b) && |a| <= |b| && Agree(RunSteps(p, t, a), RunSteps(p, t, b))
    ensures a == b[..|a|] && SoundRun(TellAll(t, a), b[|a|..]) && TellAll(t, b) == TellAll(TellAll(t, a), b[|a|..])
  {
    hide Agree, RunSteps, TellAll;
    var n := |a|;
    RunSplit(t, b, n);
    assert b[..n] + b[n..] == b;
    StepsJoin(p, t, b[..n], b[n..]);
    assert RunSteps(p, t, a) + [] == RunSteps(p, t, a);
    SameRun(p, t, a, [], b[..n], RunSteps(p, TellAll(t, b[..n]), b[n..]));
  }

  lemma {:induction false} RunSplit(t: Told, symbols: seq<Symbol>, n: nat)
    requires SoundRun(t, symbols) && n <= |symbols|
    ensures SoundRun(t, symbols[..n]) && SoundRun(TellAll(t, symbols[..n]), symbols[n..])
    ensures TellAll(t, symbols) == TellAll(TellAll(t, symbols[..n]), symbols[n..])
  {
    hide Copies, SoundSymbol;
    if n == |symbols| {
      assert symbols[..n] == symbols && symbols[n..] == [];
    } else {
      hide SymbolSteps, Tell, SoundRun, TellAll;
      var init, last := RunLast(t, symbols);
      RunSplit(t, init, n);
      assert symbols[..n] == init[..n] && symbols[n..] == init[n..] + [last];
      RunNext(NO_PROPS, TellAll(t, init[..n]), init[n..], last);
      RunNext(NO_PROPS, t, init, last);
    }
  }

  /** Two runs that one machine can make and that tell equally much are the same. */
  lemma OneRun(p: Props, t: Told, a: seq<Symbol>, b: seq<Symbol>)
    requires p.lc <= 8 && SoundRun(t, a) && SoundRun(t, b) && Agree(RunSteps(p, t, a), RunSteps(p, t, b)) && |a| <= |b|
    requires |TellAll(t, a).history| == |TellAll(t, b).history|
    ensures a == b
  {
    hide Agree, RunSteps, TellAll, SoundRun;
    RunBegins(p, t, a, b);
    RunGrows(TellAll(t, a), b[|a|..]);
    assert b[..|a|] + b[|a|..] == b;
  }

  /** The bytes tell where a chunk ends. */
  lemma SameExtent(c: Chunk, x: seq<Byte>, d: Chunk, y: seq<Byte>)
    requires GoodChunk(c) && GoodChunk(d) && c.bytes + x == d.bytes + y
    ensures c.bytes == d.bytes && x == y
  {
    hide GoodRun;
    var b, b' := c.bytes, d.bytes;
    assert forall i | 0 <= i < |b| && i < |b'| :: b[i] == (b + x)[i] == (b' + y)[i] == b'[i];
    assert |b| == |b'|;
    assert b == (b + x)[..|b|] && b' == (b' + y)[..|b'|] && x == (b + x)[|b|..] && y == (b' + y)[|b'|..];
  }

  /** From one standing, the bytes tell the chunk: what it makes, and where it leaves the stream. */
  lemma SameChunk(s: Standing, c: Chunk, x: seq<Byte>, d: Chunk, y: seq<Byte>)
    requires Follows(s, c) && Follows(s, d) && c.bytes + x == d.bytes + y
    ensures c.bytes == d.bytes && x == y && c.out == d.out && LeftBy(s, c) == LeftBy(s, d)
  {
    hide SoundRun, TellAll, RunSteps, Replay, Led;
    SameExtent(c, x, d, y);
    if IsLzma(c.bytes) {
      OneSymbols(s, c, d);
    }
  }

  lemma OneSymbols(s: Standing, c: Chunk, d: Chunk)
    requires Follows(s, c) && Follows(s, d) && c.bytes == d.bytes && IsLzma(c.bytes)
    ensures c.symbols == d.symbols && c.out == d.out
  {
    hide SoundRun, TellAll, RunSteps, Replay, Led, Agree;
    var data := HeaderSize(c.bytes) + RC_INIT_BYTES;
    var m := Machine(Coder(UINT32 - 1, CodeOf(c.bytes[data - RC_INIT_BYTES..data]), c.bytes[data..]), c.probs);
    ReplayAgree(m, RunSteps(c.props, c.before, c.symbols), RunSteps(c.props, c.before, d.symbols));
    ReplayAgree(m, RunSteps(c.props, c.before, d.symbols), RunSteps(c.props, c.before, c.symbols));
    if |c.symbols| <= |d.symbols| {
      OneRun(c.props, c.before, c.symbols, d.symbols);
    } else {
      OneRun(c.props, c.before, d.symbols, c.symbols);
    }
    assert c.out == (c.before.history + c.out)[|c.before.history|..] && d.out == (c.before.history + d.out)[|c.before.history|..];
  }

  lemma {:induction false} BytesSplit(chunks: seq<Chunk>, n: nat)
    requires n <= |chunks|
    ensures Bytes(chunks) == Bytes(chunks[..n]) + Bytes(chunks[n..])
  {
    if n == |chunks| {
      assert chunks[..n] == chunks && chunks[n..] == [];
    } else {
      var k := |chunks| - 1;
      BytesSplit(chunks[..k], n);
      assert chunks[..k][..n] == chunks[..n] && chunks[n..][..k - n] == chunks[..k][n..];
      Regroup(Bytes(chunks[..n]), Bytes(chunks[..k][n..]), chunks[k].bytes);
    }
  }

  lemma BytesFrom(chunks: seq<Chunk>, n: nat)
    requires n < |chunks|
    ensures Bytes(chunks) == Bytes(chunks[..n]) + (chunks[n].bytes + Bytes(chunks[n + 1..]))
  {
    OneMoreChunk([], chunks[n]);
    assert Bytes([]) + chunks[n].bytes == chunks[n].bytes;
    hide Bytes;
    BytesSplit(chunks, n);
    BytesSplit(chunks[n..], 1);
    assert chunks[n..][..1] == [] + [chunks[n]] && chunks[n..][1..] == chunks[n + 1..];
  }

  lemma {:induction false} ChainBegins(chunks: seq<Chunk>, n: nat)
    requires Chained(chunks) && n <= |chunks|
    ensures Chained(chunks[..n]) && (n < |chunks| ==> Follows(Stand(chunks[..n]), chunks[n]))
  {
    hide Follows;
    if n == |chunks| {
      assert chunks[..n] == chunks;
    } else if n < |chunks| - 1 {
      ChainBegins(chunks[..|chunks| - 1], n);
      assert chunks[..|chunks| - 1][..n] == chunks[..n];
    }
  }

  /** Two chains with the same bytes go together, chunk by chunk. */
  lemma {:induction false} ChainsTogether(a: seq<Chunk>, x: seq<Byte>, b: seq<Chunk>, y: seq<Byte>, n: nat)
    requires Chained(a) && Chained(b) && Bytes(a) + x == Bytes(b) + y && n <= |a| && n <= |b|
    ensures Chained(a[..n]) && Chained(b[..n]) && Stand(a[..n]) == Stand(b[..n])
    ensures Bytes(a[..n]) == Bytes(b[..n]) && Output(a[..n]) == Output(b[..n])
  {
    hide Follows, LeftBy, Chained;
    ChainBegins(a, n);
    ChainBegins(b, n);
    if n > 0 {
      hide Bytes, Output;
      var k := n - 1;
      ChainsTogether(a, x, b, y, k);
      ChainBegins(a, k);
      ChainBegins(b, k);
      BytesFrom(a, k);
      BytesFrom(b, k);
      var ra, rb := Bytes(a[k + 1..]) + x, Bytes(b[k + 1..]) + y;
      Behind(Bytes(a[..k]), a[k].bytes, Bytes(a[k + 1..]), x, b[k].bytes, Bytes(b[k + 1..]), y);
      SameChunk(Stand(a[..k]), a[k], ra, b[k], rb);
      assert a[..n] == a[..k] + [a[k]] && b[..n] == b[..k] + [b[k]];
      ChainNext(a[..k], a[k]);
      ChainNext(b[..k], b[k]);
      OneMoreChunk(a[..k], a[k]);
      OneMoreChunk(b[..k], b[k]);
    }
  }

  lemma Behind(p: seq<Byte>, c: seq<Byte>, r: seq<Byte>, x: seq<Byte>, d: seq<Byte>, q: seq<Byte>, y: seq<Byte>)
    requires p + (c + r) + x == p + (d + q) + y
    ensures c + (r + x) == d + (q + y)
  {
    assert c + (r + x) == (p + (c + r) + x)[|p|..] && d + (q + y) == (p + (d + q) + y)[|p|..];
  }

  /** A stream with its end marker stands for one output: whatever finished chunks it is cut
      into, they make the same. */
  lemma OneOutput(a: seq<Chunk>, b: seq<Chunk>)
    requires Chained(a) && Chained(b) && Bytes(a) + [0] == Bytes(b) + [0]
    ensures Output(a) == Output(b) && Stand(a) == Stand(b)
  {
    hide Follows, LeftBy, Chained;
    if |a| < |b| {
      NoneLeft(a, b);
    } else if |b| < |a| {
      NoneLeft(b, a);
    } else {
      ChainsTogether(a, [0], b, [0], |a|);
      assert a[..|a|] == a && b[..|a|] == b;
    }
  }

  lemma NotEndMarker(c: Chunk, r: seq<Byte>)
    requires GoodChunk(c)
    ensures c.bytes + r != [0]
  {
    hide GoodRun;
    assert (c.bytes + r)[0] == c.bytes[0];
  }

  /** The end marker begins no chunk. */
  lemma NoneLeft(a: seq<Chunk>, b: seq<Chunk>)
    requires Chained(a) && Chained(b) && Bytes(a) + [0] == Bytes(b) + [0]
    ensures |a| >= |b|
  {
    hide LeftBy, Chained, GoodChunk, Bytes;
    if |a| < |b| {
      var n := |a|;
      ChainsTogether(a, [0], b, [0], n);
      ChainBegins(b, n);
      NotEndMarker(b[n], Bytes(b[n + 1..]) + [0]);
      BytesFrom(b, n);
      assert a[..n] == a;
      EndsBehind(Bytes(a), Bytes(b[..n]), b[n].bytes, Bytes(b[n + 1..]));
    }
  }

  lemma EndsBehind(p: seq<Byte>, p': seq<Byte>, c: seq<Byte>, r: seq<Byte>)
    requires p + [0] == p' + (c + r) + [0] && p == p'
    ensures c + (r + [0]) == [0]
  {
    assert (p + [0])[|p|..] == [0] && (p' + (c + r) + [0])[|p'|..] == c + (r + [0]);
  }
}
