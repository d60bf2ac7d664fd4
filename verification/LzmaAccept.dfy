/** Which data the LZMA decoder must not refuse: that which an encoder has written for symbols
    within the decoder's means, and has ended as it should. */
module LzmaAccept {
  import opened Words
  import opened RangeCoder
  import opened RangeTrace
  import opened RangeDecoder
  import opened XzDictionary
  import opened LzmaFormat
  import opened LzmaUnique
  import opened LzmaChunks
  import opened LzmaDecoder

  /** One string of bytes begins the other. */
  predicate Comparable(x: seq<Byte>, y: seq<Byte>) {
    x <= y || y <= x
  }

  lemma ComparablePart(x: seq<Byte>, y: seq<Byte>, z: seq<Byte>)
    requires Comparable(y, z) && x <= y
    ensures Comparable(x, z)
  {
    if z <= y {
      assert forall i | 0 <= i < |x| && i < |z| :: x[i] == z[i];
      if |x| <= |z| { assert x == z[..|x|]; } else { assert z == x[..|z|]; }
    }
  }

  lemma ComparableWhole(x: seq<Byte>, y: seq<Byte>, n: nat)
    requires Comparable(x, y) && n == |y| <= |x|
    ensures x[..n] == y
  {
  }

  lemma ComparableBehind(p: seq<Byte>, x: seq<Byte>, y: seq<Byte>)
    ensures Comparable(p + x, p + y) <==> Comparable(x, y)
  {
    if p + x <= p + y { assert x == (p + x)[|p|..] <= (p + y)[|p|..] == y; }
    if p + y <= p + x { assert y == (p + y)[|p|..] <= (p + x)[|p|..] == x; }
    if x <= y { assert (p + y)[..|p + x|] == p + y[..|x|]; }
    if y <= x { assert (p + x)[..|p + y|] == p + x[..|y|]; }
  }

  /** The data of a chunk, the symbols that it was written for, and where both begin. */
  datatype Encoding = Encoding(origin: Machine, props: Props, before: Told, data: seq<Byte>, run: seq<Symbol>)

  /** The symbols copy from within a dictionary of this size and tell so much in all; the data
      stands for what is written for them, and ends with a code of zero. */
  ghost predicate Encodes(e: Encoding, size: nat, bound: nat) {
    && e.props.lc <= 8 && SoundRun(e.before, e.run) && NearRun(e.before, e.run, size)
    && |TellAll(e.before, e.run).history| == bound && e.origin.coder.input == []
    && var r := Replay(MoreInput(e.origin, e.data), RunSteps(e.props, e.before, e.run));
    && r.Some? && EndsAtZero(r.value.coder)
  }

  predicate EndsAtZero(c: Coder) {
    Ready(c) && Normal(c).code == 0 && Normal(c).input == []
  }

  lemma MoreTwice(m: Machine, x: seq<Byte>, y: seq<Byte>)
    requires x <= y
    ensures MoreInput(MoreInput(m, x), y[|x|..]) == MoreInput(m, y)
  {
    assert x + y[|x|..] == y;
    assert m.coder.input + x + y[|x|..] == m.coder.input + y;
  }

  /** What is decoded from the same bytes, as far as both go, is decided in the same way. */
  lemma OneInput(m: Machine, x: seq<Byte>, u: seq<Step>, y: seq<Byte>, v: seq<Step>)
    requires Comparable(x, y) && Replay(MoreInput(m, x), u).Some? && Replay(MoreInput(m, y), v).Some?
    ensures Agree(u, v)
  {
    hide Replay, Agree;
    if x <= y {
      MoreTwice(m, x, y);
      ReplayMore(MoreInput(m, x), u, y[|x|..]);
      ReplayAgree(MoreInput(m, y), u, v);
    } else {
      MoreTwice(m, y, x);
      ReplayMore(MoreInput(m, y), v, x[|y|..]);
      ReplayAgree(MoreInput(m, x), u, v);
    }
  }

  /** What a decoder has told of an encoding, never beginning a symbol when all has been told,
      is how the encoding's symbols begin. */
  lemma RunInside(e: Encoding, size: nat, bound: nat, symbols: seq<Symbol>, x: seq<Step>)
    requires Encodes(e, size, bound) && SoundRun(e.before, symbols) && Begun(e.before, symbols, bound)
    requires Agree(RunSteps(e.props, e.before, symbols) + x, RunSteps(e.props, e.before, e.run))
    ensures symbols <= e.run && SoundRun(TellAll(e.before, symbols), e.run[|symbols|..])
    ensures TellAll(e.before, e.run) == TellAll(TellAll(e.before, symbols), e.run[|symbols|..])
    ensures RunSteps(e.props, e.before, e.run)
      == RunSteps(e.props, e.before, symbols) + RunSteps(e.props, TellAll(e.before, symbols), e.run[|symbols|..])
    ensures Agree(x, RunSteps(e.props, TellAll(e.before, symbols), e.run[|symbols|..]))
  {
    hide Agree, RunSteps, TellAll, SoundRun, NearRun, Replay, EndsAtZero;
    var p, t, n, k := e.props, e.before, |symbols|, |e.run|;
    if n <= k {
      RunSplit(t, e.run, n);
      assert e.run[..n] + e.run[n..] == e.run;
      StepsJoin(p, t, e.run[..n], e.run[n..]);
      SameRun(p, t, symbols, x, e.run[..n], RunSteps(p, TellAll(t, e.run[..n]), e.run[n..]));
    } else {
      TooMany(e, size, bound, symbols, x);
    }
  }

  lemma TooMany(e: Encoding, size: nat, bound: nat, symbols: seq<Symbol>, x: seq<Step>)
    requires Encodes(e, size, bound) && SoundRun(e.before, symbols) && |symbols| > |e.run|
    requires Agree(RunSteps(e.props, e.before, symbols) + x, RunSteps(e.props, e.before, e.run))
    ensures !Begun(e.before, symbols, bound)
  {
    hide Agree, RunSteps, TellAll, SoundRun, NearRun, Replay, EndsAtZero;
    var p, t, n, k := e.props, e.before, |symbols|, |e.run|;
    RunSplit(t, symbols, k);
    assert symbols[..k] + symbols[k..] == symbols;
    StepsJoin(p, t, symbols[..k], symbols[k..]);
    var rest := RunSteps(p, TellAll(t, symbols[..k]), symbols[k..]);
    Regroup(RunSteps(p, t, symbols[..k]), rest, x);
    assert RunSteps(p, t, e.run) + [] == RunSteps(p, t, e.run);
    SameRun(p, t, symbols[..k], rest + x, e.run, []);
    RunSplit(t, symbols, n - 1);
    RunSplit(t, symbols[..n - 1], k);
    assert symbols[..n - 1][..k] == symbols[..k];
    RunGrows(TellAll(t, symbols[..k]), symbols[..n - 1][k..]);
  }

  /** A decoder that fails has not been given such data. */
  lemma NoFailure(e: Encoding, size: nat, bound: nat, symbols: seq<Symbol>, bad: Symbol, x: seq<Byte>)
    requires Encodes(e, size, bound) && Comparable(x, e.data) && SoundRun(e.before, symbols) && Begun(e.before, symbols, bound)
    requires Fails(e.before, symbols, bad, size, bound)
    ensures Replay(MoreInput(e.origin, x), StepsWith(e.props, e.before, symbols, bad)).None?
  {
    hide Agree, RunSteps, TellAll, SoundRun, NearRun, Replay, EndsAtZero, SymbolSteps, Copies, Near;
    var p, t, n := e.props, e.before, |symbols|;
    if Replay(MoreInput(e.origin, x), StepsWith(p, t, symbols, bad)).Some? {
      var u := TellAll(t, symbols);
      OneInput(e.origin, x, StepsWith(p, t, symbols, bad), e.data, RunSteps(p, t, e.run));
      RunInside(e, size, bound, symbols, SymbolSteps(p, u.coding, u.history, bad));
      var rest := e.run[n..];
      if rest == [] {
        RunNothing(p, u);
      } else {
        RunFirst(p, u, rest, size, e);
        var y := RunSteps(p, Tell(u, rest[0]), rest[1..]);
        assert SymbolSteps(p, u.coding, u.history, bad) + [] == SymbolSteps(p, u.coding, u.history, bad);
        SameSymbol(p, u.coding, u.history, bad, [], rest[0], y);
        assert e.run[..n] == symbols;
        NearAt(t, e.run, n, size);
      }
    }
  }

  /** The first symbol of a run, and the others. */
  lemma RunFirst(p: Props, u: Told, rest: seq<Symbol>, size: nat, e: Encoding)
    requires p.lc <= 8 && SoundRun(u, rest) && rest != []
    ensures SoundSymbol(rest[0]) && Copies(u, rest[0]) && SoundRun(Tell(u, rest[0]), rest[1..])
    ensures RunSteps(p, u, rest) == SymbolSteps(p, u.coding, u.history, rest[0]) + RunSteps(p, Tell(u, rest[0]), rest[1..])
  {
    hide SymbolSteps, Copies, Tell, SoundSymbol;
    RunSplit(u, rest, 1);
    var one := rest[..1];
    assert one == [rest[0]] && one[..0] == [];
    assert SoundRun(u, one) && SoundSymbol(rest[0]) && Copies(u, rest[0]);
    RunNothing(p, u);
    assert [] + [rest[0]] == one;
    RunNext(p, u, [], rest[0]);
    assert rest == one + rest[1..];
    StepsJoin(p, u, one, rest[1..]);
    assert [] + SymbolSteps(p, u.coding, u.history, rest[0]) == SymbolSteps(p, u.coding, u.history, rest[0]);
  }

  lemma {:induction false} NearAt(t: Told, run: seq<Symbol>, n: nat, size: nat)
    requires NearRun(t, run, size) && n < |run|
    ensures Near(TellAll(t, run[..n]), run[n], size)
    decreases |run|
  {
    hide Near;
    var k := |run| - 1;
    if n < k {
      NearAt(t, run[..k], n, size);
      assert run[..k][..n] == run[..n];
    }
  }

  // ---- How much is read -------------------------------------------------------------

  lemma StepShrinks(m: Machine, s: Step)
    requires StepOn(m, s).Some? && Ready(StepOn(m, s).value.coder)
    ensures |Normal(StepOn(m, s).value.coder).input| <= |Normal(m.coder).input|
  {
  }

  lemma {:induction false} ReplayShrinks(m: Machine, u: seq<Step>)
    requires Ready(m.coder) && Replay(m, u).Some? && Ready(Replay(m, u).value.coder)
    ensures |Normal(Replay(m, u).value.coder).input| <= |Normal(m.coder).input|
  {
    if u != [] {
      hide StepOn, Normal, Ready;
      var n := |u| - 1;
      var mid := Replay(m, u[..n]).value;
      StepReady(mid, u[n]);
      ReplayShrinks(m, u[..n]);
      StepShrinks(mid, u[n]);
    }
  }

  lemma StepReady(m: Machine, s: Step)
    requires StepOn(m, s).Some?
    ensures Ready(m.coder)
  {
  }

  lemma NormalMore(c: Coder, more: seq<Byte>)
    requires Ready(c)
    ensures Ready(c.(input := c.input + more)) && Normal(c.(input := c.input + more)) == Normal(c).(input := Normal(c).input + more)
  {
    if c.range < RC_TOP_VALUE {
      assert (c.input + more)[1..] == c.input[1..] + more;
    }
  }

  /** A decoder that has shifted in all it was given, while telling symbols of an encoding, has
      been given no more than its data. */
  lemma NoOverrun(e: Encoding, size: nat, bound: nat, symbols: seq<Symbol>, x: seq<Byte>)
    requires Encodes(e, size, bound) && Comparable(x, e.data) && SoundRun(e.before, symbols) && Begun(e.before, symbols, bound)
    requires var r := Replay(MoreInput(e.origin, x), RunSteps(e.props, e.before, symbols));
      r.Some? && Ready(r.value.coder) && Normal(r.value.coder).input == []
    ensures symbols <= e.run && x <= e.data
  {
    hide Agree, RunSteps, TellAll, SoundRun, NearRun, Replay, Begun, Normal, Ready;
    var p, t := e.props, e.before;
    var steps, all := RunSteps(p, t, symbols), RunSteps(p, t, e.run);
    OneInput(e.origin, x, steps, e.data, all);
    assert steps + [] == steps;
    RunInside(e, size, bound, symbols, []);
    if !(x <= e.data) {
      var more := x[|e.data|..];
      MoreTwice(e.origin, e.data, x);
      ReplayMore(MoreInput(e.origin, e.data), all, more);
      var end := Replay(MoreInput(e.origin, e.data), all).value;
      NormalMore(end.coder, more);
      ReplayJoin(MoreInput(e.origin, x), steps, RunSteps(p, TellAll(t, symbols), e.run[|symbols|..]));
      var r := Replay(MoreInput(e.origin, x), steps).value;
      ReplayShrinks(r, RunSteps(p, TellAll(t, symbols), e.run[|symbols|..]));
      assert false;
    }
  }

  /** And when it has told all, it has been given all of the data, and its code is zero. */
  lemma AllTold(e: Encoding, size: nat, bound: nat, symbols: seq<Symbol>, x: seq<Byte>)
    requires Encodes(e, size, bound) && Comparable(x, e.data) && SoundRun(e.before, symbols) && Begun(e.before, symbols, bound)
    requires var r := Replay(MoreInput(e.origin, x), RunSteps(e.props, e.before, symbols));
      r.Some? && Ready(r.value.coder) && Normal(r.value.coder).input == []
    requires |TellAll(e.before, symbols).history| >= bound
    ensures symbols == e.run && x == e.data
    ensures EndsAtZero(Replay(MoreInput(e.origin, x), RunSteps(e.props, e.before, symbols)).value.coder)
    ensures |TellAll(e.before, symbols).history| == bound
  {
    hide Agree, RunSteps, TellAll, SoundRun, NearRun, Replay, Begun, Normal, Ready;
    NoOverrun(e, size, bound, symbols, x);
    var p, t := e.props, e.before;
    var steps := RunSteps(p, t, symbols);
    RunSplit(t, e.run, |symbols|);
    assert e.run[..|symbols|] == symbols;
    RunGrows(TellAll(t, symbols), e.run[|symbols|..]);
    assert symbols == e.run;
    var more := e.data[|x|..];
    MoreTwice(e.origin, x, e.data);
    ReplayMore(MoreInput(e.origin, x), steps, more);
    NormalMore(Replay(MoreInput(e.origin, x), steps).value.coder, more);
    assert more == [];
  }

  // ---- Streams ----------------------------------------------------------------------

  /** A chunk as an encoder makes it: its symbols copy from within the dictionary, and its data
      ends with a code of zero. */
  ghost predicate ProperChunk(c: Chunk, size: nat) {
    && GoodChunk(c)
    && (IsLzma(c.bytes) ==> SoundProps(c.props) && NearRun(c.before, c.symbols, size) && EndsAtZero(Replayed(c).value.coder))
  }

  ghost predicate AllProper(chunks: seq<Chunk>, size: nat) {
    forall c | c in chunks :: ProperChunk(c, size)
  }

  /** A whole stream of such chunks, but for the end marker. */
  ghost predicate WellMade(chunks: seq<Chunk>, size: nat) {
    Chained(chunks) && AllProper(chunks, size)
  }

  lemma ProperOn(chunks: seq<Chunk>, c: Chunk, size: nat)
    requires AllProper(chunks, size) && ProperChunk(c, size)
    ensures AllProper(chunks + [c], size)
  {
    hide ProperChunk;
  }

  /** The bytes could be those of a well-made stream, as far as they go. */
  ghost predicate Promising(s: seq<Byte>, size: nat) {
    exists chunks :: WellMade(chunks, size) && Comparable(s, Bytes(chunks) + [0])
  }

  /** The bytes could be those of this chunk. */
  ghost predicate NextIs(s: Standing, rest: seq<Byte>, size: nat, c: Chunk) {
    Follows(s, c) && ProperChunk(c, size) && Comparable(rest, c.bytes)
  }

  lemma FirstByte(c: Chunk)
    requires GoodChunk(c)
    ensures c.bytes != [] && c.bytes[0] != 0
  {
    hide GoodRun;
  }

  /** Two comparable strings are how two equal ones begin. */
  lemma Completed(p: seq<Byte>, rest: seq<Byte>, q: seq<Byte>) returns (x: seq<Byte>, y: seq<Byte>)
    requires Comparable(p + rest, q + [0])
    ensures p + x == q + y && rest <= x && [0] <= y
  {
    var s, w := p + rest, q + [0];
    if s <= w {
      x, y := rest + w[|s|..], [0];
      Regroup(p, rest, w[|s|..]);
    } else {
      x, y := rest, [0] + s[|w|..];
      Regroup(q, [0], s[|w|..]);
    }
  }

  /** When a decoder has finished some chunks of a promising stream, an end marker or a proper
      chunk comes next. */
  lemma NextChunk(chunks: seq<Chunk>, rest: seq<Byte>, size: nat) returns (c: Chunk)
    requires Chained(chunks) && Promising(Bytes(chunks) + rest, size) && rest != [] && rest[0] != 0
    ensures NextIs(Stand(chunks), rest, size, c)
  {
    hide Bytes, Chained, Follows, ProperChunk, Stand, Comparable;
    var made :| WellMade(made, size) && Comparable(Bytes(chunks) + rest, Bytes(made) + [0]);
    var x, y := Completed(Bytes(chunks), rest, Bytes(made));
    ChainsMeet(chunks, x, made, y);
    var n := |chunks|;
    c := made[n];
    assert c in made;
    NextBegins(rest, x, c.bytes, Bytes(made[n + 1..]) + y);
  }

  lemma Behind0(p: seq<Byte>, x: seq<Byte>, q: seq<Byte>, c: seq<Byte>, tail: seq<Byte>, y: seq<Byte>)
    requires p == q && p + x == q + (c + tail) + y
    ensures x == c + (tail + y)
  {
    assert x == (p + x)[|p|..];
    assert c + (tail + y) == (q + (c + tail) + y)[|q|..];
  }

  lemma NextBegins(rest: seq<Byte>, x: seq<Byte>, c: seq<Byte>, r: seq<Byte>)
    requires rest <= x && x == c + r
    ensures Comparable(rest, c)
  {
    if |rest| <= |c| { assert rest == x[..|rest|] == c[..|rest|]; } else { assert c == x[..|c|] == rest[..|c|]; }
  }

  /** A chain of which the bytes go on as those of another one with its end marker: it has no
      more chunks than the other, and goes on with the other's next. */
  lemma ChainsMeet(chunks: seq<Chunk>, x: seq<Byte>, made: seq<Chunk>, y: seq<Byte>)
    requires Chained(chunks) && Chained(made) && Bytes(chunks) + x == Bytes(made) + y && [0] <= y
    ensures var n := |chunks|; n <= |made| && (n == |made| ==> x == y) && Bytes(chunks) == Bytes(made[..n]) && Output(chunks) == Output(made[..n])
    ensures var n := |chunks|; n < |made| ==> Follows(Stand(chunks), made[n]) && x == made[n].bytes + (Bytes(made[n + 1..]) + y)
  {
    hide Bytes, Chained, Follows, Stand, GoodChunk, Output;
    var n := |chunks|;
    NoFurther(chunks, x, made, y);
    ChainsTogether(chunks, x, made, y, n);
    assert chunks[..n] == chunks;
    if n == |made| {
      assert made[..n] == made;
      SameTail(Bytes(chunks), x, Bytes(made), y);
    } else {
      ChainBegins(made, n);
      BytesFrom(made, n);
      Behind0(Bytes(chunks), x, Bytes(made[..n]), made[n].bytes, Bytes(made[n + 1..]), y);
    }
  }

  lemma NoFurther(chunks: seq<Chunk>, x: seq<Byte>, made: seq<Chunk>, y: seq<Byte>)
    requires Chained(chunks) && Chained(made) && Bytes(chunks) + x == Bytes(made) + y && [0] <= y
    ensures |chunks| <= |made|
  {
    hide Bytes, Chained, Follows, Stand, GoodChunk;
    var m := |made|;
    if |chunks| > m {
      ChainsTogether(chunks, x, made, y, m);
      assert made[..m] == made;
      ChainBegins(chunks, m);
      ChainGood(chunks);
      FirstByte(chunks[m]);
      BytesFrom(chunks, m);
      Behind0(Bytes(made), y, Bytes(chunks[..m]), chunks[m].bytes, Bytes(chunks[m + 1..]), x);
      SameFirst(y, chunks[m].bytes, Bytes(chunks[m + 1..]) + x);
    }
  }

  lemma SameFirst(y: seq<Byte>, c: seq<Byte>, r: seq<Byte>)
    requires y == c + r && c != [] && [0] <= y
    ensures c[0] == 0
  {
    assert [0][0] == y[0] == (c + r)[0];
  }

  lemma SameTail(p: seq<Byte>, x: seq<Byte>, q: seq<Byte>, y: seq<Byte>)
    requires p == q && p + x == q + y
    ensures x == y
  {
    assert x == (p + x)[|p|..] == (q + y)[|q|..] == y;
  }

  // ---- How far a stream has come ----------------------------------------------------

  lemma {:induction false} OutputBegins(chunks: seq<Chunk>, n: nat)
    requires n <= |chunks|
    ensures Output(chunks[..n]) <= Output(chunks)
  {
    if n == |chunks| {
      assert chunks[..n] == chunks;
    } else {
      OutputBegins(chunks[..|chunks| - 1], n);
      assert chunks[..|chunks| - 1][..n] == chunks[..n];
    }
  }

  /** A decoder that has finished some chunks, and has begun one, of a well-made stream: that
      chunk is how one of the stream begins, or there is none. */
  lemma Onward(chunks: seq<Chunk>, chunk: seq<Byte>, made: seq<Chunk>, size: nat)
    requires Chained(chunks) && WellMade(made, size) && Comparable(Bytes(chunks) + chunk, Bytes(made) + [0])
    requires chunk != [] ==> IsLzma(chunk) || IsCopy(chunk)
    ensures |chunks| <= |made| && (|chunks| == |made| ==> chunk == [])
    ensures var n := |chunks|; Bytes(chunks) == Bytes(made[..n]) && Output(chunks) == Output(made[..n])
    ensures |chunks| < |made| ==> NextIs(Stand(chunks), chunk, size, made[|chunks|])
  {
    hide Bytes, Chained, Follows, ProperChunk, Stand, Comparable, Output;
    var x, y := Completed(Bytes(chunks), chunk, Bytes(made));
    ChainsMeet(chunks, x, made, y);
    var n := |chunks|;
    if n < |made| {
      assert made[n] in made;
      NextBegins(chunk, x, made[n].bytes, Bytes(made[n + 1..]) + y);
    }
  }

  /** What has been told of a chunk is how its output begins. */
  lemma PartIsRight(c: Chunk, size: nat, symbols: seq<Symbol>, x: seq<Byte>)
    requires ProperChunk(c, size) && IsLzma(c.bytes) && SoundRun(c.before, symbols)
    requires Comparable(x, Encoded(c).data) && Begun(c.before, symbols, |c.before.history| + DeclaredOut(c.bytes))
    requires Replay(MoreInput(Encoded(c).origin, x), RunSteps(c.props, c.before, symbols)).Some?
    ensures TellAll(c.before, symbols).history <= c.before.history + c.out
  {
    hide Agree, RunSteps, TellAll, SoundRun, NearRun, Replay, Begun, EndsAtZero, SoundProps, CodeOf;
    var e, p, t := Encoded(c), c.props, c.before;
    var bound := |t.history| + DeclaredOut(c.bytes);
    EncodedEncodes(c, size);
    var steps := RunSteps(p, t, symbols);
    OneInput(e.origin, x, steps, e.data, RunSteps(p, t, c.symbols));
    assert steps + [] == steps;
    RunInside(e, size, bound, symbols, []);
    RunKeeps(TellAll(t, symbols), c.symbols[|symbols|..]);
  }

  lemma {:induction false} RunKeeps(t: Told, symbols: seq<Symbol>)
    requires SoundRun(t, symbols)
    ensures t.history <= TellAll(t, symbols).history
  {
    if symbols != [] {
      hide SoundRun, TellAll;
      var init, last := RunLast(t, symbols);
      RunKeeps(t, init);
      RunNext(NO_PROPS, t, init, last);
      SymbolKeeps(TellAll(t, init), last);
    }
  }

  lemma SymbolKeeps(t: Told, s: Symbol)
    requires SoundSymbol(s) && Copies(t, s)
    ensures t.history <= Tell(t, s).history
  {
    hide NextCoding;
  }

  // ---- Which headers are refused ----------------------------------------------------

  /** What the next bytes must be like. */
  lemma NextHeader(s: Standing, rest: seq<Byte>, size: nat, c: Chunk)
    requires NextIs(s, rest, size, c) && rest != []
    ensures rest[0] == c.bytes[0] && (rest[0] >= 0x80 || 1 <= rest[0] <= 2)
    ensures (Resets(rest) || !s.needDict) && (0x80 <= rest[0] < 0xC0 ==> !s.needProps)
    ensures rest[0] >= 0x80 && |rest| >= 5 ==> DeclaredIn(rest) >= 5
    ensures rest[0] >= 0xC0 && |rest| >= 6 ==> SoundProps(PropsOf(rest[5]))
  {
    hide GoodRun, SoundProps, PropsOf, Replayed, NearRun, EndsAtZero;
    assert forall i | 0 <= i < |rest| && i < |c.bytes| :: rest[i] == c.bytes[i];
  }

  /** A control byte that the decoder refuses begins no proper chunk. */
  lemma BadControl(chunks: seq<Chunk>, rest: seq<Byte>, size: nat)
    requires Chained(chunks) && rest != [] && rest[0] != 0
    requires 2 < rest[0] < 0x80 || (!Resets(rest) && Stand(chunks).needDict) || (0x80 <= rest[0] < 0xC0 && Stand(chunks).needProps)
    ensures !Promising(Bytes(chunks) + rest, size)
  {
    hide Bytes, Chained, NextIs, Promising, Stand;
    if Promising(Bytes(chunks) + rest, size) {
      var c := NextChunk(chunks, rest, size);
      NextHeader(Stand(chunks), rest, size, c);
    }
  }

  lemma BadSize(chunks: seq<Chunk>, rest: seq<Byte>, size: nat)
    requires Chained(chunks) && |rest| >= 5 && rest[0] >= 0x80 && DeclaredIn(rest) < 5
    ensures !Promising(Bytes(chunks) + rest, size)
  {
    hide Bytes, Chained, NextIs, Promising, Stand;
    if Promising(Bytes(chunks) + rest, size) {
      var c := NextChunk(chunks, rest, size);
      NextHeader(Stand(chunks), rest, size, c);
    }
  }

  /** The properties that are sound are those of an accepted byte. */
  lemma SoundBytes(b: Byte)
    requires SoundProps(PropsOf(b))
    ensures exists lc: nat, lp: nat, pb: nat :: PropsByte(b, lc, lp, pb)
  {
    hide Pow2, ShiftLeft;
    var lc, lp, pb := b % 9, b / 9 % 5, b / 45;
    PowTable();
    assert pb <= 5 && lp <= 4;
    SoundSum(lc, lp);
    assert PropsByte(b, lc, lp, pb);
  }

  lemma SoundSum(lc: nat, lp: nat)
    requires lc <= 4 && lp <= 4 && ShiftLeft(Pow2(lp) - 1 + 1, lc) <= LITERAL_CODERS_MAX
    ensures lc + lp <= 4
  {
    ShiftScale(Pow2(lp), lc);
    if lc + lp >= 5 {
      PowersGrow(5 - lc, lp);
      SmallPowers(lc);
    }
  }

  lemma SmallPowers(lc: nat)
    requires lc <= 4
    ensures Pow2(5 - lc) * Pow2(lc) == 32
  {
    assert Pow2(2) == 4 && Pow2(1) == 2 && Pow2(0) == 1;
    assert Pow2(3) == 8 && Pow2(4) == 16 && Pow2(5) == 32 by { assert Pow2(3) == 2 * Pow2(2) && Pow2(4) == 2 * Pow2(3) && Pow2(5) == 2 * Pow2(4); }
  }

  lemma BadProps(chunks: seq<Chunk>, rest: seq<Byte>, size: nat)
    requires Chained(chunks) && |rest| >= 6 && rest[0] >= 0xC0
    requires !exists lc: nat, lp: nat, pb: nat :: PropsByte(rest[5], lc, lp, pb)
    ensures !Promising(Bytes(chunks) + rest, size)
  {
    hide Bytes, Chained, NextIs, Promising, Stand, SoundProps, PropsOf;
    if Promising(Bytes(chunks) + rest, size) {
      var c := NextChunk(chunks, rest, size);
      NextHeader(Stand(chunks), rest, size, c);
      SoundBytes(rest[5]);
    }
  }

  // ---- What the data of a chunk must be ---------------------------------------------

  /** The encoding in an LZMA chunk. */
  ghost function Encoded(c: Chunk): Encoding
    requires IsLzma(c.bytes) && |c.bytes| >= HeaderSize(c.bytes) + RC_INIT_BYTES
  {
    var data := HeaderSize(c.bytes) + RC_INIT_BYTES;
    Encoding(Machine(Coder(UINT32 - 1, CodeOf(c.bytes[data - RC_INIT_BYTES..data]), []), c.probs), c.props, c.before, c.bytes[data..], c.symbols)
  }

  /** The data of an LZMA chunk begins with five bytes: one that has no effect, and the first
      code, highest byte first. */
  lemma FirstCode(c: Chunk)
    requires GoodChunk(c) && IsLzma(c.bytes)
    ensures var b, h := c.bytes, HeaderSize(c.bytes);
      && |b| >= h + 5 && Encoded(c).data == b[h + 5..]
      && Encoded(c).origin.coder == Coder(UINT32 - 1, ((Num8(b[h + 1]) * 256 + Num8(b[h + 2])) * 256 + Num8(b[h + 3])) * 256 + Num8(b[h + 4]), [])
  {
    hide CodeOf, GoodRun;
    var b, h := c.bytes, HeaderSize(c.bytes);
    CodeOfFive(b[h], b[h + 1], b[h + 2], b[h + 3], b[h + 4]);
    assert b[h..h + 5] == [b[h], b[h + 1], b[h + 2], b[h + 3], b[h + 4]];
  }

  lemma EncodedEncodes(c: Chunk, size: nat)
    requires ProperChunk(c, size) && IsLzma(c.bytes)
    ensures Encodes(Encoded(c), size, |c.before.history| + DeclaredOut(c.bytes))
  {
    hide SoundRun, TellAll, RunSteps, NearRun, Replay, EndsAtZero, CodeOf, SoundProps;
    var data := c.bytes[HeaderSize(c.bytes) + RC_INIT_BYTES..];
    assert [] + data == data;
    assert |c.before.history + c.out| == |c.before.history| + |c.out|;
  }

  lemma BehindHeader(chunk: seq<Byte>, rest: seq<Byte>, b: seq<Byte>, n: nat)
    requires Comparable(chunk + rest, b) && n <= |chunk| && n <= |b|
    ensures chunk[..n] == b[..n] && Comparable(chunk[n..] + rest, b[n..])
  {
    var s := chunk + rest;
    assert forall i | 0 <= i < n :: b[i] == s[i] == chunk[i];
    assert s == b[..n] + (chunk[n..] + rest) && b == b[..n] + b[n..];
    ComparableBehind(b[..n], chunk[n..] + rest, b[n..]);
  }

  /** The encoding in a chunk of which the header and the first five bytes of the data are
      there, with some more. */
  lemma ChunkEncodes(s: Standing, chunk: seq<Byte>, rest: seq<Byte>, size: nat, c: Chunk) returns (e: Encoding)
    requires NextIs(s, chunk + rest, size, c) && IsLzma(chunk) && |chunk| >= HeaderSize(chunk) + RC_INIT_BYTES
    ensures var l, h := Led(s, chunk), HeaderSize(chunk);
      && e.origin == Machine(Coder(UINT32 - 1, CodeOf(chunk[h..h + RC_INIT_BYTES]), []), l.probs) && e.props == l.props && e.before == Told(l.coding, l.history)
      && Encodes(e, size, |l.history| + DeclaredOut(chunk)) && |e.data| + RC_INIT_BYTES == DeclaredIn(chunk)
      && Comparable(chunk[h + RC_INIT_BYTES..] + rest, e.data)
    ensures IsLzma(c.bytes) && |c.bytes| >= HeaderSize(c.bytes) + RC_INIT_BYTES && e == Encoded(c)
  {
    hide SoundRun, Encodes, Comparable, CodeOf, Led, GoodRun, SoundProps, EndsAtZero, NearRun;
    var b, h := c.bytes, HeaderSize(chunk);
    SameHeader(s, chunk, rest, c);
    EncodedEncodes(c, size);
    e := Encoded(c);
    assert b[..h + RC_INIT_BYTES][h..] == b[h..h + RC_INIT_BYTES] && chunk[..h + RC_INIT_BYTES][h..] == chunk[h..h + RC_INIT_BYTES];
    BehindHeader(chunk, rest, b, h + RC_INIT_BYTES);
  }

  lemma SameHeader(s: Standing, chunk: seq<Byte>, rest: seq<Byte>, c: Chunk)
    requires Comparable(chunk + rest, c.bytes) && GoodChunk(c) && IsLzma(chunk) && |chunk| >= HeaderSize(chunk) + RC_INIT_BYTES
    ensures var h := HeaderSize(chunk); IsLzma(c.bytes) && HeaderSize(c.bytes) == h && |c.bytes| >= h + 5 && c.bytes[..h + 5] == chunk[..h + 5]
    ensures DeclaredIn(c.bytes) == DeclaredIn(chunk) && DeclaredOut(c.bytes) == DeclaredOut(chunk) && Led(s, c.bytes) == Led(s, chunk)
  {
    hide GoodRun, Led;
    FirstByte(c);
    var b, h := c.bytes, HeaderSize(chunk);
    assert forall i | 0 <= i < |chunk| && i < |b| :: b[i] == (chunk + rest)[i] == chunk[i];
    assert b[..h + 5] == chunk[..h + 5];
    LedMore(s, chunk[..h + 5], chunk[h + 5..]);
    LedMore(s, b[..h + 5], b[h + 5..]);
    assert chunk == chunk[..h + 5] + chunk[h + 5..] && b == b[..h + 5] + b[h + 5..];
  }
}
