/** Strings of decoded decisions, and which strings the coder's bytes stand for. */
module RangeTrace {
  import opened Words
  import opened RangeCoder

  /** One decision: by the probability variable it used, or a direct bit. */
  datatype Step = Bit(index: nat, bit: bool) | Direct(bit: bool)

  datatype Option<T> = None | Some(value: T)

  /** A coder with its probabilities. */
  datatype Machine = Machine(coder: Coder, probs: seq<Prob>)

  predicate Ready(c: Coder) {
    Sound(c) && (c.range < RC_TOP_VALUE ==> c.input != [])
  }

  // ---- Direct bits ----------------------------------------------------------------

  /** The code after half the range is subtracted, in 32-bit arithmetic. */
  function Halved(c: Coder): nat
    requires Ready(c)
  {
    (Normal(c).code - Normal(c).range / 2) % UINT32
  }

  /** A direct bit is 1 unless the subtraction borrowed. */
  function DirectBit(c: Coder): bool
    requires Ready(c)
  {
    Halved(c) < 0x8000_0000
  }

  function DirectOn(c: Coder): (d: Coder)
    requires Ready(c)
    ensures Sound(d)
  {
    Normal(c).(range := Normal(c).range / 2, code := if DirectBit(c) then Halved(c) else Normal(c).code)
  }

  /** Of sound codes, a direct bit spoils exactly the last one of an odd range. */
  lemma DirectKeeps(c: Coder)
    requires Ready(c) && c.code < c.range
    ensures DirectOn(c).code < DirectOn(c).range <==> !(Normal(c).range % 2 == 1 && Normal(c).code == Normal(c).range - 1)
    ensures DirectBit(c) <==> Normal(c).code >= Normal(c).range / 2
  {
  }

  /** A range and a code that a direct bit does spoil. */
  lemma DirectSpoils()
    ensures var c := Coder(0x100_0001, 0x100_0000, []);
      Ready(c) && c.code < c.range && DirectOn(c).code >= DirectOn(c).range
  {
    DirectKeeps(Coder(0x100_0001, 0x100_0000, []));
  }

  // ---- Replaying decisions --------------------------------------------------------

  /** The machine after a step, if that is the decision it makes. */
  function StepOn(m: Machine, s: Step): Option<Machine> {
    if !Ready(m.coder) then None
    else match s
      case Bit(i, b) =>
        if i < |m.probs| && BitOf(m.coder, m.probs[i]) == b
        then Some(Machine(Decided(m.coder, m.probs[i]), m.probs[i := Adapted(m.probs[i], b)])) else None
      case Direct(b) =>
        if DirectBit(m.coder) == b then Some(Machine(DirectOn(m.coder), m.probs)) else None
  }

  function Replay(m: Machine, steps: seq<Step>): Option<Machine> {
    if steps == [] then Some(m)
    else match Replay(m, steps[..|steps| - 1])
      case None => None
      case Some(mid) => StepOn(mid, steps[|steps| - 1])
  }

  function MoreInput(m: Machine, more: seq<Byte>): Machine {
    m.(coder := m.coder.(input := m.coder.input + more))
  }

  lemma StepMore(m: Machine, s: Step, more: seq<Byte>)
    requires StepOn(m, s).Some?
    ensures StepOn(MoreInput(m, more), s) == Some(MoreInput(StepOn(m, s).value, more))
  {
    var c, d := m.coder, MoreInput(m, more).coder;
    if c.range < RC_TOP_VALUE {
      assert d.input[0] == c.input[0] && d.input[1..] == c.input[1..] + more;
    }
    assert Normal(d) == Normal(c).(input := Normal(c).input + more);
  }

  /** Input that is not reached makes no difference. */
  lemma {:induction false} ReplayMore(m: Machine, steps: seq<Step>, more: seq<Byte>)
    requires Replay(m, steps).Some?
    ensures Replay(MoreInput(m, more), steps) == Some(MoreInput(Replay(m, steps).value, more))
  {
    if steps != [] {
      var n := |steps| - 1;
      ReplayMore(m, steps[..n], more);
      StepMore(Replay(m, steps[..n]).value, steps[n], more);
    }
  }

  lemma {:induction false} ReplayJoin(m: Machine, steps: seq<Step>, more: seq<Step>)
    requires Replay(m, steps).Some?
    ensures Replay(m, steps + more) == Replay(Replay(m, steps).value, more)
  {
    if more == [] {
      assert steps + more == steps;
    } else {
      var n := |more| - 1;
      ReplayJoin(m, steps, more[..n]);
      assert (steps + more)[..|steps + more| - 1] == steps + more[..n];
    }
  }

  // ---- What a decoder in memory has done ------------------------------------------

  /** Where a chunk began, the bytes consumed since, and the decisions made from them. */
  datatype Log = Log(origin: Machine, consumed: seq<Byte>, trace: seq<Step>)

  function Held(l: Log): Option<Machine> {
    Replay(MoreInput(l.origin, l.consumed), l.trace)
  }

  /** The machine in memory is the replayed one, or that one normalised. */
  ghost predicate Faithful(l: Log, m: Machine) {
    && Held(l).Some? && Held(l).value.probs == m.probs && m.coder.input == []
    && (Held(l).value.coder == m.coder || Settled(l, m))
  }

  /** The machine in memory is the replayed one, normalised. */
  ghost predicate Settled(l: Log, m: Machine) {
    && Held(l).Some? && Held(l).value.probs == m.probs && m.coder.input == []
    && Ready(Held(l).value.coder) && Normal(Held(l).value.coder) == m.coder
  }

  lemma NoRead(l: Log, m: Machine)
    requires Faithful(l, m) && Sound(m.coder) && RC_TOP_VALUE <= m.coder.range
    ensures Settled(l, m)
  {
  }

  lemma ReadByte(l: Log, m: Machine, x: Byte)
    requires Faithful(l, m) && Sound(m.coder) && m.coder.range < RC_TOP_VALUE
    ensures Settled(l.(consumed := l.consumed + [x]), m.(coder := Normal(m.coder.(input := [x]))))
  {
    ReplayMore(MoreInput(l.origin, l.consumed), l.trace, [x]);
    assert MoreInput(l.origin, l.consumed + [x]) == MoreInput(MoreInput(l.origin, l.consumed), [x]);
    assert m.coder.input + [x] == [x];
  }

  /** A normalised coder makes the decisions that it made before. */
  lemma SameStep(held: Machine, m: Machine, s: Step)
    requires Ready(held.coder) && Normal(held.coder) == m.coder && held.probs == m.probs
    ensures StepOn(held, s) == StepOn(m, s)
  {
    assert Normal(m.coder) == m.coder;
  }

  /** The next decision of the machine in memory is the next of the replay. */
  lemma Decide(l: Log, m: Machine, s: Step)
    requires Settled(l, m) && StepOn(m, s).Some?
    ensures Faithful(l.(trace := l.trace + [s]), StepOn(m, s).value)
  {
    SameStep(Held(l).value, m, s);
    assert (l.trace + [s])[..|l.trace + [s]| - 1] == l.trace;
  }

  // ---- Trees ----------------------------------------------------------------------

  /** The node of a bit tree after some decisions; the root is node 1. */
  function Node(bits: seq<bool>): (n: nat)
    ensures n >= 1
  {
    if bits == [] then 1 else 2 * Node(bits[..|bits| - 1]) + if bits[|bits| - 1] then 1 else 0
  }

  /** x << n */
  function ShiftLeft(x: nat, n: nat): (r: nat)
    ensures r >= x
  {
    if n == 0 then x else 2 * ShiftLeft(x, n - 1)
  }

  lemma {:induction false} NodeRange(bits: seq<bool>)
    ensures Pow2(|bits|) <= Node(bits) < 2 * Pow2(|bits|)
  {
    if bits != [] { NodeRange(bits[..|bits| - 1]); }
  }

  /** The variables a tree uses for a string of decisions. */
  function PathSteps(base: int, bits: seq<bool>): (steps: seq<Step>)
    requires base >= -1
    ensures |steps| == |bits|
  {
    if bits == [] then []
    else
      var n := |bits| - 1;
      PathSteps(base, bits[..n]) + [Bit(base + Node(bits[..n]), bits[n])]
  }

  /** A number written with n bits, the highest first. */
  function BitsOf(n: nat, v: nat): (bits: seq<bool>)
    ensures |bits| == n
  {
    if n == 0 then [] else BitsOf(n - 1, v / 2) + [v % 2 == 1]
  }

  /** A number written with n bits, the lowest first. */
  function BitsUp(n: nat, v: nat): (bits: seq<bool>)
    ensures |bits| == n
  {
    if n == 0 then [] else [v % 2 == 1] + BitsUp(n - 1, v / 2)
  }

  lemma {:induction false} BitsUpNext(n: nat, v: nat, bit: bool)
    requires v < Pow2(n)
    ensures BitsUp(n + 1, v + if bit then Pow2(n) else 0) == BitsUp(n, v) + [bit]
    ensures v + (if bit then Pow2(n) else 0) < Pow2(n + 1)
  {
    if n > 0 {
      BitsUpNext(n - 1, v / 2, bit);
      assert (v + (if bit then Pow2(n) else 0)) / 2 == v / 2 + if bit then Pow2(n - 1) else 0;
    }
  }

  /** Direct bits, as steps. */
  function DirectSteps(bits: seq<bool>): (steps: seq<Step>)
    ensures |steps| == |bits|
  {
    if bits == [] then [] else DirectSteps(bits[..|bits| - 1]) + [Direct(bits[|bits| - 1])]
  }

  lemma DirectBegins(dest: nat)
    ensures ShiftLeft(dest, 0) == dest && Pow2(0) == 1 && DirectSteps(BitsOf(0, 0)) == []
  {
  }

  lemma DirectNext(dest: nat, n: nat, v: nat, bit: bool)
    requires v < Pow2(n)
    ensures ShiftLeft(dest, n + 1) == 2 * ShiftLeft(dest, n) && 2 * v + (if bit then 1 else 0) < Pow2(n + 1)
    ensures DirectSteps(BitsOf(n + 1, 2 * v + if bit then 1 else 0)) == DirectSteps(BitsOf(n, v)) + [Direct(bit)]
  {
    assert BitsOf(n + 1, 2 * v + if bit then 1 else 0) == BitsOf(n, v) + [bit];
    assert (BitsOf(n, v) + [bit])[..n] == BitsOf(n, v);
  }

  /** The leaf of a number's path is the number. */
  lemma {:induction false} NodeOfBits(n: nat, v: nat)
    requires v < Pow2(n)
    ensures Node(BitsOf(n, v)) == Pow2(n) + v
  {
    if n > 0 {
      NodeOfBits(n - 1, v / 2);
      assert BitsOf(n, v)[..n - 1] == BitsOf(n - 1, v / 2);
    }
  }

  /** A path is that of its leaf. */
  lemma {:induction false} BitsOfNode(bits: seq<bool>)
    ensures Node(bits) >= Pow2(|bits|) && BitsOf(|bits|, Node(bits) - Pow2(|bits|)) == bits
  {
    NodeRange(bits);
    if bits != [] {
      var n := |bits| - 1;
      BitsOfNode(bits[..n]);
      NodeRange(bits[..n]);
      var v := Node(bits) - Pow2(|bits|);
      assert v / 2 == Node(bits[..n]) - Pow2(n) && (v % 2 == 1) == bits[n];
      assert bits == bits[..n] + [bits[n]];
    }
  }

  /** The model of a tree: the probability at the node reached. */
  function TreeModel(probs: seq<Prob>, base: int): Model {
    bits => if 0 <= base + Node(bits) < |probs| then probs[base + Node(bits)] else 1024
  }

  /** The state after n decisions. */
  function After(c: Coder, m: Model, before: seq<bool>, n: nat): (d: Coder)
    requires Sound(c) && n <= |c.input|
    ensures Sound(d) && |d.input| >= |c.input| - n
    decreases n
  {
    if n == 0 then c
    else After(Decided(c, m(before)), m, before + [BitOf(c, m(before))], n - 1)
  }

  lemma {:induction false} DecideNext(c: Coder, m: Model, before: seq<bool>, n: nat)
    requires Sound(c) && n < |c.input|
    ensures var next := m(before + Decisions(c, m, before, n));
      Decisions(c, m, before, n + 1) == Decisions(c, m, before, n) + [BitOf(After(c, m, before, n), next)]
      && After(c, m, before, n + 1) == Decided(After(c, m, before, n), next)
    decreases n
  {
    hide BitOf, Decided;
    var bit := BitOf(c, m(before));
    var d := Decided(c, m(before));
    if n == 0 {
      assert before + Decisions(c, m, before, 0) == before;
      assert Decisions(c, m, before, 1) == [bit] + Decisions(d, m, before + [bit], 0);
      assert After(c, m, before, 1) == After(d, m, before + [bit], 0);
    } else {
      DecideNext(d, m, before + [bit], n - 1);
      var rest := Decisions(d, m, before + [bit], n - 1);
      assert before + ([bit] + rest) == before + [bit] + rest;
      assert Decisions(c, m, before, n) == [bit] + rest;
    }
  }

  /** Probabilities that a path of this length has not used yet. */
  predicate Unused(probs: seq<Prob>, after: seq<Prob>, base: int, n: nat) {
    |after| == |probs| && forall j: nat | base + Pow2(n) <= j < |probs| :: after[j] == probs[j]
  }

  /** One more decision along a path. */
  lemma PathStep(mid: Machine, probs: seq<Prob>, base: int, path: seq<bool>, bit: bool)
    requires Sound(mid.coder) && mid.coder.input != [] && base >= -1 && base + 2 * Pow2(|path|) <= |probs|
    requires Unused(probs, mid.probs, base, |path|)
    ensures var next := TreeModel(probs, base)(path); var step := StepOn(mid, Bit(base + Node(path), bit));
      (step.Some? <==> BitOf(mid.coder, next) == bit)
      && (step.Some? ==> step.value.coder == Decided(mid.coder, next) && Unused(probs, step.value.probs, base, |path| + 1))
  {
    NodeRange(path);
    assert mid.probs[base + Node(path)] == TreeModel(probs, base)(path);
  }

  lemma SameEnds(a: seq<bool>, x: bool, b: seq<bool>, y: bool)
    ensures a + [x] == b + [y] <==> a == b && x == y
  {
    if a + [x] == b + [y] {
      assert a == (a + [x])[..|a|] && b == (b + [y])[..|b|];
      assert x == (a + [x])[|a|] && y == (b + [y])[|b|];
    }
  }

  lemma ReplayPath(m: Machine, base: int, path: seq<bool>, bit: bool)
    requires base >= -1
    ensures var before := Replay(m, PathSteps(base, path));
      Replay(m, PathSteps(base, path + [bit])) == if before.None? then None else StepOn(before.value, Bit(base + Node(path), bit))
  {
    assert (path + [bit])[..|path|] == path;
    var steps := PathSteps(base, path + [bit]);
    assert steps[..|steps| - 1] == PathSteps(base, path);
  }

  /** What a path that replays leaves. */
  ghost predicate PathDone(m: Machine, base: int, bits: seq<bool>, after: Machine)
    requires Sound(m.coder) && |bits| <= |m.coder.input|
  {
    after.coder == After(m.coder, TreeModel(m.probs, base), [], |bits|) && Unused(m.probs, after.probs, base, |bits|)
  }

  /** Following a path through a tree, no variable is used twice, so a path replays exactly
      when its bits are the decisions of the tree as it was. */
  lemma {:induction false} PathReplays(m: Machine, base: int, bits: seq<bool>)
    requires Sound(m.coder) && |bits| <= |m.coder.input| && base >= -1 && base + Pow2(|bits|) <= |m.probs|
    ensures Replay(m, PathSteps(base, bits)).Some? <==> Decisions(m.coder, TreeModel(m.probs, base), [], |bits|) == bits
    ensures Replay(m, PathSteps(base, bits)).Some? ==> PathDone(m, base, bits, Replay(m, PathSteps(base, bits)).value)
  {
    if bits != [] {
      var n := |bits| - 1;
      var path, bit := bits[..n], bits[n];
      assert bits == path + [bit];
      var model := TreeModel(m.probs, base);
      PathReplays(m, base, path);
      ReplayPath(m, base, path, bit);
      DecideNext(m.coder, model, [], n);
      var dec := Decisions(m.coder, model, [], n);
      assert [] + dec == dec;
      SameEnds(dec, BitOf(After(m.coder, model, [], n), model(dec)), path, bit);
      if dec == path {
        PathStep(Replay(m, PathSteps(base, path)).value, m.probs, base, path, bit);
      }
    }
  }

  /** Encoding a number by its interval and decoding it with the tree gives it back: with any
      code of the interval, the only number whose path replays is the one encoded. */
  lemma TreeRoundTrip(m: Machine, base: int, n: nat, v: nat, other: nat)
    requires Sound(m.coder) && n <= |m.coder.input| && base >= -1 && base + Pow2(n) <= |m.probs| && m.coder.code < m.coder.range
    requires v < Pow2(n) && other < Pow2(n)
    requires var w, model := WidthHere(m.coder), TreeModel(m.probs, base);
      LowOf(w, model, [], BitsOf(n, v)) <= Whole(m.coder) < LowOf(w, model, [], BitsOf(n, v)) + Size(WidthOf(w, model, [], BitsOf(n, v)))
    ensures Replay(m, PathSteps(base, BitsOf(n, other))).Some? <==> other == v
  {
    Interval(m.coder, TreeModel(m.probs, base), [], BitsOf(n, v));
    PathReplays(m, base, BitsOf(n, v));
    PathReplays(m, base, BitsOf(n, other));
    NodeOfBits(n, v);
    NodeOfBits(n, other);
  }
}
