/** struct xa_node, the entries its slots hold, and the value of its fields. */
module XaNode {
  import opened XaIndex

  type Offset = o: nat | o < CHUNK_SIZE
  type Mark = m: nat | m < 3
  const FREE_MARK: Mark := 0
  const MARK_MAX: Mark := 2

  /** What a slot or the head can hold.  A value entry carries an integer, a
      pointer entry a caller's address; the rest are internal entries. */
  datatype Entry = Null | Value(value: nat) | Pointer(address: nat) | Zero | Retry | NodeEntry(node: Node)
  {
    /** xa_is_advanced, for what a caller can name: sibling-range and retry entries
        may not be stored, and a caller has no node entries. */
    predicate Storable() {
      !Retry? && !NodeEntry?
    }

    /** What the normal API shows of an entry. */
    function Visible(): Entry {
      if Zero? then Null else this
    }
  }

  type Slots = s: seq<Entry> | |s| == CHUNK_SIZE witness Repeat(Null, CHUNK_SIZE)
  type Bits = s: seq<bool> | |s| == CHUNK_SIZE witness Repeat(false, CHUNK_SIZE)
  type Marks = s: seq<Bits> | |s| == 3 witness NoMarks()
  type Flags = s: seq<bool> | |s| == 3 witness [false, false, false]

  function Repeat<T>(x: T, n: nat): (s: seq<T>)
    ensures |s| == n && forall i | 0 <= i < n :: s[i] == x
  {
    if n == 0 then [] else Repeat(x, n - 1) + [x]
  }

  function EmptySlots(): Slots { Repeat(Null, CHUNK_SIZE) }

  function Fill(b: bool): Bits { Repeat(b, CHUNK_SIZE) }

  function NoMarks(): seq<Bits> { [Fill(false), Fill(false), Fill(false)] }

  /** Where a node is on its way from the slab to the RCU grace period, or straight back. */
  datatype Life = Live | RcuFreed | Freed

  class Node {
    var shift: nat
    var offset: nat
    var count: nat
    var nrValues: nat
    var parent: Node?
    var slots: Slots
    var marks: Marks
    var life: Life
    /** Where the node is in its tree. */
    ghost var pos: Pos

    /** A node as the slab hands it out: only slots and marks are known to be clear. */
    constructor ()
      ensures slots == EmptySlots() && marks == NoMarks() && life == Live
    {
      shift, offset, count, nrValues := *, *, *, *;
      parent := null;
      slots := EmptySlots();
      marks := NoMarks();
      life := Live;
    }

    ghost function Val(): NodeVal
      reads this
    {
      NodeVal(this, pos, shift, offset, count, nrValues, parent, slots, marks, life)
    }
  }

  /** The fields of one node, and the node itself. */
  datatype NodeVal = NodeVal(
    self: Node, pos: Pos, shift: nat, offset: nat, count: nat, nrValues: nat, parent: Node?,
    slots: Slots, marks: Marks, life: Life)

  /** node_any_mark */
  predicate AnyMark(bits: Bits) {
    exists o: nat | o < CHUNK_SIZE :: bits[o]
  }

  /** A node's place: its level, and the index digits above that level. */
  datatype Pos = Pos(level: nat, prefix: nat)
  {
    function Up(): Pos { Pos(level + 1, prefix / CHUNK_SIZE) }

    function Down(o: Offset): Pos
      requires level > 0
    {
      Pos(level - 1, prefix * CHUNK_SIZE + o)
    }

    /** The node's slot number in its parent. */
    function Slot(): Offset { prefix % CHUNK_SIZE }
  }

  function PathPos(index: nat, level: nat): Pos {
    Pos(level, Shr(index, level + 1))
  }

  /** Number of slots in use, and of value entries among them. */
  function Used(slots: seq<Entry>): nat {
    if slots == [] then 0 else Used(slots[..|slots| - 1]) + if slots[|slots| - 1].Null? then 0 else 1
  }

  function Values(slots: seq<Entry>): nat {
    if slots == [] then 0 else Values(slots[..|slots| - 1]) + if slots[|slots| - 1].Value? then 1 else 0
  }

  lemma {:induction false} CountUpdate(slots: seq<Entry>, o: nat, e: Entry)
    requires o < |slots|
    ensures Used(slots[o := e]) == Used(slots) - (if slots[o].Null? then 0 else 1) + (if e.Null? then 0 else 1)
    ensures Values(slots[o := e]) == Values(slots) - (if slots[o].Value? then 1 else 0) + (if e.Value? then 1 else 0)
  {
    var n := |slots| - 1;
    if o == n {
      assert slots[o := e][..n] == slots[..n];
    } else {
      assert slots[o := e][..n] == slots[..n][o := e];
      CountUpdate(slots[..n], o, e);
    }
  }

  lemma {:induction false} CountBounds(slots: seq<Entry>)
    ensures Values(slots) <= Used(slots) <= |slots|
    ensures Used(slots) == 0 <==> forall o | 0 <= o < |slots| :: slots[o].Null?
  {
    if slots != [] {
      var n := |slots| - 1;
      CountBounds(slots[..n]);
      assert forall o | 0 <= o < n :: slots[..n][o] == slots[o];
    }
  }

  /** With one slot in use, every other slot is empty. */
  lemma {:induction false} CountOne(slots: seq<Entry>, o: nat)
    requires o < |slots| && !slots[o].Null? && Used(slots) == 1
    ensures forall p | 0 <= p < |slots| && p != o :: slots[p].Null?
  {
    CountUpdate(slots, o, Null);
    CountBounds(slots[o := Null]);
    assert forall p | 0 <= p < |slots| && p != o :: slots[p] == slots[o := Null][p];
  }

  lemma EmptyCounts()
    ensures Used(EmptySlots()) == 0 && Values(EmptySlots()) == 0
  {
    CountBounds(EmptySlots());
  }

  lemma PlaceInverse(k: Pos)
    ensures k.Up().Down(k.Slot()) == k
  {
  }

  lemma ChildPlace(k: Pos, o: Offset)
    requires k.level > 0
    ensures k.Down(o).Up() == k && k.Down(o).Slot() == o
  {
  }
}
