/** What the branch filters do to a program: the encoder has replaced the displacement of a
    branch by the address it leads to, and the decoder puts the displacement back. */
module BcjTargets {
  import opened Words
  import opened BcjFilters

  // ---- The filters for words --------------------------------------------------------

  predicate IsBranch(k: Kind, w: seq<Byte>)
    requires k != Ia64 && |w| == 4
  {
    match k
    case PowerPc => w[0] / 4 == 18 && w[3] % 4 == 1
    case Sparc => (w[0] == 0x40 && w[1] < 0x40) || (w[0] == 0x7F && w[1] >= 0xC0)
    case Arm => w[3] == 0xEB
    case ArmThumb => w[1] / 8 == 0x1E && w[3] / 8 == 0x1F
  }

  /** The address field of a branch, in bytes. */
  function Address(k: Kind, w: seq<Byte>): nat
    requires k != Ia64 && |w| == 4
  {
    match k
    case PowerPc => 4 * (Big(w) / 4 % 0x100_0000)
    case Sparc => 4 * (Big(w) % 0x80_0000)
    case Arm => 4 * (Num8(w[0]) + 0x100 * Num8(w[1]) + 0x1_0000 * Num8(w[2]))
    case ArmThumb => 2 * (Num8(w[1]) % 8 * 0x8_0000 + Num8(w[0]) * 0x800 + Num8(w[3]) % 8 * 0x100 + Num8(w[2]))
  }

  /** Addresses are taken modulo this. */
  function Reach(k: Kind): (m: nat)
    requires k != Ia64
    ensures m > 0
  {
    match k
    case PowerPc => 0x400_0000
    case Sparc => 0x200_0000
    case Arm => 0x400_0000
    case ArmThumb => 0x80_0000
  }

  /** How far the program counter is ahead of the branch. */
  function Ahead(k: Kind): nat {
    if k == Arm then 8 else if k == ArmThumb then 4 else 0
  }

  /** A field that counts in units of k bytes. */
  lemma TurnMoves(k: nat, a: nat, d: nat, m: nat)
    requires k > 0 && a < m
    ensures (k * Turn(a, d, m, true) + k * d) % (k * m) == k * a
  {
    var q := (a - d) / m;
    assert Turn(a, d, m, true) == a - d - q * m;
    assert k * (a - d - q * m) + k * d == (-q) * (k * m) + k * a by {
      assert k * (q * m) == q * (k * m);
      assert k * (a - d - q * m) == k * a - k * d - k * (q * m);
    }
    assert k * a < k * m by { MulMonotone(a + 1, m, k); }
    RemainderIs(k * Turn(a, d, m, true) + k * d, -q, k * a, k * m);
  }

  lemma PowerPcBytes(w: seq<Byte>)
    requires |w| == 4
    ensures IsPowerPcBranch(Big(w)) <==> IsBranch(PowerPc, w)
  {
    var x := Big(w);
    assert x == 0x400_0000 * (Num8(w[0]) / 4) + (Num8(w[0]) % 4 * 0x100_0000 + Num8(w[1]) * 0x1_0000 + Num8(w[2]) * 0x100 + Num8(w[3]));
    assert x / 0x400_0000 == Num8(w[0]) / 4;
    assert x % 4 == Num8(w[3]) % 4;
  }

  lemma PowerPcTarget(at: nat, w: seq<Byte>)
    requires |w| == 4 && at % 4 == 0 && IsBranch(PowerPc, w)
    ensures var v := Piece(PowerPc, at, true, w);
      IsBranch(PowerPc, v) && (Address(PowerPc, v) + at) % 0x400_0000 == Address(PowerPc, w)
  {
    hide Big, BigBytes, IsBranch, IsPowerPcBranch, Turn;
    var x := Big(w);
    PowerPcBytes(w);
    var t := Turn(x / 4 % F24, at / 4, F24, true);
    PowerPcField(t);
    var y := 18 * F26 + 4 * t + 1;
    BigBack(y);
    PowerPcBytes(BigBytes(y));
    TurnMoves(4, x / 4 % F24, at / 4, F24);
  }

  lemma SparcTarget(at: nat, w: seq<Byte>)
    requires |w| == 4 && at % 4 == 0 && IsBranch(Sparc, w)
    ensures var v := Piece(Sparc, at, true, w);
      IsBranch(Sparc, v) && (Address(Sparc, v) + at) % 0x200_0000 == Address(Sparc, w)
  {
    var x := Big(w);
    assert IsSparcCall(x);
    var t := Turn(x % F23, at / 4, F23, true);
    SparcField(t);
    BigBack(SparcCall(t));
    TurnMoves(4, x % F23, at / 4, F23);
  }

  lemma ArmTarget(at: nat, w: seq<Byte>)
    requires |w| == 4 && at % 4 == 0 && IsBranch(Arm, w)
    ensures var v := Piece(Arm, at, true, w);
      IsBranch(Arm, v) && (Address(Arm, v) + at + 8) % 0x400_0000 == Address(Arm, w)
  {
    LittleThree(w);
    LittleBound(w[..3]);
    PowValues();
    var t := Turn(Little(w[..3]), at / 4 + 2, F24, true);
    var v := Piece(Arm, at, true, w);
    assert v == LittleBytes(3, t) + [0xEB];
    LittleBack(3, t);
    assert v[..3] == LittleBytes(3, t);
    LittleThree(v);
    TurnMoves(4, Little(w[..3]), at / 4 + 2, F24);
  }

  lemma LittleThree(w: seq<Byte>)
    requires |w| == 4
    ensures Little(w[..3]) == Num8(w[0]) + 0x100 * Num8(w[1]) + 0x1_0000 * Num8(w[2])
  {
    assert w[..3][1..] == [w[1], w[2]] && [w[1], w[2]][1..] == [w[2]] && [w[2]][1..] == [];
    assert Little([w[2]]) == Num8(w[2]) && Little([w[1], w[2]]) == Num8(w[1]) + 256 * Little([w[2]]);
  }

  lemma ThumbTarget(at: nat, w: seq<Byte>)
    requires |w| == 4 && at % 2 == 0 && IsBranch(ArmThumb, w)
    ensures var v := Piece(ArmThumb, at, true, w);
      |v| == 4 && IsBranch(ArmThumb, v) && (Address(ArmThumb, v) + at + 4) % 0x80_0000 == Address(ArmThumb, w)
  {
    var t := Turn(ThumbField(w), at / 2 + 2, F22, true);
    ThumbBack(t);
    TurnMoves(2, ThumbField(w), at / 2 + 2, F22);
  }

  /** Decoded, a branch is still one, and its displacement from the place where it stands,
      together with that place, is the address it had encoded. */
  lemma BranchTarget(k: Kind, at: nat, w: seq<Byte>)
    requires k != Ia64 && |w| == 4 && Aligned(k, at) && IsBranch(k, w)
    ensures var v := Piece(k, at, true, w);
      |v| == 4 && IsBranch(k, v) && (Address(k, v) + at + Ahead(k)) % Reach(k) == Address(k, w)
  {
    hide Piece, IsBranch, Address;
    match k
    case PowerPc => PowerPcTarget(at, w);
    case Sparc => SparcTarget(at, w);
    case Arm => ArmTarget(at, w);
    case ArmThumb => ThumbTarget(at, w);
  }

  /** All else stays as it is: what is no branch, and of a long Thumb call the half-word that
      is no beginning of one. */
  lemma OthersStay(k: Kind, at: nat, decode: bool, w: seq<Byte>)
    requires k != Ia64 && |w| == 4 && !IsBranch(k, w)
    ensures Piece(k, at, decode, w) == if k == ArmThumb then w[..2] else w
  {
    match k
    case PowerPc =>
      PowerPcBytes(w);
      BigThere(w);
    case Sparc =>
      BigThere(w);
      assert !IsSparcCall(Big(w));
    case Arm =>
    case ArmThumb =>
  }

  // ---- IA-64 ------------------------------------------------------------------------

  /** The execution units that the slots of a bundle are for. */
  datatype Unit = M | I | F | B | L | X

  /** The units of a template, as the architecture gives them; others are reserved. */
  function Units(template: nat): (units: seq<Unit>)
    requires template < 32
    ensures units == [] || |units| == 3
  {
    if template in {0, 1, 2, 3} then [M, I, I]
    else if template in {4, 5} then [M, L, X]
    else if template in {8, 9, 10, 11} then [M, M, I]
    else if template in {12, 13} then [M, F, I]
    else if template in {14, 15} then [M, M, F]
    else if template in {16, 17} then [M, I, B]
    else if template in {18, 19} then [M, B, B]
    else if template in {22, 23} then [B, B, B]
    else if template in {24, 25} then [M, M, B]
    else if template in {28, 29} then [M, F, B]
    else []
  }

  predicate BranchUnit(template: nat, slot: nat)
    requires template < 32 && slot < 3
  {
    Units(template) != [] && Units(template)[slot] == B
  }

  /** The filter looks at exactly the slots of branch units. */
  lemma MasksAreUnits(template: nat, slot: nat)
    requires template < 32 && slot < 3
    ensures Masked(BranchMask(template), slot) <==> BranchUnit(template, slot)
  {
  }

  function SlotAt(w: nat, slot: nat): (x: nat)
    requires w < B128 && slot < 3
    ensures x < F41
  {
    if slot == 0 then Slot0(w) else if slot == 1 then Slot1(w) else Slot2(w)
  }

  /** The bits beside the address: 0 to 12, 33 to 35 and 37 to 40. */
  predicate SameBeside(x: nat, y: nat) {
    x % 0x2000 == y % 0x2000 && x / 0x2_0000_0000 % 8 == y / 0x2_0000_0000 % 8 && x / 0x20_0000_0000 == y / 0x20_0000_0000
  }

  lemma PutBeside(x: nat, a: nat)
    requires x < F41 && a < F21
    ensures SameBeside(x, Ia64Put(x, a))
  {
    Ia64Digits(x % 0x2000, a % 0x10_0000, x / 0x2_0000_0000 % 8, a / 0x10_0000, x / 0x20_0000_0000);
  }

  lemma Ia64SlotTarget(x: nat, at: nat)
    requires x < F41 && at % 16 == 0 && IsIa64Branch(x)
    ensures var y := Ia64Slot(x, at, true);
      (16 * Ia64Field(y) + at) % 0x200_0000 == 16 * Ia64Field(x) && SameBeside(x, y)
  {
    hide Ia64Field, Ia64Put, SameBeside, IsIa64Branch, Turn;
    var a := Turn(Ia64Field(x), at / 16, F21, true);
    Ia64PutField(x, a);
    PutBeside(x, a);
    TurnMoves(16, Ia64Field(x), at / 16, F21);
  }

  /** A bundle decoded: in a branch unit's slot that holds an IP-relative branch, 16 times the
      new address plus the position is 16 times the old one modulo 2^25, and all other bits
      of all slots and the template are as they were. */
  lemma BundleTarget(w: nat, at: nat, slot: nat)
    requires w < B128 && at % 16 == 0 && slot < 3
    ensures var v := Ia64Bundle(w, at, true); var x, y := SlotAt(w, slot), SlotAt(v, slot);
      && v % 32 == w % 32
      && (BranchUnit(w % 32, slot) && IsIa64Branch(x) ==> (16 * Ia64Field(y) + at) % 0x200_0000 == 16 * Ia64Field(x) && SameBeside(x, y))
      && (!BranchUnit(w % 32, slot) || !IsIa64Branch(x) ==> y == x)
  {
    hide Slot0, Slot1, Slot2, Bundle, Ia64Field, Ia64Slot, SameBeside, IsIa64Branch, BranchMask, BranchUnit, Masked;
    var m := BranchMask(w % 32);
    BundleParts(w % 32, MaskedSlot(m, 0, Slot0(w), at, true), MaskedSlot(m, 1, Slot1(w), at, true), MaskedSlot(m, 2, Slot2(w), at, true));
    MasksAreUnits(w % 32, slot);
    var x := SlotAt(w, slot);
    if IsIa64Branch(x) {
      Ia64SlotTarget(x, at);
    } else {
      NoBranchStays(x, at);
    }
  }

  lemma NoBranchStays(x: nat, at: nat)
    requires x < F41 && !IsIa64Branch(x)
    ensures Ia64Slot(x, at, true) == x
  {
  }
}
