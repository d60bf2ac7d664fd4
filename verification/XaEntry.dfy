/** How include/linux/xarray.h packs an entry into one word, and that the entries of this model
    can be told apart there. */
module XaEntry {
  import opened XaIndex
  import opened XaNode

  /** MAX_ERRNO of linux/err.h */
  const MAX_ERRNO: int := 4095

  type Word = w: nat | w < ULONG

  /** xa_mk_value: the shift loses the top bit. */
  function MkValue(v: Word): Word { v % (ULONG / 2) * 2 + 1 }

  function ToValue(w: Word): Word { w / 2 }

  predicate IsValue(w: Word) { w % 2 == 1 }

  /** xa_mk_internal, also of negative numbers. */
  function MkInternal(v: int): Word { v % (ULONG / 4) * 4 + 2 }

  predicate IsInternal(w: Word) { w % 4 == 2 }

  predicate IsZero(w: Word) { w == MkInternal(257) }

  predicate IsRetry(w: Word) { w == MkInternal(256) }

  predicate IsNode(w: Word) { IsInternal(w) && w > 4096 }

  predicate IsErr(w: Word) { IsInternal(w) && w >= MkInternal(-MAX_ERRNO) }

  /** xa_err: the word as a signed number, shifted right, or zero. */
  function XaErr(w: Word): int {
    if IsErr(w) then (if w < ULONG / 2 then w else w - ULONG) / 4 else 0
  }

  /** xa_to_internal */
  function ToInternal(w: Word): nat { w / 4 }

  predicate IsAdvanced(w: Word) { IsInternal(w) && w <= MkInternal(256) }

  /** xa_mk_value warns of a number with the top bit set; exactly then the number is lost. */
  lemma ValueBack(v: Word)
    ensures IsValue(MkValue(v)) && (ToValue(MkValue(v)) == v <==> v < ULONG / 2)
  {
  }

  lemma MkInternalIs(v: int)
    requires -MAX_ERRNO <= v <= 257
    ensures MkInternal(v) == if v < 0 then ULONG + 4 * v + 2 else 4 * v + 2
  {
    assert v % (ULONG / 4) == if v < 0 then ULONG / 4 + v else v;
  }

  /** What an internal entry stands for: negative numbers are errors, and xa_err gives them
      back; up to 256 they are sibling and retry entries, not for the normal API; 256 and 257
      are the retry and the zero entry. */
  lemma InternalTells(v: int)
    requires -MAX_ERRNO <= v <= 257
    ensures var w := MkInternal(v);
      && IsInternal(w) && !IsValue(w) && w != 0 && (v >= 0 ==> ToInternal(w) == v)
      && (IsErr(w) <==> v < 0) && XaErr(w) == (if v < 0 then v else 0)
      && (IsAdvanced(w) <==> 0 <= v <= 256) && (IsRetry(w) <==> v == 256) && (IsZero(w) <==> v == 257)
  {
    hide MkInternal;
    MkInternalIs(v);
    MkInternalIs(256);
    MkInternalIs(257);
    MkInternalIs(-MAX_ERRNO);
  }

  /** Only the words of errors are taken for errors. */
  lemma ErrorOnly(w: Word)
    requires IsErr(w)
    ensures -4095 <= XaErr(w) < 0 && MkInternal(XaErr(w)) == w
  {
    hide MkInternal;
    MkInternalIs(-MAX_ERRNO);
    MkInternalIs(XaErr(w));
  }

  /** Entries as the kernel has them: values without the top bit, callers' pointers aligned to
      four bytes and not null, nodes likewise, above the first page and below the last one. */
  ghost predicate Packable(e: Entry, address: Node -> nat) {
    match e
    case Value(v) => v < ULONG / 2
    case Pointer(p) => 0 < p < ULONG && p % 4 == 0
    case NodeEntry(n) => 4096 <= address(n) < ULONG - 4 * (MAX_ERRNO + 1) && address(n) % 4 == 0
    case _ => true
  }

  ghost function Pack(e: Entry, address: Node -> nat): (w: Word)
    requires Packable(e, address)
  {
    match e
    case Null => 0
    case Value(v) => MkValue(v)
    case Pointer(p) => p
    case Zero => MkInternal(257)
    case Retry => MkInternal(256)
    case NodeEntry(n) => address(n) + 2
  }

  /** Every test of the header finds just the entries it is for: the kinds of entries never
      share a word, and none is an error. */
  lemma PackTells(e: Entry, address: Node -> nat)
    requires Packable(e, address)
    ensures var w := Pack(e, address);
      && (w == 0 <==> e.Null?) && (IsValue(w) <==> e.Value?) && (IsZero(w) <==> e.Zero?) && (IsRetry(w) <==> e.Retry?)
      && (IsNode(w) <==> e.NodeEntry?) && !IsErr(w) && (IsAdvanced(w) <==> e.Retry?)
      && (IsInternal(w) <==> e.Zero? || e.Retry? || e.NodeEntry?)
  {
    assert MkInternal(257) == 1030 && MkInternal(256) == 1026;
    assert MkInternal(-MAX_ERRNO) == ULONG - 4 * MAX_ERRNO + 2;
    if e.Value? {
      ValueBack(e.value);
    }
  }

  /** Entries that differ have words that differ, given that nodes have addresses that do. */
  lemma PackInjective(d: Entry, e: Entry, address: Node -> nat)
    requires Packable(d, address) && Packable(e, address) && Pack(d, address) == Pack(e, address)
    requires forall m, n {:trigger address(m), address(n)} :: address(m) == address(n) ==> m == n
    ensures d == e
  {
    PackTells(d, address);
    PackTells(e, address);
    if d.Value? {
      ValueBack(d.value);
      ValueBack(e.value);
    }
  }
}
