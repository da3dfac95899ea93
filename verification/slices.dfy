/** Python slicing with step 1: `s[slice(start, stop)]`. */
module Slices {
  import opened Wrappers

  /** A slice object whose step is `None`: each bound may be omitted. */
  datatype Slice = Slice(start: Option<int>, stop: Option<int>)

  /** One bound resolved as CPython does for step 1: an omitted bound takes
      its default, a negative one counts from the end, and the result is
      clamped to `[0, len]`. */
  function Resolve(bound: Option<int>, default: nat, len: nat): (k: nat)
    requires default <= len
    ensures k <= len
  {
    match bound
    case None => default
    case Some(b) =>
      if b < 0 then (if b + len < 0 then 0 else b + len)
      else if b > len then len
      else b
  }

  function Lower(sl: Slice, len: nat): nat {
    Resolve(sl.start, 0, len)
  }

  function Upper(sl: Slice, len: nat): nat {
    Resolve(sl.stop, len, len)
  }

  /** A bound read as the language reference defines it, with no clamping:
      omitted means `default`, negative means relative to the end. */
  function Unclamped(bound: Option<int>, default: int, len: nat): int {
    match bound
    case None => default
    case Some(b) => if b < 0 then b + len else b
  }

  /** The language reference's definition of which items a slice takes: the
      items with index `k` such that `i <= k < j`, with `i` and `j` read by
      `Unclamped`. */
  predicate Selects(sl: Slice, len: nat, k: int) {
    && 0 <= k < len
    && Unclamped(sl.start, 0, len) <= k
    && k < Unclamped(sl.stop, len, len)
  }

  /** `s[sl]`: exactly the items that `Selects` describes, in their
      original order, as one contiguous run starting at `Lower`. */
  function Apply<T>(s: seq<T>, sl: Slice): (r: seq<T>)
    ensures Lower(sl, |s|) + |r| <= |s|
    ensures forall m :: 0 <= m < |r| ==> r[m] == s[Lower(sl, |s|) + m]
    ensures forall k :: 0 <= k < |s| ==>
              (Selects(sl, |s|, k) <==> Lower(sl, |s|) <= k < Lower(sl, |s|) + |r|)
  {
    var lo := Lower(sl, |s|);
    var hi := Upper(sl, |s|);
    if lo < hi then s[lo..hi] else []
  }
}
