/** Nested slices of a BTree. */
module BTreeView {
  import opened Collation
  import opened Streams
  import opened BTreeFile

  function MaxLowerBound(left: Bound, right: Bound): (r: Bound)
    ensures forall v :: AboveLower(r, v) <==> AboveLower(left, v) && AboveLower(right, v)
  {
    match (left, right)
    case (Unbounded, bound) => bound
    case (bound, Unbounded) => bound
    case (Included(l), Included(r)) => Included(if l < r then r else l)
    case (Included(l), Excluded(r)) => if l > r then Included(l) else Excluded(r)
    case (Excluded(l), Included(r)) => if l < r then Included(r) else Excluded(l)
    case (Excluded(l), Excluded(r)) => Excluded(if l < r then r else l)
  }

  function MinUpperBound(left: Bound, right: Bound): (r: Bound)
    ensures forall v :: BelowUpper(r, v) <==> BelowUpper(left, v) && BelowUpper(right, v)
  {
    match (left, right)
    case (Unbounded, bound) => bound
    case (bound, Unbounded) => bound
    case (Included(l), Included(r)) => Included(if l > r then r else l)
    case (Included(l), Excluded(r)) => if l < r then Included(l) else Excluded(r)
    case (Excluded(l), Included(r)) => if l <= r then Excluded(l) else Included(r)
    case (Excluded(l), Excluded(r)) => Excluded(if l > r then r else l)
  }

  datatype Bounds = Bounds(lower: Bound, upper: Bound)

  function Slice(outer: Bounds, inner: Bounds): Bounds {
    Bounds(MaxLowerBound(outer.lower, inner.lower), MinUpperBound(outer.upper, inner.upper))
  }

  /** The bounds of a view after a chain of slices. */
  function SliceAll(slices: seq<Bounds>): Bounds {
    if slices == [] then Bounds(Unbounded, Unbounded)
    else Slice(SliceAll(slices[..|slices| - 1]), slices[|slices| - 1])
  }

  predicate Within(b: Bounds, key: Row) { InRange(KeyRangeOf(b.lower, b.upper), key) }

  /** A scan of a chain of slices is over exactly the keys within every slice of the chain. */
  lemma {:induction false} ChainIsIntersection(slices: seq<Bounds>, key: Row)
    requires key != []
    ensures Within(SliceAll(slices), key) <==> forall b | b in slices :: Within(b, key)
  {
    if slices != [] {
      var front, last := slices[..|slices| - 1], slices[|slices| - 1];
      ChainIsIntersection(front, key);
      assert slices == front + [last];
      WithinByColumn(SliceAll(slices), key);
      WithinByColumn(SliceAll(front), key);
      WithinByColumn(last, key);
    }
  }

  lemma WithinByColumn(b: Bounds, key: Row)
    requires key != []
    ensures Within(b, key) <==> AboveLower(b.lower, key[0]) && BelowUpper(b.upper, key[0])
  {
    var range := KeyRangeOf(b.lower, b.upper);
    if !(b.lower.Unbounded? && b.upper.Unbounded?) { assert 0 in range; }
  }
}
