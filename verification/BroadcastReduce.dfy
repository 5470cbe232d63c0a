/** Reduction to a shape that broadcasts to the input: the adjoint of broadcasting. */
module BroadcastReduce {
  import opened Optional
  import opened MixedRadix
  import opened Broadcast
  import opened Accumulate
  import opened Reduce

  /** Whether an axis of the input is summed away on the way to the target. */
  predicate Summed(input: Shape, target: Shape, axis: nat)
    requires |target| <= |input| && axis < |input|
  {
    var leading := |input| - |target|;
    axis < leading || (target[axis - leading] == 1 && 1 < input[axis])
  }

  /** Whether an axis of the target is one that the input can be reduced to. */
  predicate Reducible(input: Shape, target: Shape, axis: nat)
    requires |target| <= |input| && axis < |target|
  {
    var dim := input[|input| - |target| + axis];
    dim == target[axis] || (target[axis] == 1 && 1 < dim)
  }

  /** `broadcast_reduce_axes`: the leading axes, then those the target holds at size 1. */
  method BroadcastReduceAxes(input: Shape, target: Shape) returns (r: Result<seq<nat>>)
    ensures r.Ok? <==> |target| <= |input| && AllReducible(input, target)
    ensures r.Err? ==> r == Err(InvalidReduce)
    ensures r.Ok? ==> forall a | 0 <= a < |input| :: a in r.value <==> Summed(input, target, a)
    ensures r.Ok? ==> forall a | a in r.value :: a < |input|
    ensures r.Ok? ==> (r.value == [] <==> input == target)
  {
    if |target| > |input| { return Err(InvalidReduce); }
    var leading := |input| - |target|;
    var axes: seq<nat> := seq(leading, i => i);
    forall x | 0 <= x < leading ensures x in axes { assert axes[x] == x; }
    for a := 0 to |target|
      invariant forall x | 0 <= x < a :: Reducible(input, target, x)
      invariant forall x | x in axes :: x < leading + a
      invariant forall x | 0 <= x < leading + a :: x in axes <==> Summed(input, target, x)
      invariant axes == [] <==> leading == 0 && input[..a] == target[..a]
    {
      var dim := input[leading + a];
      if dim != target[a] {
        if !(target[a] == 1 && dim > 1) {
          assert !Reducible(input, target, a);
          return Err(InvalidReduce);
        }
        axes := axes + [leading + a];
      }
    }
    assert input[..|target|] == target[..|target|] && leading == 0 ==> input == target;
    r := Ok(axes);
  }

  function SumMask(input: Shape, target: Shape): Mask
    requires |target| <= |input|
  {
    seq(|input|, a requires 0 <= a < |input| => Summed(input, target, a))
  }

  /** The values of a reduction to `target`: each sums the input elements that broadcasting
      would copy from it. */
  function FiberSums(y: Tensor, target: Shape): seq<real>
    requires Valid(y) && CanBroadcastTo(target, y.shape)
  {
    seq(Product(target), i requires 0 <= i < Product(target) => Sum(Fiber(y.values, Sources(y.shape, target), i)))
  }

  /** The target offset that each input element is copied from by broadcasting. */
  function Sources(input: Shape, target: Shape): seq<nat>
    requires CanBroadcastTo(target, input)
  {
    seq(Product(input), j requires 0 <= j < Product(input) => SourceOffset(j, input, target))
  }

  predicate CanReduceTo(input: Shape, target: Shape) {
    input == target || (CanBroadcastTo(target, input) && Positive(input))
  }

  /** The specification of `broadcast_reduce_sum`. */
  function BroadcastReduced(y: Tensor, target: Shape): Result<Tensor>
    requires Valid(y)
  {
    if !Supported(y) then Err(DtypeNotSupported)
    else if !CanReduceTo(y.shape, target) then Err(InvalidReduce)
    else if y.shape == target then Ok(y)
    else Ok(Like(y.dtype, target, FiberSums(y, target)))
  }

  /** A reduction to a shape succeeds exactly on floats, to their own shape or, if no axis is empty, to a
      shape that has no more axes and in each of them, from the last, size 1 or the same size.  It
      keeps the element type. */
  lemma ReducesToShape(y: Tensor, target: Shape)
    requires Valid(y)
    ensures var r, leading := BroadcastReduced(y, target), |y.shape| - |target|;
      && (r.Ok? ==> y.dtype != U64)
      && (y.dtype != U64 && y.shape != target ==>
            (r.Ok? <==>
              && leading >= 0 && (forall a | 0 <= a < |y.shape| :: 0 < y.shape[a])
              && forall a | 0 <= a < |target| :: target[a] == 1 || target[a] == y.shape[leading + a]))
      && (r.Ok? ==> Valid(r.value) && r.value.shape == target && r.value.dtype == y.dtype)
      && (r.Err? ==> r.error == if y.dtype == U64 then DtypeNotSupported else InvalidReduce)
      && (y.shape == target && y.dtype != U64 ==> r == Ok(y))
  {
    BroadcastsAxiswise(target, y.shape);
  }

  function PlainValues(values: seq<Number>): seq<real> {
    seq(|values|, i requires 0 <= i < |values| => match values[i] case Plain(v) => v case SquareRoot(v) => v)
  }

  /** `broadcast_reduce_sum`: succeeds exactly on the shapes that broadcast to the input, except
      that an empty input reduces only to its own shape. */
  method BroadcastReduceSum(y: Tensor, target: Shape) returns (r: Result<Tensor>)
    requires Valid(y)
    ensures r == BroadcastReduced(y, target)
  {
    if !Supported(y) { return Err(DtypeNotSupported); }
    var axes := BroadcastReduceAxes(y.shape, target);
    ReducibleShapes(y.shape, target);
    PositiveProduct(y.shape);
    if axes.Err? { return Err(InvalidReduce); }
    var reduced := y;
    if axes.value != [] {
      assert forall i | 0 <= i < |axes.value| :: axes.value[i] in axes.value;
      AxesInside(axes.value, |y.shape|);
      assert MaskOf(axes.value, |y.shape|) == SumMask(y.shape, target);
      var sums := ReduceAxes(y, SumOf, Some(axes.value), true);
      if y.values == [] { return Err(InvalidReduce); }
      SumsToTarget(y, target);
      if sums.Err? || sums.value.Scalar? { return Err(InvalidReduce); }
      reduced := Like(y.dtype, sums.value.shape, PlainValues(sums.value.values));
    }
    if Product(target) != |reduced.values| { return Err(InvalidReduce); }
    r := Ok(Like(reduced.dtype, target, reduced.values));
  }

  lemma {:induction false} AxesInside(axes: seq<nat>, rank: nat)
    requires forall i | 0 <= i < |axes| :: axes[i] < rank
    ensures FirstOutside(axes, rank).Ok?
  {
    if axes != [] { AxesInside(axes[1..], rank); }
  }

  /** For an input without empty axes, the reducible shapes are those that broadcast to it. */
  lemma ReducibleShapes(input: Shape, target: Shape)
    ensures |target| <= |input| && Positive(input) ==>
      (AllReducible(input, target) <==> CanBroadcastTo(target, input))
    ensures Positive(input) && CanBroadcastTo(target, input) ==> Product(target) > 0
  {
    if |target| <= |input| && Positive(input) {
      var leading := |input| - |target|;
      if CanBroadcastTo(target, input) {
        forall a | 0 <= a < |target| ensures Reducible(input, target, a) && 0 < target[a] {
          assert DimFromRight(target, |target| - 1 - a) == target[a];
          assert DimFromRight(input, |target| - 1 - a) == input[leading + a];
        }
        PositiveProduct(target);
      }
      if AllReducible(input, target) {
        forall i | 0 <= i < |target|
          ensures DimFromRight(target, i) == 1 || DimFromRight(target, i) == DimFromRight(input, i)
        {
          assert Reducible(input, target, |target| - 1 - i);
        }
      }
    }
  }

  /** Masked, the input has the size of the target, and a masked coordinate the offset of the
      projected one. */
  ghost predicate SameOffsets(input: Shape, target: Shape, coord: Coord)
    requires |target| <= |input| == |coord|
  {
    var mask := SumMask(input, target);
    && |OutCoord(coord, mask, true)| == |OutShape(input, mask, true)|
    && Product(OutShape(input, mask, true)) == Product(target)
    && Offset(OutShape(input, mask, true), OutCoord(coord, mask, true)) == Offset(target, Project(coord, target))
  }

  ghost predicate AllReducible(input: Shape, target: Shape)
    requires |target| <= |input|
  {
    forall a | 0 <= a < |target| :: Reducible(input, target, a)
  }

  lemma LeadingAxis(input: Shape, target: Shape, coord: Coord)
    requires |target| < |input| == |coord| && SameOffsets(input[1..], target, coord[1..])
    ensures SameOffsets(input, target, coord)
  {
    var mask := SumMask(input, target);
    assert mask[1..] == SumMask(input[1..], target);
    OffsetCons(input, coord, mask, true);
    assert Project(coord, target) == Project(coord[1..], target);
  }

  lemma AlignedAxis(input: Shape, target: Shape, coord: Coord)
    requires |target| == |input| == |coord| && input != [] && coord[0] < input[0]
    requires Reducible(input, target, 0) && SameOffsets(input[1..], target[1..], coord[1..])
    ensures SameOffsets(input, target, coord)
  {
    var mask := SumMask(input, target);
    assert mask[1..] == SumMask(input[1..], target[1..]);
    OffsetCons(input, coord, mask, true);
    assert Project(coord, target)[1..] == Project(coord[1..], target[1..]);
    assert Times(1, Product(target[1..])) == Product(target[1..]);
    assert Times(0, Product(target[1..])) == 0;
  }

  lemma {:induction false} MaskedIsTarget(input: Shape, target: Shape, coord: Coord)
    requires |target| <= |input| && InShape(coord, input) && AllReducible(input, target)
    ensures SameOffsets(input, target, coord)
  {
    if input != [] {
      if |target| < |input| {
        forall a | 0 <= a < |target| ensures Reducible(input[1..], target, a) { assert Reducible(input, target, a); }
        MaskedIsTarget(input[1..], target, coord[1..]);
        LeadingAxis(input, target, coord);
      } else {
        forall a | 0 <= a < |target| - 1 ensures Reducible(input[1..], target[1..], a) {
          assert Reducible(input, target, a + 1);
        }
        MaskedIsTarget(input[1..], target[1..], coord[1..]);
        AlignedAxis(input, target, coord);
      }
    }
  }

  /** Reducing lands each element on the place that broadcasting would copy it from. */
  lemma LandingIsSource(input: Shape, target: Shape, j: nat)
    requires Positive(input) && CanBroadcastTo(target, input) && j < Product(input)
    ensures |target| <= |input| && Landing(j, input, SumMask(input, target), true) == SourceOffset(j, input, target)
  {
    UnravelRoundTrip(j, input);
    ReducibleShapes(input, target);
    MaskedIsTarget(input, target, Unravel(j, input));
  }

  lemma SumsToTarget(y: Tensor, target: Shape)
    requires Valid(y) && y.values != [] && CanBroadcastTo(target, y.shape) && y.shape != target
    ensures |target| <= |y.shape|
    ensures var mask := SumMask(y.shape, target);
      var r := Packed(OutShape(y.shape, mask, true), Collect(ReducedValues(y, mask, SumOf, true)));
      r.Ok? && r.value.Elements? && PlainValues(r.value.values) == FiberSums(y, target)
  {
    PositiveProduct(y.shape);
    var mask := SumMask(y.shape, target);
    UnravelRoundTrip(0, y.shape);
    ReducibleShapes(y.shape, target);
    MaskedIsTarget(y.shape, target, Unravel(0, y.shape));
    forall j | 0 <= j < Product(y.shape) ensures Landings(y.shape, mask, true)[j] == Sources(y.shape, target)[j] {
      LandingIsSource(y.shape, target, j);
    }
    assert Landings(y.shape, mask, true) == Sources(y.shape, target);
    ReductionPartitions(y, mask, true, SumOf);
    var results := ReducedValues(y, mask, SumOf, true);
    CollectSucceeds(results);
    KeptRank(y.shape, mask);
    assert PlainValues(Collect(results).value) == FiberSums(y, target);
  }

  lemma {:induction false} KeptRank(shape: Shape, mask: Mask)
    requires |mask| == |shape|
    ensures |OutShape(shape, mask, true)| == |shape|
  {
    if shape != [] { KeptRank(shape[1..], mask[1..]); }
  }

  // ---------------------------------------------------------------- adjointness

  /** The inner product of two lists of elements. */
  function Inner(a: seq<real>, b: seq<real>): real
    requires |a| == |b|
  {
    if a == [] then 0.0 else Inner(a[..|a| - 1], b[..|a| - 1]) + Mult(a[|a| - 1], b[|a| - 1])
  }

  /** Reducing to a shape is the adjoint of broadcasting from it: the inner product of a
      broadcast tensor with `y` is that of the tensor with the reduction of `y`. */
  lemma ReduceIsAdjointOfBroadcast(x: Tensor, y: Tensor)
    requires Valid(x) && Valid(y) && Supported(y)
    requires CanBroadcastTo(x.shape, y.shape) && Positive(y.shape)
    ensures var wide, narrow := BroadcastTo(x, y.shape), BroadcastReduced(y, x.shape);
      && wide.Ok? && narrow.Ok? && |wide.value.values| == |y.values| && |narrow.value.values| == |x.values|
      && Inner(wide.value.values, y.values) == Inner(x.values, narrow.value.values)
  {
    hide WeightedFibers, WeightedLandings, Fiber, Inner, Mult;
    var sources := Sources(y.shape, x.shape);
    FibersPartition(x.values, y.values, sources);
    InnerOfGathered(x.values, y.values, sources, BroadcastValues(x, y.shape));
    if x.shape == y.shape { SelfReduction(y); }
    InnerOfFibers(x.values, y.values, sources, FiberSums(y, x.shape), |x.values|);
    assert FiberSums(y, x.shape)[..|x.values|] == FiberSums(y, x.shape) && x.values[..|x.values|] == x.values;
  }

  lemma {:induction false} InnerOfGathered(weights: seq<real>, values: seq<real>,
      landings: seq<nat>, gathered: seq<real>)
    requires |landings| == |values| == |gathered| && Reduce.Below(landings, |weights|)
    requires forall j | 0 <= j < |gathered| :: gathered[j] == weights[landings[j]]
    ensures Inner(gathered, values) == WeightedLandings(weights, values, landings)
  {
    if values != [] {
      var n := |values| - 1;
      InnerOfGathered(weights, values[..n], landings[..n], gathered[..n]);
    }
  }

  lemma {:induction false} InnerOfFibers(weights: seq<real>, values: seq<real>,
      landings: seq<nat>, sums: seq<real>, m: nat)
    requires |landings| == |values| && m <= |weights| == |sums|
    requires forall i | 0 <= i < |sums| :: sums[i] == Sum(Fiber(values, landings, i))
    ensures Inner(weights[..m], sums[..m]) == WeightedFibers(weights, values, landings, m)
  {
    if m > 0 {
      InnerOfFibers(weights, values, landings, sums, m - 1);
      assert weights[..m][..m - 1] == weights[..m - 1] && sums[..m][..m - 1] == sums[..m - 1];
    }
  }

  /** Reducing a tensor to its own shape sums singletons. */
  lemma SelfReduction(y: Tensor)
    requires Valid(y) && CanBroadcastTo(y.shape, y.shape)
    ensures FiberSums(y, y.shape) == y.values
  {
    forall j | 0 <= j < Product(y.shape) ensures Sources(y.shape, y.shape)[j] == j { SelfOffset(j, y.shape); }
    forall i | 0 <= i < |y.values| ensures Sum(Fiber(y.values, Sources(y.shape, y.shape), i)) == y.values[i] {
      SingletonFiber(y.values, Sources(y.shape, y.shape), i);
    }
  }

  lemma {:induction false} SingletonFiber(values: seq<real>, landings: seq<nat>, i: nat)
    requires |landings| == |values| && forall j | 0 <= j < |landings| :: landings[j] == j
    ensures Sum(Fiber(values, landings, i)) == if i < |values| then values[i] else 0.0
  {
    if values != [] {
      var n := |values| - 1;
      SingletonFiber(values[..n], landings[..n], i);
      FiberSum(values, landings, i);
    }
  }
}
