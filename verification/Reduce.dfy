/** Reduction of a tensor over some of its axes. */
module Reduce {
  import opened Optional
  import opened MixedRadix
  import opened Broadcast
  import opened Accumulate

  /** One flag for each axis of a shape. */
  type Mask = seq<bool>

  /** The shape, or a coordinate, of the output: masked axes are collapsed or dropped. */
  function OutShape(shape: Shape, mask: Mask, keepdims: bool): Shape
    requires |mask| == |shape|
  {
    if shape == [] then []
    else (if !mask[0] then [shape[0]] else if keepdims then [1] else []) + OutShape(shape[1..], mask[1..], keepdims)
  }

  function OutCoord(coord: Coord, mask: Mask, keepdims: bool): Coord
    requires |mask| == |coord|
  {
    if coord == [] then []
    else (if !mask[0] then [coord[0]] else if keepdims then [0] else []) + OutCoord(coord[1..], mask[1..], keepdims)
  }

  lemma {:induction false} OutCoordInShape(coord: Coord, shape: Shape, mask: Mask, keepdims: bool)
    requires InShape(coord, shape) && |mask| == |shape|
    ensures InShape(OutCoord(coord, mask, keepdims), OutShape(shape, mask, keepdims))
  {
    if shape != [] {
      OutCoordInShape(coord[1..], shape[1..], mask[1..], keepdims);
      var c, s := OutCoord(coord[1..], mask[1..], keepdims), OutShape(shape[1..], mask[1..], keepdims);
      if !mask[0] {
        PrependInShape(coord[0], shape[0], c, s);
      } else if keepdims {
        PrependInShape(0, 1, c, s);
      } else {
        assert [] + c == c && [] + s == s;
      }
    }
  }

  lemma PrependInShape(c: nat, d: nat, coord: Coord, shape: Shape)
    requires InShape(coord, shape) && c < d
    ensures InShape([c] + coord, [d] + shape)
  {
  }

  /** Keeping or dropping the reduced axes changes neither the size of the output nor the
      offset at which an element lands. */
  lemma {:induction false} KeepdimsIsReshape(coord: Coord, shape: Shape, mask: Mask)
    requires |coord| == |mask| == |shape|
    ensures Product(OutShape(shape, mask, true)) == Product(OutShape(shape, mask, false))
    ensures |OutCoord(coord, mask, true)| == |OutShape(shape, mask, true)|
    ensures |OutCoord(coord, mask, false)| == |OutShape(shape, mask, false)|
    ensures Offset(OutShape(shape, mask, true), OutCoord(coord, mask, true))
         == Offset(OutShape(shape, mask, false), OutCoord(coord, mask, false))
  {
    if shape != [] {
      KeepdimsIsReshape(coord[1..], shape[1..], mask[1..]);
      OffsetCons(shape, coord, mask, true);
      OffsetCons(shape, coord, mask, false);
    }
  }

  lemma OffsetCons(shape: Shape, coord: Coord, mask: Mask, keepdims: bool)
    requires |coord| == |mask| == |shape| && shape != []
    requires |OutCoord(coord[1..], mask[1..], keepdims)| == |OutShape(shape[1..], mask[1..], keepdims)|
    ensures var s, c := OutShape(shape[1..], mask[1..], keepdims), OutCoord(coord[1..], mask[1..], keepdims);
      && |OutCoord(coord, mask, keepdims)| == |OutShape(shape, mask, keepdims)|
      && Product(OutShape(shape, mask, keepdims)) == (if mask[0] then Product(s) else Times(shape[0], Product(s)))
      && Offset(OutShape(shape, mask, keepdims), OutCoord(coord, mask, keepdims))
         == (if mask[0] then 0 else Times(coord[0], Product(s))) + Offset(s, c)
  {
    var s, c := OutShape(shape[1..], mask[1..], keepdims), OutCoord(coord[1..], mask[1..], keepdims);
    var d := if mask[0] then 1 else shape[0];
    var x := if mask[0] then 0 else coord[0];
    if mask[0] && !keepdims {
      assert [] + s == s && [] + c == c;
    } else {
      assert ([d] + s)[1..] == s && ([x] + c)[1..] == c;
    }
  }

  /** Where an element of the input lands in the output. */
  function Landing(index: nat, shape: Shape, mask: Mask, keepdims: bool): (offset: nat)
    requires index < Product(shape) && |mask| == |shape|
    ensures offset < Product(OutShape(shape, mask, keepdims))
  {
    UnravelRoundTrip(index, shape);
    var coord := Unravel(index, shape);
    OutCoordInShape(coord, shape, mask, keepdims);
    OffsetRoundTrip(OutShape(shape, mask, keepdims), OutCoord(coord, mask, keepdims));
    Offset(OutShape(shape, mask, keepdims), OutCoord(coord, mask, keepdims))
  }

  lemma LandingIgnoresKeepdims(index: nat, shape: Shape, mask: Mask)
    requires index < Product(shape) && |mask| == |shape|
    ensures Landing(index, shape, mask, true) == Landing(index, shape, mask, false)
  {
    UnravelRoundTrip(index, shape);
    KeepdimsIsReshape(Unravel(index, shape), shape, mask);
  }

  /** Some element lands at every offset of the output. */
  lemma EveryOffsetIsHit(offset: nat, shape: Shape, mask: Mask) returns (index: nat)
    requires Positive(shape) && |mask| == |shape| && offset < Product(OutShape(shape, mask, true))
    ensures index < Product(shape) && Landing(index, shape, mask, true) == offset
  {
    var out := OutShape(shape, mask, true);
    UnravelRoundTrip(offset, out);
    KeptCoord(Unravel(offset, out), shape, mask);
    OffsetRoundTrip(shape, Unravel(offset, out));
    index := Offset(shape, Unravel(offset, out));
  }

  /** A coordinate of the kept shape is a coordinate of the input, and lands on itself. */
  lemma {:induction false} KeptCoord(coord: Coord, shape: Shape, mask: Mask)
    requires |mask| == |shape| && Positive(shape) && InShape(coord, OutShape(shape, mask, true))
    ensures InShape(coord, shape) && OutCoord(coord, mask, true) == coord
  {
    if shape != [] {
      var out := OutShape(shape, mask, true);
      assert out[1..] == OutShape(shape[1..], mask[1..], true);
      assert forall i | 0 <= i < |coord[1..]| :: coord[1..][i] < out[1..][i];
      KeptCoord(coord[1..], shape[1..], mask[1..]);
      PrependInShape(coord[0], shape[0], coord[1..], shape[1..]);
      assert coord == [coord[0]] + coord[1..] && shape == [shape[0]] + shape[1..];
    }
  }

  /** The elements that land at one offset, in input order. */
  function Fiber(values: seq<real>, landings: seq<nat>, offset: nat): seq<real>
    requires |landings| == |values|
  {
    if values == [] then []
    else
      var n := |values| - 1;
      Fiber(values[..n], landings[..n], offset) + if landings[n] == offset then [values[n]] else []
  }

  function Landings(shape: Shape, mask: Mask, keepdims: bool): seq<nat>
    requires |mask| == |shape|
  {
    seq(Product(shape), j requires 0 <= j < Product(shape) => Landing(j, shape, mask, keepdims))
  }

  lemma {:induction false} FiberNonempty(values: seq<real>, landings: seq<nat>, index: nat)
    requires |landings| == |values| && index < |values|
    ensures Fiber(values, landings, landings[index]) != []
  {
    var n := |values| - 1;
    if index < n { FiberNonempty(values[..n], landings[..n], index); }
  }

  // ---------------------------------------------------------------- reduce_axes

  datatype Reduced = Scalar(value: Number) | Elements(shape: Shape, values: seq<Number>)

  function FirstOutside(axes: seq<nat>, rank: nat): Result<bool> {
    if axes == [] then Ok(true)
    else if axes[0] >= rank then Err(OutOfBounds(axes[0]))
    else FirstOutside(axes[1..], rank)
  }

  function MaskOf(axes: seq<nat>, rank: nat): Mask { seq(rank, a => a in axes) }

  /** The named axes, or every axis when none are named. */
  function MaskFor(axes: Option<seq<nat>>, rank: nat): Mask {
    if axes.Some? then MaskOf(axes.value, rank) else seq(rank, a => true)
  }

  /** Each output element is the reduction of the elements that land on it. */
  function ReducedValues(t: Tensor, mask: Mask, op: ReduceOp, keepdims: bool): seq<Result<Number>>
    requires Valid(t) && |mask| == |t.shape|
  {
    var m := Product(OutShape(t.shape, mask, keepdims));
    seq(m, i requires 0 <= i < m =>
      Accumulate.Reduce(Fiber(t.values, Landings(t.shape, mask, keepdims), i), op))
  }

  function Collect(results: seq<Result<Number>>): Result<seq<Number>> {
    if results == [] then Ok([])
    else
      match Collect(results[..|results| - 1])
      case Err(e) => Err(e)
      case Ok(front) =>
        match results[|results| - 1]
        case Err(e) => Err(e)
        case Ok(x) => Ok(front + [x])
  }

  function Packed(shape: Shape, values: Result<seq<Number>>): Result<Reduced> {
    match values
    case Err(e) => Err(e)
    case Ok(v) => if shape == [] && |v| > 0 then Ok(Scalar(v[0])) else Ok(Elements(shape, v))
  }

  /** The specification of `reduce_axes`. */
  function ReducedOver(t: Tensor, op: ReduceOp, axes: Option<seq<nat>>, keepdims: bool): Result<Reduced>
    requires Valid(t)
  {
    var rank := |t.shape|;
    if t.values == [] then Err(EmptyTensor)
    else if axes.Some? && FirstOutside(axes.value, rank).Err? then Err(FirstOutside(axes.value, rank).error)
    else
      var mask := MaskFor(axes, rank);
      Packed(OutShape(t.shape, mask, keepdims), Collect(ReducedValues(t, mask, op, keepdims)))
  }

  /** Marks the reduced axes, refusing one that the tensor does not have. */
  method MarkAxes(axes: seq<nat>, rank: nat) returns (r: Result<Mask>)
    ensures r == if FirstOutside(axes, rank).Err? then Err(FirstOutside(axes, rank).error) else Ok(MaskOf(axes, rank))
  {
    var mask := seq(rank, a => false);
    var i := 0;
    while i < |axes|
      invariant 0 <= i <= |axes| && |mask| == rank
      invariant FirstOutside(axes, rank) == FirstOutside(axes[i..], rank)
      invariant forall a | 0 <= a < rank :: mask[a] <==> a in axes[..i]
    {
      assert axes[i..][0] == axes[i] && axes[i..][1..] == axes[i + 1..];
      assert axes[..i + 1] == axes[..i] + [axes[i]];
      if axes[i] >= rank { return Err(OutOfBounds(axes[i])); }
      mask := mask[axes[i] := true];
      i := i + 1;
    }
    assert axes[..i] == axes && axes[i..] == [];
    assert mask == MaskOf(axes, rank);
    r := Ok(mask);
  }

  /** The offset at which an element lands. */
  method Land(index: nat, shape: Shape, strides: seq<nat>, mask: Mask, keepdims: bool, outStrides: seq<nat>)
    returns (offset: nat)
    requires index < Product(shape) && |mask| == |shape|
    requires strides == StridesOf(shape) && outStrides == StridesOf(OutShape(shape, mask, keepdims))
    ensures offset == Landing(index, shape, mask, keepdims)
  {
    UnravelRoundTrip(index, shape);
    var coord := CoordFromOffset(index, shape, strides);
    OutCoordInShape(coord, shape, mask, keepdims);
    var outCoord := OutCoord(coord, mask, keepdims);
    StridesGiveOffset(OutShape(shape, mask, keepdims), outCoord);
    offset := OffsetFromCoord(outCoord, outStrides);
  }

  /** Gathers every element into the accumulator on which it lands. */
  method Gather(t: Tensor, mask: Mask, keepdims: bool) returns (acc: array<ReduceAccum>)
    requires Valid(t) && |mask| == |t.shape|
    ensures fresh(acc) && acc.Length == Product(OutShape(t.shape, mask, keepdims))
    ensures forall i | 0 <= i < acc.Length ::
              acc[i] == AccumulateAll(Fiber(t.values, Landings(t.shape, mask, keepdims), i))
  {
    hide Fiber, AccumulateAll, Landing, StridesOf, OutShape;
    var outShape := OutShape(t.shape, mask, keepdims);
    var inStrides := Strides(t.shape);
    var outStrides := Strides(outShape);
    ghost var landings := Landings(t.shape, mask, keepdims);
    acc := new ReduceAccum[Product(outShape)](i => EMPTY_ACCUM);
    NothingGathered(t.values, landings);
    var n := 0;
    while n < |t.values|
      invariant 0 <= n <= |t.values|
      invariant forall i | 0 <= i < acc.Length :: acc[i] == AccumulateAll(Fiber(t.values[..n], landings[..n], i))
    {
      var offset := Land(n, t.shape, inStrides, mask, keepdims, outStrides);
      FiberNext(t.values, landings, n);
      acc[offset] := acc[offset].Update(t.values[n]);
      n := n + 1;
    }
    assert t.values[..n] == t.values && landings[..n] == landings;
  }

  lemma NothingGathered(values: seq<real>, landings: seq<nat>)
    requires |landings| == |values|
    ensures forall i :: AccumulateAll(Fiber(values[..0], landings[..0], i)) == EMPTY_ACCUM
  {
  }

  function Landed(acc: ReduceAccum, here: bool, v: real): ReduceAccum { if here then acc.Update(v) else acc }

  lemma FiberNext(values: seq<real>, landings: seq<nat>, n: nat)
    requires |landings| == |values| && n < |values|
    ensures forall i :: AccumulateAll(Fiber(values[..n + 1], landings[..n + 1], i))
                     == Landed(AccumulateAll(Fiber(values[..n], landings[..n], i)), i == landings[n], values[n])
  {
    assert values[..n + 1][..n] == values[..n] && landings[..n + 1][..n] == landings[..n];
    forall i
      ensures AccumulateAll(Fiber(values[..n + 1], landings[..n + 1], i))
           == Landed(AccumulateAll(Fiber(values[..n], landings[..n], i)), i == landings[n], values[n])
    {
      var fiber := Fiber(values[..n], landings[..n], i);
      if i == landings[n] { assert (fiber + [values[n]])[..|fiber|] == fiber; } else { assert fiber + [] == fiber; }
    }
  }

  /** `reduce_axes`. */
  method ReduceAxes(t: Tensor, op: ReduceOp, axes: Option<seq<nat>>, keepdims: bool) returns (r: Result<Reduced>)
    requires Valid(t)
    ensures r == ReducedOver(t, op, axes, keepdims)
    ensures r.Ok? <==> t.values != [] && AxesOf(axes, |t.shape|) && !op.Unknown?
    ensures r.Ok? && axes.None? && (!keepdims || t.shape == []) ==>
      r.value.Scalar? && Accumulate.Reduce(t.values, op) == Ok(r.value.value)
  {
    ReducesUnless(t, op, axes, keepdims);
    ReducesWhole(t, op, keepdims, seq(|t.shape|, a => 1));
    hide AxesOf;
    if t.values == [] { return Err(EmptyTensor); }
    var mask := seq(|t.shape|, a => true);
    if axes.Some? {
      var marked := MarkAxes(axes.value, |t.shape|);
      if marked.Err? { return Err(marked.error); }
      mask := marked.value;
    }
    var acc := Gather(t, mask, keepdims);
    ghost var results := ReducedValues(t, mask, op, keepdims);
    forall i | 0 <= i < acc.Length ensures acc[i].Finalize(op) == results[i] {
      OnePassIsReduce(Fiber(t.values, Landings(t.shape, mask, keepdims), i), op);
    }
    var out := FinalizeAll(acc, op, results);
    r := Packed(OutShape(t.shape, mask, keepdims), out);
  }

  /** Finalizes every accumulator, stopping at the first refusal. */
  method FinalizeAll(acc: array<ReduceAccum>, op: ReduceOp, ghost results: seq<Result<Number>>)
    returns (r: Result<seq<Number>>)
    requires |results| == acc.Length && forall i | 0 <= i < acc.Length :: acc[i].Finalize(op) == results[i]
    ensures r == Collect(results)
  {
    var out := [];
    var i := 0;
    while i < acc.Length
      invariant 0 <= i <= acc.Length && Collect(results[..i]) == Ok(out)
    {
      var x := acc[i].Finalize(op);
      assert results[..i + 1][..i] == results[..i] && results[..i + 1][i] == x;
      if x.Err? {
        CollectFails(results, i + 1);
        return Err(x.error);
      }
      out := out + [x.value];
      i := i + 1;
    }
    assert results[..i] == results;
    r := Ok(out);
  }

  lemma {:induction false} CollectFails(results: seq<Result<Number>>, i: nat)
    requires i <= |results| && Collect(results[..i]).Err?
    ensures Collect(results) == Collect(results[..i])
  {
    if i < |results| {
      assert results[..|results| - 1][..i] == results[..i];
      CollectFails(results[..|results| - 1], i);
    } else {
      assert results[..i] == results;
    }
  }

  lemma {:induction false} CollectSucceeds(results: seq<Result<Number>>)
    requires forall r | r in results :: r.Ok?
    ensures Collect(results).Ok? && |Collect(results).value| == |results|
    ensures forall i | 0 <= i < |results| :: Collect(results).value[i] == results[i].value
  {
    if results != [] { CollectSucceeds(results[..|results| - 1]); }
  }

  // ---------------------------------------------------------------- partition and conservation

  /** The elements of the output times their weights. */
  function WeightedFibers(weights: seq<real>, values: seq<real>, landings: seq<nat>, m: nat): real
    requires |landings| == |values| && m <= |weights|
  {
    if m == 0 then 0.0
    else WeightedFibers(weights, values, landings, m - 1) + Weighted(weights[m - 1], values, landings, m - 1)
  }

  ghost predicate Below(landings: seq<nat>, m: nat) { forall j | 0 <= j < |landings| :: landings[j] < m }

  /** The elements of the input times the weights of the places where they land. */
  function WeightedLandings(weights: seq<real>, values: seq<real>, landings: seq<nat>): real
    requires |landings| == |values| && Below(landings, |weights|)
  {
    if values == [] then 0.0
    else
      var n := |values| - 1;
      WeightedLandings(weights, values[..n], landings[..n]) + Mult(weights[landings[n]], values[n])
  }

  lemma FiberSum(values: seq<real>, landings: seq<nat>, i: nat)
    requires |landings| == |values| && values != []
    ensures var n := |values| - 1;
      Sum(Fiber(values, landings, i))
      == Sum(Fiber(values[..n], landings[..n], i)) + if landings[n] == i then values[n] else 0.0
  {
    var n := |values| - 1;
    var fiber := Fiber(values[..n], landings[..n], i);
    if landings[n] == i { assert (fiber + [values[n]])[..|fiber|] == fiber; } else { assert fiber + [] == fiber; }
  }

  function Weighted(w: real, values: seq<real>, landings: seq<nat>, i: nat): real
    requires |landings| == |values|
  {
    Mult(w, Sum(Fiber(values, landings, i)))
  }

  lemma WeightedNext(w: real, values: seq<real>, landings: seq<nat>, i: nat)
    requires |landings| == |values| && values != []
    ensures var n := |values| - 1;
      Weighted(w, values, landings, i)
      == Weighted(w, values[..n], landings[..n], i) + if landings[n] == i then Mult(w, values[n]) else 0.0
  {
    var n := |values| - 1;
    FiberSum(values, landings, i);
    if landings[n] == i { MulAdds(w, Sum(Fiber(values[..n], landings[..n], i)), values[n]); }
  }

  /** What one more element adds to the weighted output. */
  lemma {:induction false} OneMoreElement(weights: seq<real>, values: seq<real>, landings: seq<nat>, m: nat)
    requires |landings| == |values| && values != [] && m <= |weights|
    ensures var n := |values| - 1;
      WeightedFibers(weights, values, landings, m) == WeightedFibers(weights, values[..n], landings[..n], m)
        + if landings[n] < m then Mult(weights[landings[n]], values[n]) else 0.0
  {
    hide Weighted, Mult, Fiber, Sum;
    if m > 0 {
      OneMoreElement(weights, values, landings, m - 1);
      WeightedNext(weights[m - 1], values, landings, m - 1);
    }
  }

  lemma {:induction false} NoElements(weights: seq<real>, m: nat)
    requires m <= |weights|
    ensures WeightedFibers(weights, [], [], m) == 0.0
  {
    if m > 0 {
      NoElements(weights, m - 1);
      assert Sum(Fiber([], [], m - 1)) == 0.0 && Mult(weights[m - 1], 0.0) == 0.0;
    }
  }

  /** Exchanging the order of summation: by place and then by element, or element by element. */
  lemma {:induction false} FibersPartition(weights: seq<real>, values: seq<real>, landings: seq<nat>)
    requires |landings| == |values| && Below(landings, |weights|)
    ensures WeightedFibers(weights, values, landings, |weights|) == WeightedLandings(weights, values, landings)
  {
    if values == [] {
      NoElements(weights, |weights|);
    } else {
      var n := |values| - 1;
      FibersPartition(weights, values[..n], landings[..n]);
      OneMoreElement(weights, values, landings, |weights|);
    }
  }

  lemma LandingsInBounds(t: Tensor, mask: Mask, keepdims: bool)
    requires Valid(t) && |mask| == |t.shape|
    ensures Below(Landings(t.shape, mask, keepdims), Product(OutShape(t.shape, mask, keepdims)))
  {
  }

  /** Reduction partitions its input: whether axes are kept or dropped the places are the same,
      every place receives an element, and so every accumulator is initialized. */
  lemma ReductionPartitions(t: Tensor, mask: Mask, keepdims: bool, op: ReduceOp)
    requires Valid(t) && |mask| == |t.shape| && t.values != []
    ensures Landings(t.shape, mask, true) == Landings(t.shape, mask, false)
    ensures Product(OutShape(t.shape, mask, true)) == Product(OutShape(t.shape, mask, false))
    ensures forall i | 0 <= i < Product(OutShape(t.shape, mask, keepdims)) ::
              Fiber(t.values, Landings(t.shape, mask, keepdims), i) != []
    ensures ReducedValues(t, mask, op, true) == ReducedValues(t, mask, op, false)
  {
    PositiveProduct(t.shape);
    forall j | 0 <= j < Product(t.shape) ensures Landing(j, t.shape, mask, true) == Landing(j, t.shape, mask, false) {
      LandingIgnoresKeepdims(j, t.shape, mask);
    }
    KeepdimsIsReshape(t.shape, t.shape, mask);
    var landings := Landings(t.shape, mask, true);
    assert landings == Landings(t.shape, mask, false);
    forall i | 0 <= i < Product(OutShape(t.shape, mask, keepdims)) ensures Fiber(t.values, landings, i) != [] {
      var j := EveryOffsetIsHit(i, t.shape, mask);
      assert landings[j] == i;
      FiberNonempty(t.values, landings, j);
    }
  }

  function Ones(n: nat): seq<real> { seq(n, i => 1.0) }

  /** The sum of the elements that land at each place of the output. */
  function Totals(t: Tensor, mask: Mask, keepdims: bool): seq<real>
    requires Valid(t) && |mask| == |t.shape|
  {
    var m := Product(OutShape(t.shape, mask, keepdims));
    seq(m, i requires 0 <= i < m => Sum(Fiber(t.values, Landings(t.shape, mask, keepdims), i)))
  }

  /** A sum over axes holds the totals of the places, and summing those in turn gives the sum
      of the whole tensor. */
  lemma SumIsConserved(t: Tensor, mask: Mask, keepdims: bool)
    requires Valid(t) && |mask| == |t.shape| && t.values != []
    ensures |ReducedValues(t, mask, SumOf, keepdims)| == |Totals(t, mask, keepdims)|
    ensures forall i | 0 <= i < |Totals(t, mask, keepdims)| ::
              ReducedValues(t, mask, SumOf, keepdims)[i] == Ok(Plain(Totals(t, mask, keepdims)[i]))
    ensures Sum(Totals(t, mask, keepdims)) == Sum(t.values)
  {
    hide Fiber, Sum, WeightedFibers, WeightedLandings, Mult, Product, OutShape;
    var totals, landings := Totals(t, mask, keepdims), Landings(t.shape, mask, keepdims);
    var m := |totals|;
    ReductionPartitions(t, mask, keepdims, SumOf);
    LandingsInBounds(t, mask, keepdims);
    FibersPartition(Ones(m), t.values, landings);
    UnitWeights(m, t.values, landings);
    UnitFibers(t.values, landings, totals, m);
    assert totals[..m] == totals;
  }

  lemma {:induction false} UnitFibers(values: seq<real>, landings: seq<nat>, totals: seq<real>, m: nat)
    requires |landings| == |values| && m <= |totals|
    requires forall i | 0 <= i < |totals| :: totals[i] == Sum(Fiber(values, landings, i))
    ensures WeightedFibers(Ones(|totals|), values, landings, m) == Sum(totals[..m])
  {
    if m > 0 {
      UnitFibers(values, landings, totals, m - 1);
      assert totals[..m][..m - 1] == totals[..m - 1];
    }
  }

  lemma {:induction false} UnitWeights(m: nat, values: seq<real>, landings: seq<nat>)
    requires |landings| == |values| && Below(landings, m)
    ensures WeightedLandings(Ones(m), values, landings) == Sum(values)
  {
    if values != [] {
      var n := |values| - 1;
      UnitWeights(m, values[..n], landings[..n]);
    }
  }

  // ---------------------------------------------------------------- what a reduction computes

  predicate Increasing(s: seq<nat>) { forall i, j | 0 <= i < j < |s| :: s[i] < s[j] }

  /** With its reduced axes kept the output has the rank of the input, size 1 in those axes, and the
      dimensions of the input in the others; an element keeps its place in the others. */
  lemma {:induction false} KeptAxiswise(coord: Coord, shape: Shape, mask: Mask)
    requires |coord| == |mask| == |shape|
    ensures |OutShape(shape, mask, true)| == |OutCoord(coord, mask, true)| == |shape|
    ensures forall a | 0 <= a < |shape| :: OutShape(shape, mask, true)[a] == if mask[a] then 1 else shape[a]
    ensures forall a | 0 <= a < |shape| :: OutCoord(coord, mask, true)[a] == if mask[a] then 0 else coord[a]
  {
    if shape != [] {
      KeptAxiswise(coord[1..], shape[1..], mask[1..]);
      forall a | 0 < a < |shape|
        ensures OutShape(shape, mask, true)[a] == OutShape(shape[1..], mask[1..], true)[a - 1]
        ensures OutCoord(coord, mask, true)[a] == OutCoord(coord[1..], mask[1..], true)[a - 1]
      {
      }
    }
  }

  lemma {:induction false} SplitAxes(shape: Shape, mask: Mask, n: nat)
    requires |mask| == |shape| && n <= |shape|
    ensures OutShape(shape, mask, false)
         == OutShape(shape[..n], mask[..n], false) + OutShape(shape[n..], mask[n..], false)
  {
    if n == 0 {
      assert shape[0..] == shape && mask[0..] == mask;
    } else {
      SplitAxes(shape[1..], mask[1..], n - 1);
      assert shape[1..][..n - 1] == shape[..n][1..] && mask[1..][..n - 1] == mask[..n][1..];
      assert shape[1..][n - 1..] == shape[n..] && mask[1..][n - 1..] == mask[n..];
    }
  }

  /** The list of exactly the places of a sequence that hold an item. */
  ghost predicate PlacesOf<T>(s: seq<T>, item: T, places: seq<nat>) {
    Increasing(places) && forall j: nat :: j in places <==> j < |s| && s[j] == item
  }

  lemma NoPlaces<T>(item: T, places: seq<nat>)
    requires PlacesOf([], item, places)
    ensures places == []
  {
    SomeElement(places);
  }

  lemma SomeElement(s: seq<nat>)
    ensures s == [] || exists x: nat :: x in s
  {
    if s != [] { assert s[0] in s; }
  }

  lemma LastPlace<T>(s: seq<T>, item: T, places: seq<nat>)
    requires s != [] && PlacesOf(s, item, places)
    ensures var n := |s| - 1;
      if s[n] == item then
        places != [] && places[|places| - 1] == n && PlacesOf(s[..n], item, places[..|places| - 1])
      else
        PlacesOf(s[..n], item, places)
  {
    var n := |s| - 1;
    if s[n] == item {
      LastIs(places, n);
      assert places == places[..|places| - 1] + [n];
    }
  }

  /** In an increasing list whose elements are at most `n`, `n` comes last. */
  lemma LastIs(s: seq<nat>, n: nat)
    requires Increasing(s) && n in s && forall x | x in s :: x <= n
    ensures s != [] && s[|s| - 1] == n
  {
    var i :| 0 <= i < |s| && s[i] == n;
    assert forall j | 0 <= j < |s| :: s[j] in s;
  }

  /** With its reduced axes dropped the output has exactly the other axes of the input, in their order. */
  lemma {:induction false} DroppedAxiswise(shape: Shape, mask: Mask, rest: seq<nat>, k: nat)
    requires |mask| == |shape| && PlacesOf(mask, false, rest)
    ensures |OutShape(shape, mask, false)| == |rest|
    ensures k < |rest| ==> rest[k] < |shape| && OutShape(shape, mask, false)[k] == shape[rest[k]]
  {
    if shape == [] {
      NoPlaces(false, rest);
    } else {
      LastAxis(shape, mask);
      LastPlace(mask, false, rest);
      hide *;
      var n := |shape| - 1;
      var out := OutShape(shape[..n], mask[..n], false);
      if mask[n] {
        DroppedAxiswise(shape[..n], mask[..n], rest, k);
        assert out + [] == out;
      } else {
        DroppedAxiswise(shape[..n], mask[..n], rest[..|rest| - 1], k);
      }
    }
  }

  lemma LastAxis(shape: Shape, mask: Mask)
    requires |mask| == |shape| && shape != []
    ensures var n := |shape| - 1;
      OutShape(shape, mask, false) == OutShape(shape[..n], mask[..n], false) + if mask[n] then [] else [shape[n]]
  {
    var n := |shape| - 1;
    SplitAxes(shape, mask, n);
    assert OutShape(shape[n..], mask[n..], false) == if mask[n] then [] else [shape[n]];
  }

  /** The elements gathered at an offset are exactly those that land there, in input order. */
  lemma {:induction false} FiberSays(values: seq<real>, landings: seq<nat>, offset: nat, landed: seq<nat>, k: nat)
    requires |landings| == |values| && PlacesOf(landings, offset, landed)
    ensures |Fiber(values, landings, offset)| == |landed|
    ensures k < |landed| ==> landed[k] < |values| && Fiber(values, landings, offset)[k] == values[landed[k]]
  {
    if values == [] {
      NoPlaces(offset, landed);
    } else {
      var n := |values| - 1;
      LastPlace(landings, offset, landed);
      hide PlacesOf;
      var front := if landings[n] == offset then landed[..|landed| - 1] else landed;
      FiberSays(values[..n], landings[..n], offset, front, k);
    }
  }

  lemma FiberIs(values: seq<real>, landings: seq<nat>, offset: nat, landed: seq<nat>, cell: seq<real>)
    requires |landings| == |values| && PlacesOf(landings, offset, landed) && |cell| == |landed|
    requires forall k | 0 <= k < |landed| :: landed[k] < |values| && cell[k] == values[landed[k]]
    ensures Fiber(values, landings, offset) == cell
  {
    hide Fiber;
    var fiber := Fiber(values, landings, offset);
    FiberSays(values, landings, offset, landed, 0);
    forall k: nat | k < |cell| ensures fiber[k] == cell[k] { FiberSays(values, landings, offset, landed, k); }
  }

  /** An element lands at the output coordinate with which it agrees in every axis that is not reduced. */
  lemma LandsWhereItAgrees(coord: Coord, shape: Shape, mask: Mask, out: Coord)
    requires |mask| == |shape| && InShape(coord, shape) && InShape(out, OutShape(shape, mask, true))
    ensures Offset(shape, coord) < Product(shape) && |out| == |shape|
    ensures Landing(Offset(shape, coord), shape, mask, true) == Offset(OutShape(shape, mask, true), out)
       <==> forall a | 0 <= a < |shape| && !mask[a] :: coord[a] == out[a]
  {
    OffsetRoundTrip(shape, coord);
    KeptAxiswise(coord, shape, mask);
    OutCoordInShape(coord, shape, mask, true);
    var wide, landed := OutShape(shape, mask, true), OutCoord(coord, mask, true);
    OffsetRoundTrip(wide, landed);
    OffsetRoundTrip(wide, out);
    if forall a | 0 <= a < |shape| && !mask[a] :: coord[a] == out[a] {
      forall a | 0 <= a < |shape| ensures landed[a] == out[a] { if mask[a] { assert out[a] < wide[a] == 1; } }
      assert landed == out;
    }
  }

  /** Axes are refused at the first that the tensor does not have. */
  lemma {:induction false} RefusesFirstOutside(axes: seq<nat>, rank: nat, i: nat)
    requires i <= |axes| && (forall j | 0 <= j < i :: axes[j] < rank) && (i < |axes| ==> rank <= axes[i])
    ensures FirstOutside(axes, rank) == if i < |axes| then Err(OutOfBounds(axes[i])) else Ok(true)
  {
    if 0 < i {
      assert axes[0] < rank && forall j | 0 <= j < i - 1 :: axes[1..][j] == axes[j + 1];
      RefusesFirstOutside(axes[1..], rank, i - 1);
    }
  }

  predicate AxesOf(axes: Option<seq<nat>>, rank: nat) { axes.Some? ==> forall a | a in axes.value :: a < rank }

  /** Whether an axis is reduced: every axis is when none are named. */
  predicate IsReduced(axes: Option<seq<nat>>, a: nat) { axes.None? || a in axes.value }

  lemma MaskSays(axes: Option<seq<nat>>, rank: nat)
    ensures |MaskFor(axes, rank)| == rank
    ensures forall a | 0 <= a < rank :: MaskFor(axes, rank)[a] <==> IsReduced(axes, a)
  {
  }

  /** Every place of the output is reduced, or none is. */
  lemma AllOrNothing(t: Tensor, mask: Mask, op: ReduceOp, keepdims: bool)
    requires Valid(t) && |mask| == |t.shape| && t.values != []
    ensures ReducedValues(t, mask, op, keepdims) != []
    ensures var results := ReducedValues(t, mask, op, keepdims);
      if op.Unknown? then Collect(results) == Err(Unsupported)
      else
        && Collect(results).Ok? && |Collect(results).value| == |results|
        && forall i | 0 <= i < |results| :: results[i] == Ok(Collect(results).value[i])
  {
    hide Product, OutShape, Fiber, Landings;
    var results := ReducedValues(t, mask, op, keepdims);
    assert Landings(t.shape, mask, keepdims)[0] < |results| by { FirstLands(t, mask, keepdims); }
    ReductionPartitions(t, mask, keepdims, op);
    if op.Unknown? {
      assert results[0] == Err(Unsupported) && results[..1] == [results[0]] && results[..1][..0] == [];
      CollectFails(results, 1);
    } else {
      CollectSucceeds(results);
    }
  }

  lemma FirstLands(t: Tensor, mask: Mask, keepdims: bool)
    requires Valid(t) && |mask| == |t.shape| && t.values != []
    ensures Landings(t.shape, mask, keepdims) != []
    ensures Landings(t.shape, mask, keepdims)[0] < Product(OutShape(t.shape, mask, keepdims))
  {
  }

  lemma {:induction false} FirstBeyond(axes: seq<nat>, rank: nat) returns (i: nat)
    requires exists a :: a in axes && rank <= a
    ensures i < |axes| && rank <= axes[i] && forall j | 0 <= j < i :: axes[j] < rank
  {
    if rank <= axes[0] {
      i := 0;
    } else {
      var a :| a in axes && rank <= a;
      assert a in axes[1..];
      var n := FirstBeyond(axes[1..], rank);
      i := n + 1;
      assert forall j | 0 < j < i :: axes[j] == axes[1..][j - 1];
    }
  }

  /** An empty tensor is refused, then an axis that the tensor does not have, and then an unknown
      operation; nothing else is. */
  lemma ReducesUnless(t: Tensor, op: ReduceOp, axes: Option<seq<nat>>, keepdims: bool)
    requires Valid(t)
    ensures t.values == [] ==> ReducedOver(t, op, axes, keepdims) == Err(EmptyTensor)
    ensures t.values != [] && !AxesOf(axes, |t.shape|) ==>
      exists i | 0 <= i < |axes.value| ::
        && |t.shape| <= axes.value[i] && (forall j | 0 <= j < i :: axes.value[j] < |t.shape|)
        && ReducedOver(t, op, axes, keepdims) == Err(OutOfBounds(axes.value[i]))
    ensures t.values != [] && AxesOf(axes, |t.shape|) && op.Unknown? ==>
      ReducedOver(t, op, axes, keepdims) == Err(Unsupported)
    ensures t.values != [] && AxesOf(axes, |t.shape|) && !op.Unknown? ==> ReducedOver(t, op, axes, keepdims).Ok?
  {
    hide Product, OutShape, ReducedValues, Collect;
    if t.values != [] {
      if AxesOf(axes, |t.shape|) {
        if axes.Some? {
          assert forall j | 0 <= j < |axes.value| :: axes.value[j] in axes.value;
          RefusesFirstOutside(axes.value, |t.shape|, |axes.value|);
        }
        AllOrNothing(t, MaskFor(axes, |t.shape|), op, keepdims);
      } else {
        var i := FirstBeyond(axes.value, |t.shape|);
        RefusesFirstOutside(axes.value, |t.shape|, i);
      }
    }
  }

  /** The shape of a reduction, axis by axis: the size 1 in the reduced axes and that of the input in the
      others, or, unless axes are kept, the others only.  Without an axis left it is a scalar. */
  lemma ReducedShape(t: Tensor, op: ReduceOp, axes: Option<seq<nat>>, keepdims: bool, rest: seq<nat>)
    requires Valid(t) && ReducedOver(t, op, axes, keepdims).Ok?
    requires Increasing(rest) && forall a: nat :: a in rest <==> a < |t.shape| && !IsReduced(axes, a)
    ensures var r := ReducedOver(t, op, axes, keepdims).value;
      && (r.Scalar? <==> if keepdims then t.shape == [] else rest == [])
      && (r.Elements? && keepdims ==>
            && |r.shape| == |t.shape|
            && forall a | 0 <= a < |t.shape| :: r.shape[a] == if IsReduced(axes, a) then 1 else t.shape[a])
      && (r.Elements? && !keepdims ==>
            && |r.shape| == |rest|
            && forall k | 0 <= k < |rest| :: rest[k] < |t.shape| && r.shape[k] == t.shape[rest[k]])
  {
    hide Product, OutShape, ReducedValues, Collect, MaskFor;
    ReducesUnless(t, op, axes, keepdims);
    MaskSays(axes, |t.shape|);
    var mask := MaskFor(axes, |t.shape|);
    AllOrNothing(t, mask, op, keepdims);
    KeptAxiswise(t.shape, t.shape, mask);
    DroppedAxiswise(t.shape, mask, rest, 0);
    forall k: nat | k < |rest|
      ensures rest[k] < |t.shape| && OutShape(t.shape, mask, false)[k] == t.shape[rest[k]]
    {
      DroppedAxiswise(t.shape, mask, rest, k);
    }
  }

  /** The value at a place of a reduction is the reduction of exactly the elements whose coordinates
      agree with the place in every axis that is not reduced.  A place is named by its coordinate
      with the reduced axes kept. */
  lemma ReducedCell(t: Tensor, op: ReduceOp, axes: Option<seq<nat>>, keepdims: bool,
      kept: Shape, place: Coord, landed: seq<nat>, cell: seq<real>)
    requires Valid(t) && Positive(t.shape) && ReducedOver(t, op, axes, keepdims).Ok?
    requires |kept| == |t.shape| && InShape(place, kept)
    requires forall a | 0 <= a < |kept| :: kept[a] == if IsReduced(axes, a) then 1 else t.shape[a]
    requires Increasing(landed) && forall j: nat :: j in landed <==> j < Product(t.shape) && Agrees(t, axes, place, j)
    requires |cell| == |landed|
    requires forall k | 0 <= k < |landed| :: landed[k] < |t.values| && cell[k] == t.values[landed[k]]
    ensures var r, i := ReducedOver(t, op, axes, keepdims).value, Offset(kept, place);
      if r.Scalar? then Accumulate.Reduce(cell, op) == Ok(r.value)
      else i < |r.values| && Accumulate.Reduce(cell, op) == Ok(r.values[i])
  {
    hide Product, OutShape, Collect, MaskFor, Fiber, Agrees, Landing;
    var mask := MaskFor(axes, |t.shape|);
    ReducesUnless(t, op, axes, keepdims);
    MaskSays(axes, |t.shape|);
    AllOrNothing(t, mask, op, keepdims);
    ReductionPartitions(t, mask, keepdims, op);
    KeptAxiswise(t.shape, t.shape, mask);
    assert kept == OutShape(t.shape, mask, true);
    OffsetRoundTrip(kept, place);
    forall j: nat | j < Product(t.shape)
      ensures Landings(t.shape, mask, true)[j] == Offset(kept, place) <==> Agrees(t, axes, place, j)
    {
      AgreeingLands(t, axes, mask, place, j);
    }
    FiberIs(t.values, Landings(t.shape, mask, true), Offset(kept, place), landed, cell);
    assert ReducedValues(t, mask, op, true)[Offset(kept, place)] == Accumulate.Reduce(cell, op);
    assert ReducedValues(t, mask, op, keepdims) == ReducedValues(t, mask, op, true);
    NoAxesOneElement(OutShape(t.shape, mask, keepdims));
  }

  lemma NoAxesOneElement(shape: Shape)
    ensures shape == [] ==> Product(shape) == 1
  {
  }

  /** The element at an index agrees with a place in every axis that is not reduced. */
  predicate Agrees(t: Tensor, axes: Option<seq<nat>>, place: Coord, j: nat)
    requires |place| == |t.shape| && Positive(t.shape) && j < Product(t.shape)
  {
    UnravelRoundTrip(j, t.shape);
    forall a | 0 <= a < |t.shape| :: IsReduced(axes, a) || Unravel(j, t.shape)[a] == place[a]
  }

  lemma AgreeingLands(t: Tensor, axes: Option<seq<nat>>, mask: Mask, place: Coord, j: nat)
    requires |mask| == |t.shape| && Positive(t.shape) && j < Product(t.shape)
    requires forall a | 0 <= a < |mask| :: mask[a] <==> IsReduced(axes, a)
    requires InShape(place, OutShape(t.shape, mask, true)) && |place| == |t.shape|
    ensures Landing(j, t.shape, mask, true) == Offset(OutShape(t.shape, mask, true), place)
       <==> Agrees(t, axes, place, j)
  {
    UnravelRoundTrip(j, t.shape);
    LandsWhereItAgrees(Unravel(j, t.shape), t.shape, mask, place);
  }

  /** Naming no axes is naming them all. */
  lemma NoAxesIsAllAxes(t: Tensor, op: ReduceOp, axes: seq<nat>, keepdims: bool)
    requires Valid(t) && forall a: nat :: a in axes <==> a < |t.shape|
    ensures ReducedOver(t, op, None, keepdims) == ReducedOver(t, op, Some(axes), keepdims)
  {
    assert forall j | 0 <= j < |axes| :: axes[j] < |t.shape| by {
      forall j | 0 <= j < |axes| ensures axes[j] < |t.shape| { assert axes[j] in axes; }
    }
    RefusesFirstOutside(axes, |t.shape|, |axes|);
    assert MaskFor(None, |t.shape|) == MaskFor(Some(axes), |t.shape|);
  }

  /** Reducing over every axis reduces all the elements: to a scalar, or with kept axes to the one element
      of a shape of ones. */
  lemma ReducesWhole(t: Tensor, op: ReduceOp, keepdims: bool, ones: Shape)
    requires Valid(t) && |ones| == |t.shape| && forall a | 0 <= a < |ones| :: ones[a] == 1
    ensures var r, whole := ReducedOver(t, op, None, keepdims), Accumulate.Reduce(t.values, op);
      && (whole.Err? ==> r == Err(whole.error))
      && (whole.Ok? && keepdims && ones != [] ==> r == Ok(Elements(ones, [whole.value])))
      && (whole.Ok? && (!keepdims || ones == []) ==> r == Ok(Scalar(whole.value)))
  {
    hide Collect, ReducedValues;
    if t.values != [] {
      var mask := MaskFor(None, |t.shape|);
      WholeResults(t, mask, op, keepdims, if keepdims then ones else []);
      AllMasked(t.shape, mask, keepdims, if keepdims then ones else []);
      CollectOne(Accumulate.Reduce(t.values, op));
    }
  }

  lemma WholeResults(t: Tensor, mask: Mask, op: ReduceOp, keepdims: bool, out: Shape)
    requires Valid(t) && |mask| == |t.shape| && t.values != [] && forall a | 0 <= a < |mask| :: mask[a]
    requires if keepdims then |out| == |mask| && forall a | 0 <= a < |out| :: out[a] == 1 else out == []
    ensures ReducedValues(t, mask, op, keepdims) == [Accumulate.Reduce(t.values, op)]
  {
    hide Fiber, Accumulate.Reduce;
    AllMasked(t.shape, mask, keepdims, out);
    var landings := Landings(t.shape, mask, keepdims);
    WholeFiber(t.values, landings, |t.values|);
    assert t.values[..|t.values|] == t.values && landings[..|t.values|] == landings;
  }

  lemma CollectOne(r: Result<Number>)
    ensures r.Err? ==> Collect([r]) == Err(r.error)
    ensures r.Ok? ==> Collect([r]) == Ok([r.value])
  {
    assert [r][..0] == [];
    assert r.Ok? ==> [] + [r.value] == [r.value];
  }

  lemma {:induction false} AllMasked(shape: Shape, mask: Mask, keepdims: bool, out: Shape)
    requires |mask| == |shape| && forall a | 0 <= a < |mask| :: mask[a]
    requires if keepdims then |out| == |shape| && forall a | 0 <= a < |out| :: out[a] == 1 else out == []
    ensures OutShape(shape, mask, keepdims) == out && Product(out) == 1
  {
    if shape != [] {
      AllMasked(shape[1..], mask[1..], keepdims, if keepdims then out[1..] else []);
      if keepdims { assert out == [1] + out[1..]; }
    }
  }

  lemma {:induction false} WholeFiber(values: seq<real>, landings: seq<nat>, n: nat)
    requires |landings| == |values| && n <= |values| && forall j | 0 <= j < |landings| :: landings[j] == 0
    ensures Fiber(values[..n], landings[..n], 0) == values[..n]
  {
    if 0 < n {
      WholeFiber(values, landings, n - 1);
      assert values[..n][..n - 1] == values[..n - 1] && landings[..n][..n - 1] == landings[..n - 1];
      assert values[..n] == values[..n - 1] + [values[n - 1]];
    }
  }
}
