/** Reductions of a sequence of elements: in one pass over an accumulator, and by definition. */
module Accumulate {
  import opened MixedRadix

  datatype ReduceOp = Max | Min | Mean | Norm | ProductOf | Std | SumOf | Unknown(name: string)

  /** A reduced value; the square roots of norm and deviation are left to their radicands. */
  datatype Number = Plain(value: real) | SquareRoot(radicand: real)

  function Larger(a: real, b: real): real { if a < b then b else a }

  function Smaller(a: real, b: real): real { if b < a then b else a }

  function Div(a: real, n: nat): real
    requires 0 < n
  {
    a / n as real
  }

  datatype ReduceAccum = ReduceAccum(
    initialized: bool, count: nat, sum: real, sumsq: real, product: real, min: real, max: real)
  {
    function Update(v: real): ReduceAccum {
      if !initialized then ReduceAccum(true, 1, v, Mult(v, v), v, v, v)
      else ReduceAccum(true, count + 1, sum + v, sumsq + Mult(v, v), Mult(product, v), Smaller(min, v), Larger(max, v))
    }

    function Finalize(op: ReduceOp): Result<Number> {
      if !initialized || count == 0 then Err(EmptyTensor)
      else
        match op
        case Max => Ok(Plain(max))
        case Min => Ok(Plain(min))
        case Mean => Ok(Plain(Div(sum, count)))
        case Norm => Ok(SquareRoot(sumsq))
        case ProductOf => Ok(Plain(product))
        case Std =>
          var mean := Div(sum, count);
          Ok(SquareRoot(Larger(Div(sumsq, count) - Mult(mean, mean), 0.0)))
        case SumOf => Ok(Plain(sum))
        case Unknown(_) => Err(Unsupported)
    }
  }

  const EMPTY_ACCUM := ReduceAccum(false, 0, 0.0, 0.0, 0.0, 0.0, 0.0)

  function AccumulateAll(values: seq<real>): ReduceAccum {
    if values == [] then EMPTY_ACCUM else AccumulateAll(values[..|values| - 1]).Update(values[|values| - 1])
  }

  // ---------------------------------------------------------------- by definition

  function Sum(values: seq<real>): real {
    if values == [] then 0.0 else Sum(values[..|values| - 1]) + values[|values| - 1]
  }

  function Squares(values: seq<real>): seq<real> {
    seq(|values|, i requires 0 <= i < |values| => Mult(values[i], values[i]))
  }

  /** The squared deviations of the elements from a centre. */
  function Deviations(values: seq<real>, centre: real): seq<real> {
    seq(|values|, i requires 0 <= i < |values| => Mult(values[i] - centre, values[i] - centre))
  }

  function ProductAll(values: seq<real>): real {
    if values == [] then 1.0 else Mult(ProductAll(values[..|values| - 1]), values[|values| - 1])
  }

  function MaxAll(values: seq<real>): real
    requires values != []
  {
    if |values| == 1 then values[0] else Larger(MaxAll(values[..|values| - 1]), values[|values| - 1])
  }

  function MinAll(values: seq<real>): real
    requires values != []
  {
    if |values| == 1 then values[0] else Smaller(MinAll(values[..|values| - 1]), values[|values| - 1])
  }

  /** `reduce`: two passes where the definition needs the mean first. */
  function Reduce(values: seq<real>, op: ReduceOp): Result<Number> {
    if values == [] then Err(EmptyTensor)
    else
      match op
      case Max => Ok(Plain(MaxAll(values)))
      case Min => Ok(Plain(MinAll(values)))
      case Mean => Ok(Plain(Div(Sum(values), |values|)))
      case Norm => Ok(SquareRoot(Sum(Squares(values))))
      case ProductOf => Ok(Plain(ProductAll(values)))
      case Std =>
        var mean := Div(Sum(values), |values|);
        Ok(SquareRoot(Div(Sum(Deviations(values, mean)), |values|)))
      case SumOf => Ok(Plain(Sum(values)))
      case Unknown(_) => Err(Unsupported)
  }

  lemma {:induction false} MaxIsGreatest(values: seq<real>)
    requires values != []
    ensures MaxAll(values) in values && forall v | v in values :: v <= MaxAll(values)
    ensures MinAll(values) in values && forall v | v in values :: MinAll(values) <= v
  {
    if |values| > 1 {
      MaxIsGreatest(values[..|values| - 1]);
      assert values == values[..|values| - 1] + [values[|values| - 1]];
    }
  }

  lemma {:induction false} AccumHolds(values: seq<real>)
    requires values != []
    ensures var a := AccumulateAll(values);
      && a.initialized && a.count == |values| && a.sum == Sum(values) && a.sumsq == Sum(Squares(values))
      && a.product == ProductAll(values) && a.min == MinAll(values) && a.max == MaxAll(values)
  {
    var n := |values| - 1;
    var front, last := values[..n], values[n];
    assert Squares(values)[..n] == Squares(front) && Squares(values)[n] == Mult(last, last);
    if n > 0 {
      AccumHolds(front);
    } else {
      assert AccumulateAll(front) == EMPTY_ACCUM && Sum(front) == 0.0 && Sum(Squares(front)) == 0.0;
      assert ProductAll(values) == Mult(ProductAll(front), last) == Mult(1.0, last) == last;
    }
  }

  lemma SquareOfDifference(v: real, m: real)
    ensures Mult(v - m, v - m) == Mult(v, v) - 2.0 * Mult(m, v) + Mult(m, m)
  {
  }

  lemma MulAdds(m: real, a: real, b: real)
    ensures Mult(m, a + b) == Mult(m, a) + Mult(m, b)
  {
  }

  lemma OneMore(n: nat, w: real)
    ensures Mult((n + 1) as real, w) == Mult(n as real, w) + w
  {
  }

  lemma MulSwaps(a: real, b: real, c: real)
    ensures Mult(a, Mult(b, c)) == Mult(b, Mult(a, c))
  {
  }

  lemma DivMul(s: real, n: nat)
    requires 0 < n
    ensures s == Mult(n as real, Div(s, n))
  {
  }

  lemma {:induction false} DeviationSum(values: seq<real>, m: real)
    ensures Sum(Deviations(values, m)) ==
      Sum(Squares(values)) - 2.0 * Mult(m, Sum(values)) + Mult(|values| as real, Mult(m, m))
  {
    if values != [] {
      var n := |values| - 1;
      var front, v := values[..n], values[n];
      DeviationSum(front, m);
      assert Squares(values)[..n] == Squares(front) && Deviations(values, m)[..n] == Deviations(front, m);
      SquareOfDifference(v, m);
      MulAdds(m, Sum(front), v);
      OneMore(n, Mult(m, m));
    }
  }

  lemma {:induction false} SquaresAddUp(values: seq<real>, m: real)
    ensures Sum(Deviations(values, m)) >= 0.0
  {
    if values != [] {
      var n := |values| - 1;
      SquaresAddUp(values[..n], m);
      assert Deviations(values, m)[..n] == Deviations(values[..n], m);
      assert Mult(values[n] - m, values[n] - m) >= 0.0;
    }
  }

  /** The mean square minus the squared mean is the mean squared deviation, so clamping it at
      zero never changes it. */
  lemma VarianceIsMeanDeviation(values: seq<real>)
    requires values != []
    ensures var n, mean := |values|, Div(Sum(values), |values|);
      && Div(Sum(Squares(values)), n) - Mult(mean, mean) == Div(Sum(Deviations(values, mean)), n)
      && Div(Sum(Deviations(values, mean)), n) >= 0.0
  {
    hide Mult, Div, Deviations, Squares;
    var s, q := Sum(values), Sum(Squares(values));
    var m := Div(s, |values|);
    DeviationSum(values, m);
    SquaresAddUp(values, m);
    DivMul(s, |values|);
    MulSwaps(m, |values| as real, m);
    DivideDifference(q, Mult(m, m), |values|);
    NonNegativeQuotient(Sum(Deviations(values, m)), |values|);
  }

  lemma DivideDifference(q: real, w: real, n: nat)
    requires 0 < n
    ensures Div(q - Mult(n as real, w), n) == Div(q, n) - w
  {
    var r := n as real;
    assert Mult(r, w) / r == w;
    assert (q - Mult(r, w)) / r == q / r - Mult(r, w) / r;
  }

  lemma NonNegativeQuotient(a: real, n: nat)
    requires a >= 0.0 && 0 < n
    ensures Div(a, n) >= 0.0
  {
  }

  /** One pass over an accumulator computes what the two-pass definitions do, for every
      operation and every sequence. */
  lemma OnePassIsReduce(values: seq<real>, op: ReduceOp)
    ensures AccumulateAll(values).Finalize(op) == Reduce(values, op)
  {
    if values != [] {
      AccumHolds(values);
      VarianceIsMeanDeviation(values);
    }
  }

  // ---------------------------------------------------------------- what the definitions say

  /** Sums add up over any split of the elements. */
  lemma {:induction false} SumSplits(a: seq<real>, b: seq<real>)
    ensures Sum(a + b) == Sum(a) + Sum(b)
    ensures Sum([]) == 0.0 && forall x: real :: Sum([x]) == x
  {
    assert forall x: real :: [x][..0] == [];
    if b == [] {
      assert a + b == a;
    } else {
      var n := |b| - 1;
      assert (a + b)[..|a| + n] == a + b[..n];
      SumSplits(a, b[..n]);
    }
  }

  /** Products multiply over any split of the elements. */
  lemma {:induction false} ProductSplits(a: seq<real>, b: seq<real>)
    ensures ProductAll(a + b) == ProductAll(a) * ProductAll(b)
    ensures ProductAll([]) == 1.0 && forall x: real :: ProductAll([x]) == x
  {
    forall x: real ensures ProductAll([x]) == x { SingleProduct(x); }
    assert Mult(ProductAll(a), ProductAll(b)) == ProductAll(a) * ProductAll(b);
    hide Mult;
    if b == [] {
      assert a + b == a;
      MulUnit(ProductAll(a));
    } else {
      var n := |b| - 1;
      assert (a + b)[..|a| + n] == a + b[..n];
      ProductSplits(a, b[..n]);
      MultIsTimes(ProductAll(a), ProductAll(b[..n]));
      MulAssociates(ProductAll(a), ProductAll(b[..n]), b[n]);
    }
  }

  lemma SingleProduct(x: real)
    ensures ProductAll([x]) == x
  {
    assert [x][..0] == [];
    assert Mult(ProductAll([]), x) == x;
  }

  lemma MulUnit(x: real)
    ensures Mult(x, 1.0) == x
  {
  }

  lemma MultIsTimes(a: real, b: real)
    ensures Mult(a, b) == a * b
  {
  }

  lemma MulAssociates(a: real, b: real, c: real)
    ensures Mult(Mult(a, b), c) == Mult(a, Mult(b, c))
  {
  }

  lemma QuotientSays(s: real, n: nat, q: real)
    requires 0 < n
    ensures Mult(q, n as real) == s <==> q == Div(s, n)
  {
  }

  /** What each reduction is: the greatest or the least element, the sum, the product, or the root of the
      sum of the squares.  Nothing is reduced to nothing, and no other operation is known. */
  lemma ReduceSays(values: seq<real>, squares: seq<real>)
    requires values != [] && |squares| == |values|
    requires forall i | 0 <= i < |values| :: squares[i] == Mult(values[i], values[i])
    ensures exists x | x in values :: Reduce(values, Max) == Ok(Plain(x)) && forall v | v in values :: v <= x
    ensures exists x | x in values :: Reduce(values, Min) == Ok(Plain(x)) && forall v | v in values :: x <= v
    ensures Reduce(values, SumOf) == Ok(Plain(Sum(values)))
    ensures Reduce(values, ProductOf) == Ok(Plain(ProductAll(values)))
    ensures Reduce(values, Norm) == Ok(SquareRoot(Sum(squares)))
    ensures forall name :: Reduce(values, Unknown(name)) == Err(Unsupported)
    ensures forall op :: Reduce([], op) == Err(EmptyTensor)
  {
    MaxIsGreatest(values);
    assert Squares(values) == squares;
  }

  /** The mean times the number of elements is their sum, and the square of the deviation times that
      number is the sum of the squared deviations from the mean. */
  lemma MeanSays(values: seq<real>, mean: real, deviations: seq<real>)
    requires values != [] && |deviations| == |values|
    requires Mult(mean, |values| as real) == Sum(values)
    requires forall i | 0 <= i < |values| :: deviations[i] == Mult(values[i] - mean, values[i] - mean)
    ensures Reduce(values, Mean) == Ok(Plain(mean))
    ensures Reduce(values, Std) == Ok(SquareRoot(Div(Sum(deviations), |values|)))
    ensures Mult(Div(Sum(deviations), |values|), |values| as real) == Sum(deviations)
  {
    QuotientSays(Sum(values), |values|, mean);
    QuotientSays(Sum(deviations), |values|, Div(Sum(deviations), |values|));
    hide Mult, Div, Sum;
    assert Deviations(values, mean) == deviations;
  }
}
