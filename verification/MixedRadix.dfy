/** Row-major index arithmetic: offsets of coordinates and coordinates of offsets. */
module MixedRadix {

  type Shape = seq<nat>
  type Coord = seq<nat>

  datatype Error =
    | WrongRank
    | OutOfBounds(axis: nat)
    | Incompatible
    | EmptyTensor
    | Unsupported
    | InvalidReduce
    | InvalidPermutation
    | ShapeMismatch
    | InnerMismatch
    | DtypeNotSupported
    | DtypeMismatch

  datatype Result<+T> = Ok(value: T) | Err(error: Error)

  /** The number of elements of a shape. */
  function Product(shape: Shape): nat {
    if shape == [] then 1 else Times(shape[0], Product(shape[1..]))
  }

  function Times(a: nat, b: nat): nat { a * b }

  function Mult(a: real, b: real): real { a * b }

  predicate Positive(shape: Shape) { forall i | 0 <= i < |shape| :: 0 < shape[i] }

  lemma PositiveTimes(a: nat, b: nat)
    ensures 0 < Times(a, b) <==> 0 < a && 0 < b
  {
    if 0 < a && 0 < b { assert a * b >= 1 * b by { MulMonotone(1, a, b); } }
  }

  lemma MulMonotone(a: int, b: int, c: nat)
    requires a <= b
    ensures a * c <= b * c
  {
    assert (b - a) * c >= 0;
  }

  lemma {:induction false} PositiveProduct(shape: Shape)
    ensures 0 < Product(shape) <==> Positive(shape)
  {
    if shape != [] {
      var tail := shape[1..];
      PositiveProduct(tail);
      PositiveTimes(shape[0], Product(tail));
      assert Positive(shape) <==> 0 < shape[0] && Positive(tail) by {
        assert shape == [shape[0]] + tail;
        assert forall i | 0 <= i < |tail| :: tail[i] == shape[i + 1];
        if 0 < shape[0] && Positive(tail) {
          forall i | 0 <= i < |shape| ensures 0 < shape[i] { if i > 0 { assert 0 < tail[i - 1]; } }
        }
      }
    }
  }

  predicate InShape(coord: Coord, shape: Shape) {
    |coord| == |shape| && forall i | 0 <= i < |shape| :: coord[i] < shape[i]
  }

  /** The offset of a coordinate. */
  function Offset(shape: Shape, coord: Coord): nat
    requires |coord| == |shape|
  {
    if shape == [] then 0 else Times(coord[0], Product(shape[1..])) + Offset(shape[1..], coord[1..])
  }

  /** The coordinate of an offset. */
  function Unravel(index: nat, shape: Shape): Coord
    requires Positive(shape)
  {
    if shape == [] then []
    else
      PositiveProduct(shape);
      PositiveTimes(shape[0], Product(shape[1..]));
      PositiveProduct(shape[1..]);
      [Quotient(index, Product(shape[1..]))] + Unravel(Remainder(index, Product(shape[1..])), shape[1..])
  }

  function Quotient(a: nat, b: nat): nat
    requires 0 < b
  {
    a / b
  }

  function Remainder(a: nat, b: nat): nat
    requires 0 < b
  {
    a % b
  }

  lemma DivideUnique(q: nat, r: nat, b: nat)
    requires r < b
    ensures Quotient(Times(q, b) + r, b) == q && Remainder(Times(q, b) + r, b) == r
  {
    var n := Times(q, b) + r;
    var d := n / b - q;
    assert d * b == r - n % b by { assert n == (n / b) * b + n % b; }
    if d >= 1 { MulMonotone(1, d, b); }
    if d <= -1 { MulMonotone(d, -1, b); }
  }

  lemma Divide(n: nat, b: nat)
    requires 0 < b
    ensures n == Times(Quotient(n, b), b) + Remainder(n, b) && Remainder(n, b) < b
  {
  }

  lemma QuotientBelow(n: nat, a: nat, b: nat)
    requires n < Times(a, b)
    ensures 0 < b && Quotient(n, b) < a
  {
    assert b == 0 ==> Times(a, b) == 0;
    Divide(n, b);
    if a <= Quotient(n, b) { MulMonotone(a, Quotient(n, b), b); }
  }

  lemma TimesBelow(c: nat, d: nat, r: nat, p: nat)
    requires c < d && r < p
    ensures Times(c, p) + r < Times(d, p)
  {
    MulMonotone(c + 1, d, p);
  }

  /** Every coordinate in bounds has an offset in bounds, and unravelling it gives it back. */
  lemma {:induction false} OffsetRoundTrip(shape: Shape, coord: Coord)
    requires InShape(coord, shape)
    ensures Positive(shape) && Offset(shape, coord) < Product(shape)
    ensures Unravel(Offset(shape, coord), shape) == coord
  {
    if shape != [] {
      var p := Product(shape[1..]);
      OffsetRoundTrip(shape[1..], coord[1..]);
      TimesBelow(coord[0], shape[0], Offset(shape[1..], coord[1..]), p);
      PositiveProduct(shape);
      DivideUnique(coord[0], Offset(shape[1..], coord[1..]), p);
      assert coord == [coord[0]] + coord[1..];
    }
  }

  /** Every offset in bounds has a coordinate in bounds, whose offset it is. */
  lemma {:induction false} UnravelRoundTrip(index: nat, shape: Shape)
    requires index < Product(shape)
    ensures Positive(shape) && InShape(Unravel(index, shape), shape)
    ensures Offset(shape, Unravel(index, shape)) == index
  {
    PositiveProduct(shape);
    if shape != [] {
      var p := Product(shape[1..]);
      QuotientBelow(index, shape[0], p);
      Divide(index, p);
      UnravelRoundTrip(Remainder(index, p), shape[1..]);
      var coord := Unravel(index, shape);
      assert coord[1..] == Unravel(Remainder(index, p), shape[1..]);
      forall i | 0 <= i < |shape| ensures coord[i] < shape[i] {
        if i > 0 { assert coord[i] == coord[1..][i - 1] && shape[i] == shape[1..][i - 1]; }
      }
    }
  }

  /** Offsets are row-major: of two coordinates in bounds, the one that is less in the first axis in
      which they differ has the lower offset. */
  lemma {:induction false} OffsetOrders(shape: Shape, a: Coord, b: Coord, axis: nat)
    requires InShape(a, shape) && InShape(b, shape)
    requires axis < |shape| && a[..axis] == b[..axis] && a[axis] < b[axis]
    ensures Offset(shape, a) < Offset(shape, b)
  {
    var p := Product(shape[1..]);
    if axis == 0 {
      OffsetRoundTrip(shape[1..], a[1..]);
      TimesBelow(a[0], b[0], Offset(shape[1..], a[1..]), p);
    } else {
      assert a[0] == a[..axis][0] == b[..axis][0] == b[0];
      assert a[1..][..axis - 1] == a[..axis][1..] && b[1..][..axis - 1] == b[..axis][1..];
      OffsetOrders(shape[1..], a[1..], b[1..], axis - 1);
    }
  }

  /** Splitting off one more digit. */
  lemma DigitStep(n: nat, d: nat, p: nat)
    requires 0 < d && 0 < p
    ensures 0 < Times(d, p)
    ensures Quotient(n, Times(d, p)) == Quotient(Quotient(n, p), d)
    ensures Quotient(Remainder(n, Times(d, p)), p) == Remainder(Quotient(n, p), d)
    ensures Remainder(Remainder(n, Times(d, p)), p) == Remainder(n, p)
  {
    var q, r := Quotient(n, p), Remainder(n, p);
    Divide(n, p);
    Divide(q, d);
    var a, c := Quotient(q, d), Remainder(q, d);
    TimesBelow(c, d, r, p);
    assert n == Times(a, Times(d, p)) + (Times(c, p) + r) by {
      assert n == (a * d + c) * p + r;
      assert (a * d + c) * p == a * (d * p) + c * p;
    }
    DivideUnique(a, Times(c, p) + r, Times(d, p));
    DivideUnique(c, r, p);
  }

  /** `unravel_index`: digits from the last axis to the first. */
  method UnravelIndex(index: nat, shape: Shape) returns (coord: Coord)
    requires Positive(shape)
    ensures 0 < Product(shape) && coord == Unravel(Remainder(index, Product(shape)), shape)
  {
    PositiveProduct(shape);
    coord := seq(|shape|, i => 0);
    var rest := index;
    var axis := |shape|;
    while axis > 0
      invariant 0 <= axis <= |shape| == |coord|
      invariant Positive(shape[axis..]) && 0 < Product(shape[axis..])
      invariant rest == Quotient(index, Product(shape[axis..]))
      invariant coord[axis..] == Unravel(Remainder(index, Product(shape[axis..])), shape[axis..])
    {
      axis := axis - 1;
      var dim := shape[axis];
      assert shape[axis..] == [dim] + shape[axis + 1..];
      PositiveProduct(shape[axis..]);
      DigitStep(index, dim, Product(shape[axis + 1..]));
      ghost var tail := coord[axis + 1..];
      coord := coord[axis := rest % dim];
      rest := rest / dim;
      assert coord[axis..] == [coord[axis]] + tail;
    }
    assert shape[0..] == shape && coord[0..] == coord;
  }

  /** `coord_offset` and `coord_offset_usize`: refuses the last axis out of bounds. */
  method CoordOffset(shape: Shape, coord: Coord) returns (r: Result<nat>)
    ensures r == if InShape(coord, shape) then Ok(Offset(shape, coord)) else r
    ensures !InShape(coord, shape) ==> r.Err?
    ensures |coord| != |shape| ==> r == Err(WrongRank)
    ensures forall axis | |coord| == |shape| && 0 <= axis < |shape| ::
              r == Err(OutOfBounds(axis)) <==>
                coord[axis] >= shape[axis] && forall i | axis < i < |shape| :: coord[i] < shape[i]
  {
    if |coord| != |shape| { return Err(WrongRank); }
    var offset, stride := 0, 1;
    var axis := |shape|;
    while axis > 0
      invariant 0 <= axis <= |shape|
      invariant stride == Product(shape[axis..]) && offset == Offset(shape[axis..], coord[axis..])
      invariant forall i | axis <= i < |shape| :: coord[i] < shape[i]
    {
      axis := axis - 1;
      var dim, value := shape[axis], coord[axis];
      if value >= dim { return Err(OutOfBounds(axis)); }
      assert shape[axis..][1..] == shape[axis + 1..] && coord[axis..][1..] == coord[axis + 1..];
      offset := offset + value * stride;
      stride := stride * dim;
    }
    assert shape[0..] == shape && coord[0..] == coord;
    r := Ok(offset);
  }

  /** The stride of each axis. */
  function StridesOf(shape: Shape): seq<nat> {
    if shape == [] then [] else [Product(shape[1..])] + StridesOf(shape[1..])
  }

  /** `strides`: each stride from the next one. */
  method Strides(shape: Shape) returns (strides: seq<nat>)
    ensures strides == StridesOf(shape)
  {
    if shape == [] { return []; }
    strides := seq(|shape|, i => 1);
    var axis := |shape| - 1;
    assert shape[axis..] == [shape[axis]] && shape[axis..][1..] == [];
    assert strides[axis..] == [1] == StridesOf(shape[axis..]);
    while axis > 0
      invariant 0 <= axis < |shape| == |strides|
      invariant strides[axis..] == StridesOf(shape[axis..])
    {
      axis := axis - 1;
      assert shape[axis..][1..] == shape[axis + 1..];
      assert strides[axis + 1] == strides[axis + 1..][0] == Product(shape[axis + 1..][1..]);
      assert shape[axis + 1..][0] == shape[axis + 1];
      ghost var tail := strides[axis + 1..];
      strides := strides[axis := strides[axis + 1] * shape[axis + 1]];
      assert strides[axis..] == [strides[axis]] + tail;
    }
    assert shape[0..] == shape && strides[0..] == strides;
  }

  /** `coord_from_offset`: digits from the first axis to the last; no stride is ever zero. */
  method CoordFromOffset(offset: nat, shape: Shape, strides: seq<nat>) returns (coord: Coord)
    requires Positive(shape) && strides == StridesOf(shape)
    ensures coord == Unravel(offset, shape)
  {
    StridesAt(shape);
    var rest := offset;
    coord := [];
    var axis := 0;
    while axis < |shape|
      invariant 0 <= axis <= |shape| && |coord| == axis
      invariant coord + Unravel(rest, shape[axis..]) == Unravel(offset, shape)
    {
      var stride := strides[axis];
      assert shape[axis..][1..] == shape[axis + 1..];
      PositiveProduct(shape[axis + 1..]);
      ghost var digits := Unravel(rest, shape[axis..]);
      assert digits == [Quotient(rest, stride)] + Unravel(Remainder(rest, stride), shape[axis + 1..]);
      coord := coord + [rest / stride];
      rest := rest % stride;
      axis := axis + 1;
    }
    assert shape[axis..] == [];
  }

  lemma {:induction false} StridesAt(shape: Shape)
    ensures |StridesOf(shape)| == |shape|
    ensures forall i | 0 <= i < |shape| :: StridesOf(shape)[i] == Product(shape[i + 1..])
  {
    if shape != [] {
      StridesAt(shape[1..]);
      forall i | 0 <= i < |shape| ensures StridesOf(shape)[i] == Product(shape[i + 1..]) {
        if i > 0 { assert shape[1..][i..] == shape[i + 1..]; }
      }
    }
  }

  /** `offset_from_coord`: the products of digits and strides, summed. */
  function OffsetFromCoord(coord: Coord, strides: seq<nat>): nat {
    if coord == [] || strides == [] then 0
    else Times(coord[0], strides[0]) + OffsetFromCoord(coord[1..], strides[1..])
  }

  lemma {:induction false} StridesGiveOffset(shape: Shape, coord: Coord)
    requires |coord| == |shape|
    ensures OffsetFromCoord(coord, StridesOf(shape)) == Offset(shape, coord)
  {
    if shape != [] { StridesGiveOffset(shape[1..], coord[1..]); }
  }
}
