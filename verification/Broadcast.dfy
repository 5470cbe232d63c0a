/** Right-aligned broadcasting of shapes and tensors, and elementwise binary operations. */
module Broadcast {
  import opened MixedRadix

  /** The dimension at a distance from the last axis; beyond the first axis it is 1. */
  function DimFromRight(shape: Shape, i: nat): nat { if i < |shape| then shape[|shape| - 1 - i] else 1 }

  function Max(a: nat, b: nat): nat { if a < b then b else a }

  predicate CanBroadcastTo(source: Shape, target: Shape) {
    |source| <= |target| &&
    forall i | 0 <= i < |source| :: DimFromRight(source, i) == 1 || DimFromRight(source, i) == DimFromRight(target, i)
  }

  predicate Joinable(a: nat, b: nat) { a == b || a == 1 || b == 1 }

  function Join(a: nat, b: nat): nat { if a == 1 then b else a }

  predicate Compatible(left: Shape, right: Shape) {
    forall i | 0 <= i < Max(|left|, |right|) :: Joinable(DimFromRight(left, i), DimFromRight(right, i))
  }

  function JoinedShape(left: Shape, right: Shape): Shape {
    seq(Max(|left|, |right|), k requires 0 <= k < Max(|left|, |right|) => JoinAt(left, right, k))
  }

  function JoinAt(left: Shape, right: Shape, k: nat): nat
    requires k < Max(|left|, |right|)
  {
    var i := Max(|left|, |right|) - 1 - k;
    Join(DimFromRight(left, i), DimFromRight(right, i))
  }

  function BroadcastShape(left: Shape, right: Shape): Result<Shape> {
    if Compatible(left, right) then Ok(JoinedShape(left, right)) else Err(Incompatible)
  }

  /** The core `broadcast_shape`: fills a vector from the right. */
  method FillBroadcastShape(left: Shape, right: Shape) returns (r: Result<Shape>)
    ensures r == BroadcastShape(left, right)
  {
    var n := Max(|left|, |right|);
    var out := seq(n, i => 1);
    for i := 0 to n
      invariant |out| == n
      invariant forall j | 0 <= j < i :: Joinable(DimFromRight(left, j), DimFromRight(right, j))
      invariant forall k | n - i <= k < n :: out[k] == JoinAt(left, right, k)
    {
      ghost var k := n - 1 - i;
      assert n - 1 - k == i;
      var l, d := DimFromRight(left, i), DimFromRight(right, i);
      if l == d { out := out[n - i - 1 := l]; }
      else if l == 1 { out := out[n - i - 1 := d]; }
      else if d == 1 { out := out[n - i - 1 := l]; }
      else { return Err(Incompatible); }
    }
    assert out == JoinedShape(left, right);
    r := Ok(out);
  }

  function Reverse(s: Shape): Shape { seq(|s|, i requires 0 <= i < |s| => s[|s| - 1 - i]) }

  /** The `broadcast_shape` of addition and `broadcast_batch_shape` of matmul: push, then reverse. */
  method PushBroadcastShape(left: Shape, right: Shape) returns (r: Result<Shape>)
    ensures r == BroadcastShape(left, right)
  {
    var n := Max(|left|, |right|);
    var output := [];
    for i := 0 to n
      invariant |output| == i
      invariant forall j | 0 <= j < i :: Joinable(DimFromRight(left, j), DimFromRight(right, j))
      invariant forall j | 0 <= j < i :: output[j] == Join(DimFromRight(left, j), DimFromRight(right, j))
    {
      var l, d := DimFromRight(left, i), DimFromRight(right, i);
      if l == d { output := output + [l]; }
      else if l == 1 { output := output + [d]; }
      else if d == 1 { output := output + [l]; }
      else { return Err(Incompatible); }
    }
    forall k | 0 <= k < n ensures Reverse(output)[k] == JoinAt(left, right, k) {}
    assert Reverse(output) == JoinedShape(left, right);
    r := Ok(Reverse(output));
  }

  /** Broadcasting two shapes succeeds exactly when some shape can hold both, and then gives
      the least such shape. */
  lemma BroadcastShapeIsLeast(left: Shape, right: Shape, target: Shape)
    ensures var r := BroadcastShape(left, right);
      && (r.Ok? ==> CanBroadcastTo(left, r.value) && CanBroadcastTo(right, r.value))
      && (CanBroadcastTo(left, target) && CanBroadcastTo(right, target) ==> r.Ok? && CanBroadcastTo(r.value, target))
  {
    var n, joined := Max(|left|, |right|), JoinedShape(left, right);
    forall i | 0 <= i < n ensures DimFromRight(joined, i) == Join(DimFromRight(left, i), DimFromRight(right, i)) {
      assert n - 1 - (n - 1 - i) == i;
    }
  }

  lemma BroadcastToSelf(shape: Shape)
    ensures BroadcastShape(shape, shape) == Ok(shape)
  {
    var n := |shape|;
    assert JoinedShape(shape, shape) == shape by {
      forall k | 0 <= k < n ensures JoinedShape(shape, shape)[k] == shape[k] {
        assert JoinedShape(shape, shape)[k] == JoinAt(shape, shape, k);
        assert DimFromRight(shape, n - 1 - k) == shape[k];
      }
    }
  }

  /** The coordinate in a source shape that a broadcast coordinate reads. */
  function Project(coord: Coord, source: Shape): Coord
    requires |source| <= |coord|
  {
    seq(|source|, a requires 0 <= a < |source| => if source[a] == 1 then 0 else coord[|coord| - |source| + a])
  }

  /** `project_broadcast_index`. */
  method ProjectIndex(coord: Coord, source: Shape) returns (r: Result<Coord>)
    ensures r == if |source| > |coord| then Err(WrongRank) else Ok(Project(coord, source))
  {
    if |source| > |coord| { return Err(WrongRank); }
    var out := seq(|source|, i => 0);
    var offset := |coord| - |source|;
    for axis := 0 to |source|
      invariant |out| == |source|
      invariant forall a | 0 <= a < axis :: out[a] == Project(coord, source)[a]
    {
      out := out[axis := if source[axis] == 1 then 0 else coord[offset + axis]];
    }
    assert out == Project(coord, source);
    r := Ok(out);
  }

  /** No projected coordinate is ever out of bounds. */
  lemma ProjectInShape(coord: Coord, source: Shape, target: Shape)
    requires CanBroadcastTo(source, target) && InShape(coord, target)
    ensures InShape(Project(coord, source), source)
  {
    forall a | 0 <= a < |source| ensures Project(coord, source)[a] < source[a] {
      var i := |source| - 1 - a;
      assert DimFromRight(source, i) == source[a];
      assert DimFromRight(target, i) == target[|coord| - |source| + a];
    }
  }

  /** The source offset that a flat index of the target reads. */
  function SourceOffset(index: nat, target: Shape, source: Shape): (offset: nat)
    requires CanBroadcastTo(source, target) && index < Product(target)
    ensures offset < Product(source)
  {
    UnravelRoundTrip(index, target);
    ProjectInShape(Unravel(index, target), source, target);
    OffsetRoundTrip(source, Project(Unravel(index, target), source));
    Offset(source, Project(Unravel(index, target), source))
  }

  lemma SelfOffset(index: nat, shape: Shape)
    requires index < Product(shape)
    ensures CanBroadcastTo(shape, shape) && SourceOffset(index, shape, shape) == index
  {
    UnravelRoundTrip(index, shape);
    assert Project(Unravel(index, shape), shape) == Unravel(index, shape);
  }

  // ---------------------------------------------------------------- tensors

  datatype Dtype = F32 | F64 | U64

  /** A dense tensor; elements are exact reals. */
  datatype Tensor = Tensor(dtype: Dtype, shape: Shape, values: seq<real>)

  predicate Whole(x: real) { x >= 0.0 && x == x.Floor as real }

  predicate Valid(t: Tensor) {
    |t.values| == Product(t.shape) && (t.dtype == U64 ==> forall i | 0 <= i < |t.values| :: Whole(t.values[i]))
  }

  /** `from_f64_like`: the element type of a result follows that of the operand. */
  function Like(dtype: Dtype, shape: Shape, values: seq<real>): (t: Tensor)
    ensures |values| == Product(shape) ==> Valid(t)
  {
    if dtype == F64 then Tensor(F64, shape, values)
    else if dtype == U64 && forall i | 0 <= i < |values| :: Whole(values[i]) then Tensor(U64, shape, values)
    else Tensor(F32, shape, values)
  }

  function BroadcastValues(t: Tensor, target: Shape): seq<real>
    requires Valid(t) && CanBroadcastTo(t.shape, target)
  {
    seq(Product(target), j requires 0 <= j < Product(target) => t.values[SourceOffset(j, target, t.shape)])
  }

  function BroadcastTo(t: Tensor, target: Shape): Result<Tensor>
    requires Valid(t)
  {
    if CanBroadcastTo(t.shape, target) then Ok(Like(t.dtype, target, BroadcastValues(t, target))) else Err(Incompatible)
  }

  /** The body of the loop of `broadcast`: unravel, project, and flatten again. */
  method ReadOffset(index: nat, target: Shape, source: Shape) returns (r: Result<nat>)
    requires CanBroadcastTo(source, target) && index < Product(target)
    ensures r == Ok(SourceOffset(index, target, source))
  {
    UnravelRoundTrip(index, target);
    var coord := UnravelIndex(index, target);
    RemainderBelow(index, Product(target));
    var projected := ProjectIndex(coord, source);
    assert projected.Ok?;
    ProjectInShape(coord, source, target);
    r := CoordOffset(source, projected.value);
  }

  /** `broadcast`: unravel, project and look up, for every element of the target. */
  method BroadcastTensor(t: Tensor, target: Shape) returns (r: Result<Tensor>)
    requires Valid(t)
    ensures r == BroadcastTo(t, target)
  {
    if !CanBroadcastTo(t.shape, target) { return Err(Incompatible); }
    var out := [];
    var length := Product(target);
    for index := 0 to length
      invariant |out| == index
      invariant forall j | 0 <= j < index :: out[j] == BroadcastValues(t, target)[j]
    {
      var offset := ReadOffset(index, target, t.shape);
      assert offset.Ok?;
      out := out + [t.values[offset.value]];
    }
    assert out == BroadcastValues(t, target);
    r := Ok(Like(t.dtype, target, out));
  }

  lemma RemainderBelow(n: nat, b: nat)
    requires n < b
    ensures Remainder(n, b) == n
  {
  }

  datatype BinaryOp = Add | Sub | Mul | And | Or | Xor | Other(name: string)

  function Flag(b: bool): real { if b then 1.0 else 0.0 }

  function Apply(op: BinaryOp, l: real, r: real): real {
    match op
    case Add => l + r
    case Sub => l - r
    case Mul => Mult(l, r)
    case And => Flag(l != 0.0 && r != 0.0)
    case Or => Flag(l != 0.0 || r != 0.0)
    case Xor => Flag((l != 0.0) != (r != 0.0))
    case Other(_) => 0.0
  }

  /** `binary_op`: each output element from the projections of its coordinate.  An unknown
      operator is refused when there is an element to compute. */
  function Binary(left: Tensor, right: Tensor, op: BinaryOp): Result<Tensor>
    requires Valid(left) && Valid(right)
  {
    BroadcastShapeIsLeast(left.shape, right.shape, []);
    match BroadcastShape(left.shape, right.shape)
    case Err(e) => Err(e)
    case Ok(shape) =>
      if op.Other? && Product(shape) > 0 then Err(Unsupported)
      else Ok(Like(left.dtype, shape, seq(Product(shape), j requires 0 <= j < Product(shape) =>
        Apply(op, left.values[SourceOffset(j, shape, left.shape)], right.values[SourceOffset(j, shape, right.shape)]))))
  }

  predicate Supported(t: Tensor) { t.dtype != U64 }

  function Guard(left: Tensor, right: Tensor): Result<bool> {
    if !Supported(left) || !Supported(right) then Err(DtypeNotSupported)
    else if left.dtype != right.dtype then Err(DtypeMismatch)
    else Ok(true)
  }

  function ExactShapeAdd(left: Tensor, right: Tensor): Result<Tensor>
    requires Valid(left) && Valid(right)
  {
    if Guard(left, right).Err? then Err(Guard(left, right).error)
    else if left.shape != right.shape then Err(ShapeMismatch)
    else if Binary(left, right, Add).Err? then Err(ShapeMismatch)
    else Binary(left, right, Add)
  }

  /** `broadcast_add`: materialize both operands at the output shape, then add. */
  function BroadcastAdd(left: Tensor, right: Tensor): Result<Tensor>
    requires Valid(left) && Valid(right)
  {
    if Guard(left, right).Err? then Err(Guard(left, right).error)
    else if left.shape == right.shape then ExactShapeAdd(left, right)
    else
      match BroadcastShape(left.shape, right.shape)
      case Err(e) => Err(e)
      case Ok(shape) =>
        var l, r := BroadcastTo(left, shape), BroadcastTo(right, shape);
        if l.Err? || r.Err? then Err(Incompatible) else ExactShapeAdd(l.value, r.value)
  }

  /** Materializing the operands and projecting their indices are the same addition: same
      values, same shape, same element type, same refusals. */
  lemma BroadcastAddIsBinary(left: Tensor, right: Tensor)
    requires Valid(left) && Valid(right)
    ensures BroadcastAdd(left, right) ==
      if Guard(left, right).Err? then Err(Guard(left, right).error) else Binary(left, right, Add)
  {
    hide Product, Offset, Unravel;
    if Guard(left, right).Ok? {
      if left.shape == right.shape {
        BroadcastToSelf(left.shape);
      } else if Compatible(left.shape, right.shape) {
        var shape := JoinedShape(left.shape, right.shape);
        BroadcastShapeIsLeast(left.shape, right.shape, []);
        var l, r := BroadcastTo(left, shape).value, BroadcastTo(right, shape).value;
        BroadcastToSelf(shape);
        var sum, direct := Binary(l, r, Add).value, Binary(left, right, Add).value;
        forall j | 0 <= j < Product(shape) ensures sum.values[j] == direct.values[j] { SelfOffset(j, shape); }
        assert sum.values == direct.values;
      }
    }
  }

  // ---------------------------------------------------------------- what broadcasting computes

  /** The source coordinate that a coordinate of a wider shape reads: aligned at the last axis, and 0 in
      every axis of size 1. */
  predicate ReadsFrom(coord: Coord, source: Shape, c: Coord) {
    && |c| == |source| <= |coord|
    && forall a | 0 <= a < |source| :: c[a] == if source[a] == 1 then 0 else coord[|coord| - |source| + a]
  }

  /** The element at a coordinate. */
  function At(t: Tensor, coord: Coord): real
    requires Valid(t) && InShape(coord, t.shape)
  {
    OffsetRoundTrip(t.shape, coord);
    t.values[Offset(t.shape, coord)]
  }

  lemma SourceOffsetReads(coord: Coord, target: Shape, source: Shape, c: Coord)
    requires CanBroadcastTo(source, target) && InShape(coord, target) && ReadsFrom(coord, source, c)
    ensures InShape(c, source) && Offset(target, coord) < Product(target)
    ensures SourceOffset(Offset(target, coord), target, source) == Offset(source, c)
  {
    assert c == Project(coord, source);
    hide Project, CanBroadcastTo, Offset, Product, Unravel, InShape;
    OffsetRoundTrip(target, coord);
    ProjectInShape(coord, source, target);
  }

  /** Axis by axis from the last, a shape broadcasts to another if it has no more axes and each of its
      dimensions is 1 or the same. */
  lemma BroadcastsAxiswise(source: Shape, target: Shape)
    ensures CanBroadcastTo(source, target) <==> |source| <= |target| && forall a | 0 <= a < |source| ::
              source[a] == 1 || source[a] == target[|target| - |source| + a]
  {
    if |source| <= |target| {
      forall a | 0 <= a < |source|
        ensures source[a] == DimFromRight(source, |source| - 1 - a)
        ensures target[|target| - |source| + a] == DimFromRight(target, |source| - 1 - a)
      {
      }
    }
  }

  /** Axis by axis from the last, two shapes join if the dimensions that both have are equal or one of
      them is 1. */
  lemma JoinsAxiswise(left: Shape, right: Shape)
    ensures BroadcastShape(left, right).Ok? <==>
              forall a, b | 0 <= a < |left| && 0 <= b < |right| && |left| - a == |right| - b ::
                left[a] == right[b] || left[a] == 1 || right[b] == 1
    ensures BroadcastShape(left, right).Err? ==> BroadcastShape(left, right) == Err(Incompatible)
  {
    if a, b :| 0 <= a < |left| && 0 <= b < |right| && |left| - a == |right| - b && !Joinable(left[a], right[b]) {
      assert !Joinable(DimFromRight(left, |left| - 1 - a), DimFromRight(right, |left| - 1 - a));
    }
    if i :| 0 <= i < Max(|left|, |right|) && !Joinable(DimFromRight(left, i), DimFromRight(right, i)) {
      var a, b := |left| - 1 - i, |right| - 1 - i;
      assert |left| - a == |right| - b && !Joinable(left[a], right[b]);
    }
  }

  /** The joined shape has the rank of the longer operand; each of its dimensions is that of an operand,
      and what the operands have there is the same or 1. */
  lemma JoinedAxiswise(left: Shape, right: Shape, i: nat)
    requires BroadcastShape(left, right).Ok? && (i < |left| || i < |right|)
    ensures var shape := BroadcastShape(left, right).value;
      && |left| <= |shape| && |right| <= |shape| && (|shape| == |left| || |shape| == |right|)
      && var d := shape[|shape| - 1 - i];
         && (i < |left| ==> left[|left| - 1 - i] == 1 || left[|left| - 1 - i] == d)
         && (i < |right| ==> right[|right| - 1 - i] == 1 || right[|right| - 1 - i] == d)
         && ((i < |left| && left[|left| - 1 - i] == d) || (i < |right| && right[|right| - 1 - i] == d))
  {
    var n, joined := Max(|left|, |right|), JoinedShape(left, right);
    assert joined[n - 1 - i] == Join(DimFromRight(left, i), DimFromRight(right, i));
    assert Joinable(DimFromRight(left, i), DimFromRight(right, i));
  }

  /** Broadcasting succeeds exactly on shapes that the source broadcasts to, keeps the element type, and
      holds at every coordinate the element that the coordinate reads. */
  lemma BroadcastCells(t: Tensor, target: Shape, coord: Coord, c: Coord)
    requires Valid(t)
    ensures BroadcastTo(t, target).Ok? <==> CanBroadcastTo(t.shape, target)
    ensures BroadcastTo(t, target).Ok? ==>
      var out := BroadcastTo(t, target).value;
      && Valid(out) && out.shape == target && out.dtype == t.dtype
      && (InShape(coord, target) && ReadsFrom(coord, t.shape, c) ==>
            InShape(c, t.shape) && At(out, coord) == At(t, c))
  {
    if CanBroadcastTo(t.shape, target) {
      assert t.dtype == U64 ==> forall i | 0 <= i < Product(target) :: Whole(BroadcastValues(t, target)[i]);
      if InShape(coord, target) && ReadsFrom(coord, t.shape, c) { SourceOffsetReads(coord, target, t.shape, c); }
    }
  }

  /** What each operator makes of two elements. */
  lemma BinaryCells(left: Tensor, right: Tensor, op: BinaryOp, coord: Coord, l: Coord, r: Coord)
    requires Valid(left) && Valid(right) && Binary(left, right, op).Ok? && !op.Other?
    requires InShape(coord, Binary(left, right, op).value.shape)
    requires ReadsFrom(coord, left.shape, l) && ReadsFrom(coord, right.shape, r)
    ensures Valid(Binary(left, right, op).value) && InShape(l, left.shape) && InShape(r, right.shape)
    ensures At(Binary(left, right, op).value, coord) ==
      var x, y := At(left, l), At(right, r);
      match op
      case Add => x + y
      case Sub => x - y
      case Mul => Mult(x, y)
      case And => if x != 0.0 && y != 0.0 then 1.0 else 0.0
      case Or => if x != 0.0 || y != 0.0 then 1.0 else 0.0
      case Xor => if x != 0.0 && y == 0.0 then 1.0 else if x == 0.0 && y != 0.0 then 1.0 else 0.0
  {
    hide Mult, CanBroadcastTo, Offset, Product, InShape;
    var shape := Binary(left, right, op).value.shape;
    BinarySucceeds(left, right, op);
    BroadcastShapeIsLeast(left.shape, right.shape, []);
    SourceOffsetReads(coord, shape, left.shape, l);
    SourceOffsetReads(coord, shape, right.shape, r);
  }

  /** A binary operation succeeds exactly on shapes that join, with a known operator unless there is no
      element to compute.  A float stays what it was; whole-number results of whole-number operands
      do too, and others become floats. */
  lemma BinarySucceeds(left: Tensor, right: Tensor, op: BinaryOp)
    requires Valid(left) && Valid(right)
    ensures var r, shape := Binary(left, right, op), BroadcastShape(left.shape, right.shape);
      && (r.Ok? <==> shape.Ok? && (op.Other? ==> Product(shape.value) == 0))
      && (shape.Err? ==> r == Err(Incompatible))
      && (shape.Ok? && r.Err? ==> r == Err(Unsupported))
      && (r.Ok? ==> Valid(r.value) && r.value.shape == shape.value)
      && (r.Ok? && left.dtype != U64 ==> r.value.dtype == left.dtype)
      && (r.Ok? && left.dtype == U64 ==>
            (r.value.dtype == U64 <==> forall i | 0 <= i < |r.value.values| :: Whole(r.value.values[i])))
      && (r.Ok? && left.dtype == U64 ==> r.value.dtype == U64 || r.value.dtype == F32)
  {
    hide Product, CanBroadcastTo, Apply;
    BroadcastShapeIsLeast(left.shape, right.shape, []);
  }

  /** Addition succeeds exactly on floats of one type whose shapes join; the sum has their type and the
      joined shape, and at every coordinate it is the left element plus the right one that the
      coordinate reads. */
  lemma BroadcastAddCells(left: Tensor, right: Tensor, coord: Coord, l: Coord, r: Coord)
    requires Valid(left) && Valid(right)
    ensures BroadcastAdd(left, right).Ok? <==>
      left.dtype == right.dtype && left.dtype != U64 && BroadcastShape(left.shape, right.shape).Ok?
    ensures BroadcastAdd(left, right).Ok? ==>
      var sum := BroadcastAdd(left, right).value;
      && Valid(sum) && sum.dtype == left.dtype && Ok(sum.shape) == BroadcastShape(left.shape, right.shape)
      && (InShape(coord, sum.shape) && ReadsFrom(coord, left.shape, l) && ReadsFrom(coord, right.shape, r) ==>
            && InShape(l, left.shape) && InShape(r, right.shape)
            && At(sum, coord) == At(left, l) + At(right, r))
  {
    hide Binary, BroadcastAdd, BroadcastShape, InShape, ReadsFrom, Offset;
    BroadcastAddIsBinary(left, right);
    BinarySucceeds(left, right, Add);
    if BroadcastAdd(left, right).Ok? {
      var sum := BroadcastAdd(left, right).value;
      if InShape(coord, sum.shape) && ReadsFrom(coord, left.shape, l) && ReadsFrom(coord, right.shape, r) {
        BinaryCells(left, right, Add, coord, l, r);
      }
    }
  }
}
