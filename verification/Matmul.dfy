/** Matrix products, one pair at a time and in broadcast batches. */
module Matmul {
  import opened MixedRadix
  import opened Broadcast
  import Accumulate

  /** The sum over `i < k` of `left[l + i] * right[r + i * step]`. */
  function Dot(left: seq<real>, l: nat, right: seq<real>, r: nat, step: nat, k: nat): real
    requires l + k <= |left| && forall i: nat | i < k :: r + Times(i, step) < |right|
  {
    if k == 0 then 0.0
    else Dot(left, l, right, r, step, k - 1) + Mult(left[l + k - 1], right[r + Times(k - 1, step)])
  }

  /** Operands that hold a `rows` by `inner` matrix from `a` and an `inner` by `cols` matrix from `b`. */
  predicate Holds(left: seq<real>, a: nat, right: seq<real>, b: nat, rows: nat, inner: nat, cols: nat) {
    a + Times(rows, inner) <= |left| && b + Times(inner, cols) <= |right|
  }

  lemma CellInside(left: seq<real>, a: nat, right: seq<real>, b: nat, rows: nat, inner: nat, cols: nat,
      row: nat, col: nat)
    requires Holds(left, a, right, b, rows, inner, cols) && row < rows && col < cols
    ensures a + Times(row, inner) + inner <= |left|
    ensures forall i: nat | i < inner :: b + col + Times(i, cols) < |right|
  {
    MulMonotone(row + 1, rows, inner);
    forall i: nat | i < inner ensures b + col + Times(i, cols) < |right| { TimesBelow(i, inner, col, cols); }
  }

  /** One cell of the product. */
  function ProductCell(left: seq<real>, a: nat, right: seq<real>, b: nat, rows: nat, inner: nat, cols: nat,
      row: nat, col: nat): real
    requires Holds(left, a, right, b, rows, inner, cols) && row < rows && col < cols
  {
    CellInside(left, a, right, b, rows, inner, cols, row, col);
    Dot(left, a + Times(row, inner), right, b + col, cols, inner)
  }

  /** The product, row by row. */
  function MatrixProduct(left: seq<real>, a: nat, right: seq<real>, b: nat, rows: nat, inner: nat, cols: nat): seq<real>
    requires Holds(left, a, right, b, rows, inner, cols)
  {
    seq(Times(rows, cols), i requires 0 <= i < Times(rows, cols) =>
      QuotientBelow(i, rows, cols);
      Divide(i, cols);
      ProductCell(left, a, right, b, rows, inner, cols, Quotient(i, cols), Remainder(i, cols)))
  }

  lemma ProductAt(left: seq<real>, a: nat, right: seq<real>, b: nat, rows: nat, inner: nat, cols: nat,
      row: nat, col: nat)
    requires Holds(left, a, right, b, rows, inner, cols) && row < rows && col < cols
    ensures Times(row, cols) + col < Times(rows, cols)
    ensures MatrixProduct(left, a, right, b, rows, inner, cols)[Times(row, cols) + col]
         == ProductCell(left, a, right, b, rows, inner, cols, row, col)
  {
    TimesBelow(row, rows, col, cols);
    DivideUnique(row, col, cols);
  }

  /** The innermost loop. */
  method DotProduct(left: seq<real>, l: nat, right: seq<real>, r: nat, step: nat, k: nat) returns (sum: real)
    requires l + k <= |left| && forall i: nat | i < k :: r + Times(i, step) < |right|
    ensures sum == Dot(left, l, right, r, step, k)
  {
    sum := 0.0;
    for i := 0 to k
      invariant sum == Dot(left, l, right, r, step, i)
    {
      assert r + Times(i, step) == r + i * step < |right|;
      sum := sum + left[l + i] * right[r + i * step];
    }
  }

  /** The loops over rows and columns: writes one product into the output from `base` on. */
  method FillProduct(left: seq<real>, a: nat, right: seq<real>, b: nat, rows: nat, inner: nat, cols: nat,
      out: array<real>, base: nat)
    requires Holds(left, a, right, b, rows, inner, cols) && base + Times(rows, cols) <= out.Length
    modifies out
    ensures out[..base] == old(out[..base]) && out[base + Times(rows, cols)..] == old(out[base + Times(rows, cols)..])
    ensures out[base..base + Times(rows, cols)] == MatrixProduct(left, a, right, b, rows, inner, cols)
  {
    ghost var product := MatrixProduct(left, a, right, b, rows, inner, cols);
    var row := 0;
    while row < rows
      invariant 0 <= row <= rows && out[..base] == old(out[..base])
      invariant Times(row, cols) <= |product|
      invariant out[base + Times(rows, cols)..] == old(out[base + Times(rows, cols)..])
      invariant forall i | 0 <= i < Times(row, cols) :: out[base + i] == product[i]
    {
      MulMonotone(row + 1, rows, cols);
      assert Times(row + 1, cols) == Times(row, cols) + cols;
      var col := 0;
      while col < cols
        invariant 0 <= col <= cols && out[..base] == old(out[..base])
        invariant out[base + Times(rows, cols)..] == old(out[base + Times(rows, cols)..])
        invariant forall i | 0 <= i < Times(row, cols) + col :: out[base + i] == product[i]
      {
        ProductAt(left, a, right, b, rows, inner, cols, row, col);
        CellInside(left, a, right, b, rows, inner, cols, row, col);
        var sum := DotProduct(left, a + row * inner, right, b + col, cols, inner);
        assert base + row * cols + col == base + (Times(row, cols) + col);
        out[base + row * cols + col] := sum;
        col := col + 1;
      }
      row := row + 1;
    }
    assert out[base..base + Times(rows, cols)] == product;
  }

  // ---------------------------------------------------------------- 2D

  function MatmulOf(left: Tensor, right: Tensor): Result<Tensor>
    requires Valid(left) && Valid(right)
  {
    if |left.shape| != 2 || |right.shape| != 2 then Err(WrongRank)
    else if right.shape[0] != left.shape[1] then Err(InnerMismatch)
    else
      var rows, inner, cols := left.shape[0], left.shape[1], right.shape[1];
      PairProduct(left.shape);
      PairProduct(right.shape);
      Ok(Like(left.dtype, [rows, cols], MatrixProduct(left.values, 0, right.values, 0, rows, inner, cols)))
  }

  lemma PairProduct(shape: Shape)
    requires |shape| == 2
    ensures Product(shape) == Times(shape[0], shape[1])
  {
    assert shape[1..][0] == shape[1] && shape[1..][1..] == [];
    assert Product(shape[1..]) == Times(shape[1], 1) == shape[1];
  }

  /** `matmul`. */
  method MatmulTensor(left: Tensor, right: Tensor) returns (r: Result<Tensor>)
    requires Valid(left) && Valid(right)
    ensures r == MatmulOf(left, right)
  {
    if |left.shape| != 2 || |right.shape| != 2 { return Err(WrongRank); }
    var rows, inner, cols := left.shape[0], left.shape[1], right.shape[1];
    if right.shape[0] != inner { return Err(InnerMismatch); }
    PairProduct(left.shape);
    PairProduct(right.shape);
    var out := new real[Times(rows, cols)](i => 0.0);
    FillProduct(left.values, 0, right.values, 0, rows, inner, cols, out, 0);
    assert out[0..0 + Times(rows, cols)] == out[..];
    r := Ok(Like(left.dtype, [rows, cols], out[..]));
  }

  lemma PairOffset(shape: Shape, row: nat, col: nat)
    requires |shape| == 2 && row < shape[0] && col < shape[1]
    ensures Offset(shape, [row, col]) == Times(row, shape[1]) + col < Product(shape)
  {
    PairProduct(shape);
    OffsetRoundTrip(shape, [row, col]);
    assert shape[1..] == [shape[1]] && [row, col][1..] == [col] && shape[1..][1..] == [] && [col][1..] == [];
  }

  /** The products of a row of the left matrix with a column of the right one. */
  function RowByColumn(left: Tensor, right: Tensor, row: nat, col: nat): seq<real>
    requires Valid(left) && Valid(right) && MatmulOf(left, right).Ok? && row < left.shape[0] && col < right.shape[1]
  {
    seq(left.shape[1], k requires 0 <= k < left.shape[1] =>
      PairOffset(left.shape, row, k);
      PairOffset(right.shape, k, col);
      Mult(left.values[Offset(left.shape, [row, k])], right.values[Offset(right.shape, [k, col])]))
  }

  /** The element at a coordinate of a product sums the row times the column that the
      coordinate names. */
  lemma MatmulIsRowByColumn(left: Tensor, right: Tensor, row: nat, col: nat)
    requires Valid(left) && Valid(right) && MatmulOf(left, right).Ok? && row < left.shape[0] && col < right.shape[1]
    ensures var out := MatmulOf(left, right).value;
      && Valid(out) && InShape([row, col], out.shape) && Offset(out.shape, [row, col]) < |out.values|
      && out.values[Offset(out.shape, [row, col])] == Accumulate.Sum(RowByColumn(left, right, row, col))
  {
    MatmulShape(left, right);
    PairOffset(MatmulOf(left, right).value.shape, row, col);
    MatmulCell(left, right, row, col);
    var terms := RowByColumn(left, right, row, col);
    TermsAre(left, right, row, col);
    hide MatmulOf, Dot, RowByColumn, Offset, Product;
    DotIsSum(left.values, Times(row, left.shape[1]), right.values, col, right.shape[1], left.shape[1], terms);
    assert terms[..left.shape[1]] == terms;
  }

  /** A product of two tensors succeeds exactly on two matrices with one inner dimension, and has the rows
      of the left one and the columns of the right one.  Each of its elements sums the products of the
      elements of a row and a column, and a float stays what it was. */
  lemma MatmulSays(left: Tensor, right: Tensor, row: nat, col: nat, terms: seq<real>)
    requires Valid(left) && Valid(right)
    ensures var r := MatmulOf(left, right);
      && (r.Ok? <==> |left.shape| == 2 && |right.shape| == 2 && left.shape[1] == right.shape[0])
      && (r.Err? ==> r.error == if |left.shape| == 2 == |right.shape| then InnerMismatch else WrongRank)
      && (r.Ok? ==> Valid(r.value) && r.value.shape == [left.shape[0], right.shape[1]])
      && (r.Ok? && left.dtype != U64 ==> r.value.dtype == left.dtype)
      && (r.Ok? && row < left.shape[0] && col < right.shape[1] && |terms| == left.shape[1]
          && (forall k: nat | k < |terms| :: terms[k] == Mult(At(left, [row, k]), At(right, [k, col]))) ==>
            InShape([row, col], r.value.shape) && At(r.value, [row, col]) == Accumulate.Sum(terms))
  {
    if MatmulOf(left, right).Ok? {
      MatmulShape(left, right);
      if row < left.shape[0] && col < right.shape[1] && |terms| == left.shape[1]
         && forall k: nat | k < |terms| :: terms[k] == Mult(At(left, [row, k]), At(right, [k, col])) {
        MatmulIsRowByColumn(left, right, row, col);
        assert terms == RowByColumn(left, right, row, col);
      }
    }
  }

  lemma TermsAre(left: Tensor, right: Tensor, row: nat, col: nat)
    requires Valid(left) && Valid(right) && MatmulOf(left, right).Ok? && row < left.shape[0] && col < right.shape[1]
    ensures forall k: nat | k < left.shape[1] ::
              && Times(row, left.shape[1]) + k < |left.values| && col + Times(k, right.shape[1]) < |right.values|
              && RowByColumn(left, right, row, col)[k]
                 == Mult(left.values[Times(row, left.shape[1]) + k], right.values[col + Times(k, right.shape[1])])
  {
    hide Mult, Offset, Product, MatrixProduct;
    forall k: nat | k < left.shape[1]
      ensures Times(row, left.shape[1]) + k < |left.values| && col + Times(k, right.shape[1]) < |right.values|
      ensures RowByColumn(left, right, row, col)[k]
        == Mult(left.values[Times(row, left.shape[1]) + k], right.values[col + Times(k, right.shape[1])])
    {
      PairOffset(left.shape, row, k);
      PairOffset(right.shape, k, col);
      assert RowByColumn(left, right, row, col)[k]
        == Mult(left.values[Offset(left.shape, [row, k])], right.values[Offset(right.shape, [k, col])]);
    }
  }

  lemma MatmulShape(left: Tensor, right: Tensor)
    requires Valid(left) && Valid(right) && MatmulOf(left, right).Ok?
    ensures Valid(MatmulOf(left, right).value) && MatmulOf(left, right).value.shape == [left.shape[0], right.shape[1]]
  {
    PairProduct([left.shape[0], right.shape[1]]);
  }

  lemma MatmulCell(left: Tensor, right: Tensor, row: nat, col: nat)
    requires Valid(left) && Valid(right) && MatmulOf(left, right).Ok? && row < left.shape[0] && col < right.shape[1]
    ensures Times(row, left.shape[1]) + left.shape[1] <= |left.values|
    ensures forall i: nat | i < left.shape[1] :: col + Times(i, right.shape[1]) < |right.values|
    ensures var values := MatmulOf(left, right).value.values;
      && Times(row, right.shape[1]) + col < |values|
      && values[Times(row, right.shape[1]) + col]
         == Dot(left.values, Times(row, left.shape[1]), right.values, col, right.shape[1], left.shape[1])
  {
    var rows, inner, cols := left.shape[0], left.shape[1], right.shape[1];
    PairProduct(left.shape);
    PairProduct(right.shape);
    ProductAt(left.values, 0, right.values, 0, rows, inner, cols, row, col);
    CellInside(left.values, 0, right.values, 0, rows, inner, cols, row, col);
  }

  lemma {:induction false} DotIsSum(left: seq<real>, l: nat, right: seq<real>, r: nat, step: nat, k: nat,
      terms: seq<real>)
    requires l + k <= |left| && (forall i: nat | i < k :: r + Times(i, step) < |right|) && k <= |terms|
    requires forall i: nat | i < k :: terms[i] == Mult(left[l + i], right[r + Times(i, step)])
    ensures Dot(left, l, right, r, step, k) == Accumulate.Sum(terms[..k])
  {
    if k > 0 {
      DotIsSum(left, l, right, r, step, k - 1, terms);
      assert terms[..k][..k - 1] == terms[..k - 1];
    }
  }

  // ---------------------------------------------------------------- batches

  /** Moving one axis to the left in a shape and a coordinate. */
  lemma NextAxis(shape: Shape, coord: Coord, i: nat)
    requires |coord| == |shape| && i < |shape|
    ensures Offset(shape[i..], coord[i..])
         == Offset(shape[i + 1..], coord[i + 1..]) + Times(coord[i], Product(shape[i + 1..]))
    ensures Product(shape[i..]) == Times(Product(shape[i + 1..]), shape[i])
  {
    assert shape[i..][1..] == shape[i + 1..] && coord[i..][1..] == coord[i + 1..];
  }

  /** `broadcast_batch_offset`: the offset of the projected, unravelled batch index. */
  method BatchOffset(index: nat, outBatch: Shape, batch: Shape) returns (offset: nat)
    requires CanBroadcastTo(batch, outBatch) && index < Product(outBatch)
    ensures offset == SourceOffset(index, outBatch, batch)
  {
    UnravelRoundTrip(index, outBatch);
    if batch == [] { return 0; }
    var indices := UnravelIndex(index, outBatch);
    RemainderBelow(index, Product(outBatch));
    ghost var projected := Project(indices, batch);
    offset := 0;
    var stride := 1;
    var i := |batch|;
    while i > 0
      invariant 0 <= i <= |batch|
      invariant stride == Product(batch[i..]) && offset == Offset(batch[i..], projected[i..])
    {
      i := i - 1;
      var axis := |outBatch| - |batch| + i;
      var digit := if batch[i] == 1 then 0 else indices[axis];
      assert digit == projected[i];
      NextAxis(batch, projected, i);
      offset := offset + Times(digit, stride);
      stride := Times(stride, batch[i]);
    }
    assert batch[0..] == batch && projected[0..] == projected;
  }

  function Batch(t: Tensor): Shape
    requires |t.shape| >= 2
  {
    t.shape[..|t.shape| - 2]
  }

  function Rows(t: Tensor): nat
    requires |t.shape| >= 2
  {
    t.shape[|t.shape| - 2]
  }

  function Cols(t: Tensor): nat
    requires |t.shape| >= 2
  {
    t.shape[|t.shape| - 1]
  }

  /** The elements of the `n`th matrix of a tensor. */
  function MatrixAt(t: Tensor, n: nat): Tensor
    requires |t.shape| >= 2 && Valid(t) && n < Product(Batch(t))
  {
    MatrixInside(t, n);
    var size := Times(Rows(t), Cols(t));
    Tensor(t.dtype, [Rows(t), Cols(t)], t.values[Times(n, size)..Times(n, size) + size])
  }

  lemma {:induction false} ProductConcat(a: Shape, b: Shape)
    ensures Product(a + b) == Times(Product(a), Product(b))
  {
    if a == [] {
      assert a + b == b;
    } else {
      assert (a + b)[1..] == a[1..] + b;
      ProductConcat(a[1..], b);
      TimesAssociates(a[0], Product(a[1..]), Product(b));
    }
  }

  lemma TimesAssociates(a: nat, b: nat, c: nat)
    ensures Times(Times(a, b), c) == Times(a, Times(b, c))
  {
  }

  lemma MatrixInside(t: Tensor, n: nat)
    requires |t.shape| >= 2 && Valid(t) && n < Product(Batch(t))
    ensures Times(n, Times(Rows(t), Cols(t))) + Times(Rows(t), Cols(t)) <= |t.values|
  {
    hide Product;
    var last := [Rows(t), Cols(t)];
    assert t.shape == Batch(t) + last;
    ProductConcat(Batch(t), last);
    PairProduct(last);
    MulMonotone(n + 1, Product(Batch(t)), Times(Rows(t), Cols(t)));
  }

  /** Operands whose batches can be multiplied pair by pair across `outBatch`. */
  predicate Batchable(left: Tensor, right: Tensor, outBatch: Shape) {
    && |left.shape| >= 2 && |right.shape| >= 2 && Valid(left) && Valid(right) && Cols(left) == Rows(right)
    && CanBroadcastTo(Batch(left), outBatch) && CanBroadcastTo(Batch(right), outBatch)
  }

  /** The product of the two matrices at the batch offsets that broadcasting reads for batch `n`. */
  function BatchValues(left: Tensor, right: Tensor, outBatch: Shape, n: nat): (r: seq<real>)
    requires Batchable(left, right, outBatch) && n < Product(outBatch)
    ensures |r| == Times(Rows(left), Cols(right))
  {
    var a, b := SourceOffset(n, outBatch, Batch(left)), SourceOffset(n, outBatch, Batch(right));
    MatrixInside(left, a);
    MatrixInside(right, b);
    MatrixProduct(left.values, Times(a, Times(Rows(left), Cols(left))),
      right.values, Times(b, Times(Rows(right), Cols(right))), Rows(left), Cols(left), Cols(right))
  }

  function AllBatches(left: Tensor, right: Tensor, outBatch: Shape): seq<seq<real>>
    requires Batchable(left, right, outBatch)
  {
    seq(Product(outBatch), n requires 0 <= n < Product(outBatch) => BatchValues(left, right, outBatch, n))
  }

  /** Blocks laid end to end. */
  function Joined(blocks: seq<seq<real>>): seq<real> {
    if blocks == [] then [] else Joined(blocks[..|blocks| - 1]) + blocks[|blocks| - 1]
  }

  predicate EachOfSize(blocks: seq<seq<real>>, size: nat) {
    forall n | 0 <= n < |blocks| :: |blocks[n]| == size
  }

  lemma {:induction false} JoinedSize(blocks: seq<seq<real>>, size: nat)
    requires EachOfSize(blocks, size)
    ensures |Joined(blocks)| == Times(|blocks|, size)
  {
    if blocks != [] {
      JoinedSize(blocks[..|blocks| - 1], size);
      assert Times(|blocks|, size) == Times(|blocks| - 1, size) + size;
    }
  }

  /** Block `n` of equal blocks laid end to end starts at `n` times their size. */
  lemma {:induction false} JoinedAt(blocks: seq<seq<real>>, size: nat, n: nat)
    requires EachOfSize(blocks, size) && n < |blocks|
    ensures Times(n, size) + size <= |Joined(blocks)|
    ensures Joined(blocks)[Times(n, size)..Times(n, size) + size] == blocks[n]
  {
    var earlier, last := blocks[..|blocks| - 1], blocks[|blocks| - 1];
    JoinedSize(earlier, size);
    if n < |blocks| - 1 {
      JoinedAt(earlier, size, n);
      SliceOfConcat(Joined(earlier), last, Times(n, size), size);
    } else {
      LastOfConcat(Joined(earlier), last);
    }
  }

  lemma JoinedNext(blocks: seq<seq<real>>, n: nat)
    requires n < |blocks|
    ensures Joined(blocks[..n + 1]) == Joined(blocks[..n]) + blocks[n]
  {
    assert blocks[..n + 1][..n] == blocks[..n];
  }

  lemma SliceOfConcat(a: seq<real>, b: seq<real>, from: nat, size: nat)
    requires from + size <= |a|
    ensures (a + b)[from..from + size] == a[from..from + size]
  {
  }

  lemma LastOfConcat(a: seq<real>, b: seq<real>)
    ensures (a + b)[|a|..|a| + |b|] == b
  {
  }

  function BatchedMatmulOf(left: Tensor, right: Tensor): Result<Tensor>
    requires Valid(left) && Valid(right)
  {
    if Guard(left, right).Err? then Err(Guard(left, right).error)
    else if |left.shape| < 2 || |right.shape| < 2 then Err(WrongRank)
    else if Cols(left) != Rows(right) then Err(InnerMismatch)
    else
      match BroadcastShape(Batch(left), Batch(right))
      case Err(e) => Err(e)
      case Ok(batch) =>
        BroadcastShapeIsLeast(Batch(left), Batch(right), []);
        Ok(Tensor(left.dtype, batch + [Rows(left), Cols(right)], Joined(AllBatches(left, right, batch))))
  }

  /** A batched product succeeds exactly on floats of one type with two axes or more, one inner dimension
      and batch axes that join.  It keeps their type and has the joined batch axes, the rows of the
      left operand and the columns of the right one. */
  lemma BatchedSays(left: Tensor, right: Tensor)
    requires Valid(left) && Valid(right)
    ensures var r, m, n := BatchedMatmulOf(left, right), |left.shape|, |right.shape|;
      && (r.Ok? <==>
            && left.dtype == right.dtype && left.dtype != U64 && 2 <= m && 2 <= n
            && left.shape[m - 1] == right.shape[n - 2]
            && BroadcastShape(left.shape[..m - 2], right.shape[..n - 2]).Ok?)
      && (r.Ok? ==>
            && r.value.dtype == left.dtype
            && Ok(r.value.shape[..|r.value.shape| - 2]) == BroadcastShape(left.shape[..m - 2], right.shape[..n - 2])
            && r.value.shape[|r.value.shape| - 2..] == [left.shape[m - 2], right.shape[n - 1]])
  {
    hide BroadcastShape, Joined, AllBatches;
    if BatchedMatmulOf(left, right).Ok? {
      BatchedShape(left, right);
    }
  }

  /** `batched_matmul`. */
  method BatchedMatmul(left: Tensor, right: Tensor) returns (r: Result<Tensor>)
    requires Valid(left) && Valid(right)
    ensures r == BatchedMatmulOf(left, right)
  {
    if Guard(left, right).Err? { return Err(Guard(left, right).error); }
    if |left.shape| < 2 || |right.shape| < 2 { return Err(WrongRank); }
    if Cols(left) != Rows(right) { return Err(InnerMismatch); }
    var shape := PushBroadcastShape(Batch(left), Batch(right));
    if shape.Err? { return Err(shape.error); }
    BroadcastShapeIsLeast(Batch(left), Batch(right), []);
    var values := FillBatches(left, right, shape.value);
    r := Ok(Tensor(left.dtype, shape.value + [Rows(left), Cols(right)], values));
  }

  /** The start of matrix `n`, as the loop multiplies it out, and that the matrix fits. */
  lemma MatrixStart(t: Tensor, n: nat)
    requires |t.shape| >= 2 && Valid(t) && n < Product(Batch(t))
    ensures Times(Times(n, Rows(t)), Cols(t)) == Times(n, Times(Rows(t), Cols(t)))
    ensures Times(Times(n, Rows(t)), Cols(t)) + Times(Rows(t), Cols(t)) <= |t.values|
  {
    MatrixInside(t, n);
    TimesAssociates(n, Rows(t), Cols(t));
  }

  /** The body of the loop over output batches: writes batch `n` in its place. */
  method FillBatch(left: Tensor, right: Tensor, outBatch: Shape, n: nat, out: array<real>)
    requires Batchable(left, right, outBatch) && n < Product(outBatch)
    requires var size := Times(Rows(left), Cols(right)); Times(n, size) + size <= out.Length
    modifies out
    ensures var size := Times(Rows(left), Cols(right));
      out[..Times(n, size) + size] == old(out[..Times(n, size)]) + BatchValues(left, right, outBatch, n)
  {
    var rows, inner, cols := Rows(left), Cols(left), Cols(right);
    var a := BatchOffset(n, outBatch, Batch(left));
    var b := BatchOffset(n, outBatch, Batch(right));
    hide Product, CanBroadcastTo, SourceOffset, MatrixProduct;
    MatrixStart(left, a);
    MatrixStart(right, b);
    TimesAssociates(n, rows, cols);
    var start := Times(Times(n, rows), cols);
    FillProduct(left.values, Times(Times(a, rows), inner), right.values, Times(Times(b, inner), cols),
      rows, inner, cols, out, start);
    assert out[..start + Times(rows, cols)] == out[..start] + out[start..start + Times(rows, cols)];
  }

  /** The loop over output batches. */
  method FillBatches(left: Tensor, right: Tensor, outBatch: Shape) returns (values: seq<real>)
    requires Batchable(left, right, outBatch)
    ensures values == Joined(AllBatches(left, right, outBatch))
  {
    hide BatchValues, Product, CanBroadcastTo, Valid;
    ghost var blocks := AllBatches(left, right, outBatch);
    var size, batches := Times(Rows(left), Cols(right)), Product(outBatch);
    var out := new real[Times(batches, size)](i => 0.0);
    var n := 0;
    while n < batches
      invariant 0 <= n <= batches && Times(n, size) <= out.Length
      invariant out[..Times(n, size)] == Joined(blocks[..n])
    {
      MulMonotone(n + 1, batches, size);
      assert Times(n + 1, size) == Times(n, size) + size;
      FillBatch(left, right, outBatch, n, out);
      JoinedNext(blocks, n);
      n := n + 1;
    }
    values := out[..];
    assert out[..Times(n, size)] == out[..] && blocks[..n] == blocks;
  }

  // ---------------------------------------------------------------- refinement

  lemma {:induction false} DotOfSlices(left: seq<real>, a: nat, m: nat, l: nat,
      right: seq<real>, b: nat, n: nat, r: nat, step: nat, k: nat)
    requires a + m <= |left| && b + n <= |right| && l + k <= m && forall i: nat | i < k :: r + Times(i, step) < n
    ensures Dot(left[a..a + m], l, right[b..b + n], r, step, k) == Dot(left, a + l, right, b + r, step, k)
  {
    if k > 0 {
      DotOfSlices(left, a, m, l, right, b, n, r, step, k - 1);
      assert r + Times(k - 1, step) < n;
    }
  }

  /** A product of two matrices within larger operands is the product of the two cut out. */
  lemma ProductOfSlices(left: seq<real>, a: nat, right: seq<real>, b: nat, rows: nat, inner: nat, cols: nat)
    requires Holds(left, a, right, b, rows, inner, cols)
    ensures var l, r := left[a..a + Times(rows, inner)], right[b..b + Times(inner, cols)];
      MatrixProduct(l, 0, r, 0, rows, inner, cols) == MatrixProduct(left, a, right, b, rows, inner, cols)
  {
    var l, r := left[a..a + Times(rows, inner)], right[b..b + Times(inner, cols)];
    forall i | 0 <= i < Times(rows, cols)
      ensures MatrixProduct(l, 0, r, 0, rows, inner, cols)[i] == MatrixProduct(left, a, right, b, rows, inner, cols)[i]
    {
      QuotientBelow(i, rows, cols);
      Divide(i, cols);
      var row, col := Quotient(i, cols), Remainder(i, cols);
      CellInside(l, 0, r, 0, rows, inner, cols, row, col);
      DotOfSlices(left, a, Times(rows, inner), Times(row, inner), right, b, Times(inner, cols), col, cols, inner);
    }
  }

  /** Every batch of a batched product is the two-dimensional product of the operand matrices
      that its index projects to. */
  lemma BatchedIsPerBatch(left: Tensor, right: Tensor, n: nat)
    requires Valid(left) && Valid(right)
    ensures BatchedMatmulOf(left, right).Ok? ==>
      var out := BatchedMatmulOf(left, right).value;
      && Valid(out) && |out.shape| >= 2 && Ok(Batch(out)) == BroadcastShape(Batch(left), Batch(right))
      && (n < Product(Batch(out)) ==>
          && CanBroadcastTo(Batch(left), Batch(out)) && CanBroadcastTo(Batch(right), Batch(out))
          && var a := MatrixAt(left, SourceOffset(n, Batch(out), Batch(left)));
             var b := MatrixAt(right, SourceOffset(n, Batch(out), Batch(right)));
             && Valid(a) && Valid(b) && MatmulOf(a, b) == Ok(MatrixAt(out, n)))
  {
    hide BatchedMatmulOf, MatmulOf, Product, JoinedShape, CanBroadcastTo, BroadcastShape, Valid;
    if BatchedMatmulOf(left, right).Ok? {
      BatchedShape(left, right);
      if n < Product(Batch(BatchedMatmulOf(left, right).value)) { BatchAt(left, right, n); }
    }
  }

  lemma BatchAt(left: Tensor, right: Tensor, n: nat)
    requires Valid(left) && Valid(right) && BatchedMatmulOf(left, right).Ok?
    requires n < Product(JoinedShape(Batch(left), Batch(right)))
    ensures var out := BatchedMatmulOf(left, right).value;
      && Valid(out) && |out.shape| >= 2 && Batch(out) == JoinedShape(Batch(left), Batch(right))
      && CanBroadcastTo(Batch(left), Batch(out)) && CanBroadcastTo(Batch(right), Batch(out))
      && var a := MatrixAt(left, SourceOffset(n, Batch(out), Batch(left)));
         var b := MatrixAt(right, SourceOffset(n, Batch(out), Batch(right)));
         && Valid(a) && Valid(b) && MatmulOf(a, b) == Ok(MatrixAt(out, n))
  {
    hide Product, CanBroadcastTo, MatrixProduct, BatchValues;
    var batch := JoinedShape(Batch(left), Batch(right));
    BroadcastShapeIsLeast(Batch(left), Batch(right), []);
    BatchedShape(left, right);
    JoinedAt(AllBatches(left, right, batch), Times(Rows(left), Cols(right)), n);
    BatchIsProduct(left, right, batch, n);
  }

  lemma BatchedShape(left: Tensor, right: Tensor)
    requires Valid(left) && Valid(right) && BatchedMatmulOf(left, right).Ok?
    ensures var out := BatchedMatmulOf(left, right).value;
      && Valid(out) && |out.shape| >= 2 && Rows(out) == Rows(left) && Cols(out) == Cols(right)
      && Batch(out) == JoinedShape(Batch(left), Batch(right))
      && BroadcastShape(Batch(left), Batch(right)) == Ok(Batch(out))
  {
    var batch := JoinedShape(Batch(left), Batch(right));
    BroadcastShapeIsLeast(Batch(left), Batch(right), []);
    JoinedSize(AllBatches(left, right, batch), Times(Rows(left), Cols(right)));
    ProductConcat(batch, [Rows(left), Cols(right)]);
    PairProduct([Rows(left), Cols(right)]);
  }

  lemma BatchIsProduct(left: Tensor, right: Tensor, outBatch: Shape, n: nat)
    requires Batchable(left, right, outBatch) && n < Product(outBatch) && Supported(left)
    ensures var a := MatrixAt(left, SourceOffset(n, outBatch, Batch(left)));
      var b := MatrixAt(right, SourceOffset(n, outBatch, Batch(right)));
      && Valid(a) && Valid(b)
      && MatmulOf(a, b) == Ok(Tensor(left.dtype, [Rows(left), Cols(right)], BatchValues(left, right, outBatch, n)))
  {
    var rows, inner, cols := Rows(left), Cols(left), Cols(right);
    var i, j := SourceOffset(n, outBatch, Batch(left)), SourceOffset(n, outBatch, Batch(right));
    MatrixInside(left, i);
    MatrixInside(right, j);
    PairProduct([rows, inner]);
    PairProduct([inner, cols]);
    ProductOfSlices(left.values, Times(i, Times(rows, inner)), right.values, Times(j, Times(inner, cols)),
      rows, inner, cols);
  }
}
