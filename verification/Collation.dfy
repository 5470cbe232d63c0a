/** Values, rows and their collation, and the ranges a scan may ask for.

    A value is represented by its rank under the value collator, so two values
    that collate equally are the same value.  A row of columns is compared column
    by column from the left. */
module Collation {

  type Value = int
  type Row = seq<Value>

  /** Lexicographic order of rows. */
  predicate Less(a: Row, b: Row) {
    b != [] && (a == [] || a[0] < b[0] || (a[0] == b[0] && Less(a[1..], b[1..])))
  }

  lemma {:induction false} LessIsTotal(a: Row, b: Row)
    ensures Less(a, b) || Less(b, a) || a == b
    ensures !(Less(a, b) && Less(b, a))
    ensures !Less(a, a)
  {
    if a != [] && b != [] {
      LessIsTotal(a[1..], b[1..]);
      LessIsTotal(a[1..], a[1..]);
      assert a == [a[0]] + a[1..] && b == [b[0]] + b[1..];
    } else if a != [] {
      LessIsTotal(a[1..], a[1..]);
    }
  }

  lemma {:induction false} LessIsTransitive(a: Row, b: Row, c: Row)
    requires Less(a, b) && Less(b, c)
    ensures Less(a, c)
  {
    if a != [] && a[0] == b[0] && b[0] == c[0] {
      LessIsTransitive(a[1..], b[1..], c[1..]);
    }
  }

  /** A proper prefix comes first; otherwise the first column in which two rows differ decides. */
  lemma {:induction false} LessIsLexicographic(a: Row, b: Row)
    ensures Less(a, b) <==> exists n: nat ::
              n <= |a| && n < |b| && a[..n] == b[..n] && (n == |a| || a[n] < b[n])
  {
    if Less(a, b) {
      var n := FirstDifference(a, b);
      assert a[..n] == b[..n];
    }
    if n: nat :| n <= |a| && n < |b| && a[..n] == b[..n] && (n == |a| || a[n] < b[n]) { DifferenceDecides(a, b, n); }
  }

  lemma {:induction false} FirstDifference(a: Row, b: Row) returns (n: nat)
    requires Less(a, b)
    ensures n <= |a| && n < |b| && a[..n] == b[..n] && (n == |a| || a[n] < b[n])
  {
    if a == [] || a[0] < b[0] {
      n := 0;
    } else {
      var m := FirstDifference(a[1..], b[1..]);
      n := m + 1;
      assert a[..n] == [a[0]] + a[1..][..m] && b[..n] == [b[0]] + b[1..][..m];
    }
  }

  lemma {:induction false} DifferenceDecides(a: Row, b: Row, n: nat)
    requires n <= |a| && n < |b| && a[..n] == b[..n] && (n == |a| || a[n] < b[n])
    ensures Less(a, b)
  {
    if 0 < n {
      assert a[0] == a[..n][0] == b[..n][0] == b[0];
      assert a[1..][..n - 1] == a[..n][1..] && b[1..][..n - 1] == b[..n][1..];
      DifferenceDecides(a[1..], b[1..], n - 1);
    }
  }

  /** One end of a range of values. */
  datatype Bound = Unbounded | Included(value: Value) | Excluded(value: Value)

  predicate AboveLower(lower: Bound, v: Value) {
    match lower
    case Unbounded => true
    case Included(l) => l <= v
    case Excluded(l) => l < v
  }

  predicate BelowUpper(upper: Bound, v: Value) {
    match upper
    case Unbounded => true
    case Included(u) => v <= u
    case Excluded(u) => v < u
  }

  /** The condition a range puts on one column. */
  datatype ColumnRange = Eq(value: Value) | In(lower: Bound, upper: Bound)

  predicate InColumn(range: ColumnRange, v: Value) {
    match range
    case Eq(x) => v == x
    case In(lower, upper) => AboveLower(lower, v) && BelowUpper(upper, v)
  }

  /** A range constrains some of the columns, named by their position in a row. */
  type Range = map<nat, ColumnRange>

  predicate InRange(range: Range, row: Row) {
    forall c | c in range :: c < |row| && InColumn(range[c], row[c])
  }

  /** Each constrained column exists and equals its value, or is no further out than its bounds; an
      excluded bound shuts out its own value. */
  lemma RangeSays(range: Range, row: Row)
    ensures InRange(range, row) <==> forall c | c in range ::
              && c < |row|
              && (range[c].Eq? ==> row[c] == range[c].value)
              && (range[c].In? && range[c].lower.Included? ==> range[c].lower.value <= row[c])
              && (range[c].In? && range[c].lower.Excluded? ==> range[c].lower.value < row[c])
              && (range[c].In? && range[c].upper.Included? ==> row[c] <= range[c].upper.value)
              && (range[c].In? && range[c].upper.Excluded? ==> row[c] < range[c].upper.value)
  {
  }

  /** A range that constrains key columns only. */
  predicate KeyRange(range: Range, keyLen: nat) {
    forall c | c in range :: c < keyLen
  }
}
