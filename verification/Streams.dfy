/** Ordered streams of rows, and the merge and difference of two of them. */
module Streams {
  import opened Collation

  /** A row split into its key columns and its value columns. */
  datatype Entry = Entry(key: Row, values: Row)

  /** The rows of a store by key.  A BTree key carries the empty row of values. */
  type Rows = map<Row, Row>

  /** Rows compare by the columns named in `order`, and then by key if ties are broken, or by key
      if no columns are named. */
  datatype Collator = Collator(order: seq<nat>, reverse: bool, byKey: bool := false)

  function Column(e: Entry, i: nat): Value {
    var row := e.key + e.values;
    if i < |row| then row[i] else 0
  }

  function OrderColumns(c: Collator, e: Entry): Row {
    seq(|c.order|, i requires 0 <= i < |c.order| => Column(e, c.order[i]))
  }

  function Rank(c: Collator, e: Entry): Row {
    if c.order == [] then e.key else if c.byKey then OrderColumns(c, e) + e.key else OrderColumns(c, e)
  }

  predicate Before(c: Collator, a: Entry, b: Entry) {
    if c.reverse then Less(Rank(c, b), Rank(c, a)) else Less(Rank(c, a), Rank(c, b))
  }

  lemma BeforeIsTotal(c: Collator, a: Entry, b: Entry)
    ensures Before(c, a, b) || Before(c, b, a) || Rank(c, a) == Rank(c, b)
    ensures !(Before(c, a, b) && Before(c, b, a))
    ensures Rank(c, a) == Rank(c, b) ==> !Before(c, a, b)
  {
    LessIsTotal(Rank(c, a), Rank(c, b));
    LessIsTotal(Rank(c, b), Rank(c, a));
  }

  lemma BeforeIsTransitive(c: Collator, x: Entry, y: Entry, z: Entry)
    requires Before(c, x, y) && Before(c, y, z)
    ensures Before(c, x, z)
  {
    if c.reverse {
      LessIsTransitive(Rank(c, z), Rank(c, y), Rank(c, x));
    } else {
      LessIsTransitive(Rank(c, x), Rank(c, y), Rank(c, z));
    }
  }

  /** Strictly ordered, hence free of rows that collate equally. */
  ghost predicate Sorted(c: Collator, s: seq<Entry>) {
    forall i, j | 0 <= i < j < |s| :: Before(c, s[i], s[j])
  }

  ghost predicate Precedes(c: Collator, e: Entry, s: seq<Entry>) {
    forall x | x in s :: Before(c, e, x)
  }

  lemma SortedCons(c: Collator, e: Entry, s: seq<Entry>)
    requires Sorted(c, s) && Precedes(c, e, s)
    ensures Sorted(c, [e] + s)
  {
  }

  lemma SortedTail(c: Collator, s: seq<Entry>)
    requires Sorted(c, s) && s != []
    ensures Sorted(c, s[1..]) && Precedes(c, s[0], s[1..])
    ensures forall e :: e in s <==> e == s[0] || e in s[1..]
  {
    assert s == [s[0]] + s[1..];
  }

  /** Some row of `s` collates equally with `e`. */
  ghost predicate Collides(c: Collator, s: seq<Entry>, e: Entry) {
    exists x :: x in s && Rank(c, x) == Rank(c, e)
  }

  /** Union of two ordered streams; where two rows collate equally the left one is kept. */
  function Merge(c: Collator, left: seq<Entry>, right: seq<Entry>): seq<Entry>
    decreases |left| + |right|
  {
    if left == [] then right
    else if right == [] then left
    else if Before(c, left[0], right[0]) then [left[0]] + Merge(c, left[1..], right)
    else if Before(c, right[0], left[0]) then [right[0]] + Merge(c, left, right[1..])
    else [left[0]] + Merge(c, left[1..], right[1..])
  }

  /** The rows of the left stream that collate equally with no row of the right one. */
  function Diff(c: Collator, left: seq<Entry>, right: seq<Entry>): seq<Entry>
    decreases |left| + |right|
  {
    if left == [] || right == [] then left
    else if Before(c, left[0], right[0]) then [left[0]] + Diff(c, left[1..], right)
    else if Before(c, right[0], left[0]) then Diff(c, left, right[1..])
    else Diff(c, left[1..], right[1..])
  }

  /** A row before the head of a stream collides with none of its rows. */
  lemma NoCollision(c: Collator, e: Entry, s: seq<Entry>)
    requires Precedes(c, e, s)
    ensures !Collides(c, s, e)
  {
    forall x | x in s ensures Rank(c, x) != Rank(c, e) { BeforeIsTotal(c, e, x); }
  }

  lemma PrecedesStream(c: Collator, e: Entry, s: seq<Entry>)
    requires Sorted(c, s) && s != [] && Before(c, e, s[0])
    ensures Precedes(c, e, s)
  {
    forall x | x in s ensures Before(c, e, x) {
      SortedTail(c, s);
      if x != s[0] { BeforeIsTransitive(c, e, s[0], x); }
    }
  }

  lemma EqualPrecedes(c: Collator, e: Entry, f: Entry, s: seq<Entry>)
    requires Precedes(c, f, s) && Rank(c, e) == Rank(c, f)
    ensures Precedes(c, e, s)
  {
  }

  lemma {:induction false} MergeIsUnion(c: Collator, left: seq<Entry>, right: seq<Entry>)
    requires Sorted(c, left) && Sorted(c, right)
    ensures Sorted(c, Merge(c, left, right))
    ensures forall e :: e in Merge(c, left, right) <==> e in left || (e in right && !Collides(c, left, e))
    decreases |left| + |right|
  {
    if left != [] && right != [] {
      var l, r := left[0], right[0];
      SortedTail(c, left);
      SortedTail(c, right);
      BeforeIsTotal(c, l, r);
      if Before(c, l, r) {
        PrecedesStream(c, l, right);
        NoCollision(c, l, right);
        MergeIsUnion(c, left[1..], right);
        SortedCons(c, l, Merge(c, left[1..], right));
        forall e | e in right ensures Collides(c, left, e) == Collides(c, left[1..], e) {
          assert Rank(c, e) != Rank(c, l);
        }
      } else if Before(c, r, l) {
        PrecedesStream(c, r, left);
        NoCollision(c, r, left);
        MergeIsUnion(c, left, right[1..]);
        SortedCons(c, r, Merge(c, left, right[1..]));
      } else {
        EqualPrecedes(c, l, r, right[1..]);
        NoCollision(c, l, right[1..]);
        MergeIsUnion(c, left[1..], right[1..]);
        SortedCons(c, l, Merge(c, left[1..], right[1..]));
        forall e | e in right[1..] ensures Collides(c, left, e) == Collides(c, left[1..], e) {
          assert Rank(c, e) != Rank(c, l);
        }
      }
    }
  }

  lemma {:induction false} DiffIsDifference(c: Collator, left: seq<Entry>, right: seq<Entry>)
    requires Sorted(c, left) && Sorted(c, right)
    ensures Sorted(c, Diff(c, left, right))
    ensures forall e :: e in Diff(c, left, right) <==> e in left && !Collides(c, right, e)
    decreases |left| + |right|
  {
    if left != [] && right != [] {
      var l, r := left[0], right[0];
      SortedTail(c, left);
      SortedTail(c, right);
      BeforeIsTotal(c, l, r);
      if Before(c, l, r) {
        PrecedesStream(c, l, right);
        NoCollision(c, l, right);
        DiffIsDifference(c, left[1..], right);
        SortedCons(c, l, Diff(c, left[1..], right));
      } else if Before(c, r, l) {
        PrecedesStream(c, r, left);
        NoCollision(c, r, left);
        DiffIsDifference(c, left, right[1..]);
        forall e | e in left ensures Collides(c, right, e) == Collides(c, right[1..], e) {
          assert Rank(c, e) != Rank(c, r);
        }
      } else {
        EqualPrecedes(c, r, l, left[1..]);
        NoCollision(c, r, left[1..]);
        DiffIsDifference(c, left[1..], right[1..]);
        assert Collides(c, right, l);
        forall e | e in left[1..] ensures Collides(c, right, e) == Collides(c, right[1..], e) {
          assert Rank(c, e) != Rank(c, r);
        }
      }
    }
  }

  /** No two rows of the set collate equally. */
  ghost predicate Separated(c: Collator, es: set<Entry>) {
    forall a, b | a in es && b in es && Rank(c, a) == Rank(c, b) :: a == b
  }

  ghost predicate IsFirst(c: Collator, es: set<Entry>, e: Entry) {
    e in es && forall x | x in es && x != e :: Before(c, e, x)
  }

  lemma FirstOfPair(c: Collator, es: set<Entry>, a: Entry, b: Entry)
    requires a in es && IsFirst(c, es - {a}, b) && Rank(c, a) != Rank(c, b)
    ensures exists e :: IsFirst(c, es, e)
  {
    BeforeIsTotal(c, a, b);
    if Before(c, a, b) {
      forall x | x in es && x != a ensures Before(c, a, x) {
        if x != b { BeforeIsTransitive(c, a, b, x); }
      }
      assert IsFirst(c, es, a);
    } else {
      assert IsFirst(c, es, b);
    }
  }

  lemma {:induction false} FirstExists(c: Collator, es: set<Entry>)
    requires es != {} && Separated(c, es)
    ensures exists e :: IsFirst(c, es, e)
  {
    var a :| a in es;
    if es == {a} {
      assert IsFirst(c, es, a);
    } else {
      FirstExists(c, es - {a});
      var b :| IsFirst(c, es - {a}, b);
      FirstOfPair(c, es, a, b);
    }
  }

  /** The ordered stream of a set of rows. */
  function Listing(c: Collator, es: set<Entry>): seq<Entry>
    requires Separated(c, es)
  {
    if es == {} then [] else
      FirstExists(c, es);
      assert forall a, b | a in es && b in es && Before(c, a, b) :: !Before(c, b, a) by {
        forall a, b | a in es && b in es && Before(c, a, b) ensures !Before(c, b, a) { BeforeIsTotal(c, a, b); }
      }
      var e :| e in es && forall x | x in es && x != e :: Before(c, e, x);
      assert IsFirst(c, es, e);
      [e] + Listing(c, es - {e})
  }

  lemma {:induction false} ListingIsStream(c: Collator, es: set<Entry>)
    requires Separated(c, es)
    ensures Sorted(c, Listing(c, es))
    ensures forall e :: e in Listing(c, es) <==> e in es
  {
    if es != {} {
      var s := Listing(c, es);
      assert s[0] in es && IsFirst(c, es, s[0]) && s == [s[0]] + Listing(c, es - {s[0]}) by {
        FirstExists(c, es);
        assert forall a, b | a in es && b in es && Before(c, a, b) :: !Before(c, b, a) by {
          forall a, b | a in es && b in es && Before(c, a, b) ensures !Before(c, b, a) { BeforeIsTotal(c, a, b); }
        }
      }
      ListingIsStream(c, es - {s[0]});
      SortedCons(c, s[0], s[1..]);
    }
  }

  lemma SameEmptiness(s: seq<Entry>, t: seq<Entry>)
    requires forall e :: e in s <==> e in t
    ensures s == [] <==> t == []
  {
    if 0 < |s| { assert s[0] in t; }
    if 0 < |t| { assert t[0] in s; }
  }

  /** Two ordered streams of the same rows are the same stream. */
  lemma {:induction false} ListingIsUnique(c: Collator, s: seq<Entry>, t: seq<Entry>)
    requires Sorted(c, s) && Sorted(c, t)
    requires forall e :: e in s <==> e in t
    ensures s == t
  {
    SameEmptiness(s, t);
    if s != [] {
      SortedTail(c, s);
      SortedTail(c, t);
      BeforeIsTotal(c, s[0], t[0]);
      assert s[0] in t && t[0] in s;
      BeforeIsTotal(c, s[0], s[0]);
      ListingIsUnique(c, s[1..], t[1..]);
      assert s == [s[0]] + s[1..] && t == [t[0]] + t[1..];
    }
  }

  /** The rows of a store within a range. */
  function Entries(rows: Rows, range: Range): (es: set<Entry>)
    ensures forall e :: e in es <==> e.key in rows && rows[e.key] == e.values && InRange(range, e.key + e.values)
  {
    set k | k in rows && InRange(range, k + rows[k]) :: Entry(k, rows[k])
  }

  const NATURAL := Collator([], false)

  /** In key order the rows of one store are always separated. */
  lemma KeysSeparate(c: Collator, rows: Rows, range: Range)
    requires c.order == []
    ensures Separated(c, Entries(rows, range))
  {
  }

  // ---------------------------------------------------------------- ties

  /** The order of a native stream: an index lists its columns and then the key. */
  function Native(c: Collator): Collator { c.(byKey := true) }

  /** A native order separates the rows of one store, whatever its columns. */
  lemma NativeSeparates(c: Collator, rows: Rows, range: Range)
    ensures Separated(Native(c), Entries(rows, range))
  {
    forall a, b | a in Entries(rows, range) && b in Entries(rows, range) && Rank(Native(c), a) == Rank(Native(c), b)
      ensures a == b
    {
      if c.order != [] {
        assert Rank(Native(c), a)[|c.order|..] == a.key && Rank(Native(c), b)[|c.order|..] == b.key;
      }
    }
  }

  lemma {:induction false} LessPrefix(a: Row, b: Row, x: Row, y: Row)
    requires |a| == |b| && Less(a + x, b + y)
    ensures Less(a, b) || a == b
  {
    if a != [] {
      assert (a + x)[1..] == a[1..] + x && (b + y)[1..] == b[1..] + y;
      assert a == [a[0]] + a[1..] && b == [b[0]] + b[1..];
      if a[0] == b[0] { LessPrefix(a[1..], b[1..], x, y); }
    }
  }

  lemma NativeRefines(c: Collator, a: Entry, b: Entry)
    requires Before(Native(c), a, b)
    ensures Before(c, a, b) || Rank(c, a) == Rank(c, b)
  {
    if c.order != [] && !c.byKey {
      if c.reverse {
        LessPrefix(OrderColumns(c, b), OrderColumns(c, a), b.key, a.key);
      } else {
        LessPrefix(OrderColumns(c, a), OrderColumns(c, b), a.key, b.key);
      }
    }
  }

  /** Ordered, but rows may collate equally. */
  ghost predicate WeaklySorted(c: Collator, s: seq<Entry>) {
    forall i, j | 0 <= i < j < |s| :: !Before(c, s[j], s[i])
  }

  lemma NativeIsWeak(c: Collator, s: seq<Entry>)
    requires Sorted(Native(c), s)
    ensures WeaklySorted(c, s)
  {
    forall i, j | 0 <= i < j < |s| ensures !Before(c, s[j], s[i]) {
      NativeRefines(c, s[i], s[j]);
      BeforeIsTotal(c, s[i], s[j]);
    }
  }

  /** Without ties a native stream is strictly ordered. */
  lemma NativeIsStrict(c: Collator, s: seq<Entry>, es: set<Entry>)
    requires Sorted(Native(c), s) && Separated(c, es) && forall e | e in s :: e in es
    ensures Sorted(c, s)
  {
    forall i, j | 0 <= i < j < |s| ensures Before(c, s[i], s[j]) {
      NativeRefines(c, s[i], s[j]);
      BeforeIsTotal(Native(c), s[i], s[j]);
    }
  }

  /** The rows of one rank, in the order of the stream. */
  function RankClass(c: Collator, s: seq<Entry>, rank: Row): seq<Entry> {
    if s == [] then [] else (if Rank(c, s[0]) == rank then [s[0]] else []) + RankClass(c, s[1..], rank)
  }

  /** All but as many of the first items as another sequence has. */
  function Beyond<T>(s: seq<T>, n: nat): seq<T> { if n <= |s| then s[n..] else [] }

  lemma {:induction false} AbsentClass(c: Collator, s: seq<Entry>, rank: Row)
    requires forall x | x in s :: Rank(c, x) != rank
    ensures RankClass(c, s, rank) == []
  {
    if s != [] {
      assert s[0] in s && forall x | x in s[1..] :: x in s;
      AbsentClass(c, s[1..], rank);
    }
  }

  lemma WeakTail(c: Collator, s: seq<Entry>)
    requires WeaklySorted(c, s) && s != []
    ensures WeaklySorted(c, s[1..]) && forall x | x in s :: x == s[0] || !Before(c, x, s[0])
  {
  }

  lemma WeakCons(c: Collator, e: Entry, s: seq<Entry>)
    requires WeaklySorted(c, s) && forall x | x in s :: !Before(c, x, e)
    ensures WeaklySorted(c, [e] + s)
  {
  }

  /** A row before the head of an ordered stream is before all of it. */
  lemma BeforeStream(c: Collator, e: Entry, s: seq<Entry>)
    requires WeaklySorted(c, s) && s != [] && Before(c, e, s[0])
    ensures forall x | x in s :: Before(c, e, x)
    ensures RankClass(c, s, Rank(c, e)) == []
  {
    WeakTail(c, s);
    forall x | x in s ensures Before(c, e, x) && Rank(c, x) != Rank(c, e) {
      if Before(c, s[0], x) { BeforeIsTransitive(c, e, s[0], x); }
      BeforeIsTotal(c, s[0], x);
      BeforeIsTotal(c, e, x);
    }
    AbsentClass(c, s, Rank(c, e));
  }

  lemma MergeWithin(c: Collator, left: seq<Entry>, right: seq<Entry>)
    ensures forall x | x in Merge(c, left, right) :: x in left || x in right
    decreases |left| + |right|
  {
    if left != [] && right != [] {
      assert forall x | x in left[1..] :: x in left;
      assert forall x | x in right[1..] :: x in right;
      if Before(c, left[0], right[0]) {
        MergeWithin(c, left[1..], right);
      } else if Before(c, right[0], left[0]) {
        MergeWithin(c, left, right[1..]);
      } else {
        MergeWithin(c, left[1..], right[1..]);
      }
    }
  }

  lemma DiffWithin(c: Collator, left: seq<Entry>, right: seq<Entry>)
    ensures forall x | x in Diff(c, left, right) :: x in left
    decreases |left| + |right|
  {
    if left != [] && right != [] {
      assert forall x | x in left[1..] :: x in left;
      if Before(c, left[0], right[0]) {
        DiffWithin(c, left[1..], right);
      } else if Before(c, right[0], left[0]) {
        DiffWithin(c, left, right[1..]);
      } else {
        DiffWithin(c, left[1..], right[1..]);
      }
    }
  }

  lemma NotAfterHead(c: Collator, e: Entry, s: seq<Entry>)
    requires WeaklySorted(c, s) && s != [] && !Before(c, s[0], e)
    ensures forall x | x in s :: !Before(c, x, e)
  {
    WeakTail(c, s);
    forall x | x in s ensures !Before(c, x, e) {
      if Before(c, x, e) {
        BeforeIsTotal(c, x, s[0]);
        BeforeIsTotal(c, s[0], e);
        if Before(c, s[0], x) { BeforeIsTransitive(c, s[0], x, e); }
      }
    }
  }

  lemma {:induction false} MergeIsWeak(c: Collator, left: seq<Entry>, right: seq<Entry>)
    requires WeaklySorted(c, left) && WeaklySorted(c, right)
    ensures WeaklySorted(c, Merge(c, left, right))
    decreases |left| + |right|
  {
    if left != [] && right != [] {
      var l, r := left[0], right[0];
      WeakTail(c, left);
      WeakTail(c, right);
      BeforeIsTotal(c, l, r);
      BeforeIsTotal(c, l, l);
      BeforeIsTotal(c, r, r);
      if Before(c, r, l) {
        NotAfterHead(c, r, left);
        MergeIsWeak(c, left, right[1..]);
        MergeWithin(c, left, right[1..]);
        WeakCons(c, r, Merge(c, left, right[1..]));
      } else {
        NotAfterHead(c, l, right);
        var rest := if Before(c, l, r) then right else right[1..];
        MergeIsWeak(c, left[1..], rest);
        MergeWithin(c, left[1..], rest);
        WeakCons(c, l, Merge(c, left[1..], rest));
      }
    }
  }

  lemma {:induction false} DiffIsWeak(c: Collator, left: seq<Entry>, right: seq<Entry>)
    requires WeaklySorted(c, left)
    ensures WeaklySorted(c, Diff(c, left, right))
    decreases |left| + |right|
  {
    if left != [] && right != [] {
      WeakTail(c, left);
      BeforeIsTotal(c, left[0], left[0]);
      if Before(c, left[0], right[0]) {
        DiffIsWeak(c, left[1..], right);
        DiffWithin(c, left[1..], right);
        WeakCons(c, left[0], Diff(c, left[1..], right));
      } else if Before(c, right[0], left[0]) {
        DiffIsWeak(c, left, right[1..]);
      } else {
        DiffIsWeak(c, left[1..], right[1..]);
      }
    }
  }

  /** Every left row, and the right rows beyond as many as there are left ones. */
  function Paired(left: seq<Entry>, right: seq<Entry>): seq<Entry> { left + Beyond(right, |left|) }

  lemma PairedHeads(l: Entry, left: seq<Entry>, r: Entry, right: seq<Entry>)
    ensures Paired([l] + left, [r] + right) == [l] + Paired(left, right)
    ensures Paired([l] + left, []) == [l] + Paired(left, [])
    ensures Paired([], right) == right
    ensures Paired(left, []) == left
  {
  }

  lemma ClassOfCons(c: Collator, e: Entry, s: seq<Entry>, rank: Row)
    ensures RankClass(c, [e] + s, rank)
         == if Rank(c, e) == rank then [e] + RankClass(c, s, rank) else RankClass(c, s, rank)
  {
    assert ([e] + s)[1..] == s;
    assert [] + RankClass(c, s, rank) == RankClass(c, s, rank);
  }

  /** Rank by rank, with ties on either side, a merge keeps every left row and drops as many of the
      first right rows. */
  lemma {:induction false} MergeByRank(c: Collator, left: seq<Entry>, right: seq<Entry>, rank: Row)
    requires WeaklySorted(c, left) && WeaklySorted(c, right)
    ensures RankClass(c, Merge(c, left, right), rank) == Paired(RankClass(c, left, rank), RankClass(c, right, rank))
    decreases |left| + |right|
  {
    hide Rank, Before, Paired;
    if left == [] || right == [] {
      ClassesOfEmpty(c, left, right, rank);
    } else {
      var l, r, ls, rs := left[0], right[0], left[1..], right[1..];
      assert left == [l] + ls && right == [r] + rs;
      WeakTail(c, left);
      WeakTail(c, right);
      BeforeIsTotal(c, l, r);
      ClassOfCons(c, l, ls, rank);
      ClassOfCons(c, r, rs, rank);
      if Before(c, l, r) {
        BeforeStream(c, l, right);
        MergeByRank(c, ls, right, rank);
        ClassOfCons(c, l, Merge(c, ls, right), rank);
        PairedHeads(l, RankClass(c, ls, rank), r, []);
      } else if Before(c, r, l) {
        BeforeStream(c, r, left);
        MergeByRank(c, left, rs, rank);
        ClassOfCons(c, r, Merge(c, left, rs), rank);
        PairedHeads(r, [], r, RankClass(c, rs, rank));
        PairedHeads(r, [], r, RankClass(c, right, rank));
      } else {
        MergeByRank(c, ls, rs, rank);
        ClassOfCons(c, l, Merge(c, ls, rs), rank);
        PairedHeads(l, RankClass(c, ls, rank), r, RankClass(c, rs, rank));
      }
    }
  }

  lemma ClassesOfEmpty(c: Collator, left: seq<Entry>, right: seq<Entry>, rank: Row)
    requires left == [] || right == []
    ensures RankClass(c, Merge(c, left, right), rank) == Paired(RankClass(c, left, rank), RankClass(c, right, rank))
  {
    assert RankClass(c, [], rank) == [];
  }

  lemma BeyondHeads(l: Entry, left: seq<Entry>, r: Entry, right: seq<Entry>)
    ensures Beyond([l] + left, |[r] + right|) == Beyond(left, |right|)
    ensures Beyond(left, 0) == left && Beyond<Entry>([], |right|) == []
  {
  }

  /** Rank by rank, a difference drops as many of the first left rows as there are right rows. */
  lemma {:induction false} DiffByRank(c: Collator, left: seq<Entry>, right: seq<Entry>, rank: Row)
    requires WeaklySorted(c, left) && WeaklySorted(c, right)
    ensures RankClass(c, Diff(c, left, right), rank)
         == Beyond(RankClass(c, left, rank), |RankClass(c, right, rank)|)
    decreases |left| + |right|
  {
    hide Rank, Before, Beyond;
    if left == [] || right == [] {
      DiffOfEmpty(c, left, right, rank);
    } else {
      var l, r, ls, rs := left[0], right[0], left[1..], right[1..];
      assert left == [l] + ls && right == [r] + rs;
      WeakTail(c, left);
      WeakTail(c, right);
      BeforeIsTotal(c, l, r);
      ClassOfCons(c, l, ls, rank);
      ClassOfCons(c, r, rs, rank);
      if Before(c, l, r) {
        BeforeStream(c, l, right);
        DiffByRank(c, ls, right, rank);
        ClassOfCons(c, l, Diff(c, ls, right), rank);
        BeyondHeads(l, RankClass(c, ls, rank), r, []);
        BeyondHeads(l, RankClass(c, left, rank), r, []);
      } else if Before(c, r, l) {
        BeforeStream(c, r, left);
        DiffByRank(c, left, rs, rank);
        BeyondHeads(l, [], r, RankClass(c, rs, rank));
        BeyondHeads(l, [], r, RankClass(c, right, rank));
      } else {
        DiffByRank(c, ls, rs, rank);
        BeyondHeads(l, RankClass(c, ls, rank), r, RankClass(c, rs, rank));
      }
    }
  }

  lemma DiffOfEmpty(c: Collator, left: seq<Entry>, right: seq<Entry>, rank: Row)
    requires left == [] || right == []
    ensures RankClass(c, Diff(c, left, right), rank) == Beyond(RankClass(c, left, rank), |RankClass(c, right, rank)|)
  {
    assert RankClass(c, [], rank) == [];
  }

  /** A row occurs in a stream as often as in its class. */
  lemma {:induction false} ClassCounts(c: Collator, s: seq<Entry>, e: Entry)
    ensures multiset(s)[e] == multiset(RankClass(c, s, Rank(c, e)))[e]
  {
    if s != [] {
      assert s == [s[0]] + s[1..];
      ClassCounts(c, s[1..], e);
    }
  }

  // ---------------------------------------------------------------- what an order says

  /** The value in a column of a row: the key columns first, then the value columns; 0 beyond. */
  function Cell(e: Entry, i: nat): Value {
    if i < |e.key| then e.key[i]
    else if i - |e.key| < |e.values| then e.values[i - |e.key|]
    else 0
  }

  predicate SameCells(order: seq<nat>, a: Entry, b: Entry) {
    forall i | 0 <= i < |order| :: Cell(a, order[i]) == Cell(b, order[i])
  }

  /** Of the named columns, in the order in which they are named, the first in which the rows differ
      holds less in the first row. */
  predicate CellsBefore(order: seq<nat>, a: Entry, b: Entry) {
    exists n | 0 <= n < |order| :: Cell(a, order[n]) < Cell(b, order[n]) && SameCells(order[..n], a, b)
  }

  lemma CellIsColumn(e: Entry, i: nat)
    ensures Cell(e, i) == Column(e, i)
  {
  }

  lemma ColumnsAreCells(c: Collator, a: Entry, b: Entry)
    ensures OrderColumns(c, a) == OrderColumns(c, b) <==> SameCells(c.order, a, b)
    ensures Less(OrderColumns(c, a), OrderColumns(c, b)) <==> CellsBefore(c.order, a, b)
  {
    var x, y := OrderColumns(c, a), OrderColumns(c, b);
    forall i | 0 <= i < |c.order| ensures x[i] == Cell(a, c.order[i]) && y[i] == Cell(b, c.order[i]) {
      CellIsColumn(a, c.order[i]);
      CellIsColumn(b, c.order[i]);
    }
    forall n | 0 <= n <= |c.order| ensures x[..n] == y[..n] <==> SameCells(c.order[..n], a, b) {
      if x[..n] == y[..n] {
        forall i | 0 <= i < n ensures Cell(a, c.order[..n][i]) == Cell(b, c.order[..n][i]) {
          assert x[i] == x[..n][i] == y[..n][i] == y[i];
        }
      }
      if SameCells(c.order[..n], a, b) {
        forall i | 0 <= i < n ensures x[i] == y[i] { assert c.order[..n][i] == c.order[i]; }
      }
    }
    assert x[..|x|] == x && y[..|y|] == y && c.order[..|c.order|] == c.order;
    LessIsLexicographic(x, y);
    if n: nat :| n <= |x| && n < |y| && x[..n] == y[..n] && (n == |x| || x[n] < y[n]) {
      assert Cell(a, c.order[n]) < Cell(b, c.order[n]) && SameCells(c.order[..n], a, b);
    }
    if n :| 0 <= n < |c.order| && Cell(a, c.order[n]) < Cell(b, c.order[n]) && SameCells(c.order[..n], a, b) {
      assert x[..n] == y[..n] && x[n] < y[n];
    }
  }

  /** A collator that breaks no ties orders rows by the first named column in which they differ, or by
      key if no column is named, and the other way round in reverse; it ties those that differ in none. */
  lemma CollatorSays(c: Collator, a: Entry, b: Entry)
    requires !c.byKey
    ensures c.order == [] ==> (Before(c, a, b) <==> if c.reverse then Less(b.key, a.key) else Less(a.key, b.key))
    ensures c.order == [] ==> (Rank(c, a) == Rank(c, b) <==> a.key == b.key)
    ensures c.order != [] ==>
      (Before(c, a, b) <==> if c.reverse then CellsBefore(c.order, b, a) else CellsBefore(c.order, a, b))
    ensures c.order != [] ==> (Rank(c, a) == Rank(c, b) <==> SameCells(c.order, a, b))
  {
    ColumnsAreCells(c, a, b);
    ColumnsAreCells(c, b, a);
  }

  function Backwards(s: seq<Entry>): seq<Entry> { seq(|s|, i requires 0 <= i < |s| => s[|s| - 1 - i]) }

  lemma BackwardsHolds(s: seq<Entry>, e: Entry)
    ensures e in Backwards(s) <==> e in s
  {
    if e in s {
      var i :| 0 <= i < |s| && s[i] == e;
      assert Backwards(s)[|s| - 1 - i] == e;
    }
  }

  lemma BackwardsSorted(order: seq<nat>, s: seq<Entry>)
    requires Sorted(Collator(order, false), s)
    ensures Sorted(Collator(order, true), Backwards(s))
  {
    var t := Backwards(s);
    forall i, j | 0 <= i < j < |t| ensures Before(Collator(order, true), t[i], t[j]) {
      TurnedAround(order, s[|s| - 1 - j], s[|s| - 1 - i]);
    }
  }

  lemma TurnedAround(order: seq<nat>, a: Entry, b: Entry)
    ensures Before(Collator(order, false), a, b) <==> Before(Collator(order, true), b, a)
  {
  }

  /** A stream in one direction is the stream of the same rows in the other, read backwards. */
  lemma ReverseIsBackwards(order: seq<nat>, s: seq<Entry>, t: seq<Entry>)
    requires Sorted(Collator(order, false), s) && Sorted(Collator(order, true), t)
    requires forall e :: e in s <==> e in t
    ensures |t| == |s| && forall i | 0 <= i < |s| :: t[i] == s[|s| - 1 - i]
  {
    hide Sorted;
    forall e ensures e in Backwards(s) <==> e in t { BackwardsHolds(s, e); }
    BackwardsSorted(order, s);
    ListingIsUnique(Collator(order, true), Backwards(s), t);
  }
}
