/** The contents of one transaction's delta, and the three orders in which the
    repository combines a stack of them with the canonical rows. */
module Layers {
  import opened Optional
  import opened Collation
  import opened Streams

  /** What a delta holds: rows to add or replace, and rows to remove. */
  datatype Layer = Layer(inserts: Rows, deletes: Rows)

  const EMPTY_LAYER := Layer(map[], map[])

  /** No key is both inserted and deleted. */
  ghost predicate Disjoint(d: Layer) { d.inserts.Keys !! d.deletes.Keys }

  predicate Touches(d: Layer, k: Row) { k in d.inserts || k in d.deletes }

  /** The row of one key, if there is one. */
  function Get(rows: Rows, k: Row): Option<Row> { if k in rows then Some(rows[k]) else None }

  /** The order of a point lookup and of a BTree scan: remove, then add. */
  function View(rows: Rows, d: Layer): Rows { (rows - d.deletes.Keys) + d.inserts }

  /** The order of materialization and of a Table scan: add, then remove. */
  function Materialize(rows: Rows, d: Layer): Rows { (rows + d.inserts) - d.deletes.Keys }

  /** The two orders agree on exactly the disjoint deltas, whatever lies below. */
  lemma OrdersAgree(rows: Rows, d: Layer)
    ensures View(rows, d) == Materialize(rows, d) <==> Disjoint(d)
  {
    if k :| k in d.inserts && k in d.deletes {
      assert k in View(rows, d) && k !in Materialize(rows, d);
    }
  }

  function ViewStack(rows: Rows, ds: seq<Layer>): Rows {
    if ds == [] then rows else View(ViewStack(rows, ds[..|ds| - 1]), ds[|ds| - 1])
  }

  function MaterializeStack(rows: Rows, ds: seq<Layer>): Rows {
    if ds == [] then rows else Materialize(MaterializeStack(rows, ds[..|ds| - 1]), ds[|ds| - 1])
  }

  ghost predicate AllDisjoint(ds: seq<Layer>) { forall d | d in ds :: Disjoint(d) }

  lemma {:induction false} StacksAgree(rows: Rows, ds: seq<Layer>)
    requires AllDisjoint(ds)
    ensures ViewStack(rows, ds) == MaterializeStack(rows, ds)
  {
    if ds != [] {
      StacksAgree(rows, ds[..|ds| - 1]);
      OrdersAgree(ViewStack(rows, ds[..|ds| - 1]), ds[|ds| - 1]);
    }
  }

  ghost predicate StackTouches(ds: seq<Layer>, k: Row) { exists d :: d in ds && Touches(d, k) }

  lemma StackTouchesConcat(a: seq<Layer>, b: seq<Layer>, k: Row)
    ensures StackTouches(a + b, k) <==> StackTouches(a, k) || StackTouches(b, k)
  {
    if d :| d in a && Touches(d, k) { assert d in a + b; }
    if d :| d in b && Touches(d, k) { assert d in a + b; }
  }

  /** A stack hides the rows below it at every key it touches and shows them at every other. */
  lemma {:induction false} StackHides(a: Rows, b: Rows, ds: seq<Layer>, k: Row)
    requires StackTouches(ds, k) || Get(a, k) == Get(b, k)
    ensures Get(ViewStack(a, ds), k) == Get(ViewStack(b, ds), k)
  {
    if ds != [] {
      var top := ds[|ds| - 1];
      if !Touches(top, k) {
        assert StackTouches(ds, k) ==> StackTouches(ds[..|ds| - 1], k) by {
          if d :| d in ds && Touches(d, k) { assert d in ds[..|ds| - 1]; }
        }
        StackHides(a, b, ds[..|ds| - 1], k);
      }
    }
  }

  lemma {:induction false} StackUntouched(rows: Rows, ds: seq<Layer>, k: Row)
    requires !StackTouches(ds, k)
    ensures Get(ViewStack(rows, ds), k) == Get(rows, k)
  {
    if ds != [] {
      assert ds[|ds| - 1] in ds && forall d | d in ds[..|ds| - 1] :: d in ds;
      StackUntouched(rows, ds[..|ds| - 1], k);
    }
  }

  /** The last delta of a stack that touches a key decides: the row it inserts shows, and if it
      only deletes the key then nothing does. */
  lemma {:induction false} LastTouchDecides(rows: Rows, ds: seq<Layer>, i: nat, k: Row)
    requires i < |ds| && (k in ds[i].inserts || k in ds[i].deletes)
    requires forall j | i < j < |ds| :: k !in ds[j].inserts && k !in ds[j].deletes
    ensures k in ViewStack(rows, ds) <==> k in ds[i].inserts
    ensures k in ds[i].inserts ==> ViewStack(rows, ds)[k] == ds[i].inserts[k]
  {
    var n := |ds| - 1;
    if i < n { LastTouchDecides(rows, ds[..n], i, k); }
  }

  lemma SameRows(a: Rows, b: Rows)
    requires forall k :: Get(a, k) == Get(b, k)
    ensures a == b
  {
    assert forall k :: k in a <==> Get(a, k) != None;
    assert forall k :: k in b <==> Get(b, k) != None;
    forall k | k in a ensures k in b && a[k] == b[k] { assert Get(a, k) == Get(b, k); }
    forall k | k in b ensures k in a { assert Get(a, k) == Get(b, k); }
  }

  lemma StackHidesAll(a: Rows, b: Rows, ds: seq<Layer>)
    requires forall k :: StackTouches(ds, k) || Get(a, k) == Get(b, k)
    ensures ViewStack(a, ds) == ViewStack(b, ds)
  {
    forall k ensures Get(ViewStack(a, ds), k) == Get(ViewStack(b, ds), k) { StackHides(a, b, ds, k); }
    SameRows(ViewStack(a, ds), ViewStack(b, ds));
  }

  lemma {:induction false} StackConcat(rows: Rows, lower: seq<Layer>, upper: seq<Layer>)
    ensures ViewStack(rows, lower + upper) == ViewStack(ViewStack(rows, lower), upper)
  {
    if upper == [] {
      assert lower + upper == lower;
    } else {
      var all := lower + upper;
      assert all[..|all| - 1] == lower + upper[..|upper| - 1];
      StackConcat(rows, lower, upper[..|upper| - 1]);
    }
  }

  /** New values for some of the value columns, by their position. */
  type Updates = map<nat, Value>

  function Update(updates: Updates, values: Row): Row {
    seq(|values|, i requires 0 <= i < |values| => if i in updates then updates[i] else values[i])
  }

  /** The rows of a table after a range has been updated, or deleted. */
  function UpdatedIn(rows: Rows, range: Range, updates: Updates): Rows {
    map k | k in rows :: if InRange(range, k + rows[k]) then Update(updates, rows[k]) else rows[k]
  }

  /** A row as long as before, with the new value in every column that is named and the old one in every
      other. */
  ghost predicate RowSet(was: Row, now: Row, updates: Updates) {
    |now| == |was| && forall i: nat | i < |was| :: now[i] == if i in updates then updates[i] else was[i]
  }

  /** From one state of a table to the next the columns of the rows in a range have been set, and nothing
      else has changed. */
  ghost predicate ColumnsSet(was: Rows, now: Rows, range: Range, updates: Updates) {
    && (forall k :: k in now <==> k in was)
    && (forall k | k in was && InRange(range, k + was[k]) :: RowSet(was[k], now[k], updates))
    && (forall k | k in was && !InRange(range, k + was[k]) :: now[k] == was[k])
  }

  /** The rows of a range, and no others, are gone. */
  ghost predicate RangeGone(was: Rows, now: Rows, range: Range) {
    && (forall k :: k in now <==> k in was && !InRange(range, k + was[k]))
    && (forall k | k in now :: now[k] == was[k])
  }

  lemma RowSetIff(was: Row, now: Row, updates: Updates)
    ensures RowSet(was, now, updates) <==> now == Update(updates, was)
  {
    if RowSet(was, now, updates) {
      var row := Update(updates, was);
      assert |row| == |now| && forall i: nat | i < |now| :: row[i] == now[i];
    }
  }

  lemma ColumnsSetIff(was: Rows, now: Rows, range: Range, updates: Updates)
    ensures ColumnsSet(was, now, range, updates) <==> now == UpdatedIn(was, range, updates)
  {
    hide InRange, RowSet, Update;
    forall k | k in was && k in now
      ensures RowSet(was[k], now[k], updates) <==> now[k] == Update(updates, was[k])
    {
      RowSetIff(was[k], now[k], updates);
    }
    if ColumnsSet(was, now, range, updates) { assert now.Keys == UpdatedIn(was, range, updates).Keys; }
  }

  lemma RangeGoneIff(was: Rows, now: Rows, range: Range)
    ensures RangeGone(was, now, range) <==> now == RemovedIn(was, range)
  {
    hide InRange;
  }

  function RemovedIn(rows: Rows, range: Range): Rows {
    map k | k in rows && !InRange(range, k + rows[k]) :: rows[k]
  }

  /** One effect: what a caller asked for, or (of the first two kinds) one write to a native store. */
  datatype Op =
    | Put(key: Row, values: Row)
    | Remove(key: Row)
    | Replace(contents: Rows)
    | UpdateWhere(range: Range, updates: Updates)
    | RemoveWhere(range: Range)

  predicate OnKey(op: Op) { op.Put? || op.Remove? }

  /** An effect on a range concerns every key, as any row may move into the range. */
  predicate OpTouches(op: Op, k: Row) { OnKey(op) ==> op.key == k }

  function Do(rows: Rows, op: Op): Rows {
    match op
    case Put(k, v) => rows[k := v]
    case Remove(k) => rows - {k}
    case Replace(contents) => contents
    case UpdateWhere(range, updates) => UpdatedIn(rows, range, updates)
    case RemoveWhere(range) => RemovedIn(rows, range)
  }

  /** What writing one key makes of a delta: an insert clears the delete marker of its key,
      and a delete clears the inserted row and leaves a marker. */
  function Edit(d: Layer, op: Op): Layer
    requires OnKey(op)
  {
    match op
    case Put(k, v) => Layer(d.inserts[k := v], d.deletes - {k})
    case Remove(k) => Layer(d.inserts - {k}, d.deletes[k := []])
  }

  lemma EditDoes(rows: Rows, d: Layer, op: Op)
    requires OnKey(op)
    ensures View(rows, Edit(d, op)) == Do(View(rows, d), op)
    ensures Disjoint(d) ==> Disjoint(Edit(d, op))
  {
    hide UpdatedIn, RemovedIn;
    match op
    case Put(k, v) => PutDoes(rows, d, k, v);
    case Remove(k) => RemoveDoes(rows, d, k);
  }

  lemma PutDoes(rows: Rows, d: Layer, k: Row, v: Row)
    ensures View(rows, Edit(d, Put(k, v))) == View(rows, d)[k := v]
    ensures Disjoint(d) ==> Disjoint(Edit(d, Put(k, v)))
  {
  }

  lemma RemoveDoes(rows: Rows, d: Layer, k: Row)
    ensures View(rows, Edit(d, Remove(k))) == View(rows, d) - {k}
    ensures Disjoint(d) ==> Disjoint(Edit(d, Remove(k)))
  {
  }

  /** Serial replay of a log. */
  function Replay(rows: Rows, log: seq<Op>): Rows {
    if log == [] then rows else Do(Replay(rows, log[..|log| - 1]), log[|log| - 1])
  }

  ghost predicate LogTouches(log: seq<Op>, k: Row) { exists op :: op in log && OpTouches(op, k) }

  lemma {:induction false} ReplayConcat(rows: Rows, first: seq<Op>, second: seq<Op>)
    ensures Replay(rows, first + second) == Replay(Replay(rows, first), second)
  {
    if second == [] {
      assert first + second == first;
    } else {
      var all := first + second;
      assert all[..|all| - 1] == first + second[..|second| - 1];
      ReplayConcat(rows, first, second[..|second| - 1]);
    }
  }

  /** What a log leaves at a key depends on nothing but what was at that key. */
  lemma {:induction false} ReplayIsKeywise(a: Rows, b: Rows, log: seq<Op>, k: Row)
    requires Get(a, k) == Get(b, k)
    ensures Get(Replay(a, log), k) == Get(Replay(b, log), k)
  {
    if log != [] { ReplayIsKeywise(a, b, log[..|log| - 1], k); }
  }

  lemma {:induction false} ReplayUntouched(rows: Rows, log: seq<Op>, k: Row)
    requires !LogTouches(log, k)
    ensures Get(Replay(rows, log), k) == Get(rows, k)
  {
    if log != [] {
      assert log[|log| - 1] in log;
      assert forall op | op in log[..|log| - 1] :: op in log;
      ReplayUntouched(rows, log[..|log| - 1], k);
    }
  }

  /** The writes `apply_to` makes to a native store, in order: a stream of upserts by
      key, then a stream of deletes by key. */
  function Plan(d: Layer): seq<Op> { Puts(Scan(d.inserts)) + Removes(Scan(d.deletes)) }

  /** The unbounded stream of a store in key order. */
  function Scan(rows: Rows): seq<Entry> {
    KeysSeparate(NATURAL, rows, map[]);
    Listing(NATURAL, Entries(rows, map[]))
  }

  function KeysOf(s: seq<Entry>): set<Row> { set e | e in s :: e.key }

  function Puts(s: seq<Entry>): seq<Op> { seq(|s|, i requires 0 <= i < |s| => Put(s[i].key, s[i].values)) }

  function Removes(s: seq<Entry>): seq<Op> { seq(|s|, i requires 0 <= i < |s| => Remove(s[i].key)) }

  function Plans(ds: seq<Layer>): seq<seq<Op>> { seq(|ds|, i requires 0 <= i < |ds| => Plan(ds[i])) }

  function Flatten(plans: seq<seq<Op>>): seq<Op> {
    if plans == [] then [] else Flatten(plans[..|plans| - 1]) + plans[|plans| - 1]
  }

  function PlanStack(ds: seq<Layer>): seq<Op> { Flatten(Plans(ds)) }

  lemma PlanOfTop(ds: seq<Layer>)
    requires ds != []
    ensures PlanStack(ds) == PlanStack(ds[..|ds| - 1]) + Plan(ds[|ds| - 1])
  {
    assert Plans(ds)[..|ds| - 1] == Plans(ds[..|ds| - 1]);
  }

  /** A stream of a store's rows, each key once. */
  ghost predicate Lists(s: seq<Entry>, rows: Rows) {
    && (forall e :: e in s <==> e.key in rows && rows[e.key] == e.values)
    && forall i, j | 0 <= i < j < |s| :: s[i].key != s[j].key
  }

  lemma ListsNothing(store: Rows)
    requires Lists([], store)
    ensures store == map[]
  {
    var none: seq<Entry> := [];
    assert forall k | k in store :: Entry(k, store[k]) in none;
  }

  lemma ListsFront(s: seq<Entry>, store: Rows)
    requires s != [] && Lists(s, store)
    ensures var n, last := |s| - 1, s[|s| - 1];
      && Lists(s[..n], store - {last.key}) && last.key in store && store[last.key] == last.values
  {
    var n, last := |s| - 1, s[|s| - 1];
    assert s == s[..n] + [last] && last in s;
    forall e ensures e in s[..n] <==> e.key in store - {last.key} && store[e.key] == e.values {
      if e in s[..n] { assert e in s; }
      if e in s && e.key != last.key { assert e in s[..n]; }
    }
  }

  lemma {:induction false} ReplayPuts(rows: Rows, s: seq<Entry>, store: Rows)
    requires Lists(s, store)
    ensures Replay(rows, Puts(s)) == rows + store
  {
    hide UpdatedIn, RemovedIn;
    if s == [] {
      ListsNothing(store);
    } else {
      var n, last := |s| - 1, s[|s| - 1];
      ListsFront(s, store);
      hide Lists;
      assert Puts(s)[..n] == Puts(s[..n]);
      ReplayPuts(rows, s[..n], store - {last.key});
      assert rows + store == (rows + (store - {last.key}))[last.key := last.values];
    }
  }

  lemma {:induction false} ReplayRemoves(rows: Rows, s: seq<Entry>)
    ensures Replay(rows, Removes(s)) == rows - KeysOf(s)
  {
    hide UpdatedIn, RemovedIn;
    if s == [] {
      assert rows - KeysOf(s) == rows;
    } else {
      var n := |s| - 1;
      assert s == s[..n] + [s[n]];
      assert Removes(s)[..n] == Removes(s[..n]);
      ReplayRemoves(rows, s[..n]);
      assert KeysOf(s) == KeysOf(s[..n]) + {s[n].key};
    }
  }

  lemma ScanLists(rows: Rows)
    ensures Lists(Scan(rows), rows)
    ensures KeysOf(Scan(rows)) == rows.Keys
  {
    KeysSeparate(NATURAL, rows, map[]);
    ListingIsStream(NATURAL, Entries(rows, map[]));
    var s := Scan(rows);
    forall i, j | 0 <= i < j < |s| ensures s[i].key != s[j].key {
      assert Before(NATURAL, s[i], s[j]);
      LessIsTotal(s[i].key, s[j].key);
    }
    forall k | k in rows ensures k in KeysOf(s) { assert Entry(k, rows[k]) in s; }
  }

  /** Executing the plan of a delta materializes it. */
  lemma PlanMaterializes(rows: Rows, d: Layer)
    ensures Replay(rows, Plan(d)) == Materialize(rows, d)
  {
    ScanLists(d.inserts);
    ScanLists(d.deletes);
    ReplayConcat(rows, Puts(Scan(d.inserts)), Removes(Scan(d.deletes)));
    ReplayPuts(rows, Scan(d.inserts), d.inserts);
    ReplayRemoves(rows + d.inserts, Scan(d.deletes));
  }

  lemma {:induction false} PlanStackMaterializes(rows: Rows, ds: seq<Layer>)
    ensures Replay(rows, PlanStack(ds)) == MaterializeStack(rows, ds)
  {
    if ds != [] {
      PlanOfTop(ds);
      PlanStackMaterializes(rows, ds[..|ds| - 1]);
      ReplayConcat(rows, PlanStack(ds[..|ds| - 1]), Plan(ds[|ds| - 1]));
      PlanMaterializes(MaterializeStack(rows, ds[..|ds| - 1]), ds[|ds| - 1]);
    }
  }

  /** A plan writes only to keys its deltas touch. */
  ghost predicate PlanWithin(plan: seq<Op>, ds: seq<Layer>) {
    forall op | op in plan :: OnKey(op) && StackTouches(ds, op.key)
  }

  lemma PlanTouches(d: Layer, op: Op)
    requires op in Plan(d)
    ensures OnKey(op) && Touches(d, op.key)
  {
    hide Scan, KeysOf;
    ScanLists(d.inserts);
    ScanLists(d.deletes);
    var ins, del := Scan(d.inserts), Scan(d.deletes);
    if op in Puts(ins) {
      var i :| 0 <= i < |ins| && op == Put(ins[i].key, ins[i].values);
      assert ins[i] in ins;
    } else {
      var i :| 0 <= i < |del| && op == Remove(del[i].key);
      assert del[i] in del;
    }
  }

  lemma {:induction false} PlanStackTouches(ds: seq<Layer>)
    ensures PlanWithin(PlanStack(ds), ds)
  {
    if ds != [] {
      PlanOfTop(ds);
      PlanStackTouches(ds[..|ds| - 1]);
      forall op | op in PlanStack(ds) ensures OnKey(op) && StackTouches(ds, op.key) {
        if op in PlanStack(ds[..|ds| - 1]) {
          var d :| d in ds[..|ds| - 1] && Touches(d, op.key);
          assert d in ds;
        } else {
          PlanTouches(ds[|ds| - 1], op);
          assert ds[|ds| - 1] in ds;
        }
      }
    }
  }
}
