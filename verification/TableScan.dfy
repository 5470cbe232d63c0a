/** Scans of a transactional Table, and when a scan agrees with point lookups. */
module TableScan {
  import opened Optional
  import opened Collation
  import opened Streams
  import opened Layers
  import opened Versions
  import opened Persistence

  /** A stream lists a store: strictly in order, and exactly its rows. */
  ghost predicate Enumerates(c: Collator, s: seq<Entry>, rows: Rows) {
    Sorted(c, s) && forall e :: e in s <==> e.key in rows && rows[e.key] == e.values
  }

  /** On these rows the collator's columns tell keys apart, and depend on the key alone. */
  ghost predicate KeyedOn(c: Collator, es: set<Entry>) {
    forall a, b | a in es && b in es :: Rank(c, a) == Rank(c, b) <==> a.key == b.key
  }

  function Filter(rows: Rows, range: Range): Rows { map k | k in rows && InRange(range, k + rows[k]) :: rows[k] }

  /** What a scan makes of one delta: every stream is filtered by the range on its own. */
  function ScanLayer(rows: Rows, d: Layer, range: Range): Rows {
    (rows + Filter(d.inserts, range)) - Filter(d.deletes, range).Keys
  }

  function ScanStack(rows: Rows, ds: seq<Layer>, range: Range): Rows {
    if ds == [] then Filter(rows, range) else ScanLayer(ScanStack(rows, ds[..|ds| - 1], range), ds[|ds| - 1], range)
  }

  function All(rows: Rows): set<Entry> { Entries(rows, map[]) }

  /** Every row in the stores of a snapshot. */
  function Universe(rows: Rows, ds: seq<Layer>): set<Entry> {
    if ds == [] then All(rows)
    else Universe(rows, ds[..|ds| - 1]) + All(ds[|ds| - 1].inserts) + All(ds[|ds| - 1].deletes)
  }

  lemma {:induction false} UniverseGrows(rows: Rows, ds: seq<Layer>, i: nat)
    requires i <= |ds|
    ensures Universe(rows, ds[..i]) <= Universe(rows, ds)
  {
    if i < |ds| {
      UniverseGrows(rows, ds[..|ds| - 1], i);
      assert ds[..|ds| - 1][..i] == ds[..i];
    } else {
      assert ds[..i] == ds;
    }
  }

  lemma {:induction false} ScanWithin(rows: Rows, ds: seq<Layer>, range: Range)
    ensures All(ScanStack(rows, ds, range)) <= Universe(rows, ds)
  {
    if ds != [] { ScanWithin(rows, ds[..|ds| - 1], range); }
  }

  /** Within a range no two rows of one store collate equally, so its stream is strictly ordered. */
  ghost predicate StoresSeparated(c: Collator, rows: Rows, ds: seq<Layer>, range: Range) {
    Separated(c, Entries(rows, range)) && forall d | d in ds :: LayerSeparated(c, d, range)
  }

  ghost predicate LayerSeparated(c: Collator, d: Layer, range: Range) {
    Separated(c, Entries(d.inserts, range)) && Separated(c, Entries(d.deletes, range))
  }

  lemma {:induction false} KeyedIsSeparated(c: Collator, rows: Rows, ds: seq<Layer>, range: Range)
    requires KeyedOn(c, Universe(rows, ds))
    ensures StoresSeparated(c, rows, ds, range)
  {
    if ds != [] {
      var front := ds[..|ds| - 1];
      assert Universe(rows, front) <= Universe(rows, ds);
      KeyedIsSeparated(c, rows, front, range);
      assert LayerSeparated(c, ds[|ds| - 1], range);
      forall d | d in ds ensures LayerSeparated(c, d, range) { assert d in front || d == ds[|ds| - 1]; }
    }
  }

  /** The rows of one store within a range, in native order. */
  function RowStream(c: Collator, rows: Rows, range: Range): seq<Entry> {
    NativeSeparates(c, rows, range);
    Listing(Native(c), Entries(rows, range))
  }

  lemma RowStreamLists(c: Collator, rows: Rows, range: Range)
    ensures WeaklySorted(c, RowStream(c, rows, range))
    ensures forall e :: e in RowStream(c, rows, range) <==> e in Entries(rows, range)
    ensures Separated(c, Entries(rows, range)) ==> Sorted(c, RowStream(c, rows, range))
  {
    NativeSeparates(c, rows, range);
    ListingIsStream(Native(c), Entries(rows, range));
    NativeIsWeak(c, RowStream(c, rows, range));
    if Separated(c, Entries(rows, range)) { NativeIsStrict(c, RowStream(c, rows, range), Entries(rows, range)); }
  }

  lemma RowStreamEnumerates(c: Collator, rows: Rows, range: Range)
    requires Separated(c, Entries(rows, range))
    ensures Enumerates(c, RowStream(c, rows, range), Filter(rows, range))
  {
    RowStreamLists(c, rows, range);
  }

  lemma CollidesByKey(c: Collator, s: seq<Entry>, rows: Rows, e: Entry, es: set<Entry>)
    requires Enumerates(c, s, rows) && KeyedOn(c, es) && All(rows) <= es && e in es
    ensures Collides(c, s, e) <==> e.key in rows
  {
    if e.key in rows {
      var x := Entry(e.key, rows[e.key]);
      assert x in s && x in All(rows);
    }
    if x :| x in s && Rank(c, x) == Rank(c, e) { assert x in All(rows); }
  }

  /** `Delta::merge_into`: inserts over rows, then minus deletes. */
  function MergeInto(c: Collator, rows: seq<Entry>, d: Layer, range: Range): seq<Entry> {
    var merged := Merge(c, RowStream(c, d.inserts, range), rows);
    Diff(c, merged, RowStream(c, d.deletes, range))
  }

  /** Some row of a set collates equally with `e`. */
  ghost predicate Clashes(c: Collator, es: set<Entry>, e: Entry) { exists x :: x in es && Rank(c, x) == Rank(c, e) }

  /** What merging a delta into an ordered stream yields, whatever the order. */
  lemma MergeIntoYields(c: Collator, s: seq<Entry>, d: Layer, range: Range)
    requires Sorted(c, s) && LayerSeparated(c, d, range)
    ensures Sorted(c, MergeInto(c, s, d, range))
    ensures forall e :: e in MergeInto(c, s, d, range) <==>
              && !Clashes(c, Entries(d.deletes, range), e)
              && (e in Entries(d.inserts, range) || (e in s && !Clashes(c, Entries(d.inserts, range), e)))
  {
    RowStreamLists(c, d.inserts, range);
    RowStreamLists(c, d.deletes, range);
    var inserted, deleted := RowStream(c, d.inserts, range), RowStream(c, d.deletes, range);
    MergeIsUnion(c, inserted, s);
    DiffIsDifference(c, Merge(c, inserted, s), deleted);
    forall e ensures Collides(c, inserted, e) <==> Clashes(c, Entries(d.inserts, range), e) {}
    forall e ensures Collides(c, deleted, e) <==> Clashes(c, Entries(d.deletes, range), e) {}
  }

  lemma MergeIntoEnumerates(c: Collator, s: seq<Entry>, rows: Rows, d: Layer, range: Range, es: set<Entry>)
    requires Enumerates(c, s, rows) && KeyedOn(c, es) && LayerSeparated(c, d, range)
    requires All(rows) <= es && All(d.inserts) <= es && All(d.deletes) <= es
    ensures Enumerates(c, MergeInto(c, s, d, range), ScanLayer(rows, d, range))
  {
    var ins, del := Filter(d.inserts, range), Filter(d.deletes, range);
    var inserted, deleted := RowStream(c, d.inserts, range), RowStream(c, d.deletes, range);
    RowStreamEnumerates(c, d.inserts, range);
    RowStreamEnumerates(c, d.deletes, range);
    assert All(ins) <= es && All(del) <= es;
    var merged := Merge(c, inserted, s);
    MergeIsUnion(c, inserted, s);
    DiffIsDifference(c, merged, deleted);
    forall e ensures e in merged <==> e.key in rows + ins && (rows + ins)[e.key] == e.values {
      if e in s {
        assert e in All(rows);
        CollidesByKey(c, inserted, ins, e, es);
      }
    }
    forall e | e in merged ensures Collides(c, deleted, e) <==> e.key in del {
      assert e in All(rows) || e in All(ins);
      CollidesByKey(c, deleted, del, e, es);
    }
  }

  /** The stream of a scan: the canonical rows, and every delta merged in. */
  function FoldStack(c: Collator, rows: Rows, ds: seq<Layer>, range: Range): seq<Entry> {
    if ds == [] then RowStream(c, rows, range)
    else MergeInto(c, FoldStack(c, rows, ds[..|ds| - 1], range), ds[|ds| - 1], range)
  }

  /** A Table scan, for any range and any order.  If no store holds two rows of one rank, it is
      strictly ordered and lists exactly the rows that nothing overrides by rank. */
  method ScanRows(snapshot: Handles, ghost layers: seq<Layer>, range: Range, c: Collator) returns (visible: seq<Entry>)
    requires |layers| == |snapshot.deltas|
    requires forall i | 0 <= i < |layers| :: snapshot.deltas[i].Contents() == layers[i]
    ensures visible == FoldStack(c, snapshot.persistent.rows, layers, range)
    ensures StoresSeparated(c, snapshot.persistent.rows, layers, range) ==>
      Sorted(c, visible) && forall e :: e in visible <==> Kept(c, snapshot.persistent.rows, layers, e, range)
    ensures !c.byKey ==> InOrder(c.order, c.reverse, visible)
    ensures !c.byKey && StoresSeparated(c, snapshot.persistent.rows, layers, range) ==>
      StrictlyInOrder(c.order, c.reverse, visible)
  {
    hide RowStream, MergeInto, Kept, StoresSeparated, Sorted, InOrder, StrictlyInOrder;
    ghost var base := snapshot.persistent.rows;
    visible := RowStream(c, snapshot.persistent.rows, range);
    var i := 0;
    while i < |snapshot.deltas|
      invariant 0 <= i <= |layers|
      invariant visible == FoldStack(c, base, layers[..i], range)
    {
      assert layers[..i + 1][..i] == layers[..i];
      visible := MergeInto(c, visible, Layer(snapshot.deltas[i].inserts.rows, snapshot.deltas[i].deletes.rows), range);
      i := i + 1;
    }
    assert layers[..i] == layers;
    if StoresSeparated(c, base, layers, range) { FoldKeeps(c, base, layers, range); }
    if !c.byKey { ScanIsOrdered(c, base, layers, range); }
  }

  /** Of two rows the later one never belongs strictly before the earlier one: by key if no columns are
      named, or else by the first of the named columns in which they differ, and in reverse the other
      way round. */
  ghost predicate InOrder(order: seq<nat>, reverse: bool, s: seq<Entry>) {
    forall i, j | 0 <= i < j < |s| ::
      if order == [] then (if reverse then Less(s[j].key, s[i].key) else Less(s[i].key, s[j].key))
      else (if reverse then !CellsBefore(order, s[i], s[j]) else !CellsBefore(order, s[j], s[i]))
  }

  /** As `InOrder`, and no two rows agree in all the named columns. */
  ghost predicate StrictlyInOrder(order: seq<nat>, reverse: bool, s: seq<Entry>) {
    forall i, j | 0 <= i < j < |s| ::
      if order == [] then (if reverse then Less(s[j].key, s[i].key) else Less(s[i].key, s[j].key))
      else (if reverse then CellsBefore(order, s[j], s[i]) else CellsBefore(order, s[i], s[j]))
  }

  /** A scan is in the order of its named columns, in either direction; strictly when no store holds two
      rows of one rank, and in key order always. */
  lemma ScanIsOrdered(c: Collator, rows: Rows, ds: seq<Layer>, range: Range)
    requires !c.byKey
    ensures InOrder(c.order, c.reverse, FoldStack(c, rows, ds, range))
    ensures StoresSeparated(c, rows, ds, range) ==> StrictlyInOrder(c.order, c.reverse, FoldStack(c, rows, ds, range))
  {
    hide FoldStack, Kept, Before, CellsBefore;
    var s := FoldStack(c, rows, ds, range);
    FoldByRank(c, rows, ds, range, []);
    if c.order == [] { KeysSeparated(c, rows, ds, range); }
    if StoresSeparated(c, rows, ds, range) { FoldKeeps(c, rows, ds, range); }
    forall i, j | 0 <= i < j < |s|
      ensures Before(c, s[i], s[j]) ==>
        if c.order == [] then (if c.reverse then Less(s[j].key, s[i].key) else Less(s[i].key, s[j].key))
        else (if c.reverse then CellsBefore(c.order, s[j], s[i]) else CellsBefore(c.order, s[i], s[j]))
      ensures c.order != [] ==>
        if c.reverse then !CellsBefore(c.order, s[i], s[j]) else !CellsBefore(c.order, s[j], s[i])
    {
      CollatorSays(c, s[i], s[j]);
      CollatorSays(c, s[j], s[i]);
    }
  }

  lemma KeysSeparated(c: Collator, rows: Rows, ds: seq<Layer>, range: Range)
    requires c.order == []
    ensures StoresSeparated(c, rows, ds, range)
  {
    NaturalIsKeyed(c, Universe(rows, ds));
    KeyedIsSeparated(c, rows, ds, range);
  }

  /** A scan in reverse is the scan in the same order, read backwards. */
  lemma ReverseScanIsBackwards(order: seq<nat>, rows: Rows, ds: seq<Layer>, range: Range)
    requires StoresSeparated(Collator(order, false), rows, ds, range)
    ensures var s := FoldStack(Collator(order, false), rows, ds, range);
      var t := FoldStack(Collator(order, true), rows, ds, range);
      |t| == |s| && forall i | 0 <= i < |s| :: t[i] == s[|s| - 1 - i]
  {
    var c, r := Collator(order, false), Collator(order, true);
    SameRanks(order, rows, ds, range);
    hide FoldStack, StoresSeparated, Kept, Before;
    FoldKeeps(c, rows, ds, range);
    FoldKeeps(r, rows, ds, range);
    ReverseIsBackwards(order, FoldStack(c, rows, ds, range), FoldStack(r, rows, ds, range));
  }

  /** Ranks, and so what a scan keeps by rank, do not depend on the direction. */
  lemma SameRanks(order: seq<nat>, rows: Rows, ds: seq<Layer>, range: Range)
    ensures StoresSeparated(Collator(order, false), rows, ds, range)
       <==> StoresSeparated(Collator(order, true), rows, ds, range)
    ensures forall e ::
      Kept(Collator(order, false), rows, ds, e, range) <==> Kept(Collator(order, true), rows, ds, e, range)
  {
    var c, r := Collator(order, false), Collator(order, true);
    forall e ensures Rank(c, e) == Rank(r, e) {}
    forall es, e ensures Clashes(c, es, e) <==> Clashes(r, es, e) {}
    forall e ensures Kept(c, rows, ds, e, range) <==> Kept(r, rows, ds, e, range) {
      forall i | 0 <= i <= |ds|
        ensures OverriddenByRank(c, ds, i, e, range) <==> OverriddenByRank(r, ds, i, e, range)
      {
        forall j | 0 <= j < |ds| ensures RankedBy(c, ds[j], e, range) <==> RankedBy(r, ds[j], e, range) {}
      }
    }
  }

  // ---------------------------------------------------------------- ties

  /** What a scan yields of one rank, when rows of one store may share it: each delta puts its
      inserts in front, in place of as many rows, and its markers take as many off the front. */
  function FoldRank(c: Collator, rows: Rows, ds: seq<Layer>, range: Range, rank: Row): seq<Entry> {
    if ds == [] then RankClass(c, RowStream(c, rows, range), rank)
    else
      var front, d := ds[..|ds| - 1], ds[|ds| - 1];
      var inserted := RankClass(c, RowStream(c, d.inserts, range), rank);
      var deleted := RankClass(c, RowStream(c, d.deletes, range), rank);
      Beyond(Paired(inserted, FoldRank(c, rows, front, range, rank)), |deleted|)
  }

  /** A scan in any order is ordered, with ties, and yields of each rank what that rank alone says. */
  lemma {:induction false} FoldByRank(c: Collator, rows: Rows, ds: seq<Layer>, range: Range, rank: Row)
    ensures WeaklySorted(c, FoldStack(c, rows, ds, range))
    ensures RankClass(c, FoldStack(c, rows, ds, range), rank) == FoldRank(c, rows, ds, range, rank)
  {
    hide RowStream, Merge, Diff, RankClass, Paired, Beyond, WeaklySorted;
    if ds == [] {
      RowStreamLists(c, rows, range);
    } else {
      var front, d := ds[..|ds| - 1], ds[|ds| - 1];
      var s := FoldStack(c, rows, front, range);
      var inserted, deleted := RowStream(c, d.inserts, range), RowStream(c, d.deletes, range);
      FoldByRank(c, rows, front, range, rank);
      RowStreamLists(c, d.inserts, range);
      RowStreamLists(c, d.deletes, range);
      MergeIsWeak(c, inserted, s);
      MergeByRank(c, inserted, s, rank);
      DiffIsWeak(c, Merge(c, inserted, s), deleted);
      DiffByRank(c, Merge(c, inserted, s), deleted, rank);
    }
  }

  /** A stream lists each row of a store once, and nothing else. */
  ghost predicate ListsOnce(s: seq<Entry>, rows: Rows) {
    forall e :: multiset(s)[e] == if e.key in rows && rows[e.key] == e.values then 1 else 0
  }

  /** A scan over any range in any order, with or without ties, lists each visible row in the range
      once if and only if each rank does. */
  lemma TiedScanIsExactIff(c: Collator, rows: Rows, ds: seq<Layer>, range: Range)
    requires AllDisjoint(ds)
    ensures ListsOnce(FoldStack(c, rows, ds, range), Filter(ViewStack(rows, ds), range))
       <==> forall e ::
              multiset(FoldRank(c, rows, ds, range, Rank(c, e)))[e] == if Current(rows, ds, e, range) then 1 else 0
  {
    hide ViewStack, Current, FoldStack, FoldRank, Rank;
    var s, shown := FoldStack(c, rows, ds, range), Filter(ViewStack(rows, ds), range);
    forall e
      ensures Current(rows, ds, e, range) <==> e.key in shown && shown[e.key] == e.values
      ensures multiset(s)[e] == multiset(FoldRank(c, rows, ds, range, Rank(c, e)))[e]
    {
      CurrentIsVisible(rows, ds, e, range);
      ClassCounts(c, s, e);
      FoldByRank(c, rows, ds, range, Rank(c, e));
    }
  }

  // ---------------------------------------------------------------- any order

  /** The canonical rows (level 0) or a delta's inserts (level i + 1) offer this row in the range. */
  ghost predicate OffersEntry(rows: Rows, ds: seq<Layer>, i: int, e: Entry, range: Range) {
    0 <= i <= |ds| && e in Entries(if i == 0 then rows else ds[i - 1].inserts, range)
  }

  ghost predicate RankedBy(c: Collator, d: Layer, e: Entry, range: Range) {
    Clashes(c, Entries(d.inserts, range), e) || Clashes(c, Entries(d.deletes, range), e)
  }

  /** A row that a level offers is overridden by rank: by a marker of its own delta, or by any row
      of a later one. */
  ghost predicate OverriddenByRank(c: Collator, ds: seq<Layer>, i: int, e: Entry, range: Range)
    requires 0 <= i <= |ds|
  {
    || (0 < i && Clashes(c, Entries(ds[i - 1].deletes, range), e))
    || exists j :: i <= j < |ds| && RankedBy(c, ds[j], e, range)
  }

  /** Some level offers the row, and nothing overrides it by rank. */
  ghost predicate Kept(c: Collator, rows: Rows, ds: seq<Layer>, e: Entry, range: Range) {
    exists i :: OffersEntry(rows, ds, i, e, range) && !OverriddenByRank(c, ds, i, e, range)
  }

  /** Some level offers the row, and no later delta touches its key. */
  ghost predicate Current(rows: Rows, ds: seq<Layer>, e: Entry, range: Range) {
    exists i :: OffersEntry(rows, ds, i, e, range) && UntouchedFrom(ds, i, e.key)
  }

  ghost predicate UntouchedFrom(ds: seq<Layer>, i: int, k: Row) {
    0 <= i && forall j | i <= j < |ds| :: !Touches(ds[j], k)
  }

  lemma OverriddenUnderTop(c: Collator, ds: seq<Layer>, i: int, e: Entry, range: Range)
    requires ds != [] && 0 <= i < |ds|
    ensures OverriddenByRank(c, ds, i, e, range)
       <==> OverriddenByRank(c, ds[..|ds| - 1], i, e, range) || RankedBy(c, ds[|ds| - 1], e, range)
  {
    hide Clashes, RankedBy, Entries;
    var front := ds[..|ds| - 1];
    assert forall j | 0 <= j < |front| :: front[j] == ds[j];
    if j :| i <= j < |ds| && RankedBy(c, ds[j], e, range) && j < |front| { assert RankedBy(c, front[j], e, range); }
    if j :| i <= j < |front| && RankedBy(c, front[j], e, range) { assert RankedBy(c, ds[j], e, range); }
  }

  lemma OffersUnderTop(rows: Rows, ds: seq<Layer>, i: int, e: Entry, range: Range)
    requires ds != [] && i < |ds|
    ensures OffersEntry(rows, ds, i, e, range) <==> OffersEntry(rows, ds[..|ds| - 1], i, e, range)
  {
  }

  lemma KeptUnderTop(c: Collator, rows: Rows, ds: seq<Layer>, e: Entry, range: Range)
    requires ds != []
    ensures var front, d := ds[..|ds| - 1], ds[|ds| - 1];
      Kept(c, rows, ds, e, range) <==>
        || (e in Entries(d.inserts, range) && !Clashes(c, Entries(d.deletes, range), e))
        || (Kept(c, rows, front, e, range) && !RankedBy(c, d, e, range))
  {
    hide Clashes, RankedBy, Entries;
    var n := |ds|;
    var front, d := ds[..n - 1], ds[n - 1];
    assert OffersEntry(rows, ds, n, e, range) <==> e in Entries(d.inserts, range);
    assert OverriddenByRank(c, ds, n, e, range) <==> Clashes(c, Entries(d.deletes, range), e);
    forall i | 0 <= i < n
      ensures OffersEntry(rows, ds, i, e, range) <==> OffersEntry(rows, front, i, e, range)
      ensures OverriddenByRank(c, ds, i, e, range)
         <==> OverriddenByRank(c, front, i, e, range) || RankedBy(c, d, e, range)
    {
      OffersUnderTop(rows, ds, i, e, range);
      OverriddenUnderTop(c, ds, i, e, range);
    }
    KeptLevels(c, rows, ds, e, range);
  }

  lemma KeptLevels(c: Collator, rows: Rows, ds: seq<Layer>, e: Entry, range: Range)
    requires ds != []
    requires var front, d := ds[..|ds| - 1], ds[|ds| - 1]; forall i | 0 <= i < |ds| ::
      && (OffersEntry(rows, ds, i, e, range) <==> OffersEntry(rows, front, i, e, range))
      && (OverriddenByRank(c, ds, i, e, range) <==> OverriddenByRank(c, front, i, e, range) || RankedBy(c, d, e, range))
    ensures Kept(c, rows, ds, e, range) <==>
      || (OffersEntry(rows, ds, |ds|, e, range) && !OverriddenByRank(c, ds, |ds|, e, range))
      || (Kept(c, rows, ds[..|ds| - 1], e, range) && !RankedBy(c, ds[|ds| - 1], e, range))
  {
    hide OffersEntry, OverriddenByRank, RankedBy;
    var front, d := ds[..|ds| - 1], ds[|ds| - 1];
    assert forall i | OffersEntry(rows, ds, i, e, range) :: 0 <= i <= |ds| by { LevelsInside(rows, ds, e, range); }
    assert forall i | OffersEntry(rows, front, i, e, range) :: 0 <= i <= |front| by {
      LevelsInside(rows, front, e, range);
    }
    if Kept(c, rows, front, e, range) && !RankedBy(c, d, e, range) {
      var i :| OffersEntry(rows, front, i, e, range) && !OverriddenByRank(c, front, i, e, range);
      assert OffersEntry(rows, ds, i, e, range) && !OverriddenByRank(c, ds, i, e, range);
    }
    if i :| OffersEntry(rows, ds, i, e, range) && !OverriddenByRank(c, ds, i, e, range) && i < |ds| {
      assert OffersEntry(rows, front, i, e, range) && !OverriddenByRank(c, front, i, e, range);
    }
  }

  lemma LevelsInside(rows: Rows, ds: seq<Layer>, e: Entry, range: Range)
    ensures forall i | OffersEntry(rows, ds, i, e, range) :: 0 <= i <= |ds|
  {
  }

  /** A scan in any order is strictly ordered and lists exactly the rows kept by rank. */
  lemma {:induction false} FoldKeeps(c: Collator, rows: Rows, ds: seq<Layer>, range: Range)
    requires StoresSeparated(c, rows, ds, range)
    ensures Sorted(c, FoldStack(c, rows, ds, range))
    ensures forall e :: e in FoldStack(c, rows, ds, range) <==> Kept(c, rows, ds, e, range)
  {
    if ds == [] {
      RowStreamLists(c, rows, range);
      forall e ensures Kept(c, rows, ds, e, range) <==> e in Entries(rows, range) {
        if e in Entries(rows, range) {
          assert OffersEntry(rows, ds, 0, e, range) && !OverriddenByRank(c, ds, 0, e, range);
        }
      }
    } else {
      var front, d := ds[..|ds| - 1], ds[|ds| - 1];
      assert d in ds && forall x | x in front :: x in ds;
      FoldKeeps(c, rows, front, range);
      MergeIntoYields(c, FoldStack(c, rows, front, range), d, range);
      forall e ensures e in FoldStack(c, rows, ds, range) <==> Kept(c, rows, ds, e, range) {
        KeptUnderTop(c, rows, ds, e, range);
      }
    }
  }

  lemma UntouchedUnderTop(ds: seq<Layer>, i: int, k: Row)
    requires ds != [] && i < |ds|
    ensures UntouchedFrom(ds, i, k) <==> UntouchedFrom(ds[..|ds| - 1], i, k) && !Touches(ds[|ds| - 1], k)
  {
    var front := ds[..|ds| - 1];
    if UntouchedFrom(ds, i, k) {
      forall j | i <= j < |front| ensures !Touches(front[j], k) { assert front[j] == ds[j]; }
    }
    if UntouchedFrom(front, i, k) && !Touches(ds[|ds| - 1], k) {
      forall j | i <= j < |ds| ensures !Touches(ds[j], k) { if j < |front| { assert !Touches(front[j], k); } }
    }
  }

  lemma TopOffer(rows: Rows, ds: seq<Layer>, e: Entry, range: Range)
    requires ds != []
    ensures OffersEntry(rows, ds, |ds|, e, range) <==> e in Entries(ds[|ds| - 1].inserts, range)
    ensures UntouchedFrom(ds, |ds|, e.key)
  {
  }

  lemma CurrentUnderTop(rows: Rows, ds: seq<Layer>, e: Entry, range: Range)
    requires ds != []
    ensures var front, d := ds[..|ds| - 1], ds[|ds| - 1];
      Current(rows, ds, e, range) <==>
        e in Entries(d.inserts, range) || (Current(rows, front, e, range) && !Touches(d, e.key))
  {
    var front, d := ds[..|ds| - 1], ds[|ds| - 1];
    TopOffer(rows, ds, e, range);
    LevelsInside(rows, ds, e, range);
    LevelsInside(rows, front, e, range);
    hide Touches, OffersEntry, UntouchedFrom, Entries;
    if i :| OffersEntry(rows, ds, i, e, range) && UntouchedFrom(ds, i, e.key) && i < |ds| {
      OffersUnderTop(rows, ds, i, e, range);
      UntouchedUnderTop(ds, i, e.key);
      assert OffersEntry(rows, front, i, e, range) && UntouchedFrom(front, i, e.key);
    }
    if i :| OffersEntry(rows, front, i, e, range) && UntouchedFrom(front, i, e.key) && !Touches(d, e.key) {
      OffersUnderTop(rows, ds, i, e, range);
      UntouchedUnderTop(ds, i, e.key);
      assert OffersEntry(rows, ds, i, e, range) && UntouchedFrom(ds, i, e.key);
    }
  }

  /** The rows visible in a range are the current ones. */
  lemma {:induction false} CurrentIsVisible(rows: Rows, ds: seq<Layer>, e: Entry, range: Range)
    requires AllDisjoint(ds)
    ensures Current(rows, ds, e, range) <==> e in Entries(ViewStack(rows, ds), range)
  {
    if ds == [] {
      assert OffersEntry(rows, ds, 0, e, range) ==> Current(rows, ds, e, range);
    } else {
      assert ds[|ds| - 1] in ds && AllDisjoint(ds[..|ds| - 1]);
      CurrentIsVisible(rows, ds[..|ds| - 1], e, range);
      CurrentUnderTop(rows, ds, e, range);
    }
  }

  /** For every row that a level offers: something overrides it by rank exactly when a later delta
      touches its key. */
  ghost predicate OverridesByKey(c: Collator, rows: Rows, ds: seq<Layer>, range: Range) {
    forall i, e | OffersEntry(rows, ds, i, e, range) ::
      OverriddenByRank(c, ds, i, e, range) <==> !UntouchedFrom(ds, i, e.key)
  }

  /** A later level that offers the same row overrides it by rank. */
  lemma LaterOfferOverrides(c: Collator, rows: Rows, ds: seq<Layer>, i: int, j: int, e: Entry, range: Range)
    requires 0 <= i < j && OffersEntry(rows, ds, j, e, range)
    ensures i <= |ds| && OverriddenByRank(c, ds, i, e, range) && !UntouchedFrom(ds, i, e.key)
  {
    assert RankedBy(c, ds[j - 1], e, range) && Touches(ds[j - 1], e.key);
  }

  lemma OverridesDecide(c: Collator, rows: Rows, ds: seq<Layer>, range: Range, i: int, e: Entry)
    requires OffersEntry(rows, ds, i, e, range)
    requires Kept(c, rows, ds, e, range) <==> Current(rows, ds, e, range)
    ensures OverriddenByRank(c, ds, i, e, range) <==> !UntouchedFrom(ds, i, e.key)
  {
    LevelsInside(rows, ds, e, range);
    hide OffersEntry, OverriddenByRank, UntouchedFrom;
    if OverriddenByRank(c, ds, i, e, range) && UntouchedFrom(ds, i, e.key) {
      var j :| OffersEntry(rows, ds, j, e, range) && !OverriddenByRank(c, ds, j, e, range);
      if j < i { LaterOfferOverrides(c, rows, ds, j, i, e, range); }
      if i < j { LaterOfferOverrides(c, rows, ds, i, j, e, range); }
      assert false;
    }
    if !OverriddenByRank(c, ds, i, e, range) && !UntouchedFrom(ds, i, e.key) {
      var j :| OffersEntry(rows, ds, j, e, range) && UntouchedFrom(ds, j, e.key);
      if j < i { LaterOfferOverrides(c, rows, ds, j, i, e, range); }
      if i < j { LaterOfferOverrides(c, rows, ds, i, j, e, range); }
      assert false;
    }
  }

  /** Over any range and in any order in which no store holds two rows of one rank, a scan shows
      exactly the visible rows in the range if and only if it overrides offered rows by rank exactly
      where they are overridden by key. */
  lemma OrderedScanIsExactIff(c: Collator, rows: Rows, ds: seq<Layer>, range: Range)
    requires StoresSeparated(c, rows, ds, range) && AllDisjoint(ds)
    ensures Enumerates(c, FoldStack(c, rows, ds, range), Filter(ViewStack(rows, ds), range))
       <==> OverridesByKey(c, rows, ds, range)
  {
    KeptIsCurrentIff(c, rows, ds, range);
    hide ViewStack, FoldStack, OffersEntry, OverriddenByRank, UntouchedFrom, Enumerates;
    if forall e :: Kept(c, rows, ds, e, range) <==> Current(rows, ds, e, range) {
      forall i, e | OffersEntry(rows, ds, i, e, range)
        ensures OverriddenByRank(c, ds, i, e, range) <==> !UntouchedFrom(ds, i, e.key)
      {
        OverridesDecide(c, rows, ds, range, i, e);
      }
    }
  }

  lemma KeptIsCurrentIff(c: Collator, rows: Rows, ds: seq<Layer>, range: Range)
    requires StoresSeparated(c, rows, ds, range) && AllDisjoint(ds)
    ensures Enumerates(c, FoldStack(c, rows, ds, range), Filter(ViewStack(rows, ds), range))
       <==> forall e :: Kept(c, rows, ds, e, range) <==> Current(rows, ds, e, range)
  {
    hide ViewStack, Kept, Current, FoldStack;
    var s, shown := FoldStack(c, rows, ds, range), Filter(ViewStack(rows, ds), range);
    FoldKeeps(c, rows, ds, range);
    forall e ensures Current(rows, ds, e, range) <==> e.key in shown && shown[e.key] == e.values {
      CurrentIsVisible(rows, ds, e, range);
    }
  }

  /** An order that tells keys apart keeps by rank what it keeps by key. */
  lemma {:induction false} FoldEnumerates(c: Collator, rows: Rows, ds: seq<Layer>, range: Range)
    requires KeyedOn(c, Universe(rows, ds)) && StoresSeparated(c, rows, ds, range)
    ensures Enumerates(c, FoldStack(c, rows, ds, range), ScanStack(rows, ds, range))
  {
    if ds == [] {
      RowStreamEnumerates(c, rows, range);
    } else {
      var front := ds[..|ds| - 1];
      assert Universe(rows, front) <= Universe(rows, ds);
      assert ds[|ds| - 1] in ds && forall d | d in front :: d in ds;
      FoldEnumerates(c, rows, front, range);
      ScanWithin(rows, front, range);
      MergeIntoEnumerates(c, FoldStack(c, rows, front, range), ScanStack(rows, front, range), ds[|ds| - 1], range,
        Universe(rows, ds));
    }
  }

  /** The rows kept by rank, in order, are the fold of the filtered stores by key. */
  lemma KeyedScanEnumerates(c: Collator, s: seq<Entry>, rows: Rows, ds: seq<Layer>, range: Range)
    requires KeyedOn(c, Universe(rows, ds))
    requires Sorted(c, s) && forall e :: e in s <==> Kept(c, rows, ds, e, range)
    ensures Enumerates(c, s, ScanStack(rows, ds, range))
  {
    KeyedIsSeparated(c, rows, ds, range);
    FoldKeeps(c, rows, ds, range);
    FoldEnumerates(c, rows, ds, range);
  }

  const BY_VALUE := Collator([1], false)

  lemma SingleStream(rows: Rows, k: Row, v: Row)
    requires rows == map[k := v]
    ensures Separated(BY_VALUE, Entries(rows, map[])) && RowStream(BY_VALUE, rows, map[]) == [Entry(k, v)]
  {
    assert Entries(rows, map[]) == {Entry(k, v)};
    RowStreamEnumerates(BY_VALUE, rows, map[]);
    ListingIsUnique(BY_VALUE, RowStream(BY_VALUE, rows, map[]), [Entry(k, v)]);
  }

  lemma EmptyStream()
    ensures Separated(BY_VALUE, Entries(map[], map[])) && RowStream(BY_VALUE, map[], map[]) == []
  {
    RowStreamEnumerates(BY_VALUE, map[], map[]);
    ListingIsUnique(BY_VALUE, RowStream(BY_VALUE, map[], map[]), []);
  }

  lemma FoldOne(rows: Rows, d: Layer)
    ensures FoldStack(BY_VALUE, rows, [d], map[]) == MergeInto(BY_VALUE, RowStream(BY_VALUE, rows, map[]), d, map[])
    ensures ViewStack(rows, [d]) == View(rows, d)
  {
    assert [d][..0] == [] && d in [d];
  }

  /** Of two visible rows that share the ordered column and lie in different stores, a scan in that
      order yields one. */
  lemma SharedOrderDropsRows()
    ensures var rows: Rows, d := map[[1] := [5]], Layer(map[[2] := [5]], map[]);
      && StoresSeparated(BY_VALUE, rows, [d], map[])
      && FoldStack(BY_VALUE, rows, [d], map[]) == [Entry([2], [5])]
      && [1] in ViewStack(rows, [d]) && [2] in ViewStack(rows, [d])
  {
    var rows: Rows, d := map[[1] := [5]], Layer(map[[2] := [5]], map[]);
    SingleStream(rows, [1], [5]);
    SingleStream(d.inserts, [2], [5]);
    EmptyStream();
    FoldOne(rows, d);
    assert [1] + [5] == [1, 5] && [2] + [5] == [2, 5];
    assert Rank(BY_VALUE, Entry([1], [5])) == [5] == Rank(BY_VALUE, Entry([2], [5]));
    BeforeIsTotal(BY_VALUE, Entry([1], [5]), Entry([2], [5]));
  }

  /** A row whose ordered column has changed is shown twice, as it was and as it is. */
  lemma ChangedOrderShowsReplacedRow()
    ensures var rows: Rows, d := map[[1] := [5]], Layer(map[[1] := [9]], map[]);
      && StoresSeparated(BY_VALUE, rows, [d], map[])
      && FoldStack(BY_VALUE, rows, [d], map[]) == [Entry([1], [5]), Entry([1], [9])]
      && ViewStack(rows, [d]) == map[[1] := [9]]
  {
    var rows: Rows, d := map[[1] := [5]], Layer(map[[1] := [9]], map[]);
    SingleStream(rows, [1], [5]);
    SingleStream(d.inserts, [1], [9]);
    EmptyStream();
    FoldOne(rows, d);
    assert [1] + [5] == [1, 5] && [1] + [9] == [1, 9];
    assert Rank(BY_VALUE, Entry([1], [5])) == [5] && Rank(BY_VALUE, Entry([1], [9])) == [9];
    assert Before(BY_VALUE, Entry([1], [5]), Entry([1], [9])) && !Before(BY_VALUE, Entry([1], [9]), Entry([1], [5]));
  }

  /** The marker of a deleted row removes another row that shares the ordered column. */
  lemma SharedOrderMarkerDropsRow()
    ensures var rows: Rows, d := map[[1] := [5]], Layer(map[], map[[2] := [5]]);
      && StoresSeparated(BY_VALUE, rows, [d], map[])
      && FoldStack(BY_VALUE, rows, [d], map[]) == []
      && [1] in ViewStack(rows, [d])
  {
    var rows: Rows, d := map[[1] := [5]], Layer(map[], map[[2] := [5]]);
    SingleStream(rows, [1], [5]);
    SingleStream(d.deletes, [2], [5]);
    EmptyStream();
    FoldOne(rows, d);
    assert [1] + [5] == [1, 5] && [2] + [5] == [2, 5];
    assert Rank(BY_VALUE, Entry([1], [5])) == [5] == Rank(BY_VALUE, Entry([2], [5]));
    BeforeIsTotal(BY_VALUE, Entry([1], [5]), Entry([2], [5]));
  }

  /** Natural order always separates rows by key. */
  lemma NaturalIsKeyed(c: Collator, es: set<Entry>)
    requires c.order == []
    ensures KeyedOn(c, es)
  {
  }

  /** A point lookup: each delta's delete hides, then its insert shows. */
  method ResolveRow(snapshot: Handles, ghost layers: seq<Layer>, key: Row) returns (row: Option<Row>)
    requires |layers| == |snapshot.deltas|
    requires forall i | 0 <= i < |layers| :: snapshot.deltas[i].Contents() == layers[i]
    ensures row == Get(Read(Snapshot(snapshot.persistent.rows, layers)), key)
  {
    row := Get(snapshot.persistent.rows, key);
    var i := 0;
    while i < |snapshot.deltas|
      invariant 0 <= i <= |layers|
      invariant row == Get(ViewStack(snapshot.persistent.rows, layers[..i]), key)
    {
      assert layers[..i + 1][..i] == layers[..i];
      if key in snapshot.deltas[i].deletes.rows { row := None; }
      var inserted := Get(snapshot.deltas[i].inserts.rows, key);
      if inserted.Some? { row := inserted; }
      i := i + 1;
    }
    assert layers[..i] == layers;
  }

  // ---------------------------------------------------------------- when scans agree with lookups

  /** The row a delta stores under a key, to add or to remove. */
  function Stored(d: Layer, k: Row): Row
    requires Touches(d, k)
  {
    if k in d.inserts then d.inserts[k] else d.deletes[k]
  }

  /** The delta touches the key, with a row that is in the range or is not. */
  predicate TouchesIn(d: Layer, k: Row, range: Range) { Touches(d, k) && InRange(range, k + Stored(d, k)) }

  predicate TouchesOut(d: Layer, k: Row, range: Range) { Touches(d, k) && !InRange(range, k + Stored(d, k)) }

  /** The canonical rows (level 0) or a delta's inserts (level i + 1) offer a row in the range. */
  predicate Offers(rows: Rows, ds: seq<Layer>, i: int, k: Row, range: Range)
    requires 0 <= i <= |ds|
  {
    if i == 0 then k in rows && InRange(range, k + rows[k])
    else k in ds[i - 1].inserts && InRange(range, k + ds[i - 1].inserts[k])
  }

  /** The row a level offers is not overridden by any later row within the range. */
  ghost predicate OffersLast(rows: Rows, ds: seq<Layer>, i: int, k: Row, range: Range) {
    0 <= i <= |ds| && Offers(rows, ds, i, k, range) && forall j | i <= j < |ds| :: !TouchesIn(ds[j], k, range)
  }

  ghost predicate LaterOut(ds: seq<Layer>, i: int, k: Row, range: Range) {
    exists j :: 0 <= j < |ds| && i <= j && TouchesOut(ds[j], k, range)
  }

  /** A key is stale in a range when some level offers a row in the range, and the later deltas
      that touch the key do so, at least one of them, only with rows outside the range. */
  ghost predicate Stale(rows: Rows, ds: seq<Layer>, k: Row, range: Range) {
    exists i :: OffersLast(rows, ds, i, k, range) && LaterOut(ds, i, k, range)
  }

  ghost predicate Offered(rows: Rows, ds: seq<Layer>, k: Row, range: Range) {
    exists i :: OffersLast(rows, ds, i, k, range)
  }

  /** Below the top delta, an offer stands unless the top delta overrides it. */
  lemma OfferUnderTop(rows: Rows, ds: seq<Layer>, i: int, k: Row, range: Range)
    requires ds != [] && 0 <= i < |ds|
    ensures OffersLast(rows, ds, i, k, range)
       <==> OffersLast(rows, ds[..|ds| - 1], i, k, range) && !TouchesIn(ds[|ds| - 1], k, range)
    ensures LaterOut(ds, i, k, range) <==> LaterOut(ds[..|ds| - 1], i, k, range) || TouchesOut(ds[|ds| - 1], k, range)
  {
    LaterOutUnderTop(ds, i, k, range);
    hide TouchesIn, TouchesOut, InRange, LaterOut;
    var front := ds[..|ds| - 1];
    assert Offers(rows, ds, i, k, range) <==> Offers(rows, front, i, k, range);
    if OffersLast(rows, ds, i, k, range) {
      forall j | i <= j < |front| ensures !TouchesIn(front[j], k, range) { assert front[j] == ds[j]; }
    }
    if OffersLast(rows, front, i, k, range) && !TouchesIn(ds[|ds| - 1], k, range) {
      forall j | i <= j < |ds| ensures !TouchesIn(ds[j], k, range) { if j < |front| { assert front[j] == ds[j]; } }
    }
  }

  lemma LaterOutUnderTop(ds: seq<Layer>, i: int, k: Row, range: Range)
    requires ds != [] && 0 <= i < |ds|
    ensures LaterOut(ds, i, k, range) <==> LaterOut(ds[..|ds| - 1], i, k, range) || TouchesOut(ds[|ds| - 1], k, range)
  {
    hide TouchesOut;
    var front, d := ds[..|ds| - 1], ds[|ds| - 1];
    if LaterOut(front, i, k, range) {
      var j :| 0 <= j < |front| && i <= j && TouchesOut(front[j], k, range);
      assert TouchesOut(ds[j], k, range);
    }
    if LaterOut(ds, i, k, range) && !TouchesOut(d, k, range) {
      var j :| 0 <= j < |ds| && i <= j && TouchesOut(ds[j], k, range);
      assert TouchesOut(front[j], k, range);
    }
  }

  lemma OfferOfTop(rows: Rows, ds: seq<Layer>, k: Row, range: Range)
    requires ds != []
    ensures var d := ds[|ds| - 1];
      OffersLast(rows, ds, |ds|, k, range) <==> k in d.inserts && InRange(range, k + d.inserts[k])
    ensures !LaterOut(ds, |ds|, k, range)
  {
  }

  lemma OfferedUnderTop(rows: Rows, ds: seq<Layer>, k: Row, range: Range)
    requires ds != []
    ensures var front, d := ds[..|ds| - 1], ds[|ds| - 1];
      Offered(rows, ds, k, range) <==>
        || (k in d.inserts && InRange(range, k + d.inserts[k]))
        || (Offered(rows, front, k, range) && !TouchesIn(d, k, range))
  {
    var front, d := ds[..|ds| - 1], ds[|ds| - 1];
    OfferOfTop(rows, ds, k, range);
    if i :| OffersLast(rows, ds, i, k, range) && i < |ds| { OfferUnderTop(rows, ds, i, k, range); }
    if i :| OffersLast(rows, front, i, k, range) { OfferUnderTop(rows, ds, i, k, range); }
  }

  lemma StaleUnderTop(rows: Rows, ds: seq<Layer>, k: Row, range: Range)
    requires ds != []
    ensures var front, d := ds[..|ds| - 1], ds[|ds| - 1];
      Stale(rows, ds, k, range) <==>
        !TouchesIn(d, k, range)
        && (Stale(rows, front, k, range) || (TouchesOut(d, k, range) && Offered(rows, front, k, range)))
  {
    var front, d := ds[..|ds| - 1], ds[|ds| - 1];
    OfferOfTop(rows, ds, k, range);
    if i :| OffersLast(rows, ds, i, k, range) && LaterOut(ds, i, k, range) { OfferUnderTop(rows, ds, i, k, range); }
    if i :| OffersLast(rows, front, i, k, range) && LaterOut(front, i, k, range) {
      OfferUnderTop(rows, ds, i, k, range);
    }
    if i :| OffersLast(rows, front, i, k, range) { OfferUnderTop(rows, ds, i, k, range); }
  }

  lemma {:induction false} ScannedIsOffered(rows: Rows, ds: seq<Layer>, k: Row, range: Range)
    requires AllDisjoint(ds)
    ensures k in ScanStack(rows, ds, range) <==> Offered(rows, ds, k, range)
  {
    if ds == [] {
      assert Offers(rows, ds, 0, k, range) ==> OffersLast(rows, ds, 0, k, range);
    } else {
      assert ds[|ds| - 1] in ds && AllDisjoint(ds[..|ds| - 1]);
      ScannedIsOffered(rows, ds[..|ds| - 1], k, range);
      OfferedUnderTop(rows, ds, k, range);
    }
  }

  /** Key by key, a scan agrees with the lookups in the range exactly when the key is not stale. */
  lemma {:induction false} ScanAgreesAt(rows: Rows, ds: seq<Layer>, k: Row, range: Range)
    requires AllDisjoint(ds)
    ensures Get(ScanStack(rows, ds, range), k) == Get(Filter(ViewStack(rows, ds), range), k)
       <==> !Stale(rows, ds, k, range)
  {
    hide ScanLayer, View, Filter, TouchesIn, TouchesOut;
    if ds == [] {
      NothingStale(rows, k, range);
    } else {
      var front, d := ds[..|ds| - 1], ds[|ds| - 1];
      assert d in ds && AllDisjoint(front);
      ScanAgreesAt(rows, front, k, range);
      ScannedIsOffered(rows, front, k, range);
      StaleUnderTop(rows, ds, k, range);
      TopAgrees(ScanStack(rows, front, range), ViewStack(rows, front), d, k, range,
        Offered(rows, front, k, range), Stale(rows, front, k, range));
    }
  }

  /** One more delta, given whether the scan below offers the key and whether the key is stale in it. */
  lemma TopAgrees(scan: Rows, view: Rows, d: Layer, k: Row, range: Range, offered: bool, stale: bool)
    requires Disjoint(d) && (k in scan <==> offered) && (stale ==> offered)
    requires Get(scan, k) == Get(Filter(view, range), k) <==> !stale
    ensures Get(ScanLayer(scan, d, range), k) == Get(Filter(View(view, d), range), k)
       <==> TouchesIn(d, k, range) || !(stale || (TouchesOut(d, k, range) && offered))
  {
  }

  lemma NothingStale(rows: Rows, k: Row, range: Range)
    ensures !Stale(rows, [], k, range)
  {
  }

  /** A scan over any range shows exactly the visible rows in the range if and only if no key
      is stale in it. */
  lemma ScanIsExactIffNoneStale(rows: Rows, ds: seq<Layer>, range: Range)
    requires AllDisjoint(ds)
    ensures ScanStack(rows, ds, range) == Filter(ViewStack(rows, ds), range)
       <==> forall k :: !Stale(rows, ds, k, range)
  {
    forall k ensures Get(ScanStack(rows, ds, range), k) == Get(Filter(ViewStack(rows, ds), range), k)
                <==> !Stale(rows, ds, k, range) { ScanAgreesAt(rows, ds, k, range); }
    if forall k :: !Stale(rows, ds, k, range) {
      SameRows(ScanStack(rows, ds, range), Filter(ViewStack(rows, ds), range));
    }
  }

  lemma {:induction false} ScannedInRange(rows: Rows, ds: seq<Layer>, k: Row, range: Range)
    requires k in ScanStack(rows, ds, range)
    ensures InRange(range, k + ScanStack(rows, ds, range)[k])
  {
    if ds != [] {
      if k !in Filter(ds[|ds| - 1].inserts, range) { ScannedInRange(rows, ds[..|ds| - 1], k, range); }
    }
  }

  /** A stale key is scanned although its visible row, if it has one, is outside the range. */
  lemma {:induction false} StaleIsOutside(rows: Rows, ds: seq<Layer>, k: Row, range: Range)
    requires AllDisjoint(ds) && Stale(rows, ds, k, range)
    ensures k in ScanStack(rows, ds, range) && k !in Filter(ViewStack(rows, ds), range)
  {
    ScannedIsOffered(rows, ds, k, range);
    if ds != [] {
      var front, d := ds[..|ds| - 1], ds[|ds| - 1];
      assert d in ds && AllDisjoint(front);
      StaleUnderTop(rows, ds, k, range);
      if !Touches(d, k) { StaleIsOutside(rows, front, k, range); }
    }
  }

  /** All keys of a snapshot have the schema's number of key columns. */
  ghost predicate KeyLength(rows: Rows, n: nat) { forall k | k in rows :: |k| == n }

  ghost predicate KeyLengths(rows: Rows, ds: seq<Layer>, n: nat) {
    KeyLength(rows, n) && forall d | d in ds :: KeyLength(d.inserts, n) && KeyLength(d.deletes, n)
  }

  /** Over key columns no key is ever stale, so a scan agrees with the lookups. */
  lemma KeyRangeScanIsExact(rows: Rows, ds: seq<Layer>, range: Range, n: nat)
    requires AllDisjoint(ds) && KeyRange(range, n) && KeyLengths(rows, ds, n)
    ensures ScanStack(rows, ds, range) == Filter(ViewStack(rows, ds), range)
  {
    forall k ensures !Stale(rows, ds, k, range) {
      if i :| OffersLast(rows, ds, i, k, range) && LaterOut(ds, i, k, range) {
        var j :| 0 <= j < |ds| && i <= j && TouchesOut(ds[j], k, range);
        OfferedKeyLength(rows, ds, i, k, range, n);
        var offered := if i == 0 then rows[k] else ds[i - 1].inserts[k];
        KeyRangeByKey(range, n, k, offered, Stored(ds[j], k));
        assert false;
      }
    }
    ScanIsExactIffNoneStale(rows, ds, range);
  }

  lemma OfferedKeyLength(rows: Rows, ds: seq<Layer>, i: int, k: Row, range: Range, n: nat)
    requires KeyLengths(rows, ds, n) && 0 <= i <= |ds| && Offers(rows, ds, i, k, range)
    ensures |k| == n
  {
    if i > 0 { assert ds[i - 1] in ds; }
  }

  lemma KeyRangeByKey(range: Range, n: nat, k: Row, v: Row, w: Row)
    requires KeyRange(range, n) && |k| == n
    ensures InRange(range, k + v) <==> InRange(range, k + w)
  {
    assert forall c | c in range :: (k + v)[c] == k[c] && (k + w)[c] == k[c];
  }

  /** A range over a value column can be stale: the base row is filtered before it is shadowed. */
  lemma ValueRangeCanBeStale()
    ensures var rows: Rows, d, range: Range := map[[1] := [5]], Layer(map[[1] := [9]], map[]), map[1 := Eq(5)];
      && Disjoint(d) && ScanStack(rows, [d], range) != Filter(ViewStack(rows, [d]), range)
      && [1] in ScanStack(rows, [d], range) && [1] !in Filter(ViewStack(rows, [d]), range)
  {
    var rows: Rows, d, range: Range := map[[1] := [5]], Layer(map[[1] := [9]], map[]), map[1 := Eq(5)];
    assert [d][..0] == [];
    assert [1] in ViewStack(rows, []) && ViewStack(rows, [d]) == View(ViewStack(rows, []), d);
    assert InRange(range, [1] + rows[[1]]);
    assert [1] in Filter(rows, range);
    assert ScanStack(rows, [d], range) == ScanLayer(ScanStack(rows, [], range), d, range);
    assert ([1] + [9])[1] == 9 && !InRange(range, [1] + [9]);
  }
}
