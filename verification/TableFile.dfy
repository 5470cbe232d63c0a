/** The transactional Table: row writes, range updates, and restoration. */
module TableFile {
  import opened Optional
  import opened Collation
  import opened Streams
  import opened Layers
  import opened Versions
  import opened Persistence
  import opened Lifecycle
  import opened Serial
  import opened Restore
  import opened TableScan
  import opened WellFormed

  /** The number of key columns and of value columns of a Table. */
  datatype Shape = Shape(key: nat, values: nat)

  datatype Reply = Ok | Failed(error: Error) | Invalid | AlreadyExists

  function ReplyOf(r: Outcome): Reply { if r == Done then Ok else Failed(r.error) }

  /** A transaction that may not write is told why: a finalize has covered it, or it has been committed. */
  lemma ReplySays(s: State, t: TxnId)
    ensures ReplyOf(AssertWritable(s, t)) == Ok <==> Writable(s, t)
    ensures ReplyOf(AssertWritable(s, t)) == Failed(Outdated) <==> s.finalized.Some? && t <= s.finalized.value
    ensures ReplyOf(AssertWritable(s, t)) == Failed(Committed) <==>
              t in s.committed && (s.finalized.None? || s.finalized.value < t)
  {
  }

  // ---------------------------------------------------------------- single rows

  /** Deleting a row of a delta: nothing if it is already marked; otherwise the inserted row goes,
      and a marker is left only if the key resolves to a row, with that row's values. */
  function DeleteLayer(d: Layer, visible: Rows, k: Row): Layer {
    if k in d.deletes then d
    else Dropped(d, k, if k in d.inserts then Some(d.inserts[k]) else Get(visible, k))
  }

  function Dropped(d: Layer, k: Row, row: Option<Row>): Layer {
    Layer(d.inserts - {k}, if row.Some? then d.deletes[k := row.value] else d.deletes)
  }

  function Upserted(s: State, t: TxnId, k: Row, v: Row): State {
    if AssertWritable(s, t) != Done then s else WithPending(s, t, Edit(PendingAt(s, t), Put(k, v)))
  }

  function Deleted(s: State, t: TxnId, k: Row): State {
    if AssertWritable(s, t) != Done then s else WithPending(s, t, DeleteLayer(PendingAt(s, t), VisibleAt(s, t), k))
  }

  /** An upsert puts the row into what its transaction sees, and changes nothing else; refused, it
      changes nothing. */
  lemma UpsertedShows(s: State, t: TxnId, k: Row, v: Row)
    ensures var s' := Upserted(s, t, k, v);
      if !Writable(s, t) then s' == s
      else OnlyPendingOf(s, s', t) && VisibleAt(s', t) == VisibleAt(s, t)[k := v]
  {
    hide View, VisibleAt, CommittedRows, Edit, OnlyPendingOf;
    if Writable(s, t) {
      EditDoes(CommittedRows(s, t), PendingAt(s, t), Put(k, v));
      PendingShows(s, t, Edit(PendingAt(s, t), Put(k, v)));
    }
  }

  /** A delete takes the key out of what its transaction sees, and changes nothing else.  It marks the
      key if and only if the transaction saw a row under it, and the marker holds that row. */
  lemma DeletedShows(s: State, t: TxnId, k: Row)
    requires Disjoint(PendingAt(s, t))
    ensures var s' := Deleted(s, t, k);
      if !Writable(s, t) then s' == s
      else
        var was, now, rows := PendingAt(s, t), PendingAt(s', t), VisibleAt(s, t);
        && OnlyPendingOf(s, s', t) && VisibleAt(s', t) == rows - {k}
        && now.inserts == was.inserts - {k}
        && now.deletes == if k in rows then was.deletes[k := rows[k]] else was.deletes
  {
    hide VisibleAt, CommittedRows, OnlyPendingOf;
    if Writable(s, t) {
      var d := DeleteLayer(PendingAt(s, t), VisibleAt(s, t), k);
      PendingShows(s, t, d);
      forall x ensures Get(View(CommittedRows(s, t), d), x) == Get(VisibleAt(s, t) - {k}, x) {}
      SameRows(View(CommittedRows(s, t), d), VisibleAt(s, t) - {k});
    }
  }

  method UpsertRow(owner: CollectionOwner, shape: Shape, txn: TxnId, key: Row, values: Row) returns (r: Reply)
    requires owner.Valid()
    modifies owner, StoresOf(owner.pending)
    ensures owner.Valid()
    ensures r == if |key| != shape.key || |values| != shape.values then Invalid
                 else ReplyOf(AssertWritable(old(owner.value), txn))
    ensures owner.value == if r == Invalid then old(owner.value) else Upserted(old(owner.value), txn, key, values)
    ensures r == Ok <==> |key| == shape.key && |values| == shape.values && Writable(old(owner.value), txn)
    ensures if r != Ok then owner.value == old(owner.value)
            else && OnlyPendingOf(old(owner.value), owner.value, txn)
                 && VisibleAt(owner.value, txn) == VisibleAt(old(owner.value), txn)[key := values]
  {
    UpsertedShows(owner.value, txn, key, values);
    hide VisibleAt, OnlyPendingOf;
    if |key| != shape.key || |values| != shape.values { return Invalid; }
    var outcome, delta := owner.PendingDelta(txn);
    if outcome != Done { return Failed(outcome.error); }
    ghost var was := PendingAt(old(owner.value), txn);
    WithPendingTwice(old(owner.value), txn, was, Edit(was, Put(key, values)));
    owner.PutPending(txn, key, values);
    r := Ok;
  }

  /** The row of a key as the transaction sees it. */
  method ReadRow(owner: CollectionOwner, txn: TxnId, key: Row) returns (row: Option<Row>)
    requires owner.Valid()
    ensures row == Get(VisibleAt(owner.value, txn), key)
  {
    var snapshot;
    ghost var layers;
    snapshot, layers := owner.VisibleSnapshot(txn);
    row := ResolveRow(snapshot, layers, key);
  }

  /** Inserts a row unless its key is already visible. */
  method InsertRow(owner: CollectionOwner, shape: Shape, txn: TxnId, key: Row, values: Row) returns (r: Reply)
    requires owner.Valid()
    modifies owner, StoresOf(owner.pending)
    ensures owner.Valid()
    ensures r == if |key| != shape.key || |values| != shape.values then Invalid
                 else if key in VisibleAt(old(owner.value), txn) then AlreadyExists
                 else ReplyOf(AssertWritable(old(owner.value), txn))
    ensures owner.value == if r == Ok then Upserted(old(owner.value), txn, key, values) else old(owner.value)
    ensures r == Ok ==>
      && OnlyPendingOf(old(owner.value), owner.value, txn)
      && VisibleAt(owner.value, txn) == VisibleAt(old(owner.value), txn)[key := values]
  {
    hide VisibleAt, OnlyPendingOf;
    if |key| != shape.key || |values| != shape.values { return Invalid; }
    var row := ReadRow(owner, txn, key);
    if row.Some? { return AlreadyExists; }
    r := UpsertRow(owner, shape, txn, key, values);
  }

  method DeleteRow(owner: CollectionOwner, shape: Shape, txn: TxnId, key: Row) returns (r: Reply)
    requires owner.Valid()
    modifies owner, StoresOf(owner.pending)
    ensures owner.Valid()
    ensures r == if |key| != shape.key then Invalid else ReplyOf(AssertWritable(old(owner.value), txn))
    ensures owner.value == if r == Invalid then old(owner.value) else Deleted(old(owner.value), txn, key)
    ensures r == Ok <==> |key| == shape.key && Writable(old(owner.value), txn)
    ensures r != Ok ==> owner.value == old(owner.value)
    ensures r == Ok && Disjoint(PendingAt(old(owner.value), txn)) ==>
      && OnlyPendingOf(old(owner.value), owner.value, txn)
      && VisibleAt(owner.value, txn) == VisibleAt(old(owner.value), txn) - {key}
  {
    hide VisibleAt, OnlyPendingOf, Disjoint, Dropped, View;
    if Disjoint(PendingAt(owner.value, txn)) { DeletedShows(owner.value, txn, key); }
    hide VisibleAt, OnlyPendingOf, Disjoint;
    if |key| != shape.key { return Invalid; }
    var outcome, delta := owner.PendingDelta(txn);
    if outcome != Done { return Failed(outcome.error); }
    ghost var s, was := old(owner.value), PendingAt(old(owner.value), txn);
    PendingInPlace(s, txn);
    r := Ok;
    if key in delta.value.deletes.rows { return; }
    var row := Get(delta.value.inserts.rows, key);
    if row.None? { row := ReadRow(owner, txn, key); }
    WithPendingTwice(s, txn, was, DeleteLayer(was, VisibleAt(s, txn), key));
    DropAndMark(owner, txn, key, row);
  }

  method DropAndMark(owner: CollectionOwner, txn: TxnId, key: Row, row: Option<Row>)
    requires owner.Valid() && txn in owner.pending
    modifies owner`value, owner.pending[txn].inserts, owner.pending[txn].deletes
    ensures owner.Valid()
    ensures owner.value == WithPending(old(owner.value), txn, Dropped(old(owner.value).pending[txn], key, row))
  {
    ghost var s, was := owner.value, owner.value.pending[txn];
    WithPendingTwice(s, txn, Dropped(was, key, None), Dropped(was, key, row));
    owner.DropInserted(txn, key);
    if row.Some? { owner.MarkDeleted(txn, key, row.value); }
  }

  lemma UpsertIsFaithful(below: Rows, d: Layer, k: Row, v: Row)
    ensures FaithfulEdit(below, d, Edit(d, Put(k, v)), [Put(k, v)])
  {
    EditDoes(below, d, Put(k, v));
    OneOp(View(below, d), Put(k, v));
    assert OpTouches([Put(k, v)][0], k);
  }

  lemma OneOp(rows: Rows, op: Op)
    ensures Replay(rows, [op]) == Do(rows, op)
  {
    assert Replay(rows, [op]) == Do(Replay(rows, [op][..0]), op);
  }

  /** A delete is faithful over the rows it could see, with or without a marker. */
  lemma DeleteIsFaithful(below: Rows, d: Layer, k: Row)
    requires Disjoint(d)
    ensures FaithfulEdit(below, d, DeleteLayer(d, View(below, d), k), [Remove(k)])
  {
    OneOp(View(below, d), Remove(k));
    assert OpTouches([Remove(k)][0], k);
    forall x ensures Get(View(below, DeleteLayer(d, View(below, d), k)), x) == Get(View(below, d) - {k}, x) {}
    SameRows(View(below, DeleteLayer(d, View(below, d), k)), View(below, d) - {k});
  }

  // ---------------------------------------------------------------- ranges

  function UpdateRows(updates: Updates, rows: Rows): Rows { map k | k in rows :: Update(updates, rows[k]) }

  /** What updating, or deleting, scanned rows makes of a delta. */
  function UpdateLayer(d: Layer, scanned: Rows, updates: Updates): Layer {
    Layer(d.inserts + UpdateRows(updates, scanned), d.deletes - scanned.Keys)
  }

  function TruncateLayer(d: Layer, scanned: Rows): Layer { Layer(d.inserts - scanned.Keys, d.deletes + scanned) }

  /** What a transaction's scan of a range yields. */
  function Scanned(s: State, t: TxnId, range: Range): Rows {
    var snapshot := VisibleSnapshot(s, t); ScanStack(snapshot.persistent, snapshot.deltas, range)
  }

  function Updated(s: State, t: TxnId, range: Range, updates: Updates): State {
    if AssertWritable(s, t) != Done then s
    else WithPending(s, t, UpdateLayer(PendingAt(s, t), Scanned(s, t, range), updates))
  }

  function Truncated(s: State, t: TxnId, range: Range): State {
    if AssertWritable(s, t) != Done then s
    else WithPending(s, t, TruncateLayer(PendingAt(s, t), Scanned(s, t, range)))
  }

  /** From one state of a table to the next every scanned row, and no other, has been put as it was
      scanned, but for the columns that are named. */
  ghost predicate ScannedSet(was: Rows, scanned: Rows, now: Rows, updates: Updates) {
    && (forall k :: k in now <==> k in was || k in scanned)
    && (forall k | k in was && k !in scanned :: now[k] == was[k])
    && (forall k | k in scanned :: RowSet(scanned[k], now[k], updates))
  }

  lemma ScannedRowsSet(was: Rows, scanned: Rows, updates: Updates)
    ensures ScannedSet(was, scanned, was + UpdateRows(updates, scanned), updates)
  {
    forall k | k in scanned ensures RowSet(scanned[k], Update(updates, scanned[k]), updates) {
      RowSetIff(scanned[k], Update(updates, scanned[k]), updates);
    }
    hide RowSet, Update;
  }

  /** No key is stale in a range, as the transaction reads it. */
  ghost predicate NoneStale(s: State, t: TxnId, range: Range) {
    && AllDisjoint(VisibleSnapshot(s, t).deltas)
    && forall k :: !Stale(s.persistent, VisibleSnapshot(s, t).deltas, k, range)
  }

  /** Every scanned row has been put with its named columns set, and nothing else has changed; if no key
      is stale in the range, exactly the visible rows in it have had their columns set. */
  ghost predicate UpdatesRange(s: State, s': State, t: TxnId, range: Range, updates: Updates) {
    && OnlyPendingOf(s, s', t)
    && ScannedSet(VisibleAt(s, t), Scanned(s, t, range), VisibleAt(s', t), updates)
    && (NoneStale(s, t, range) ==> ColumnsSet(VisibleAt(s, t), VisibleAt(s', t), range, updates))
  }

  lemma StaysDisjoint(d: Layer, scanned: Rows, updates: Updates)
    requires Disjoint(d)
    ensures Disjoint(UpdateLayer(d, scanned, updates)) && Disjoint(TruncateLayer(d, scanned))
  {
  }

  lemma UpdatedShows(s: State, t: TxnId, range: Range, updates: Updates)
    ensures if !Writable(s, t) then Updated(s, t, range, updates) == s
            else UpdatesRange(s, Updated(s, t, range, updates), t, range, updates)
  {
    hide VisibleAt, CommittedRows, OnlyPendingOf, ScannedSet, ColumnsSet, Stale, Scanned, UpdateRows;
    if Writable(s, t) {
      var scanned := Scanned(s, t, range);
      UpdateOnTop(s, t, range, updates);
      ScannedRowsSet(VisibleAt(s, t), scanned, updates);
      if Disjoint(PendingAt(s, t)) { StaysDisjoint(PendingAt(s, t), scanned, updates); }
      PendingShows(s, t, UpdateLayer(PendingAt(s, t), scanned, updates));
      if NoneStale(s, t, range) { UpdateIsExactIffNoneStale(s, t, range); }
    }
  }

  /** Every scanned key has gone from what the transaction sees and is marked with the scanned row, and
      nothing else has changed; if no key is stale in the range, exactly the visible rows in it have
      gone. */
  ghost predicate RemovesRange(s: State, s': State, t: TxnId, range: Range) {
    var was, now, scanned := PendingAt(s, t), PendingAt(s', t), Scanned(s, t, range);
    && OnlyPendingOf(s, s', t)
    && VisibleAt(s', t) == VisibleAt(s, t) - scanned.Keys
    && (forall k | k in scanned :: k !in now.inserts && k in now.deletes && now.deletes[k] == scanned[k])
    && (forall k | k !in scanned ::
          Get(now.inserts, k) == Get(was.inserts, k) && Get(now.deletes, k) == Get(was.deletes, k))
    && (NoneStale(s, t, range) ==> RangeGone(VisibleAt(s, t), VisibleAt(s', t), range))
  }

  lemma MarkedExactly(d: Layer, scanned: Rows)
    ensures var now := TruncateLayer(d, scanned);
      && (forall k | k in scanned :: k !in now.inserts && k in now.deletes && now.deletes[k] == scanned[k])
      && (forall k | k !in scanned ::
            Get(now.inserts, k) == Get(d.inserts, k) && Get(now.deletes, k) == Get(d.deletes, k))
  {
  }

  lemma TruncatedShows(s: State, t: TxnId, range: Range)
    ensures if !Writable(s, t) then Truncated(s, t, range) == s
            else RemovesRange(s, Truncated(s, t, range), t, range)
  {
    hide VisibleAt, CommittedRows, OnlyPendingOf, Scanned, Stale, RangeGone;
    if Writable(s, t) {
      TruncateOnTop(s, t, range);
      MarkedExactly(PendingAt(s, t), Scanned(s, t, range));
      if Disjoint(PendingAt(s, t)) { StaysDisjoint(PendingAt(s, t), Scanned(s, t, range), map[]); }
      hide TruncateLayer;
      PendingShows(s, t, TruncateLayer(PendingAt(s, t), Scanned(s, t, range)));
      if NoneStale(s, t, range) { TruncateIsExactIffNoneStale(s, t, range); }
    }
  }

  /** The rows of a range as the transaction sees them, in key order. */
  method VisibleRows(owner: CollectionOwner, txn: TxnId, range: Range) returns (rows: seq<Entry>)
    requires owner.Valid()
    ensures Enumerates(NATURAL, rows, Scanned(owner.value, txn, range))
  {
    var snapshot;
    ghost var layers;
    snapshot, layers := owner.VisibleSnapshot(txn);
    NaturalIsKeyed(NATURAL, Universe(snapshot.persistent.rows, layers));
    KeyedIsSeparated(NATURAL, snapshot.persistent.rows, layers, range);
    rows := ScanRows(snapshot, layers, range, NATURAL);
    KeyedScanEnumerates(NATURAL, rows, snapshot.persistent.rows, layers, range);
  }

  /** Readies the transaction's delta, and lists the rows of a range as it sees them. */
  method StartRange(owner: CollectionOwner, txn: TxnId, range: Range) returns (r: Outcome, rows: seq<Entry>)
    requires owner.Valid()
    modifies owner
    ensures owner.Valid() && r == AssertWritable(old(owner.value), txn)
    ensures r != Done ==> owner.value == old(owner.value) && owner.pending == old(owner.pending)
    ensures r == Done ==>
      && txn in owner.pending && Lists(rows, Scanned(old(owner.value), txn, range))
      && owner.value == WithPending(old(owner.value), txn, PendingAt(old(owner.value), txn))
      && (if txn in old(owner.pending) then owner.pending == old(owner.pending)
          else fresh(owner.pending[txn].inserts) && fresh(owner.pending[txn].deletes))
  {
    hide ScanStack, Enumerates, Lists, Scanned, AssertWritable, PendingAt, VisibleSnapshot, Sorted, VisibleAt;
    rows := [];
    var delta;
    r, delta := owner.PendingDelta(txn);
    if r != Done { return; }
    ScannedInPlace(old(owner.value), txn, range);
    rows := VisibleRows(owner, txn, range);
    EnumeratedIsListed(rows, Scanned(old(owner.value), txn, range));
  }

  /** Sets columns of every row in a range.  Key columns cannot be updated. */
  method UpdateRange(owner: CollectionOwner, shape: Shape, txn: TxnId, range: Range, updates: Updates)
    returns (r: Reply)
    requires owner.Valid()
    modifies owner, StoresOf(owner.pending)
    ensures owner.Valid()
    ensures r == if exists c :: c in updates && shape.values <= c then Invalid
                 else ReplyOf(AssertWritable(old(owner.value), txn))
    ensures owner.value == if r == Invalid then old(owner.value) else Updated(old(owner.value), txn, range, updates)
    ensures r == Ok <==> (forall c | c in updates :: c < shape.values) && Writable(old(owner.value), txn)
    ensures if r != Ok then owner.value == old(owner.value)
            else UpdatesRange(old(owner.value), owner.value, txn, range, updates)
  {
    UpdatedShows(owner.value, txn, range, updates);
    hide UpdatesRange;
    hide UpdateLayer, Edit, ScanStack, Enumerates, Lists, Scanned, AssertWritable, PendingAt;
    if exists c :: c in updates && shape.values <= c { return Invalid; }
    var outcome, rows := StartRange(owner, txn, range);
    if outcome != Done { return Failed(outcome.error); }
    ghost var s, scanned := old(owner.value), Scanned(old(owner.value), txn, range);
    WithPendingTwice(s, txn, PendingAt(s, txn), UpdateLayer(PendingAt(s, txn), scanned, updates));
    PutAll(owner, txn, rows, scanned, updates);
    r := Ok;
  }

  /** Deletes every row in a range. */
  method TruncateRange(owner: CollectionOwner, txn: TxnId, range: Range) returns (r: Reply)
    requires owner.Valid()
    modifies owner, StoresOf(owner.pending)
    ensures owner.Valid()
    ensures r == ReplyOf(AssertWritable(old(owner.value), txn))
    ensures owner.value == Truncated(old(owner.value), txn, range)
    ensures r == Ok <==> Writable(old(owner.value), txn)
    ensures if r != Ok then owner.value == old(owner.value)
            else RemovesRange(old(owner.value), owner.value, txn, range)
  {
    TruncatedShows(owner.value, txn, range);
    hide RemovesRange;
    hide TruncateLayer, ScanStack, Enumerates, Lists, Scanned, AssertWritable, PendingAt;
    var outcome, rows := StartRange(owner, txn, range);
    if outcome != Done { return Failed(outcome.error); }
    ghost var s, scanned := old(owner.value), Scanned(old(owner.value), txn, range);
    WithPendingTwice(s, txn, PendingAt(s, txn), TruncateLayer(PendingAt(s, txn), scanned));
    RemoveAll(owner, txn, rows, scanned);
    r := Ok;
  }

  /** Streams updated rows into the pending delta. */
  method PutAll(owner: CollectionOwner, txn: TxnId, rows: seq<Entry>, ghost scanned: Rows, updates: Updates)
    requires owner.Valid() && txn in owner.pending && Lists(rows, scanned)
    modifies owner`value, owner.pending[txn].inserts, owner.pending[txn].deletes
    ensures owner.Valid()
    ensures owner.value
         == WithPending(old(owner.value), txn, UpdateLayer(old(owner.value).pending[txn], scanned, updates))
  {
    hide UpdateLayer, Edit, UpdateRows, Update, Puts, Replay, Lists;
    ghost var s, was := owner.value, owner.value.pending[txn];
    PutsAll(rows, scanned);
    var i := 0;
    PutNone(s, txn);
    UpdateNone(was, updates);
    while i < |rows|
      invariant 0 <= i <= |rows| && owner.Valid()
      invariant owner.value == WithPending(s, txn, UpdateLayer(was, Replay(map[], Puts(rows)[..i]), updates))
    {
      PutsNext(rows, i);
      ghost var done := Replay(map[], Puts(rows)[..i]);
      UpdateNext(was, done, rows[i], updates);
      WithPendingTwice(s, txn, UpdateLayer(was, done, updates),
        UpdateLayer(was, done[rows[i].key := rows[i].values], updates));
      owner.PutPending(txn, rows[i].key, Update(updates, rows[i].values));
      i := i + 1;
    }
  }

  lemma PutNone(s: State, t: TxnId)
    requires t in s.pending
    ensures WithPending(s, t, s.pending[t]) == s
  {
  }

  lemma UpdateNone(d: Layer, updates: Updates)
    ensures UpdateLayer(d, map[], updates) == d
  {
    assert UpdateRows(updates, map[]) == map[];
  }

  lemma TruncateNone(d: Layer)
    ensures TruncateLayer(d, map[]) == d
  {
  }

  lemma ReplayAll(s: seq<Entry>, rows: Rows)
    requires Lists(s, rows)
    ensures Replay(map[], Puts(s)) == rows
  {
    ReplayPuts(map[], s, rows);
    var none: Rows := map[];
    assert none + rows == rows;
  }

  lemma PutsNext(s: seq<Entry>, i: nat)
    requires i < |s|
    ensures |Puts(s)| == |s|
    ensures Replay(map[], Puts(s)[..i + 1]) == Replay(map[], Puts(s)[..i])[s[i].key := s[i].values]
  {
    ReplayNext(map[], Puts(s), i);
  }

  lemma PutsAll(s: seq<Entry>, rows: Rows)
    requires Lists(s, rows)
    ensures |Puts(s)| == |s| && Replay(map[], Puts(s)[..0]) == map[] && Replay(map[], Puts(s)[..|s|]) == rows
  {
    assert Puts(s)[..|s|] == Puts(s);
    ReplayAll(s, rows);
  }

  lemma UpdateNext(d: Layer, done: Rows, e: Entry, updates: Updates)
    ensures UpdateLayer(d, done[e.key := e.values], updates)
         == Edit(UpdateLayer(d, done, updates), Put(e.key, Update(updates, e.values)))
  {
    assert UpdateRows(updates, done[e.key := e.values])
        == UpdateRows(updates, done)[e.key := Update(updates, e.values)];
    AddNext(d, UpdateRows(updates, done), done, e.key, Update(updates, e.values), e.values);
  }

  lemma AddNext(d: Layer, put: Rows, done: Rows, k: Row, v: Row, w: Row)
    ensures d.inserts + put[k := v] == (d.inserts + put)[k := v]
    ensures d.deletes - done[k := w].Keys == (d.deletes - done.Keys) - {k}
  {
  }

  /** Streams deletions into the pending delta. */
  method RemoveAll(owner: CollectionOwner, txn: TxnId, rows: seq<Entry>, ghost scanned: Rows)
    requires owner.Valid() && txn in owner.pending && Lists(rows, scanned)
    modifies owner`value, owner.pending[txn].inserts, owner.pending[txn].deletes
    ensures owner.Valid()
    ensures owner.value == WithPending(old(owner.value), txn, TruncateLayer(old(owner.value).pending[txn], scanned))
  {
    hide TruncateLayer, Puts, Replay, Lists;
    ghost var s, was := owner.value, owner.value.pending[txn];
    PutsAll(rows, scanned);
    var i := 0;
    PutNone(s, txn);
    TruncateNone(was);
    while i < |rows|
      invariant 0 <= i <= |rows| && owner.Valid()
      invariant owner.value == WithPending(s, txn, TruncateLayer(was, Replay(map[], Puts(rows)[..i])))
    {
      PutsNext(rows, i);
      ghost var done := Replay(map[], Puts(rows)[..i]);
      ghost var d := TruncateLayer(was, done);
      TruncateNext(was, done, rows[i]);
      WithPendingTwice(s, txn, d, d.(inserts := d.inserts - {rows[i].key}));
      WithPendingTwice(s, txn, d.(inserts := d.inserts - {rows[i].key}),
        TruncateLayer(was, done[rows[i].key := rows[i].values]));
      owner.DropInserted(txn, rows[i].key);
      owner.MarkDeleted(txn, rows[i].key, rows[i].values);
      i := i + 1;
    }
  }

  // ---------------------------------------------------------------- pulling while writing

  /** The rows that a scan in key order has yet to pull. */
  function Ahead(scanned: Rows, last: Option<Row>): set<Entry> {
    set k | k in scanned && (last.None? || Less(last.value, k)) :: Entry(k, scanned[k])
  }

  /** The rows that it has pulled. */
  function Pulled(scanned: Rows, last: Option<Row>): Rows {
    map k | k in scanned && last.Some? && !Less(last.value, k) :: scanned[k]
  }

  /** What updating, or deleting, one pulled row makes of a delta, and what all of them do. */
  function WriteOne(d: Layer, e: Entry, updates: Option<Updates>): Layer {
    if updates.Some? then Edit(d, Put(e.key, Update(updates.value, e.values)))
    else Layer(d.inserts - {e.key}, d.deletes[e.key := e.values])
  }

  function WriteRows(d: Layer, rows: Rows, updates: Option<Updates>): Layer {
    if updates.Some? then UpdateLayer(d, rows, updates.value) else TruncateLayer(d, rows)
  }

  lemma WriteNext(d: Layer, done: Rows, e: Entry, updates: Option<Updates>)
    ensures WriteOne(WriteRows(d, done, updates), e, updates) == WriteRows(d, done[e.key := e.values], updates)
    ensures Disjoint(d) ==> Disjoint(WriteRows(d, done, updates))
  {
    if updates.Some? { UpdateNext(d, done, e, updates.value); } else { TruncateNext(d, done, e); }
  }

  /** Writes at keys already pulled do not change what is ahead. */
  lemma AheadUnchanged(below: Rows, d: Layer, range: Range, last: Option<Row>, done: Rows, updates: Option<Updates>)
    requires last.Some? && forall k | k in done :: !Less(last.value, k)
    ensures Ahead(ScanLayer(below, WriteRows(d, done, updates), range), last) == Ahead(ScanLayer(below, d, range), last)
  {
    hide ScanLayer, WriteRows, Less;
    var written := WriteRows(d, done, updates);
    var was, now := ScanLayer(below, d, range), ScanLayer(below, written, range);
    forall k | Less(last.value, k) ensures Get(now, k) == Get(was, k) {
      WrittenElsewhere(d, done, updates, k);
      ScanLayerByKey(below, written, d, range, k);
    }
    SameAhead(was, now, last);
  }

  lemma ScanLayerByKey(below: Rows, a: Layer, b: Layer, range: Range, k: Row)
    requires Get(a.inserts, k) == Get(b.inserts, k) && Get(a.deletes, k) == Get(b.deletes, k)
    ensures Get(ScanLayer(below, a, range), k) == Get(ScanLayer(below, b, range), k)
  {
    hide InRange;
  }

  lemma WrittenElsewhere(d: Layer, done: Rows, updates: Option<Updates>, k: Row)
    requires k !in done
    ensures Get(WriteRows(d, done, updates).inserts, k) == Get(d.inserts, k)
    ensures Get(WriteRows(d, done, updates).deletes, k) == Get(d.deletes, k)
  {
  }

  lemma SameAhead(was: Rows, now: Rows, last: Option<Row>)
    requires last.Some? && forall k | Less(last.value, k) :: Get(now, k) == Get(was, k)
    ensures Ahead(now, last) == Ahead(was, last)
  {
  }

  lemma LeastAhead(scanned: Rows, last: Option<Row>, e: Entry)
    requires e in Ahead(scanned, last) && forall x | x in Ahead(scanned, last) && x != e :: Less(e.key, x.key)
    ensures Ahead(scanned, Some(e.key)) == Ahead(scanned, last) - {e}
    ensures Pulled(scanned, Some(e.key)) == Pulled(scanned, last)[e.key := e.values]
  {
    forall k | k in scanned
      ensures Less(e.key, k) <==> k != e.key && (last.None? || Less(last.value, k))
    {
      LessIsTotal(e.key, k);
      if last.Some? && Less(e.key, k) { LessIsTransitive(last.value, e.key, k); }
      if last.None? || Less(last.value, k) { assert Entry(k, scanned[k]) in Ahead(scanned, last); }
    }
  }

  lemma SomeLeast(scanned: Rows, last: Option<Row>)
    requires Ahead(scanned, last) != {}
    ensures exists e :: e in Ahead(scanned, last) &&
              forall x | x in Ahead(scanned, last) && x != e :: Less(e.key, x.key)
  {
    FirstExists(NATURAL, Ahead(scanned, last));
    var e :| IsFirst(NATURAL, Ahead(scanned, last), e);
    forall x | x in Ahead(scanned, last) && x != e ensures Less(e.key, x.key) { assert Before(NATURAL, e, x); }
  }

  lemma PullNone(d: Layer, scanned: Rows, updates: Option<Updates>)
    ensures WriteRows(d, Pulled(scanned, None), updates) == d
  {
    assert Pulled(scanned, None) == map[];
    if updates.Some? { UpdateNone(d, updates.value); } else { TruncateNone(d); }
  }

  lemma PullNext(below: Rows, d: Layer, range: Range, last: Option<Row>, e: Entry, updates: Option<Updates>)
    requires var ahead := Ahead(ScanLayer(below, d, range), last);
      e in ahead && forall x | x in ahead && x != e :: Less(e.key, x.key)
    ensures var scanned := ScanLayer(below, d, range);
      var next := WriteRows(d, Pulled(scanned, Some(e.key)), updates);
      && WriteOne(WriteRows(d, Pulled(scanned, last), updates), e, updates) == next
      && (Disjoint(d) ==> Disjoint(next))
      && Ahead(ScanLayer(below, next, range), Some(e.key)) == Ahead(scanned, Some(e.key)) == Ahead(scanned, last) - {e}
  {
    var scanned := ScanLayer(below, d, range);
    LeastAhead(scanned, last, e);
    WriteNext(d, Pulled(scanned, last), e, updates);
    WriteNext(d, Pulled(scanned, Some(e.key)), e, updates);
    assert forall k | k in Pulled(scanned, Some(e.key)) :: !Less(e.key, k);
    hide ScanLayer, WriteRows, WriteOne, Disjoint, Ahead, Pulled;
    AheadUnchanged(below, d, range, Some(e.key), Pulled(scanned, Some(e.key)), updates);
  }

  /** The loop that pulls each row from the very delta it writes, in key order and each key only
      once it has been pulled: it ends with what writing a finished scan gives, and every delta on
      the way is disjoint. */
  method PullAndWrite(below: Rows, d: Layer, range: Range, updates: Option<Updates>) returns (written: Layer)
    requires Disjoint(d)
    ensures written == WriteRows(d, ScanLayer(below, d, range), updates) && Disjoint(written)
  {
    hide ScanLayer, WriteRows, WriteOne, Disjoint, Pulled;
    written := d;
    var last := None;
    ghost var scanned := ScanLayer(below, d, range);
    PullNone(d, scanned, updates);
    var ahead := Ahead(ScanLayer(below, written, range), last);
    while ahead != {}
      invariant ahead == Ahead(scanned, last)
      invariant written == WriteRows(d, Pulled(scanned, last), updates) && Disjoint(written)
      decreases |ahead|
    {
      SomeLeast(scanned, last);
      var e :| e in ahead && forall x | x in ahead && x != e :: Less(e.key, x.key);
      PullNext(below, d, range, last, e, updates);
      written := WriteOne(written, e, updates);
      last := Some(e.key);
      ahead := Ahead(ScanLayer(below, written, range), last);
    }
    AllPulled(scanned, last);
  }

  lemma AllPulled(scanned: Rows, last: Option<Row>)
    requires Ahead(scanned, last) == {}
    ensures Pulled(scanned, last) == scanned
  {
    forall k | k in scanned ensures last.Some? && !Less(last.value, k) {
      assert Entry(k, scanned[k]) !in Ahead(scanned, last);
    }
  }

  /** What a transaction with a delta scans is the scan below it and the delta. */
  lemma OwnScan(s: State, t: TxnId, range: Range)
    requires t in s.pending
    ensures Scanned(s, t, range)
         == ScanLayer(ScanStack(s.persistent, Below(s.committed, t + 1), range), s.pending[t], range)
  {
    var below := Below(s.committed, t + 1);
    assert (below + [s.pending[t]])[..|below|] == below;
  }

  lemma TruncateNext(d: Layer, done: Rows, e: Entry)
    ensures var was := TruncateLayer(d, done);
      TruncateLayer(d, done[e.key := e.values]) == Layer(was.inserts - {e.key}, was.deletes[e.key := e.values])
  {
  }

  lemma ScannedInPlace(s: State, t: TxnId, range: Range)
    ensures Scanned(WithPending(s, t, PendingAt(s, t)), t, range) == Scanned(s, t, range)
  {
    hide ScanStack;
    if t in s.pending {
      PutNone(s, t);
    } else {
      var below := Below(s.committed, t + 1);
      assert below + [] == below;
      ScanUnderEmpty(s.persistent, below, range);
    }
  }

  lemma ScanUnderEmpty(rows: Rows, ds: seq<Layer>, range: Range)
    ensures ScanStack(rows, ds + [EMPTY_LAYER], range) == ScanStack(rows, ds, range)
  {
    assert (ds + [EMPTY_LAYER])[..|ds|] == ds;
    assert Filter(map[], range) == map[];
  }

  lemma EnumeratedIsListed(s: seq<Entry>, rows: Rows)
    requires Enumerates(NATURAL, s, rows)
    ensures Lists(s, rows)
  {
    forall i, j | 0 <= i < j < |s| ensures s[i].key != s[j].key { BeforeIsTotal(NATURAL, s[i], s[j]); }
  }

  lemma PutsOnTop(below: Rows, d: Layer, rows: Rows, keys: set<Row>)
    requires rows.Keys == keys
    ensures View(below, Layer(d.inserts + rows, d.deletes - keys)) == View(below, d) + rows
  {
  }

  lemma RemovesOnTop(below: Rows, d: Layer, scanned: Rows)
    ensures View(below, TruncateLayer(d, scanned)) == View(below, d) - scanned.Keys
  {
  }

  ghost predicate SoundSnapshot(s: State, t: TxnId, n: nat) {
    var snapshot := VisibleSnapshot(s, t);
    AllDisjoint(snapshot.deltas) && KeyLengths(snapshot.persistent, snapshot.deltas, n)
  }

  /** A range update over key columns has its exact effect. */
  lemma UpdateIsExact(s: State, t: TxnId, range: Range, updates: Updates, n: nat)
    requires AssertWritable(s, t) == Done && KeyRange(range, n) && SoundSnapshot(s, t, n)
    ensures VisibleAt(Updated(s, t, range, updates), t) == UpdatedIn(VisibleAt(s, t), range, updates)
    ensures ColumnsSet(VisibleAt(s, t), VisibleAt(Updated(s, t, range, updates), t), range, updates)
    ensures OnlyPendingOf(s, Updated(s, t, range, updates), t)
  {
    var snapshot := VisibleSnapshot(s, t);
    KeyRangeScanIsExact(snapshot.persistent, snapshot.deltas, range, n);
    var scanned := Scanned(s, t, range);
    OwnDeltaOnTop(s, t, UpdateLayer(PendingAt(s, t), scanned, updates));
    UpdateShows(CommittedRows(s, t), PendingAt(s, t), range, updates);
    ColumnsSetIff(VisibleAt(s, t), VisibleAt(Updated(s, t, range, updates), t), range, updates);
    PendingShows(s, t, UpdateLayer(PendingAt(s, t), scanned, updates));
  }

  lemma UpdateShows(below: Rows, d: Layer, range: Range, updates: Updates)
    ensures var rows := View(below, d);
      View(below, UpdateLayer(d, Filter(rows, range), updates)) == UpdatedIn(rows, range, updates)
  {
    hide View;
    var rows := View(below, d);
    PutsOnTop(below, d, UpdateRows(updates, Filter(rows, range)), Filter(rows, range).Keys);
    UpdateOver(rows, range, updates);
  }

  lemma UpdateOver(rows: Rows, range: Range, updates: Updates)
    ensures rows + UpdateRows(updates, Filter(rows, range)) == UpdatedIn(rows, range, updates)
  {
    hide Update, InRange;
  }

  /** A truncation over key columns has its exact effect. */
  lemma TruncateIsExact(s: State, t: TxnId, range: Range, n: nat)
    requires AssertWritable(s, t) == Done && KeyRange(range, n) && SoundSnapshot(s, t, n)
    ensures VisibleAt(Truncated(s, t, range), t) == RemovedIn(VisibleAt(s, t), range)
    ensures RangeGone(VisibleAt(s, t), VisibleAt(Truncated(s, t, range), t), range)
    ensures OnlyPendingOf(s, Truncated(s, t, range), t)
  {
    var snapshot := VisibleSnapshot(s, t);
    KeyRangeScanIsExact(snapshot.persistent, snapshot.deltas, range, n);
    var scanned := Scanned(s, t, range);
    OwnDeltaOnTop(s, t, TruncateLayer(PendingAt(s, t), scanned));
    TruncateShows(CommittedRows(s, t), PendingAt(s, t), range);
    RangeGoneIff(VisibleAt(s, t), VisibleAt(Truncated(s, t, range), t), range);
    PendingShows(s, t, TruncateLayer(PendingAt(s, t), scanned));
  }

  lemma TruncateShows(below: Rows, d: Layer, range: Range)
    ensures var rows := View(below, d);
      View(below, TruncateLayer(d, Filter(rows, range))) == RemovedIn(rows, range)
  {
    hide View, TruncateLayer, InRange;
    RemovesOnTop(below, d, Filter(View(below, d), range));
  }

  /** Over any range, every possible update has its exact effect if and only if no key is stale. */
  lemma UpdateIsExactIffNoneStale(s: State, t: TxnId, range: Range)
    requires AssertWritable(s, t) == Done && AllDisjoint(VisibleSnapshot(s, t).deltas)
    ensures (forall updates: Updates ::
               ColumnsSet(VisibleAt(s, t), VisibleAt(Updated(s, t, range, updates), t), range, updates))
       <==> forall k :: !Stale(s.persistent, VisibleSnapshot(s, t).deltas, k, range)
  {
    hide ViewStack, ScanStack, Stale, UpdateLayer, ColumnsSet;
    var rows, ds, view, scanned := s.persistent, VisibleSnapshot(s, t).deltas, VisibleAt(s, t), Scanned(s, t, range);
    forall updates: Updates
      ensures VisibleAt(Updated(s, t, range, updates), t) == view + UpdateRows(updates, scanned)
      ensures ColumnsSet(view, VisibleAt(Updated(s, t, range, updates), t), range, updates)
         <==> view + UpdateRows(updates, scanned) == UpdatedIn(view, range, updates)
    {
      UpdateOnTop(s, t, range, updates);
      ColumnsSetIff(view, VisibleAt(Updated(s, t, range, updates), t), range, updates);
    }
    if forall k :: !Stale(rows, ds, k, range) {
      ScanIsExactIffNoneStale(rows, ds, range);
      forall updates: Updates ensures view + UpdateRows(updates, scanned) == UpdatedIn(view, range, updates) {
        UpdateOver(view, range, updates);
      }
    }
    if k :| Stale(rows, ds, k, range) {
      StaleIsOutside(rows, ds, k, range);
      ScannedInRange(rows, ds, k, range);
      NoUpdate(view, scanned, k, range);
    }
  }

  lemma UpdateOnTop(s: State, t: TxnId, range: Range, updates: Updates)
    requires AssertWritable(s, t) == Done
    ensures VisibleAt(Updated(s, t, range, updates), t) == VisibleAt(s, t) + UpdateRows(updates, Scanned(s, t, range))
  {
    hide View, ScanStack, VisibleAt, CommittedRows;
    var d, scanned := PendingAt(s, t), Scanned(s, t, range);
    OwnDeltaOnTop(s, t, UpdateLayer(d, scanned, updates));
    PutsOnTop(CommittedRows(s, t), d, UpdateRows(updates, scanned), scanned.Keys);
  }

  /** Updating no column writes a stale row over the visible one. */
  lemma NoUpdate(view: Rows, scanned: Rows, k: Row, range: Range)
    requires k in scanned && InRange(range, k + scanned[k]) && k !in Filter(view, range)
    ensures view + UpdateRows(map[], scanned) != UpdatedIn(view, range, map[])
  {
    assert Update(map[], scanned[k]) == scanned[k];
    assert (view + UpdateRows(map[], scanned))[k] == scanned[k];
    assert k in view ==> UpdatedIn(view, range, map[])[k] == view[k];
  }

  /** Over any range a truncation has its exact effect if and only if no visible key is stale. */
  lemma TruncateIsExactIffNoneStale(s: State, t: TxnId, range: Range)
    requires AssertWritable(s, t) == Done && AllDisjoint(VisibleSnapshot(s, t).deltas)
    ensures RangeGone(VisibleAt(s, t), VisibleAt(Truncated(s, t, range), t), range)
       <==> forall k | k in VisibleAt(s, t) :: !Stale(s.persistent, VisibleSnapshot(s, t).deltas, k, range)
    ensures RangeGone(VisibleAt(s, t), VisibleAt(Truncated(s, t, range), t), range)
       <==> VisibleAt(Truncated(s, t, range), t) == RemovedIn(VisibleAt(s, t), range)
  {
    RangeGoneIff(VisibleAt(s, t), VisibleAt(Truncated(s, t, range), t), range);
    hide ViewStack, ScanStack, Stale, TruncateLayer, RangeGone;
    var rows, ds, view, scanned := s.persistent, VisibleSnapshot(s, t).deltas, VisibleAt(s, t), Scanned(s, t, range);
    TruncateOnTop(s, t, range);
    forall k | k in view ensures (k in scanned <==> InRange(range, k + view[k])) <==> !Stale(rows, ds, k, range) {
      ScanAgreesAt(rows, ds, k, range);
      if Stale(rows, ds, k, range) { StaleIsOutside(rows, ds, k, range); }
    }
    RemovedExactly(view, scanned, range);
  }

  lemma TruncateOnTop(s: State, t: TxnId, range: Range)
    requires AssertWritable(s, t) == Done
    ensures VisibleAt(Truncated(s, t, range), t) == VisibleAt(s, t) - Scanned(s, t, range).Keys
  {
    hide View, ScanStack, VisibleAt, CommittedRows;
    OwnDeltaOnTop(s, t, TruncateLayer(PendingAt(s, t), Scanned(s, t, range)));
    RemovesOnTop(CommittedRows(s, t), PendingAt(s, t), Scanned(s, t, range));
  }

  lemma RemovedExactly(view: Rows, scanned: Rows, range: Range)
    ensures view - scanned.Keys == RemovedIn(view, range)
       <==> forall k | k in view :: k in scanned <==> InRange(range, k + view[k])
  {
    hide InRange;
    if view - scanned.Keys == RemovedIn(view, range) {
      forall k | k in view ensures k in scanned <==> InRange(range, k + view[k]) {
        assert k in view - scanned.Keys <==> k in RemovedIn(view, range);
      }
    }
  }

  lemma EveryKeyLogged(op: Op)
    requires !OnKey(op)
    ensures forall k :: LogTouches([op], k)
  {
    forall k ensures LogTouches([op], k) { assert OpTouches([op][0], k); }
  }

  /** Upserting the updated visible rows of a range is an update of the range. */
  lemma UpdateIsFaithful(below: Rows, d: Layer, range: Range, updates: Updates)
    ensures FaithfulEdit(below, d, UpdateLayer(d, Filter(View(below, d), range), updates),
                         [UpdateWhere(range, updates)])
  {
    UpdateShows(below, d, range, updates);
    OneOp(View(below, d), UpdateWhere(range, updates));
    EveryKeyLogged(UpdateWhere(range, updates));
  }

  /** Deleting scanned rows is a truncation of a range if and only if, of the visible rows, exactly
      those in the range were scanned. */
  lemma TruncateIsFaithful(below: Rows, d: Layer, scanned: Rows, range: Range)
    ensures FaithfulEdit(below, d, TruncateLayer(d, scanned), [RemoveWhere(range)])
       <==> forall k | k in View(below, d) :: k in scanned <==> InRange(range, k + View(below, d)[k])
  {
    RemovesOnTop(below, d, scanned);
    RemovedExactly(View(below, d), scanned, range);
    OneOp(View(below, d), RemoveWhere(range));
    EveryKeyLogged(RemoveWhere(range));
  }

  // ---------------------------------------------------------------- restoration

  /** Replaces everything the transaction sees by what the source shows at the same id. */
  method RestoreFrom(owner: CollectionOwner, txn: TxnId, source: Handles, ghost layers: seq<Layer>, budget: nat)
    returns (r: Outcome)
    requires owner.Valid() && AllDisjoint(Below(owner.value.committed, txn + 1))
    requires |layers| == |source.deltas| && AllDisjoint(layers)
    requires forall i | 0 <= i < |layers| :: source.deltas[i].Contents() == layers[i]
    modifies owner
    ensures owner.Valid()
    ensures r == RestoreOutcome(old(owner.value), txn, budget)
    ensures owner.value == Restored(old(owner.value), txn, old(Read(Snapshot(source.persistent.rows, layers))), budget)
    ensures r == Done ==>
      && OnlyPendingOf(old(owner.value), owner.value, txn)
      && VisibleAt(owner.value, txn) == old(Read(Snapshot(source.persistent.rows, layers)))
  {
    hide OnlyPendingOf, VisibleAt, Restored, RestoreOutcome, AssertWritable, Between, ViewStack, ScanStack, FoldStack;
    NaturalIsKeyed(NATURAL, Universe(source.persistent.rows, layers));
    KeyedIsSeparated(NATURAL, source.persistent.rows, layers, map[]);
    var rows := ScanRows(source, layers, map[], NATURAL);
    KeyedScanEnumerates(NATURAL, rows, source.persistent.rows, layers, map[]);
    ghost var contents := Read(Snapshot(source.persistent.rows, layers));
    FullScanIsExact(source.persistent.rows, layers);
    EnumeratedIsListed(rows, contents);
    r := Restore.RestoreFrom(owner, txn, rows, contents, budget);
  }

  /** A scan without a range shows every visible row. */
  lemma FullScanIsExact(rows: Rows, ds: seq<Layer>)
    requires AllDisjoint(ds)
    ensures ScanStack(rows, ds, map[]) == ViewStack(rows, ds)
  {
    forall k ensures !Stale(rows, ds, k, map[]) {
      assert forall d | Touches(d, k) :: TouchesIn(d, k, map[]);
    }
    ScanIsExactIffNoneStale(rows, ds, map[]);
    assert Filter(ViewStack(rows, ds), map[]) == ViewStack(rows, ds);
  }

  // ---------------------------------------------------------------- serial equivalence

  datatype TableOp =
    | Upsert(key: Row, values: Row)
    | Delete(key: Row)
    | UpdateIn(range: Range, updates: Updates)
    | TruncateIn(range: Range)
    | RestoreAll(contents: Rows)

  /** What each operation makes of the transaction's delta. */
  function NextLayer(s: State, t: TxnId, op: TableOp): Layer {
    var d := PendingAt(s, t);
    match op
    case Upsert(k, v) => Edit(d, Put(k, v))
    case Delete(k) => DeleteLayer(d, VisibleAt(s, t), k)
    case UpdateIn(range, updates) => UpdateLayer(d, Scanned(s, t, range), updates)
    case TruncateIn(range) => TruncateLayer(d, Scanned(s, t, range))
    case RestoreAll(contents) => RestoreLayer(CommittedRows(s, t), contents)
  }

  /** The log entry of an operation: what was asked for, whatever was scanned. */
  function LogOf(op: TableOp): seq<Op> {
    match op
    case Upsert(k, v) => [Put(k, v)]
    case Delete(k) => [Remove(k)]
    case UpdateIn(range, updates) => [UpdateWhere(range, updates)]
    case TruncateIn(range) => [RemoveWhere(range)]
    case RestoreAll(contents) => [Replace(contents)]
  }

  /** No key is stale in the range of an update, and no visible key in the range of a truncation. */
  ghost predicate Unstale(s: State, t: TxnId, op: TableOp) {
    var ds := VisibleSnapshot(s, t).deltas;
    match op
    case UpdateIn(range, _) => forall k :: !Stale(s.persistent, ds, k, range)
    case TruncateIn(range) => forall k | k in VisibleAt(s, t) :: !Stale(s.persistent, ds, k, range)
    case _ => true
  }

  lemma OwnDisjoint(s: State, t: TxnId)
    requires AllDisjoint(VisibleSnapshot(s, t).deltas)
    ensures Disjoint(PendingAt(s, t))
  {
    if t in s.pending { assert VisibleSnapshot(s, t).deltas[|Below(s.committed, t + 1)|] == s.pending[t]; }
  }

  lemma BelowOwn(s: State, t: TxnId)
    requires t !in s.committed
    ensures CommittedRows(s, t) == ViewStack(s.persistent, Below(s.committed, t))
  {
    assert DeltaOf(s.committed, t) == [];
    assert Below(s.committed, t + 1) == Below(s.committed, t) + [];
    assert Below(s.committed, t) + [] == Below(s.committed, t);
  }

  /** Every Table operation does to the rows its transaction sees what its log entry asks for. */
  lemma TableOpIsFaithful(s: State, t: TxnId, op: TableOp)
    requires AssertWritable(s, t) == Done && AllDisjoint(VisibleSnapshot(s, t).deltas) && Unstale(s, t, op)
    ensures FaithfulEdit(ViewStack(s.persistent, Below(s.committed, t)), PendingAt(s, t),
                         NextLayer(s, t, op), LogOf(op))
  {
    hide FaithfulEdit, View, ViewStack, ScanStack, Stale, UpdateLayer, TruncateLayer, DeleteLayer, Edit, RestoreLayer;
    var d, below, snapshot := PendingAt(s, t), CommittedRows(s, t), VisibleSnapshot(s, t);
    BelowOwn(s, t);
    OwnDisjoint(s, t);
    OwnDeltaOnTop(s, t, d);
    match op
    case Upsert(k, v) => UpsertIsFaithful(below, d, k, v);
    case Delete(k) => DeleteIsFaithful(below, d, k);
    case UpdateIn(range, updates) =>
      ScanIsExactIffNoneStale(s.persistent, snapshot.deltas, range);
      UpdateIsFaithful(below, d, range, updates);
    case TruncateIn(range) =>
      TruncateIsExactIffNoneStale(s, t, range);
      TruncateOnTop(s, t, range);
      RemovedExactly(VisibleAt(s, t), Scanned(s, t, range), range);
      TruncateIsFaithful(below, d, Scanned(s, t, range), range);
    case RestoreAll(contents) => RestoreIsFaithful(below, d, contents);
  }

  /** Over a range of key columns nothing is stale. */
  lemma KeyRangeIsUnstale(s: State, t: TxnId, op: TableOp, n: nat)
    requires SoundSnapshot(s, t, n)
    requires (op.UpdateIn? || op.TruncateIn?) && KeyRange(op.range, n)
    ensures Unstale(s, t, op)
  {
    var snapshot := VisibleSnapshot(s, t);
    KeyRangeScanIsExact(snapshot.persistent, snapshot.deltas, op.range, n);
    ScanIsExactIffNoneStale(snapshot.persistent, snapshot.deltas, op.range);
  }

  /** An operation on a table whose key has `n` columns; a range is of key columns, or is one in
      which nothing is stale. */
  ghost predicate Allowed(s: State, t: TxnId, op: TableOp, n: nat) {
    match op
    case Upsert(k, _) => |k| == n
    case Delete(k) => |k| == n
    case UpdateIn(range, _) => KeyRange(range, n) || Unstale(s, t, op)
    case TruncateIn(range) => KeyRange(range, n) || Unstale(s, t, op)
    case RestoreAll(contents) => KeyLength(contents, n)
  }

  /** Writes are Table operations, each under its reservation: of its key, or of the whole table. */
  ghost predicate OperationStep(m: Machine, step: Step, n: nat) {
    step.Write? && AssertWritable(m.s, step.txn) == Done ==>
      && (exists op ::
            Allowed(m.s, step.txn, op, n) && step.next == NextLayer(m.s, step.txn, op) && step.ops == LogOf(op))
      && Reserved(m, step.txn, step.ops)
  }

  /** The state after an operation, as the methods state it. */
  function After(s: State, t: TxnId, op: TableOp): State {
    match op
    case Upsert(k, v) => Upserted(s, t, k, v)
    case Delete(k) => Deleted(s, t, k)
    case UpdateIn(range, updates) => Updated(s, t, range, updates)
    case TruncateIn(range) => Truncated(s, t, range)
    case RestoreAll(contents) => Restored(s, t, contents, |FinalizePlan(s, t)|)
  }

  /** Each operation, called under its reservation, is a write step of the runs that are serial: it leads
      to the state that its method leaves, and logs what was asked for. */
  lemma OperationIsStep(m: Machine, t: TxnId, op: TableOp, n: nat)
    requires Allowed(m.s, t, op, n) && Reserved(m, t, LogOf(op))
    ensures var step := Write(t, NextLayer(m.s, t, op), LogOf(op));
      && OperationStep(m, step, n) && Next(m, step).s == After(m.s, t, op)
      && (Writable(m.s, t) ==> Log(Next(m, step), t) == Log(m, t) + LogOf(op))
  {
    hide Allowed, Reserved, LogOf, VisibleAt, Scanned, CommittedRows;
  }

  ghost predicate OperationRun(m: Machine, steps: seq<Step>, n: nat) {
    forall i | 0 <= i < |steps| :: OperationStep(Run(m, steps[..i]), steps[i], n)
  }

  function OfLength(n: nat): Check { (k: Row, v: Row) => |k| == n }

  /** Keys of the schema's length in every store make every snapshot sound. */
  lemma MeetsIsSound(m: Machine, t: TxnId, n: nat)
    requires Ordered(m) && Meets(m, OfLength(n))
    ensures SoundSnapshot(m.s, t, n)
  {
    SnapshotMeets(m, t, OfLength(n));
    SnapshotDisjoint(m, t);
  }

  lemma {:induction false} ScannedKeyLength(rows: Rows, ds: seq<Layer>, range: Range, n: nat)
    requires KeyLengths(rows, ds, n)
    ensures KeyLength(ScanStack(rows, ds, range), n)
  {
    if ds != [] {
      assert ds[|ds| - 1] in ds;
      ScannedKeyLength(rows, ds[..|ds| - 1], range, n);
    }
  }

  lemma OwnMeets(s: State, t: TxnId, n: nat)
    requires SoundSnapshot(s, t, n)
    ensures LayerMeets(PendingAt(s, t), OfLength(n)) && KeyLength(CommittedRows(s, t), n)
  {
    var below := Below(s.committed, t + 1);
    if t in s.pending { assert VisibleSnapshot(s, t).deltas[|below|] == s.pending[t]; }
    forall d | d in below ensures LayerMeets(d, OfLength(n)) { assert d in VisibleSnapshot(s, t).deltas; }
    StackMeets(s.persistent, below, OfLength(n));
  }

  lemma NextLayerMeets(s: State, t: TxnId, op: TableOp, n: nat)
    requires SoundSnapshot(s, t, n) && Allowed(s, t, op, n)
    ensures LayerMeets(NextLayer(s, t, op), OfLength(n))
  {
    hide Unstale, VisibleAt, CommittedRows, ScanStack, SoundSnapshot;
    OwnMeets(s, t, n);
    var snapshot := VisibleSnapshot(s, t);
    if op.UpdateIn? || op.TruncateIn? {
      assert KeyLengths(snapshot.persistent, snapshot.deltas, n) by { SoundHasLengths(s, t, n); }
      ScannedKeyLength(snapshot.persistent, snapshot.deltas, op.range, n);
    }
  }

  lemma SoundHasLengths(s: State, t: TxnId, n: nat)
    requires SoundSnapshot(s, t, n)
    ensures KeyLengths(VisibleSnapshot(s, t).persistent, VisibleSnapshot(s, t).deltas, n)
    ensures AllDisjoint(VisibleSnapshot(s, t).deltas)
  {
  }

  lemma OperationIsTableStep(m: Machine, step: Step, n: nat)
    requires Inv(m) && Meets(m, OfLength(n)) && OperationStep(m, step, n)
    ensures TableStep(m, step)
    ensures step.Write? && AssertWritable(m.s, step.txn) == Done ==> LayerMeets(step.next, OfLength(n))
  {
    hide NextLayer, FaithfulEdit, LayerMeets, SoundSnapshot, Unstale, Reserved, ViewStack, Meets, Allowed;
    if step.Write? && AssertWritable(m.s, step.txn) == Done {
      var op :| Allowed(m.s, step.txn, op, n) && step.next == NextLayer(m.s, step.txn, op) && step.ops == LogOf(op);
      MeetsIsSound(m, step.txn, n);
      SoundHasLengths(m.s, step.txn, n);
      NextLayerMeets(m.s, step.txn, op, n);
      AllowedIsUnstale(m.s, step.txn, op, n);
      TableOpIsFaithful(m.s, step.txn, op);
    }
  }

  lemma AllowedIsUnstale(s: State, t: TxnId, op: TableOp, n: nat)
    requires SoundSnapshot(s, t, n) && Allowed(s, t, op, n)
    ensures Unstale(s, t, op)
  {
    hide SoundSnapshot;
    if (op.UpdateIn? || op.TruncateIn?) && KeyRange(op.range, n) { KeyRangeIsUnstale(s, t, op, n); }
  }

  lemma {:induction false} OperationRunKeeps(origin: Rows, steps: seq<Step>, n: nat)
    requires KeyLength(origin, n)
    requires ContractRun(Start(origin), steps) && OperationRun(Start(origin), steps, n)
    ensures TableRun(Start(origin), steps) && Meets(Run(Start(origin), steps), OfLength(n))
  {
    hide TableStep, OperationStep, Contract, Next, Meets, Contained, Unraced, KeyLength, OfLength;
    hide Ordered, Frontier, MergeInv, ReadersInv;
    if steps == [] {
      StartMeets(origin, n);
    } else {
      var front := steps[..|steps| - 1];
      assert forall i | 0 <= i < |front| :: front[..i] == steps[..i];
      OperationRunKeeps(origin, front, n);
      TableRunKeeps(origin, front);
      OperationIsTableStep(Run(Start(origin), front), steps[|steps| - 1], n);
      StepMeets(Run(Start(origin), front), steps[|steps| - 1], OfLength(n));
      forall i | 0 <= i < |steps| ensures TableStep(Run(Start(origin), steps[..i]), steps[i]) {
        if i < |front| { assert steps[..i] == front[..i] && steps[i] == front[i]; }
      }
    }
  }

  lemma StartMeets(origin: Rows, n: nat)
    requires KeyLength(origin, n)
    ensures Meets(Start(origin), OfLength(n))
  {
  }

  /** In every reachable state every transaction reads disjoint deltas and keys of the schema's length. */
  lemma ReachableIsSound(origin: Rows, steps: seq<Step>, n: nat, t: TxnId)
    requires KeyLength(origin, n)
    requires ContractRun(Start(origin), steps) && OperationRun(Start(origin), steps, n)
    ensures SoundSnapshot(Run(Start(origin), steps).s, t, n)
  {
    hide Meets, Contained, Unraced, SoundSnapshot, TableRun, ContractRun, OperationRun, Run;
    OperationRunKeeps(origin, steps, n);
    TableRunKeeps(origin, steps);
    MeetsIsSound(Run(Start(origin), steps), t, n);
  }

  /** Upserts, deletes, range updates, truncations, restorations, commits in any order,
      rollbacks and step-by-step finalizes: with writes reserved, every transaction at the
      cutoff or above sees the serial replay of what was asked for. */
  lemma TableOperationsAreSerial(origin: Rows, steps: seq<Step>, n: nat, t: TxnId)
    requires KeyLength(origin, n)
    requires ContractRun(Start(origin), steps) && OperationRun(Start(origin), steps, n)
    requires Run(Start(origin), steps).floor <= t + 1
    ensures var m := Run(Start(origin), steps); VisibleAt(m.s, t) == SerialView(m, t)
  {
    OperationRunKeeps(origin, steps, n);
    TableIsSerial(origin, steps, t);
  }

  /** The reservation is needed: a delete that found nothing leaves no marker, so the commit of
      an earlier insert of the key shows through it. */
  lemma UnreservedDeleteIsNotSerial()
    ensures var m0 := Start(map[]);
      var remove := Write(2, NextLayer(m0.s, 2, Delete([7])), LogOf(Delete([7])));
      var m1 := Next(m0, remove);
      var put := Write(1, NextLayer(m1.s, 1, Upsert([7], [0])), LogOf(Upsert([7], [0])));
      var m3 := Next(Next(m1, put), CommitTxn(1));
      VisibleAt(m3.s, 2) != SerialView(m3, 2)
  {
    hide Next, NextLayer, LogOf, VisibleAt, SerialView;
    var remove, put, d := [Remove([7])], [Put([7], [0])], Layer(map[[7] := [0]], map[]);
    DeleteFindsNothing();
    var m1 := Next(Start(map[]), Write(2, EMPTY_LAYER, remove));
    UpsertInserts(m1);
    RaceEnds();
    InsertShows(Next(Next(m1, Write(1, d, put)), CommitTxn(1)));
  }

  lemma DeleteFindsNothing()
    ensures NextLayer(Start(map[]).s, 2, Delete([7])) == EMPTY_LAYER
    ensures LogOf(Delete([7])) == [Remove([7])]
  {
    hide VisibleAt;
    NothingVisible(2);
    assert [7] !in VisibleAt(Start(map[]).s, 2);
  }

  lemma UpsertInserts(m: Machine)
    requires m == Next(Start(map[]), Write(2, EMPTY_LAYER, [Remove([7])]))
    ensures NextLayer(m.s, 1, Upsert([7], [0])) == Layer(map[[7] := [0]], map[])
    ensures LogOf(Upsert([7], [0])) == [Put([7], [0])]
  {
  }

  lemma RaceEnds()
    ensures var m1 := Next(Start(map[]), Write(2, EMPTY_LAYER, [Remove([7])]));
      var m3 := Next(Next(m1, Write(1, Layer(map[[7] := [0]], map[]), [Put([7], [0])])), CommitTxn(1));
      && m3.s == State(map[], map[1 := Some(Layer(map[[7] := [0]], map[]))], map[2 := EMPTY_LAYER], None)
      && Log(m3, 2) == [Remove([7])]
  {
  }

  lemma InsertShows(m3: Machine)
    requires m3.s == State(map[], map[1 := Some(Layer(map[[7] := [0]], map[]))], map[2 := EMPTY_LAYER], None)
    requires Log(m3, 2) == [Remove([7])]
    ensures VisibleAt(m3.s, 2) != SerialView(m3, 2)
  {
    hide VisibleAt;
    var d := Layer(map[[7] := [0]], map[]);
    OwnDeltaOnTop(m3.s, 2, EMPTY_LAYER);
    OneCommitted(m3.s.committed, d);
    assert [d][..0] == [];
    assert [7] in VisibleAt(m3.s, 2);
    OneOp(SerialRows(m3, 3), Remove([7]));
    assert [7] !in SerialView(m3, 2);
  }

  lemma OneCommitted(c: map<TxnId, Option<Layer>>, d: Layer)
    requires c == map[1 := Some(d)]
    ensures Below(c, 3) == [d]
  {
    assert Between(c, 0, 1) == [] && Between(c, 0, 2) == [d];
  }

  lemma NothingVisible(t: TxnId)
    ensures VisibleAt(Start(map[]).s, t) == map[]
  {
    NoDeltas(0, t + 1);
  }
}
