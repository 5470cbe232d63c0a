/** Two-phase rewrites of a local Table. */
module TableView {
  import opened Optional
  import opened Collation
  import opened Streams
  import opened Layers
  import opened Versions
  import opened Persistence
  import opened TableScan
  import opened TableFile

  /** The row that a rewrite stages for a row in its range. */
  function Staged(updates: Option<Updates>, e: Entry): Entry {
    if updates.Some? then Entry(e.key, Update(updates.value, e.values)) else e
  }

  function StagedRows(updates: Option<Updates>, rows: Rows): Rows {
    if updates.Some? then UpdateRows(updates.value, rows) else rows
  }

  /** The table once some staged rows have been written back, or only removed. */
  function WrittenBack(updates: Option<Updates>, rows: Rows, done: Rows): Rows {
    if updates.Some? then rows + done else rows - done.Keys
  }

  /** Stages the rows of a range in a scratch store, each updated once, and then replaces or
      removes each staged key, so a row that moves into or out of the range is not seen again. */
  method RewriteLocal(table: NativeStore, range: Range, updates: Option<Updates>)
    modifies table
    ensures table.rows == Rewritten(updates, old(table.rows), range)
    ensures updates.Some? ==> ColumnsSet(old(table.rows), table.rows, range, updates.value)
    ensures updates.None? ==> RangeGone(old(table.rows), table.rows, range)
  {
    RewriteSets(updates, table.rows, range);
    hide ColumnsSet, RangeGone;
    var temp := new NativeStore(Scratch);
    KeysSeparate(NATURAL, table.rows, range);
    var stream := RowStream(NATURAL, table.rows, range);
    RowStreamEnumerates(NATURAL, table.rows, range);
    EnumeratedIsListed(stream, Filter(table.rows, range));
    StageAll(temp, stream, Filter(table.rows, range), updates);
    ScanLists(temp.rows);
    RewriteEffect(updates, table.rows, range);
    WriteBack(table, Scan(temp.rows), temp.rows, updates);
  }

  function Rewritten(updates: Option<Updates>, rows: Rows, range: Range): Rows {
    if updates.Some? then UpdatedIn(rows, range, updates.value) else RemovedIn(rows, range)
  }

  lemma RewriteSets(updates: Option<Updates>, rows: Rows, range: Range)
    ensures updates.Some? ==> ColumnsSet(rows, Rewritten(updates, rows, range), range, updates.value)
    ensures updates.None? ==> RangeGone(rows, Rewritten(updates, rows, range), range)
  {
    hide ColumnsSet, RangeGone, UpdatedIn, RemovedIn;
    if updates.Some? {
      ColumnsSetIff(rows, Rewritten(updates, rows, range), range, updates.value);
    } else {
      RangeGoneIff(rows, Rewritten(updates, rows, range), range);
    }
  }

  lemma RewriteEffect(updates: Option<Updates>, rows: Rows, range: Range)
    ensures WrittenBack(updates, rows, StagedRows(updates, Filter(rows, range))) == Rewritten(updates, rows, range)
  {
  }

  /** Key columns cannot be updated. */
  method UpdateLocal(table: NativeStore, shape: Shape, range: Range, updates: Updates) returns (r: Reply)
    modifies table
    ensures r == if exists c :: c in updates && shape.values <= c then Invalid else Ok
    ensures table.rows == if r == Ok then UpdatedIn(old(table.rows), range, updates) else old(table.rows)
    ensures r == Ok ==> ColumnsSet(old(table.rows), table.rows, range, updates)
  {
    if exists c :: c in updates && shape.values <= c { return Invalid; }
    RewriteLocal(table, range, Some(updates));
    r := Ok;
  }

  method StageAll(temp: NativeStore, stream: seq<Entry>, ghost rows: Rows, updates: Option<Updates>)
    requires temp.rows == map[] && Lists(stream, rows)
    modifies temp
    ensures temp.rows == StagedRows(updates, rows)
  {
    var i := 0;
    while i < |stream|
      invariant 0 <= i <= |stream|
      invariant temp.rows == StagedRows(updates, Replay(map[], Puts(stream)[..i]))
    {
      ReplayNext(map[], Puts(stream), i);
      StageNext(updates, Replay(map[], Puts(stream)[..i]), stream[i]);
      var row := Staged(updates, stream[i]);
      temp.Upsert(row.key, row.values);
      i := i + 1;
    }
    assert Puts(stream)[..i] == Puts(stream);
    ReplayAll(stream, rows);
  }

  lemma StageNext(updates: Option<Updates>, done: Rows, e: Entry)
    ensures StagedRows(updates, done[e.key := e.values])
         == StagedRows(updates, done)[e.key := Staged(updates, e).values]
  {
  }

  method WriteBack(table: NativeStore, staged: seq<Entry>, ghost rows: Rows, updates: Option<Updates>)
    requires Lists(staged, rows)
    modifies table
    ensures table.rows == WrittenBack(updates, old(table.rows), rows)
  {
    var i := 0;
    while i < |staged|
      invariant 0 <= i <= |staged|
      invariant table.rows == WrittenBack(updates, old(table.rows), Replay(map[], Puts(staged)[..i]))
    {
      ReplayNext(map[], Puts(staged), i);
      WriteBackNext(updates, old(table.rows), Replay(map[], Puts(staged)[..i]), staged[i]);
      table.Delete(staged[i].key);
      if updates.Some? { table.Upsert(staged[i].key, staged[i].values); }
      i := i + 1;
    }
    assert Puts(staged)[..i] == Puts(staged);
    ReplayAll(staged, rows);
  }

  lemma WriteBackNext(updates: Option<Updates>, rows: Rows, done: Rows, e: Entry)
    ensures var was := WrittenBack(updates, rows, done) - {e.key};
      WrittenBack(updates, rows, done[e.key := e.values]) == if updates.Some? then was[e.key := e.values] else was
  {
  }
}
