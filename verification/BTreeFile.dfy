/** The transactional BTree: key-level writes, scans, point lookups and restoration. */
module BTreeFile {
  import opened Collation
  import opened Streams
  import opened Layers
  import opened Versions
  import opened Persistence
  import opened Lifecycle
  import opened Serial
  import opened Restore
  import opened WellFormed

  /** BTree keys carry no values. */
  ghost predicate KeysOnly(rows: Rows) { forall k | k in rows :: rows[k] == [] }

  ghost predicate KeyLayer(d: Layer) { KeysOnly(d.inserts) && KeysOnly(d.deletes) }

  ghost predicate KeySnapshot(s: Snapshot) { KeysOnly(s.persistent) && forall d | d in s.deltas :: KeyLayer(d) }

  lemma {:induction false} KeysOnlyStack(rows: Rows, ds: seq<Layer>)
    requires KeysOnly(rows) && forall d | d in ds :: KeyLayer(d)
    ensures KeysOnly(ViewStack(rows, ds))
  {
    if ds != [] {
      KeysOnlyStack(rows, ds[..|ds| - 1]);
      assert ds[|ds| - 1] in ds;
    }
  }

  const KEYS_ONLY: Check := (k: Row, v: Row) => v == []

  /** A write of a BTree: one key without values, or a restoration from such keys. */
  ghost predicate KeyStep(m: Machine, step: Step) {
    step.Write? && AssertWritable(m.s, step.txn) == Done ==>
      || (exists op :: OnKey(op) && (op.Put? ==> op.values == []) && step.next == Edit(PendingOf(m, step.txn), op))
      || (exists contents :: KeysOnly(contents) && step.next == RestoreLayer(CommittedRows(m.s, step.txn), contents))
  }

  ghost predicate KeyRun(m: Machine, steps: seq<Step>) {
    forall i | 0 <= i < |steps| :: KeyStep(Run(m, steps[..i]), steps[i])
  }

  lemma KeyStepMeets(m: Machine, step: Step)
    requires Meets(m, KEYS_ONLY) && KeyStep(m, step)
    requires step.Write? && AssertWritable(m.s, step.txn) == Done
    ensures LayerMeets(step.next, KEYS_ONLY)
  {
    var below := Below(m.s.committed, step.txn + 1);
    BelowMeets(m.s.committed, step.txn + 1, KEYS_ONLY);
    StackMeets(m.s.persistent, below, KEYS_ONLY);
    hide ViewStack, Between;
    assert LayerMeets(PendingOf(m, step.txn), KEYS_ONLY);
  }

  /** In every state of a BTree every transaction reads keys without values. */
  lemma {:induction false} ReachableKeysAreKeys(origin: Rows, steps: seq<Step>)
    requires KeysOnly(origin) && KeyRun(Start(origin), steps)
    ensures Meets(Run(Start(origin), steps), KEYS_ONLY)
    ensures forall t: TxnId :: KeySnapshot(VisibleSnapshot(Run(Start(origin), steps).s, t))
  {
    if steps != [] {
      var front, last := steps[..|steps| - 1], steps[|steps| - 1];
      assert forall i | 0 <= i < |front| :: front[..i] == steps[..i] && front[i] == steps[i];
      ReachableKeysAreKeys(origin, front);
      var m := Run(Start(origin), front);
      if last.Write? && AssertWritable(m.s, last.txn) == Done { KeyStepMeets(m, last); }
      StepMeets(m, last, KEYS_ONLY);
    }
    forall t: TxnId ensures KeySnapshot(VisibleSnapshot(Run(Start(origin), steps).s, t)) {
      SnapshotMeets(Run(Start(origin), steps), t, KEYS_ONLY);
    }
  }

  // ---------------------------------------------------------------- writes

  /** The state after a transaction has written one key. */
  function Written(s: State, txn: TxnId, op: Op): State
    requires OnKey(op)
  {
    if AssertWritable(s, txn) != Done then s
    else WithPending(s, txn, Edit(PendingAt(s, txn), op))
  }

  /** Writing a key that the transaction may write adds it to, or takes it out of, what the transaction
      sees and nothing else; a refused write changes nothing. */
  lemma WrittenShows(s: State, txn: TxnId, op: Op)
    requires OnKey(op)
    ensures var s' := Written(s, txn, op);
      if !Writable(s, txn) then s' == s
      else
        && OnlyPendingOf(s, s', txn)
        && (op.Put? ==> VisibleAt(s', txn) == VisibleAt(s, txn)[op.key := op.values])
        && (op.Remove? ==> VisibleAt(s', txn) == VisibleAt(s, txn) - {op.key})
  {
    hide View, VisibleAt, CommittedRows, Edit, OnlyPendingOf;
    if Writable(s, txn) {
      EditDoes(CommittedRows(s, txn), PendingAt(s, txn), op);
      PendingShows(s, txn, Edit(PendingAt(s, txn), op));
    }
  }

  /** Writing a key is a write step of a BTree, and logs what was asked for. */
  lemma WriteIsStep(m: Machine, txn: TxnId, op: Op)
    requires OnKey(op)
    ensures var step := Write(txn, Edit(PendingOf(m, txn), op), [op]);
      && BTreeStep(m, step) && (op.Remove? || op.values == [] ==> KeyStep(m, step))
      && Next(m, step).s == Written(m.s, txn, op)
      && (Writable(m.s, txn) ==> Log(Next(m, step), txn) == Log(m, txn) + [op])
  {
    assert op.Remove? || op.values == [] ==> KeyStep(m, Write(txn, Edit(PendingOf(m, txn), op), [op]));
  }

  method InsertRow(owner: CollectionOwner, txn: TxnId, key: Row) returns (r: Outcome)
    requires owner.Valid()
    modifies owner, StoresOf(owner.pending)
    ensures owner.Valid() && (r == Done <==> Writable(old(owner.value), txn))
    ensures r == AssertWritable(old(owner.value), txn)
    ensures owner.value == Written(old(owner.value), txn, Put(key, []))
    ensures r != Done ==> owner.value == old(owner.value)
    ensures r == Done ==>
      && OnlyPendingOf(old(owner.value), owner.value, txn)
      && VisibleAt(owner.value, txn) == VisibleAt(old(owner.value), txn)[key := []]
  {
    WrittenShows(owner.value, txn, Put(key, []));
    hide VisibleAt, OnlyPendingOf;
    var delta;
    r, delta := owner.PendingDelta(txn);
    if r != Done { return; }
    ghost var was := PendingAt(old(owner.value), txn);
    WithPendingTwice(old(owner.value), txn, was, Edit(was, Put(key, [])));
    owner.PutPending(txn, key, []);
  }

  method DeleteRow(owner: CollectionOwner, txn: TxnId, key: Row) returns (r: Outcome)
    requires owner.Valid()
    modifies owner, StoresOf(owner.pending)
    ensures owner.Valid() && (r == Done <==> Writable(old(owner.value), txn))
    ensures r == AssertWritable(old(owner.value), txn)
    ensures owner.value == Written(old(owner.value), txn, Remove(key))
    ensures r != Done ==> owner.value == old(owner.value)
    ensures r == Done ==>
      && OnlyPendingOf(old(owner.value), owner.value, txn)
      && VisibleAt(owner.value, txn) == VisibleAt(old(owner.value), txn) - {key}
  {
    WrittenShows(owner.value, txn, Remove(key));
    hide VisibleAt, OnlyPendingOf;
    var delta;
    r, delta := owner.PendingDelta(txn);
    if r != Done { return; }
    ghost var was := PendingAt(old(owner.value), txn);
    ghost var half := was.(inserts := was.inserts - {key});
    WithPendingTwice(old(owner.value), txn, was, half);
    WithPendingTwice(old(owner.value), txn, half, Edit(was, Remove(key)));
    owner.DropInserted(txn, key);
    owner.MarkDeleted(txn, key, []);
  }

  // ---------------------------------------------------------------- reads

  /** Bounds of a BTree range constrain the first column of a key. */
  function KeyRangeOf(lower: Bound, upper: Bound): Range {
    if lower.Unbounded? && upper.Unbounded? then map[] else map[0 := In(lower, upper)]
  }

  /** The keys of one store within bounds, in order. */
  function KeyStream(rows: Rows, lower: Bound, upper: Bound, reverse: bool): seq<Entry> {
    var c := Collator([], reverse);
    KeysSeparate(c, rows, KeyRangeOf(lower, upper));
    Listing(c, Entries(rows, KeyRangeOf(lower, upper)))
  }

  /** A stream shows rows: strictly in order, and exactly those within the range. */
  ghost predicate Shows(c: Collator, s: seq<Entry>, rows: Rows, range: Range) {
    Sorted(c, s) && forall e :: e in s <==> e in Entries(rows, range)
  }

  lemma KeyStreamShows(rows: Rows, lower: Bound, upper: Bound, reverse: bool)
    ensures Shows(Collator([], reverse), KeyStream(rows, lower, upper, reverse), rows, KeyRangeOf(lower, upper))
  {
    var c := Collator([], reverse);
    KeysSeparate(c, rows, KeyRangeOf(lower, upper));
    ListingIsStream(c, Entries(rows, KeyRangeOf(lower, upper)));
  }

  /** Removing a delta's deletes from a stream and merging in its inserts shows its view. */
  lemma LayerShows(c: Collator, s: seq<Entry>, deletes: seq<Entry>, inserts: seq<Entry>,
      rows: Rows, d: Layer, range: Range)
    requires c.order == [] && KeysOnly(rows) && KeyLayer(d)
    requires Shows(c, s, rows, range) && Shows(c, deletes, d.deletes, range) && Shows(c, inserts, d.inserts, range)
    ensures Shows(c, Merge(c, Diff(c, s, deletes), inserts), View(rows, d), range)
  {
    hide Merge, Diff, InRange, Before;
    var rest := Diff(c, s, deletes);
    DiffIsDifference(c, s, deletes);
    MergeIsUnion(c, rest, inserts);
    forall e ensures e in Merge(c, rest, inserts) <==> e in Entries(View(rows, d), range) {
      KeyCollides(c, deletes, e, d.deletes, range);
      if e in inserts && Collides(c, rest, e) {
        var x :| x in rest && Rank(c, x) == Rank(c, e);
        assert x == e;
      }
    }
  }

  /** Keys without values collide in a stream of a store exactly when the store has the key. */
  lemma KeyCollides(c: Collator, s: seq<Entry>, e: Entry, rows: Rows, range: Range)
    requires c.order == [] && KeysOnly(rows) && Shows(c, s, rows, range)
    ensures e.values == [] && InRange(range, e.key + e.values) ==> (Collides(c, s, e) <==> e.key in rows)
  {
    if e.values == [] && e.key in rows && InRange(range, e.key + e.values) {
      assert e in Entries(rows, range);
    }
  }

  /** A scan: the canonical keys, then for each delta the difference with its deletes and the
      union with its inserts.  It lists exactly the keys a point lookup finds, in order. */
  method Keys(snapshot: Handles, ghost layers: seq<Layer>, lower: Bound, upper: Bound, reverse: bool)
    returns (visible: seq<Entry>)
    requires |layers| == |snapshot.deltas|
    requires forall i | 0 <= i < |layers| :: snapshot.deltas[i].Contents() == layers[i]
    requires KeySnapshot(Snapshot(snapshot.persistent.rows, layers))
    ensures Shows(Collator([], reverse), visible,
                  Read(Snapshot(snapshot.persistent.rows, layers)), KeyRangeOf(lower, upper))
    ensures forall i, j | 0 <= i < j < |visible| ::
              if reverse then Less(visible[j].key, visible[i].key) else Less(visible[i].key, visible[j].key)
    ensures forall key | key != [] :: Entry(key, []) in visible <==>
              && key in Read(Snapshot(snapshot.persistent.rows, layers))
              && (lower.Included? ==> lower.value <= key[0]) && (lower.Excluded? ==> lower.value < key[0])
              && (upper.Included? ==> key[0] <= upper.value) && (upper.Excluded? ==> key[0] < upper.value)
    ensures forall e | e in visible :: e.values == []
  {
    var c := Collator([], reverse);
    ghost var range := KeyRangeOf(lower, upper);
    ghost var base := snapshot.persistent.rows;
    KeyStreamShows(base, lower, upper, reverse);
    visible := KeyStream(snapshot.persistent.rows, lower, upper, reverse);
    var i := 0;
    while i < |snapshot.deltas|
      invariant 0 <= i <= |layers|
      invariant Shows(c, visible, ViewStack(base, layers[..i]), range)
    {
      var delta := snapshot.deltas[i];
      var deletes := KeyStream(delta.deletes.rows, lower, upper, reverse);
      KeyStreamShows(delta.deletes.rows, lower, upper, reverse);
      visible := Diff(c, visible, deletes);
      var inserts := KeyStream(delta.inserts.rows, lower, upper, reverse);
      KeyStreamShows(delta.inserts.rows, lower, upper, reverse);
      visible := Merge(c, visible, inserts);
      NextLayerShows(c, base, layers, i, range);
      i := i + 1;
    }
    assert layers[..i] == layers;
    KeysOnlyStack(base, layers);
    ShownInOrder(visible, ViewStack(base, layers), lower, upper, reverse);
  }

  /** What showing the keys of a range means, by the order of keys and by their first column. */
  lemma ShownInOrder(s: seq<Entry>, rows: Rows, lower: Bound, upper: Bound, reverse: bool)
    requires KeysOnly(rows) && Shows(Collator([], reverse), s, rows, KeyRangeOf(lower, upper))
    ensures forall i, j | 0 <= i < j < |s| :: if reverse then Less(s[j].key, s[i].key) else Less(s[i].key, s[j].key)
    ensures forall key | key != [] :: Entry(key, []) in s <==>
              && key in rows
              && (lower.Included? ==> lower.value <= key[0]) && (lower.Excluded? ==> lower.value < key[0])
              && (upper.Included? ==> key[0] <= upper.value) && (upper.Excluded? ==> key[0] < upper.value)
    ensures forall e | e in s :: e.values == []
  {
    hide Before, InRange, KeyRangeOf;
    forall i, j | 0 <= i < j < |s| ensures if reverse then Less(s[j].key, s[i].key) else Less(s[i].key, s[j].key) {
      CollatorSays(Collator([], reverse), s[i], s[j]);
    }
    forall key: Row | key != []
      ensures InRange(KeyRangeOf(lower, upper), key) <==>
        && (lower.Included? ==> lower.value <= key[0]) && (lower.Excluded? ==> lower.value < key[0])
        && (upper.Included? ==> key[0] <= upper.value) && (upper.Excluded? ==> key[0] < upper.value)
    {
      BoundsSay(lower, upper, key);
    }
    assert forall key: Row :: key + [] == key;
  }

  lemma BoundsSay(lower: Bound, upper: Bound, key: Row)
    requires key != []
    ensures InRange(KeyRangeOf(lower, upper), key) <==>
      && (lower.Included? ==> lower.value <= key[0]) && (lower.Excluded? ==> lower.value < key[0])
      && (upper.Included? ==> key[0] <= upper.value) && (upper.Excluded? ==> key[0] < upper.value)
  {
    RangeSays(KeyRangeOf(lower, upper), key);
    assert KeyRangeOf(lower, upper) != map[] ==> 0 in KeyRangeOf(lower, upper);
  }

  /** The keys of a range in reverse are the keys of the range read backwards. */
  lemma ReverseKeysAreBackwards(s: seq<Entry>, t: seq<Entry>, rows: Rows, range: Range)
    requires Shows(Collator([], false), s, rows, range) && Shows(Collator([], true), t, rows, range)
    ensures |t| == |s| && forall i | 0 <= i < |s| :: t[i] == s[|s| - 1 - i]
  {
    ReverseIsBackwards([], s, t);
  }

  lemma NextLayerShows(c: Collator, base: Rows, layers: seq<Layer>, i: nat, range: Range)
    requires c.order == [] && i < |layers| && KeySnapshot(Snapshot(base, layers))
    ensures forall s, deletes, inserts ::
      Shows(c, s, ViewStack(base, layers[..i]), range) && Shows(c, deletes, layers[i].deletes, range)
      && Shows(c, inserts, layers[i].inserts, range)
      ==> Shows(c, Merge(c, Diff(c, s, deletes), inserts), ViewStack(base, layers[..i + 1]), range)
  {
    assert layers[..i + 1][..i] == layers[..i];
    assert forall d | d in layers[..i] :: d in layers;
    KeysOnlyStack(base, layers[..i]);
    assert layers[i] in layers;
    forall s, deletes, inserts |
      Shows(c, s, ViewStack(base, layers[..i]), range) && Shows(c, deletes, layers[i].deletes, range)
      && Shows(c, inserts, layers[i].inserts, range)
      ensures Shows(c, Merge(c, Diff(c, s, deletes), inserts), ViewStack(base, layers[..i + 1]), range)
    {
      LayerShows(c, s, deletes, inserts, ViewStack(base, layers[..i]), layers[i], range);
    }
  }

  /** A point lookup: deletes hide, inserts show, later deltas last. */
  method IsRowVisible(snapshot: Handles, ghost layers: seq<Layer>, key: Row) returns (visible: bool)
    requires |layers| == |snapshot.deltas|
    requires forall i | 0 <= i < |layers| :: snapshot.deltas[i].Contents() == layers[i]
    ensures visible <==> key in Read(Snapshot(snapshot.persistent.rows, layers))
  {
    visible := key in snapshot.persistent.rows;
    var i := 0;
    while i < |snapshot.deltas|
      invariant 0 <= i <= |layers|
      invariant visible <==> key in ViewStack(snapshot.persistent.rows, layers[..i])
    {
      assert layers[..i + 1][..i] == layers[..i];
      if key in snapshot.deltas[i].deletes.rows { visible := false; }
      if key in snapshot.deltas[i].inserts.rows { visible := true; }
      i := i + 1;
    }
    assert layers[..i] == layers;
  }

  // ---------------------------------------------------------------- restoration

  lemma ShownIsListed(c: Collator, s: seq<Entry>, rows: Rows)
    requires c.order == [] && Shows(c, s, rows, map[])
    ensures Lists(s, rows)
  {
    forall i, j | 0 <= i < j < |s| ensures s[i].key != s[j].key { BeforeIsTotal(c, s[i], s[j]); }
  }

  /** Replaces everything the transaction sees by what the source shows at the same id. */
  method RestoreFrom(owner: CollectionOwner, txn: TxnId, source: Handles, ghost layers: seq<Layer>, budget: nat)
    returns (r: Outcome)
    requires owner.Valid() && AllDisjoint(Below(owner.value.committed, txn + 1))
    requires |layers| == |source.deltas|
    requires forall i | 0 <= i < |layers| :: source.deltas[i].Contents() == layers[i]
    requires KeySnapshot(Snapshot(source.persistent.rows, layers))
    modifies owner
    ensures owner.Valid()
    ensures r == RestoreOutcome(old(owner.value), txn, budget)
    ensures owner.value == Restored(old(owner.value), txn, old(Read(Snapshot(source.persistent.rows, layers))), budget)
    ensures r == Done ==>
      && OnlyPendingOf(old(owner.value), owner.value, txn)
      && VisibleAt(owner.value, txn) == old(Read(Snapshot(source.persistent.rows, layers)))
  {
    hide OnlyPendingOf, VisibleAt;
    var keys := Keys(source, layers, Unbounded, Unbounded, false);
    ShownIsListed(NATURAL, keys, Read(Snapshot(source.persistent.rows, layers)));
    r := Restore.RestoreFrom(owner, txn, keys, Read(Snapshot(source.persistent.rows, layers)), budget);
  }

  // ---------------------------------------------------------------- runs with restorations

  ghost predicate Restores(log: seq<Op>) { exists op :: op in log && op.Replace? }

  /** The reservation of a whole collection for a restoration: it waits for every earlier writer,
      and no earlier transaction writes after it.  Writes of single keys need none. */
  ghost predicate RestoreReserved(m: Machine, t: TxnId, ops: seq<Op>) {
    && (Restores(ops) ==> forall x: TxnId | x != t && Log(m, x) != [] :: x < t && x in m.history)
    && forall x: TxnId | x != t && Restores(Log(m, x)) :: x < t && x in m.history
  }

  ghost predicate RestoreWrite(m: Machine, step: Step)
    requires step.Write?
  {
    exists contents ::
      step.ops == [Replace(contents)] && step.next == RestoreLayer(CommittedRows(m.s, step.txn), contents)
  }

  /** A BTree writes one key, or restores itself. */
  ghost predicate MixedStep(m: Machine, step: Step) {
    step.Write? && AssertWritable(m.s, step.txn) == Done ==>
      (BTreeStep(m, step) || RestoreWrite(m, step)) && RestoreReserved(m, step.txn, step.ops)
  }

  /** A restoration under its reservation is a write step of such a run. */
  lemma RestoreIsStep(m: Machine, txn: TxnId, contents: Rows, budget: nat)
    requires RestoreOutcome(m.s, txn, budget) == Done && RestoreReserved(m, txn, [Replace(contents)])
    ensures var step := Write(txn, RestoreLayer(CommittedRows(m.s, txn), contents), [Replace(contents)]);
      && MixedStep(m, step) && Next(m, step).s == Restored(m.s, txn, contents, budget)
      && Log(Next(m, step), txn) == Log(m, txn) + [Replace(contents)]
  {
    hide RestoreReserved, RestoreLayer, CommittedRows, FinalizePlan;
  }

  ghost predicate MixedRun(m: Machine, steps: seq<Step>) {
    forall i | 0 <= i < |steps| :: MixedStep(Run(m, steps[..i]), steps[i])
  }

  /** A delta with a restoration is faithful over settled rows; any other over any rows. */
  ghost predicate Settled(m: Machine, t: TxnId) {
    if Restores(Log(m, t)) then Faithful(m, t) && forall x: TxnId | x < t && x !in m.history :: Log(m, x) == []
    else Summarizes(m, t)
  }

  ghost predicate MixedInv(m: Machine) { Inv(m) && forall t: TxnId :: Settled(m, t) }

  lemma SettledIsFaithful(m: Machine, t: TxnId)
    requires Settled(m, t)
    ensures Faithful(m, t)
  {
    if !Restores(Log(m, t)) { SummaryReplays(SerialRows(m, t), Log(m, t)); }
  }

  lemma AllSettled(m: Machine)
    requires MixedInv(m)
    ensures forall t: TxnId :: Faithful(m, t)
  {
    forall t: TxnId ensures Faithful(m, t) {
      assert Settled(m, t);
      SettledIsFaithful(m, t);
    }
  }

  /** The transaction's own write leaves its delta settled. */
  lemma KeyWriteSettles(m: Machine, step: Step)
    requires MixedInv(m) && step.Write? && AssertWritable(m.s, step.txn) == Done && BTreeStep(m, step)
    ensures Settled(Next(m, step), step.txn)
  {
    var t, op, m' := step.txn, step.ops[0], Next(m, step);
    assert Settled(m, t) && step.ops == [op] && t !in m.history;
    SerialAgrees(m, m', t);
    assert Restores(Log(m', t)) <==> Restores(Log(m, t)) by { RestoresConcat(Log(m, t), op); }
    if Restores(Log(m, t)) {
      EditDoes(SerialRows(m, t), PendingOf(m, t), op);
      assert (Log(m, t) + [op])[..|Log(m, t)|] == Log(m, t);
      forall x: TxnId | x < t && x !in m'.history ensures Log(m', x) == [] { assert Log(m, x) == []; }
    } else {
      WriteSummarizes(m, step, t);
    }
  }

  lemma RestoresConcat(log: seq<Op>, op: Op)
    ensures Restores(log + [op]) <==> Restores(log) || op.Replace?
  {
    if x :| x in log && x.Replace? { assert x in log + [op]; }
    if op.Replace? { assert op in log + [op]; }
  }

  lemma RestoreWriteSettles(m: Machine, step: Step, contents: Rows)
    requires MixedInv(m) && Permitted(m, step) && step.Write? && AssertWritable(m.s, step.txn) == Done
    requires step.ops == [Replace(contents)] && step.next == RestoreLayer(CommittedRows(m.s, step.txn), contents)
    requires RestoreReserved(m, step.txn, step.ops)
    ensures Settled(Next(m, step), step.txn)
  {
    var t, m' := step.txn, Next(m, step);
    RestoredRows(m, t);
    RestoreWriteLogs(m, step, contents);
    hide ViewStack, View, RestoreLayer, CommittedRows, Inv, Summarizes;
    SerialAgrees(m, m', t);
    RestoreShows(SerialRows(m, t), contents);
    RestoresConcat(Log(m, t), Replace(contents));
  }

  /** What a restoration replaces is the serial rows below its transaction. */
  lemma RestoredRows(m: Machine, t: TxnId)
    requires MixedInv(m) && m.floor <= t && AssertWritable(m.s, t) == Done
    ensures CommittedRows(m.s, t) == SerialRows(m, t)
  {
    hide ViewStack, Settled, Faithful;
    AboveFloor(m, t);
    AllSettled(m);
    PastIsSerial(m, t);
    NotYetCommitted(m.s, t);
  }

  lemma ReplaceEnds(rows: Rows, log: seq<Op>, contents: Rows)
    ensures Replay(rows, log + [Replace(contents)]) == contents
  {
    assert (log + [Replace(contents)])[..|log|] == log;
  }

  lemma RestoreWriteLogs(m: Machine, step: Step, contents: Rows)
    requires Ordered(m) && step.Write? && AssertWritable(m.s, step.txn) == Done
    requires step.ops == [Replace(contents)] && RestoreReserved(m, step.txn, step.ops)
    ensures var m', t := Next(m, step), step.txn;
      && t !in m.history && m'.history == m.history && m'.origin == m.origin && LayerAt(m', t) == step.next
      && Log(m', t) == Log(m, t) + [Replace(contents)]
      && (forall x: TxnId | x != t :: Log(m', x) == Log(m, x))
      && (forall x: TxnId | x < t && x !in m'.history :: Log(m', x) == [])
      && forall rows :: Replay(rows, Log(m', t)) == contents
  {
    hide Replay;
    var t, m' := step.txn, Next(m, step);
    forall rows ensures Replay(rows, Log(m, t) + [Replace(contents)]) == contents {
      ReplaceEnds(rows, Log(m, t), contents);
    }
    assert Replace(contents) in step.ops;
    forall x: TxnId | x < t && x !in m'.history ensures Log(m', x) == [] { assert Log(m', x) == Log(m, x); }
  }

  lemma NotYetCommitted(s: State, t: TxnId)
    requires t !in s.committed
    ensures CommittedRows(s, t) == ViewStack(s.persistent, Below(s.committed, t))
  {
    assert DeltaOf(s.committed, t) == [];
    assert Below(s.committed, t) + [] == Below(s.committed, t);
  }

  /** A write leaves every other delta settled. */
  lemma WriteKeepsSettled(m: Machine, step: Step, t: TxnId)
    requires MixedInv(m) && step.Write? && AssertWritable(m.s, step.txn) == Done && t != step.txn
    requires RestoreReserved(m, step.txn, step.ops)
    ensures Settled(Next(m, step), t)
  {
    var x, m' := step.txn, Next(m, step);
    assert Settled(m, t);
    LayersKept(m, step, t);
    if Restores(Log(m, t)) {
      assert t < x && x !in m.history;
      SerialAgrees(m, m', t);
      forall y: TxnId | y < t && y !in m'.history ensures Log(m', y) == [] { assert Log(m', y) == Log(m, y); }
    }
  }

  /** Committing a transaction that asked for nothing changes no serial rows. */
  lemma {:induction false} SerialSkips(m: Machine, x: TxnId, n: nat)
    requires !Decided(m.s, x) && x !in m.history && Log(m, x) == []
    ensures SerialRows(Next(m, CommitTxn(x)), n) == SerialRows(m, n)
  {
    if 0 < n { SerialSkips(m, x, n - 1); }
  }

  lemma OtherKeepsSettled(m: Machine, step: Step, t: TxnId)
    requires MixedInv(m) && !(step.Write? && AssertWritable(m.s, step.txn) == Done)
    ensures Settled(Next(m, step), t)
  {
    var m' := Next(m, step);
    assert Settled(m, t);
    LayersKept(m, step, t);
    if Restores(Log(m', t)) {
      OtherKeepsSerial(m, step, t);
      forall y: TxnId | y < t && y !in m'.history ensures Log(m', y) == [] {
        LayersKept(m, step, y);
        HistoryGrows(m, step);
      }
    }
  }

  lemma HistoryGrows(m: Machine, step: Step)
    ensures forall y: TxnId | y in m.history && Ordered(m) :: y in Next(m, step).history
  {
  }

  lemma OtherKeepsSerial(m: Machine, step: Step, t: TxnId)
    requires MixedInv(m) && !(step.Write? && AssertWritable(m.s, step.txn) == Done) && Restores(Log(m, t))
    ensures SerialRows(Next(m, step), t) == SerialRows(m, t)
  {
    assert Settled(m, t);
    if step.CommitTxn? && !Decided(m.s, step.txn) {
      var x := step.txn;
      assert x !in m.history;
      if x < t { SerialSkips(m, x, t); } else { SerialAgrees(m, Next(m, step), t); }
    } else if !step.Write? && !step.CommitTxn? {
      OtherSerial(m, step, t);
    }
  }

  lemma MixedStepKeeps(m: Machine, step: Step)
    requires MixedInv(m) && Contract(m, step) && MixedStep(m, step)
    ensures MixedInv(Next(m, step))
  {
    hide Settled, Contract, Next, RestoreReserved;
    MixedIsPermitted(m, step);
    StepKeeps(m, step);
    forall t: TxnId ensures Settled(Next(m, step), t) {
      if step.Write? && AssertWritable(m.s, step.txn) == Done {
        if t != step.txn {
          WriteKeepsSettled(m, step, t);
        } else if BTreeStep(m, step) {
          KeyWriteSettles(m, step);
        } else {
          var contents :| step.ops == [Replace(contents)]
            && step.next == RestoreLayer(CommittedRows(m.s, step.txn), contents);
          RestoreWriteSettles(m, step, contents);
        }
      } else {
        OtherKeepsSettled(m, step, t);
      }
    }
  }

  lemma MixedIsPermitted(m: Machine, step: Step)
    requires Inv(m) && Contract(m, step) && MixedStep(m, step)
    ensures Permitted(m, step)
  {
    if step.Write? && AssertWritable(m.s, step.txn) == Done && BTreeStep(m, step) {
      EditDoes(map[], PendingOf(m, step.txn), step.ops[0]);
    }
  }

  lemma {:induction false} MixedRunKeeps(origin: Rows, steps: seq<Step>)
    requires ContractRun(Start(origin), steps) && MixedRun(Start(origin), steps)
    ensures MixedInv(Run(Start(origin), steps))
  {
    hide Contract, MixedStep, Next;
    if steps == [] {
      StartSettled(origin);
    } else {
      var front := steps[..|steps| - 1];
      assert forall i | 0 <= i < |front| :: front[..i] == steps[..i];
      MixedRunKeeps(origin, front);
      MixedStepKeeps(Run(Start(origin), front), steps[|steps| - 1]);
    }
  }

  lemma StartSettled(origin: Rows)
    ensures MixedInv(Start(origin))
  {
    StartHolds(origin);
  }

  /** Serial equivalence of BTrees that also restore themselves: only the restorations need a
      reservation. */
  lemma MixedRunIsSerial(origin: Rows, steps: seq<Step>, t: TxnId)
    requires ContractRun(Start(origin), steps) && MixedRun(Start(origin), steps)
    requires Run(Start(origin), steps).floor <= t + 1
    ensures var m := Run(Start(origin), steps); VisibleAt(m.s, t) == SerialView(m, t)
  {
    MixedRunKeeps(origin, steps);
    AllSettled(Run(Start(origin), steps));
    ViewIsSerial(Run(Start(origin), steps), t);
  }
}
