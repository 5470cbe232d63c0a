/** Whole-collection restoration, shared in substance by BTree and Table. */
module Restore {
  import opened Collation
  import opened Streams
  import opened Layers
  import opened Versions
  import opened Persistence
  import opened Lifecycle
  import opened Serial

  /** The delta that replaces `below` by `contents`. */
  function RestoreLayer(below: Rows, contents: Rows): Layer { Layer(contents, below - contents.Keys) }

  /** The first `budget` native writes of merging the committed deltas succeed. */
  function RestoreOutcome(s: State, txn: TxnId, budget: nat): Outcome {
    if AssertWritable(s, txn) != Done then AssertWritable(s, txn)
    else if |FinalizePlan(s, txn)| <= budget then Done
    else Refused(Background)
  }

  /** A restoration succeeds exactly when its transaction may write and the deltas up to it merge within
      the budget; otherwise it changes nothing, and a transaction that may not write comes first. */
  lemma RestoreOutcomeSays(s: State, txn: TxnId, contents: Rows, budget: nat)
    ensures var r, plan := RestoreOutcome(s, txn, budget), PlanStack(Below(s.committed, txn + 1));
      && (r == Done <==> Writable(s, txn) && |plan| <= budget)
      && (r == Refused(Background) <==> Writable(s, txn) && budget < |plan|)
      && (r == Refused(Outdated) <==> s.finalized.Some? && txn <= s.finalized.value)
      && (r != Done ==> Restored(s, txn, contents, budget) == s)
  {
  }

  function Restored(s: State, txn: TxnId, contents: Rows, budget: nat): State {
    if RestoreOutcome(s, txn, budget) != Done then s
    else WithPending(s, txn, RestoreLayer(CommittedRows(s, txn), contents))
  }

  /** A restoration that succeeds shows its transaction the contents, and changes nothing else. */
  lemma RestoredShows(s: State, txn: TxnId, contents: Rows, budget: nat)
    requires RestoreOutcome(s, txn, budget) == Done
    ensures OnlyPendingOf(s, Restored(s, txn, contents, budget), txn)
    ensures VisibleAt(Restored(s, txn, contents, budget), txn) == contents
  {
    hide View, VisibleAt, CommittedRows, RestoreLayer, OnlyPendingOf, FinalizePlan;
    RestoreShows(CommittedRows(s, txn), contents);
    PendingShows(s, txn, RestoreLayer(CommittedRows(s, txn), contents));
  }

  /** Builds the replacement in fresh stores: the canonical rows and then the committed deltas
      as deletes, the source rows as inserts; installs it only when all of it has succeeded. */
  method RestoreFrom(owner: CollectionOwner, txn: TxnId, source: seq<Entry>, ghost contents: Rows, budget: nat)
    returns (r: Outcome)
    requires owner.Valid() && Lists(source, contents)
    requires AllDisjoint(Below(owner.value.committed, txn + 1))
    modifies owner
    ensures owner.Valid()
    ensures r == RestoreOutcome(old(owner.value), txn, budget)
    ensures owner.value == Restored(old(owner.value), txn, contents, budget)
    ensures r == Done ==>
      OnlyPendingOf(old(owner.value), owner.value, txn) && VisibleAt(owner.value, txn) == contents
  {
    hide OnlyPendingOf, VisibleAt, FinalizePlan, RestoreLayer;
    if RestoreOutcome(owner.value, txn, budget) == Done { RestoredShows(owner.value, txn, contents, budget); }
    r := owner.AssertWritable(txn);
    if r != Done { return; }
    var ok, delta := BuildRestored(owner, txn, source, contents, budget);
    if !ok { return Refused(Background); }
    owner.Install(txn, delta);
  }

  /** The new delta, built in a workspace of its own; the collection is only read. */
  method BuildRestored(owner: CollectionOwner, txn: TxnId, source: seq<Entry>, ghost contents: Rows, budget: nat)
    returns (ok: bool, delta: Delta)
    requires owner.Valid() && Lists(source, contents)
    requires AllDisjoint(Below(owner.value.committed, txn + 1))
    ensures fresh(delta.inserts) && fresh(delta.deletes) && delta.HomeIs(txn)
    ensures ok == (|FinalizePlan(owner.value, txn)| <= budget)
    ensures ok ==> delta.Contents() == RestoreLayer(CommittedRows(owner.value, txn), contents)
  {
    var deltas, left;
    ghost var layers;
    deltas, layers := owner.CommittedUpTo(txn);
    delta := new Delta(txn);
    delta.deletes.rows := owner.persistent.rows;
    ok, left := ApplyAll(deltas, layers, delta.deletes, budget);
    if !ok { return; }
    ExecutedAll(owner.value.persistent, PlanStack(layers), budget);
    PlanStackMaterializes(owner.value.persistent, layers);
    StacksAgree(owner.value.persistent, layers);
    ReplaceContents(delta, source, contents);
  }

  /** Streams the source rows into a delta, clearing the marker of each key. */
  method ReplaceContents(delta: Delta, source: seq<Entry>, ghost contents: Rows)
    requires delta.inserts != delta.deletes && delta.inserts.rows == map[] && Lists(source, contents)
    modifies delta.inserts, delta.deletes
    ensures delta.Contents() == RestoreLayer(old(delta.deletes.rows), contents)
  {
    hide UpdatedIn, RemovedIn, Lists;
    var i := 0;
    while i < |source|
      invariant 0 <= i <= |source|
      invariant delta.inserts.rows == Replay(map[], Puts(source)[..i])
      invariant delta.deletes.rows == Replay(old(delta.deletes.rows), Removes(source)[..i])
    {
      ReplayNext(map[], Puts(source), i);
      ReplayNext(old(delta.deletes.rows), Removes(source), i);
      delta.deletes.Delete(source[i].key);
      delta.inserts.Upsert(source[i].key, source[i].values);
      i := i + 1;
    }
    assert Puts(source)[..i] == Puts(source) && Removes(source)[..i] == Removes(source);
    ReplacedBy(source, contents, old(delta.deletes.rows));
  }

  lemma ReplacedBy(source: seq<Entry>, contents: Rows, deletes: Rows)
    requires Lists(source, contents)
    ensures Replay(map[], Puts(source)) == contents
    ensures Replay(deletes, Removes(source)) == deletes - contents.Keys
  {
    ReplayPuts(map[], source, contents);
    ReplayRemoves(deletes, source);
    KeysListed(source, contents);
  }

  lemma KeysListed(source: seq<Entry>, contents: Rows)
    requires Lists(source, contents)
    ensures KeysOf(source) == contents.Keys
  {
    forall k | k in contents ensures k in KeysOf(source) { assert Entry(k, contents[k]) in source; }
  }

  /** A restored delta shows the source contents whatever was pending, and is disjoint. */
  lemma RestoreShows(below: Rows, contents: Rows)
    ensures View(below, RestoreLayer(below, contents)) == contents
    ensures Disjoint(RestoreLayer(below, contents))
  {
  }

  /** Restoration is a faithful edit: the replay of one whole-collection replacement. */
  lemma RestoreIsFaithful(below: Rows, cur: Layer, contents: Rows)
    ensures FaithfulEdit(below, cur, RestoreLayer(below, contents), [Replace(contents)])
  {
    RestoreShows(below, contents);
    assert [Replace(contents)][..0] == [];
    forall k ensures LogTouches([Replace(contents)], k) { assert OpTouches([Replace(contents)][0], k); }
  }

  /** Restoration is exact: the target shows the source at the caller's id, no other
      transaction's view changes, and commit and finalize at that id make the canonical rows
      equal the source contents. */
  lemma RestoreIsExact(s: State, t: TxnId, contents: Rows, budget: nat)
    requires RestoreOutcome(s, t, budget) == Done && CommittedDisjoint(s.committed)
    ensures var s' := Restored(s, t, contents, budget);
      && VisibleAt(s', t) == contents
      && (forall u: TxnId | u != t :: VisibleAt(s', u) == VisibleAt(s, u))
      && Finalize(Commit(s', t), t).persistent == contents
  {
    hide ViewStack, View, Finalize, Versions.Commit, CommittedDisjoint, RestoreLayer, FinalizePlan;
    RestoredOnTop(s, t, contents);
    RestoredIsFinalized(s, t, contents);
    forall u: TxnId | u != t
      ensures VisibleAt(Restored(s, t, contents, budget), u) == VisibleAt(s, u) {}
  }

  lemma RestoredOnTop(s: State, t: TxnId, contents: Rows)
    ensures ViewStack(s.persistent, Below(s.committed, t + 1) + [RestoreLayer(CommittedRows(s, t), contents)])
         == contents
  {
    hide RestoreLayer, View;
    var below, layer := Below(s.committed, t + 1), RestoreLayer(CommittedRows(s, t), contents);
    RestoreShows(CommittedRows(s, t), contents);
    assert (below + [layer])[..|below|] == below;
  }

  lemma RestoredIsFinalized(s: State, t: TxnId, contents: Rows)
    requires AssertWritable(s, t) == Done && CommittedDisjoint(s.committed)
    ensures var s' := WithPending(s, t, RestoreLayer(CommittedRows(s, t), contents));
      Finalize(Versions.Commit(s', t), t).persistent == contents
  {
    hide ViewStack, View, RestoreLayer, Between, Finalize;
    var layer := RestoreLayer(CommittedRows(s, t), contents);
    RestoreShows(CommittedRows(s, t), contents);
    RestoredOnTop(s, t, contents);
    CommittedOnTop(WithPending(s, t, layer), t);
    FinalizeShows(Versions.Commit(WithPending(s, t, layer), t), t);
  }

  lemma CommittedOnTop(s: State, t: TxnId)
    requires t in s.pending && t !in s.committed && !Closed(s, t)
    ensures Below(Commit(s, t).committed, t + 1) == Below(s.committed, t + 1) + [s.pending[t]]
  {
    var c := Commit(s, t).committed;
    BetweenSplit(c, 0, t, t + 1);
    BetweenSplit(s.committed, 0, t, t + 1);
    BetweenAgrees(s.committed, c, 0, t);
    assert DeltaOf(s.committed, t) == [];
  }

  /** The canonical rows may be copied key by key while a finalize of earlier ids merges: with the
      captured deltas materialized over the copy, they are the rows the restoration replaces. */
  lemma RestoreCopyIsStable(m: Machine, steps: seq<Step>, id: nat, pulled: Rows, contents: Rows)
    requires Inv(m) && PermittedRun(m, steps) && id in m.readers
    requires m.readers[id].base == Below(m.s.committed, m.readers[id].txn + 1)
    requires forall k: Row :: k in m.readers[id].range
    requires forall i | 0 <= i <= |steps| ::
               id in Run(m, steps[..i]).readers && Run(m, steps[..i]).readers[id] == m.readers[id]
    requires forall k: Row :: PulledAt(m, steps, pulled, k)
    ensures MaterializeStack(pulled, m.readers[id].base) == CommittedRows(m.s, m.readers[id].txn)
    ensures RestoreLayer(MaterializeStack(pulled, m.readers[id].base), contents)
         == RestoreLayer(CommittedRows(m.s, m.readers[id].txn), contents)
  {
    hide ViewStack, Next, Permitted, Run;
    LazyReadsAreStable(m, steps, id, pulled);
    BetweenDisjoint(m.s.committed, 0, m.readers[id].txn + 1);
    StacksAgree(pulled, m.readers[id].base);
  }
}
