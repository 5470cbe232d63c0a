/** Native stores, deltas and the lifecycle owner, updated in place and shared by handle. */
module Persistence {
  import opened Optional
  import opened Collation
  import opened Streams
  import opened Layers
  import opened Versions

  /** Where a store lives: every store is created in a directory of its own. */
  datatype Home = Canonical | Inserts(txn: TxnId) | Deletes(txn: TxnId) | Scratch

  /** A BTree or Table file: a keyed collection of rows. */
  class NativeStore {
    const home: Home
    var rows: Rows

    constructor (home: Home)
      ensures this.home == home && rows == map[]
    {
      this.home := home;
      rows := map[];
    }

    method Upsert(key: Row, values: Row)
      modifies this
      ensures rows == old(rows)[key := values]
    {
      rows := rows[key := values];
    }

    method Delete(key: Row)
      modifies this
      ensures rows == old(rows) - {key}
    {
      rows := rows - {key};
    }

    /** Upserts a stream of rows; the write after the first `budget` fails. */
    method UpsertAll(stream: seq<Entry>, budget: nat) returns (ok: bool, left: nat)
      modifies this
      ensures ok == (|stream| <= budget) && left == budget - Min(budget, |stream|)
      ensures rows == Replay(old(rows), Puts(stream)[..Min(budget, |stream|)])
    {
      left := budget;
      var i := 0;
      while i < |stream|
        invariant 0 <= i <= |stream| && left == budget - i
        invariant rows == Replay(old(rows), Puts(stream)[..i])
      {
        if left == 0 { return false, 0; }
        ReplayNext(old(rows), Puts(stream), i);
        Upsert(stream[i].key, stream[i].values);
        left := left - 1;
        i := i + 1;
      }
      ok := true;
    }

    /** Deletes the keys of a stream; the write after the first `budget` fails. */
    method DeleteAll(stream: seq<Entry>, budget: nat) returns (ok: bool, left: nat)
      modifies this
      ensures ok == (|stream| <= budget) && left == budget - Min(budget, |stream|)
      ensures rows == Replay(old(rows), Removes(stream)[..Min(budget, |stream|)])
    {
      left := budget;
      var i := 0;
      while i < |stream|
        invariant 0 <= i <= |stream| && left == budget - i
        invariant rows == Replay(old(rows), Removes(stream)[..i])
      {
        if left == 0 { return false, 0; }
        ReplayNext(old(rows), Removes(stream), i);
        Delete(stream[i].key);
        left := left - 1;
        i := i + 1;
      }
      ok := true;
    }
  }

  lemma ReplayNext(rows: Rows, plan: seq<Op>, i: nat)
    requires i < |plan|
    ensures Replay(rows, plan[..i + 1]) == Do(Replay(rows, plan[..i]), plan[i])
  {
    assert plan[..i + 1][..i] == plan[..i];
  }

  class Delta {
    const inserts: NativeStore
    const deletes: NativeStore

    constructor (txn: TxnId)
      ensures inserts.home == Inserts(txn) && deletes.home == Deletes(txn)
      ensures fresh(inserts) && fresh(deletes) && Contents() == EMPTY_LAYER
    {
      inserts := new NativeStore(Inserts(txn));
      deletes := new NativeStore(Deletes(txn));
    }

    ghost predicate HomeIs(txn: TxnId) { inserts.home == Inserts(txn) && deletes.home == Deletes(txn) }

    ghost function Contents(): Layer
      reads inserts`rows, deletes`rows
    {
      Layer(inserts.rows, deletes.rows)
    }

    predicate Apart(store: NativeStore) { inserts != store && deletes != store }

    /** Writes the delta to a store, inserts first.  The first `budget` native writes succeed;
        a further one would be an I/O error, which stops the merge where it is. */
    method ApplyTo(target: NativeStore, budget: nat) returns (ok: bool, left: nat)
      requires Apart(target)
      modifies target
      ensures var plan := Plan(old(Contents()));
        && ok == (|plan| <= budget)
        && left == budget - Min(budget, |plan|)
        && target.rows == Executed(old(target.rows), plan, budget)
    {
      ghost var puts, removes := Puts(Scan(inserts.rows)), Removes(Scan(deletes.rows));
      ghost var before := target.rows;
      var stream := Scan(inserts.rows);
      ok, left := target.UpsertAll(stream, budget);
      ReplaySplit(before, puts, removes, Min(budget, |puts + removes|));
      if ok {
        assert puts[..|puts|] == puts;
        stream := Scan(deletes.rows);
        ok, left := target.DeleteAll(stream, left);
      }
    }
  }

  lemma ReplaySplit(rows: Rows, a: seq<Op>, b: seq<Op>, n: nat)
    requires n <= |a + b|
    ensures n <= |a| ==> Replay(rows, (a + b)[..n]) == Replay(rows, a[..n])
    ensures |a| <= n ==> Replay(rows, (a + b)[..n]) == Replay(Replay(rows, a), b[..n - |a|])
  {
    if n <= |a| {
      assert (a + b)[..n] == a[..n];
    }
    if |a| <= n {
      assert (a + b)[..n] == a + b[..n - |a|];
      ReplayConcat(rows, a, b[..n - |a|]);
    }
  }

  ghost function StoresOf(deltas: map<TxnId, Delta>): set<NativeStore> {
    (set t | t in deltas :: deltas[t].inserts) + (set t | t in deltas :: deltas[t].deletes)
  }

  ghost function StoresOfCommitted(deltas: map<TxnId, Option<Delta>>): set<NativeStore> {
    (set t | t in deltas && deltas[t].Some? :: deltas[t].value.inserts)
    + (set t | t in deltas && deltas[t].Some? :: deltas[t].value.deletes)
  }

  /** Deltas with stores of their own that hold the given layers, but for some of them. */
  ghost predicate PendingHold(deltas: map<TxnId, Delta>, layers: map<TxnId, Layer>, except: set<TxnId>)
    reads StoresOf(deltas)
  {
    && deltas.Keys == layers.Keys
    && (forall t | t in deltas :: deltas[t].HomeIs(t))
    && forall t | t in deltas && t !in except ::
         deltas[t].inserts.rows == layers[t].inserts && deltas[t].deletes.rows == layers[t].deletes
  }

  lemma HoldsAll(deltas: map<TxnId, Delta>, layers: map<TxnId, Layer>, t: TxnId)
    requires PendingHold(deltas, layers, {t}) && t in deltas
    ensures PendingHold(deltas, layers[t := deltas[t].Contents()], {})
  {
  }

  ghost predicate CommittedHold(deltas: map<TxnId, Option<Delta>>, layers: map<TxnId, Option<Layer>>)
    reads StoresOfCommitted(deltas)
  {
    && deltas.Keys == layers.Keys
    && (forall t | t in deltas :: deltas[t].Some? <==> layers[t].Some?)
    && forall t | t in deltas && deltas[t].Some? ::
         && deltas[t].value.HomeIs(t)
         && deltas[t].value.inserts.rows == layers[t].value.inserts
         && deltas[t].value.deletes.rows == layers[t].value.deletes
  }

  /** Handles of the stores a transaction may read. */
  datatype Handles = Handles(persistent: NativeStore, deltas: seq<Delta>)

  class CollectionOwner {
    const persistent: NativeStore
    var committed: map<TxnId, Option<Delta>>
    var pending: map<TxnId, Delta>
    var finalized: Option<TxnId>

    /** The collection's state as a value. */
    ghost var value: State

    constructor (persistent: NativeStore)
      requires persistent.home == Canonical
      ensures Valid() && this.persistent == persistent
      ensures value == State(persistent.rows, map[], map[], None)
    {
      this.persistent := persistent;
      committed, pending, finalized := map[], map[], None;
      value := State(persistent.rows, map[], map[], None);
    }

    /** Every delta has stores of its own, and `value` is what they hold. */
    ghost predicate Valid()
      reads this, persistent, StoresOf(pending), StoresOfCommitted(committed)
    {
      ValidExcept({})
    }

    /** As `Valid`, but for what the pending deltas of some transactions hold. */
    ghost predicate ValidExcept(except: set<TxnId>)
      reads this, persistent, StoresOf(pending), StoresOfCommitted(committed)
    {
      && persistent.home == Canonical && value.persistent == persistent.rows
      && value.finalized == finalized
      && pending.Keys !! committed.Keys
      && PendingHold(pending, value.pending, except) && CommittedHold(committed, value.committed)
    }

    method AssertWritable(txn: TxnId) returns (r: Outcome)
      requires Valid()
      ensures r == Versions.AssertWritable(value, txn)
    {
      if finalized.Some? && txn <= finalized.value { return Refused(Outdated); }
      if txn in committed { return Refused(Committed); }
      r := Done;
    }

    /** The handles of the committed deltas up to `txn`, in order, and what they hold. */
    method CommittedUpTo(txn: TxnId) returns (deltas: seq<Delta>, ghost layers: seq<Layer>)
      requires Valid()
      ensures |layers| == |deltas|
      ensures forall i | 0 <= i < |deltas| :: deltas[i].Apart(persistent) && deltas[i].Contents() == layers[i]
      ensures layers == Below(value.committed, txn + 1)
    {
      deltas, layers := [], [];
      for t := 0 to txn + 1
        invariant |layers| == |deltas|
        invariant forall i | 0 <= i < |deltas| :: deltas[i].Apart(persistent) && deltas[i].Contents() == layers[i]
        invariant layers == Below(value.committed, t)
      {
        if t in committed && committed[t].Some? {
          deltas, layers := deltas + [committed[t].value], layers + [committed[t].value.Contents()];
        }
      }
    }

    method VisibleSnapshot(txn: TxnId) returns (snapshot: Handles, ghost layers: seq<Layer>)
      requires Valid()
      ensures snapshot.persistent == persistent && |layers| == |snapshot.deltas|
      ensures forall i | 0 <= i < |layers| ::
                snapshot.deltas[i].Apart(persistent) && snapshot.deltas[i].Contents() == layers[i]
      ensures Versions.VisibleSnapshot(value, txn) == Snapshot(persistent.rows, layers)
    {
      var deltas;
      deltas, layers := CommittedUpTo(txn);
      if txn in pending {
        deltas, layers := deltas + [pending[txn]], layers + [pending[txn].Contents()];
      }
      snapshot := Handles(persistent, deltas);
    }

    /** The delta a transaction writes to, created on its first write. */
    method PendingDelta(txn: TxnId) returns (r: Outcome, delta: Option<Delta>)
      requires Valid()
      modifies this
      ensures Valid() && r == Versions.AssertWritable(old(value), txn)
      ensures r != Done ==> value == old(value) && pending == old(pending)
      ensures r == Done ==>
        && txn in pending && delta == Some(pending[txn])
        && value == WithPending(old(value), txn, PendingAt(old(value), txn))
        && (if txn in old(pending) then pending == old(pending)
            else fresh(pending[txn].inserts) && fresh(pending[txn].deletes))
    {
      delta := None;
      r := AssertWritable(txn);
      if r != Done { return; }
      if txn !in pending {
        var created := new Delta(txn);
        Install(txn, created);
      }
      delta := Some(pending[txn]);
    }

    /** `Delta::insert` of a BTree and `Delta::upsert` of a Table, on a pending delta. */
    method PutPending(txn: TxnId, key: Row, values: Row)
      requires Valid() && txn in pending
      modifies pending[txn].inserts, pending[txn].deletes, `value
      ensures Valid()
      ensures value == WithPending(old(value), txn, Edit(old(value).pending[txn], Put(key, values)))
    {
      ghost var was := value.pending[txn];
      ghost var half := was.(deletes := was.deletes - {key});
      WithPendingTwice(value, txn, half, Edit(was, Put(key, values)));
      Unmark(txn, key);
      AddInserted(txn, key, values);
    }

    /** Puts a new delta in place of what a transaction has pending. */
    method Install(txn: TxnId, delta: Delta)
      requires Valid() && txn !in committed && delta.HomeIs(txn)
      modifies `pending, `value
      ensures Valid() && pending == old(pending)[txn := delta]
      ensures value == WithPending(old(value), txn, delta.Contents())
    {
      pending := pending[txn := delta];
      value := WithPending(value, txn, delta.Contents());
    }

    /** Makes `value` follow a write to one of a pending delta's stores. */
    ghost method Follow(txn: TxnId)
      requires ValidExcept({txn}) && txn in pending
      modifies `value
      ensures Valid() && value == WithPending(old(value), txn, pending[txn].Contents())
    {
      value := WithPending(value, txn, pending[txn].Contents());
      HoldsAll(pending, old(value.pending), txn);
    }

    method Unmark(txn: TxnId, key: Row)
      requires Valid() && txn in pending
      modifies pending[txn].deletes, `value
      ensures Valid()
      ensures var was := old(value).pending[txn];
        value == WithPending(old(value), txn, was.(deletes := was.deletes - {key}))
    {
      pending[txn].deletes.Delete(key);
      Follow(txn);
    }

    method AddInserted(txn: TxnId, key: Row, values: Row)
      requires Valid() && txn in pending
      modifies pending[txn].inserts, `value
      ensures Valid()
      ensures var was := old(value).pending[txn];
        value == WithPending(old(value), txn, was.(inserts := was.inserts[key := values]))
    {
      pending[txn].inserts.Upsert(key, values);
      Follow(txn);
    }

    method DropInserted(txn: TxnId, key: Row)
      requires Valid() && txn in pending
      modifies pending[txn].inserts, `value
      ensures Valid()
      ensures var was := old(value).pending[txn];
        value == WithPending(old(value), txn, was.(inserts := was.inserts - {key}))
    {
      pending[txn].inserts.Delete(key);
      Follow(txn);
    }

    method MarkDeleted(txn: TxnId, key: Row, values: Row)
      requires Valid() && txn in pending
      modifies pending[txn].deletes, `value
      ensures Valid()
      ensures var was := old(value).pending[txn];
        value == WithPending(old(value), txn, was.(deletes := was.deletes[key := values]))
    {
      pending[txn].deletes.Upsert(key, values);
      Follow(txn);
    }

    method TakePending(txn: TxnId) returns (delta: Option<Delta>)
      requires Valid()
      modifies `pending, `value
      ensures Valid() && txn !in pending
      ensures value == old(value).(pending := old(value).pending - {txn})
      ensures delta.Some? <==> txn in old(value).pending
      ensures delta.Some? ==> delta.value.HomeIs(txn) && delta.value.Contents() == old(value).pending[txn]
    {
      delta := if txn in pending then Some(pending[txn]) else None;
      pending := pending - {txn};
      value := value.(pending := value.pending - {txn});
    }

    method RecordCommit(txn: TxnId, delta: Option<Delta>)
      requires Valid() && txn !in pending && txn !in committed && (delta.Some? ==> delta.value.HomeIs(txn))
      modifies `committed, `value
      ensures Valid()
      ensures value == old(value).(committed :=
        old(value).committed[txn := if delta.Some? then Some(delta.value.Contents()) else None])
    {
      committed := committed[txn := delta];
      value := value.(committed := value.committed[txn := if delta.Some? then Some(delta.value.Contents()) else None]);
    }

    method Commit(txn: TxnId) returns (r: Outcome)
      requires Valid()
      modifies this
      ensures Valid()
      ensures value == Versions.Commit(old(value), txn) && r == CommitOutcome(old(value), txn)
    {
      if finalized.Some? && txn <= finalized.value { return Refused(Outdated); }
      if txn in committed { return Done; }
      var delta := TakePending(txn);
      RecordCommit(txn, delta);
      r := Done;
    }

    method Rollback(txn: TxnId) returns (r: Outcome)
      requires Valid()
      modifies this
      ensures Valid()
      ensures value == Versions.Rollback(old(value), txn) && r == RollbackOutcome(old(value), txn)
    {
      if finalized.Some? && txn <= finalized.value {
        return Refused(Outdated);
      } else if txn in committed {
        return Refused(Conflict);
      } else {
        var _ := TakePending(txn);
      }
      r := Done;
    }

    /** Merges the committed deltas through the cutoff into the canonical store, then prunes.
        After an I/O error nothing is pruned and the store is left partly merged. */
    method Finalize(txn: TxnId, budget: nat) returns (r: Outcome)
      requires Valid()
      modifies this, persistent
      ensures Valid()
      ensures r == FinalizeOutcome(old(value), txn, budget)
      ensures value == FinalizeResult(old(value), txn, budget)
    {
      if finalized.Some? && txn <= finalized.value { return Done; }
      var ok := MergeThrough(txn, budget);
      if !ok { return Refused(Background); }
      PruneThrough(txn);
      r := Done;
    }

    method MergeThrough(txn: TxnId, budget: nat) returns (ok: bool)
      requires Valid()
      modifies persistent, `value
      ensures Valid()
      ensures ok == (|FinalizePlan(old(value), txn)| <= budget)
      ensures value == Merged(old(value), txn, budget)
    {
      var deltas, left;
      ghost var layers;
      deltas, layers := CommittedUpTo(txn);
      ok, left := ApplyAll(deltas, layers, persistent, budget);
      value := value.(persistent := persistent.rows);
    }

    method PruneThrough(txn: TxnId)
      requires Valid()
      modifies this
      ensures Valid() && value == Prune(old(value), txn)
    {
      committed := committed - UpTo(committed.Keys, txn);
      pending := pending - UpTo(pending.Keys, txn);
      finalized := Some(txn);
      value := Prune(value, txn);
    }
  }

  /** Applies deltas to a store in order. */
  method ApplyAll(deltas: seq<Delta>, ghost layers: seq<Layer>, target: NativeStore, budget: nat)
    returns (ok: bool, left: nat)
    requires |layers| == |deltas|
    requires forall i | 0 <= i < |deltas| :: deltas[i].Apart(target) && deltas[i].Contents() == layers[i]
    modifies target
    ensures var plan := PlanStack(layers);
      && ok == (|plan| <= budget)
      && left == budget - Min(budget, |plan|)
      && target.rows == Executed(old(target.rows), plan, budget)
  {
    hide Plan, Do;
    ghost var before, plans := target.rows, Plans(layers);
    left := budget;
    var i := 0;
    while i < |deltas|
      invariant 0 <= i <= |deltas|
      invariant forall j | 0 <= j < |deltas| :: deltas[j].Contents() == layers[j]
      invariant |Flatten(plans[..i])| + left == budget
      invariant target.rows == Replay(before, Flatten(plans[..i]))
    {
      ExecutedNext(before, plans, i, left, budget);
      ghost var start, had := target.rows, left;
      ok, left := deltas[i].ApplyTo(target, left);
      assert target.rows == Executed(start, plans[i], had);
      if !ok { return; }
      i := i + 1;
    }
    assert plans[..i] == plans;
    ExecutedAll(before, Flatten(plans), budget);
    ok := true;
  }

  lemma {:induction false} FlattenPrefix(plans: seq<seq<Op>>, i: nat)
    requires i <= |plans|
    ensures Flatten(plans[..i]) <= Flatten(plans)
  {
    if i < |plans| {
      FlattenPrefix(plans[..|plans| - 1], i);
      assert plans[..|plans| - 1][..i] == plans[..i];
    } else {
      assert plans[..i] == plans;
    }
  }

  /** One more plan, in full or cut short. */
  lemma ExecutedNext(rows: Rows, plans: seq<seq<Op>>, i: nat, left: nat, budget: nat)
    requires i < |plans| && |Flatten(plans[..i])| + left == budget
    ensures var done, plan := Flatten(plans[..i]), plans[i];
      if |plan| <= left then
        Flatten(plans[..i + 1]) == done + plan && Replay(rows, done + plan) == Executed(Replay(rows, done), plan, left)
      else
        && budget < |Flatten(plans)|
        && Executed(rows, Flatten(plans), budget) == Executed(Replay(rows, done), plan, left)
  {
    var done, plan := Flatten(plans[..i]), plans[i];
    FlattenPrefix(plans, i + 1);
    assert plans[..i + 1][..i] == plans[..i];
    var n := Min(left, |plan|);
    ReplaySplit(rows, done, plan, |done| + n);
    SamePrefix(done + plan, Flatten(plans), |done| + n);
    assert (done + plan)[..|done + plan|] == done + plan;
  }

  lemma SamePrefix(a: seq<Op>, b: seq<Op>, n: nat)
    requires a <= b && n <= |a|
    ensures a[..n] == b[..n]
  {
  }
}
