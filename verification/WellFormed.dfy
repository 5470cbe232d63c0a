/** What every run keeps of the rows that the stores of a collection hold. */
module WellFormed {
  import opened Optional
  import opened Collation
  import opened Streams
  import opened Layers
  import opened Versions
  import opened Lifecycle

  /** A condition on the rows of a collection, by key and values. */
  type Check = (Row, Row) -> bool

  ghost predicate RowsMeet(rows: Rows, ok: Check) { forall k | k in rows :: ok(k, rows[k]) }

  ghost predicate LayerMeets(d: Layer, ok: Check) { RowsMeet(d.inserts, ok) && RowsMeet(d.deletes, ok) }

  ghost predicate PlanMeets(plan: seq<Op>, ok: Check) {
    forall op | op in plan :: OnKey(op) && (op.Put? ==> ok(op.key, op.values))
  }

  /** Every row in every store of a collection, and every row a merge has yet to write. */
  ghost predicate Meets(m: Machine, ok: Check) {
    && RowsMeet(m.s.persistent, ok)
    && (forall t | t in m.s.committed && m.s.committed[t].Some? :: LayerMeets(m.s.committed[t].value, ok))
    && (forall t | t in m.s.pending :: LayerMeets(m.s.pending[t], ok))
    && (m.fin.Merging? ==> PlanMeets(m.fin.todo, ok))
  }

  lemma PlanOfMeets(d: Layer, ok: Check)
    requires LayerMeets(d, ok)
    ensures PlanMeets(Plan(d), ok)
  {
    ScanLists(d.inserts);
    var puts, removes := Puts(Scan(d.inserts)), Removes(Scan(d.deletes));
    forall op | op in Plan(d) ensures OnKey(op) && (op.Put? ==> ok(op.key, op.values)) {
      if op in puts {
        var i :| 0 <= i < |puts| && op == puts[i];
        assert Scan(d.inserts)[i] in Scan(d.inserts);
      }
    }
  }

  lemma {:induction false} PlanStackMeets(ds: seq<Layer>, ok: Check)
    requires forall d | d in ds :: LayerMeets(d, ok)
    ensures PlanMeets(PlanStack(ds), ok)
  {
    if ds != [] {
      PlanOfTop(ds);
      PlanStackMeets(ds[..|ds| - 1], ok);
      PlanOfMeets(ds[|ds| - 1], ok);
    }
  }

  lemma BelowMeets(c: map<TxnId, Option<Layer>>, n: nat, ok: Check)
    requires forall t | t in c && c[t].Some? :: LayerMeets(c[t].value, ok)
    ensures forall d | d in Below(c, n) :: LayerMeets(d, ok)
  {
    InBetween(c, 0, n);
  }

  /** A step keeps the condition if what it writes, when it is a write, meets it. */
  lemma StepMeets(m: Machine, step: Step, ok: Check)
    requires Meets(m, ok)
    requires step.Write? && AssertWritable(m.s, step.txn) == Done ==> LayerMeets(step.next, ok)
    ensures Meets(Next(m, step), ok)
  {
    hide LayerMeets, PlanStack, Between;
    match step
    case BeginFinalize(c) =>
      BelowMeets(m.s.committed, c + 1, ok);
      PlanStackMeets(Below(m.s.committed, c + 1), ok);
    case MergeOne =>
      if m.fin.Merging? && m.fin.todo != [] {
        assert m.fin.todo[0] in m.fin.todo;
        DoMeets(m.s.persistent, m.fin.todo[0], ok);
      }
    case _ =>
  }

  lemma DoMeets(rows: Rows, op: Op, ok: Check)
    requires RowsMeet(rows, ok) && OnKey(op) && (op.Put? ==> ok(op.key, op.values))
    ensures RowsMeet(Do(rows, op), ok)
  {
  }

  /** What any transaction reads meets the condition. */
  lemma SnapshotMeets(m: Machine, t: TxnId, ok: Check)
    requires Meets(m, ok)
    ensures var snapshot := VisibleSnapshot(m.s, t);
      RowsMeet(snapshot.persistent, ok) && forall d | d in snapshot.deltas :: LayerMeets(d, ok)
  {
    BelowMeets(m.s.committed, t + 1, ok);
  }

  /** Every delta that any transaction reads is disjoint. */
  lemma SnapshotDisjoint(m: Machine, t: TxnId)
    requires Ordered(m)
    ensures AllDisjoint(VisibleSnapshot(m.s, t).deltas)
  {
    BetweenDisjoint(m.s.committed, 0, t + 1);
  }

  lemma {:induction false} StackMeets(rows: Rows, ds: seq<Layer>, ok: Check)
    requires RowsMeet(rows, ok) && forall d | d in ds :: LayerMeets(d, ok)
    ensures RowsMeet(ViewStack(rows, ds), ok)
  {
    if ds != [] {
      assert ds[|ds| - 1] in ds;
      StackMeets(rows, ds[..|ds| - 1], ok);
    }
  }
}
