/** Serial equivalence: what every transaction sees is the replay of operation logs in
    TxnId order, whatever the order in which they were written, committed and merged. */
module Serial {
  import opened Optional
  import opened Collation
  import opened Streams
  import opened Layers
  import opened Versions
  import opened Lifecycle

  /** The delta of a transaction, pending or ever committed. */
  function LayerAt(m: Machine, t: TxnId): Layer {
    if t in m.history then (if m.history[t].Some? then m.history[t].value else EMPTY_LAYER) else PendingOf(m, t)
  }

  /** The initial rows after the logs of the transactions committed below `n`, in TxnId order. */
  function SerialRows(m: Machine, n: nat): Rows {
    if n == 0 then m.origin
    else if n - 1 in m.history then Replay(SerialRows(m, n - 1), Log(m, n - 1))
    else SerialRows(m, n - 1)
  }

  function UncommittedLog(m: Machine, t: TxnId): seq<Op> { if t in m.history then [] else Log(m, t) }

  /** The serial specification of a transaction's view. */
  function SerialView(m: Machine, t: TxnId): Rows { Replay(SerialRows(m, t + 1), UncommittedLog(m, t)) }

  /** A delta does to the serial rows below it what its log says. */
  ghost predicate Faithful(m: Machine, t: TxnId) {
    View(SerialRows(m, t), LayerAt(m, t)) == Replay(SerialRows(m, t), Log(m, t))
  }

  lemma {:induction false} PastIsSerial(m: Machine, n: nat)
    requires forall t: TxnId | t < n :: Faithful(m, t)
    ensures Past(m, n) == SerialRows(m, n)
  {
    hide Replay, Log;
    if 0 < n {
      var t := n - 1;
      PastIsSerial(m, t);
      assert Faithful(m, t);
      BetweenSplit(m.history, 0, t, n);
      if t in m.history && m.history[t].Some? {
        assert Below(m.history, n) == Below(m.history, t) + [m.history[t].value];
        assert (Below(m.history, t) + [m.history[t].value])[..|Below(m.history, t)|] == Below(m.history, t);
      } else {
        assert View(Past(m, t), EMPTY_LAYER) == Past(m, t);
        assert Below(m.history, n) == Below(m.history, t);
      }
    }
  }

  lemma ViewIsSerial(m: Machine, t: TxnId)
    requires Inv(m) && m.floor <= t + 1
    requires forall x: TxnId | x <= t :: Faithful(m, x)
    ensures VisibleAt(m.s, t) == SerialView(m, t)
  {
    VisibleIsPast(m, t);
    PastIsSerial(m, t + 1);
    OwnView(Past(m, t + 1), m.s, t);
    assert Faithful(m, t);
  }

  lemma {:induction false} SerialAgrees(a: Machine, b: Machine, n: nat)
    requires a.origin == b.origin
    requires forall t: TxnId | t < n :: t in a.history <==> t in b.history
    requires forall t: TxnId | t < n && t in a.history :: Log(a, t) == Log(b, t)
    ensures SerialRows(a, n) == SerialRows(b, n)
  {
    if 0 < n { SerialAgrees(a, b, n - 1); }
  }

  // ---------------------------------------------------------------- BTree

  /** A BTree writes one key at a time, and every delete leaves a marker. */
  ghost predicate BTreeStep(m: Machine, step: Step) {
    step.Write? ==>
      |step.ops| == 1 && OnKey(step.ops[0]) && step.next == Edit(PendingOf(m, step.txn), step.ops[0])
  }

  ghost predicate BTreeRun(m: Machine, steps: seq<Step>) {
    forall i | 0 <= i < |steps| :: BTreeStep(Run(m, steps[..i]), steps[i])
  }

  /** The delta that a log of key-level operations builds. */
  function Summary(log: seq<Op>): Layer
    requires forall op | op in log :: OnKey(op)
  {
    if log == [] then EMPTY_LAYER else Edit(Summary(log[..|log| - 1]), log[|log| - 1])
  }

  /** A delta built key by key replays its log over any rows whatever. */
  lemma {:induction false} SummaryReplays(rows: Rows, log: seq<Op>)
    requires forall op | op in log :: OnKey(op)
    ensures View(rows, Summary(log)) == Replay(rows, log)
  {
    if log != [] {
      SummaryReplays(rows, log[..|log| - 1]);
      EditDoes(rows, Summary(log[..|log| - 1]), log[|log| - 1]);
    }
  }

  ghost predicate Summarizes(m: Machine, t: TxnId) {
    && (forall op | op in Log(m, t) :: OnKey(op))
    && LayerAt(m, t) == Summary(Log(m, t))
  }

  ghost predicate BTreeInv(m: Machine) { Inv(m) && forall t: TxnId :: Summarizes(m, t) }

  lemma BTreeStepKeeps(m: Machine, step: Step)
    requires BTreeInv(m) && Contract(m, step) && BTreeStep(m, step)
    ensures BTreeInv(Next(m, step))
  {
    if step.Write? { EditDoes(map[], PendingOf(m, step.txn), step.ops[0]); }
    StepKeeps(m, step);
    forall t: TxnId ensures Summarizes(Next(m, step), t) {
      assert Summarizes(m, t);
      if step.Write? && step.txn == t && AssertWritable(m.s, t) == Done {
        WriteSummarizes(m, step, t);
      } else {
        LayersKept(m, step, t);
      }
    }
  }

  lemma WriteSummarizes(m: Machine, step: Step, t: TxnId)
    requires Ordered(m) && BTreeStep(m, step) && step.Write? && step.txn == t && AssertWritable(m.s, t) == Done
    requires Summarizes(m, t)
    ensures Summarizes(Next(m, step), t)
  {
    assert step.ops == [step.ops[0]];
    SummaryOfNext(Log(m, t), step.ops[0]);
  }

  lemma SummaryOfNext(log: seq<Op>, op: Op)
    requires OnKey(op) && forall x | x in log :: OnKey(x)
    ensures Summary(log + [op]) == Edit(Summary(log), op)
  {
    assert (log + [op])[..|log|] == log;
  }

  /** A step other than the transaction's own write or rollback, or a prune that discards it,
      keeps its delta and its log; those that discard it leave both empty. */
  lemma LayersKept(m: Machine, step: Step, t: TxnId)
    requires Ordered(m)
    requires !(step.Write? && step.txn == t && AssertWritable(m.s, t) == Done)
    ensures var m' := Next(m, step);
      || (LayerAt(m', t) == LayerAt(m, t) && Log(m', t) == Log(m, t))
      || (LayerAt(m', t) == EMPTY_LAYER && Log(m', t) == [] && t !in m.history && t !in m'.history)
  {
  }

  lemma {:induction false} BTreeRunKeeps(origin: Rows, steps: seq<Step>)
    requires ContractRun(Start(origin), steps) && BTreeRun(Start(origin), steps)
    ensures BTreeInv(Run(Start(origin), steps))
  {
    if steps == [] {
      StartHolds(origin);
    } else {
      var front := steps[..|steps| - 1];
      assert forall i | 0 <= i < |front| :: front[..i] == steps[..i];
      BTreeRunKeeps(origin, front);
      BTreeStepKeeps(Run(Start(origin), front), steps[|steps| - 1]);
    }
  }

  /** Serial equivalence of BTrees: inserts, deletes, commits in any order, rollbacks and
      step-by-step finalizes may interleave in any way; every transaction at the cutoff or above
      sees the serial replay. */
  lemma BTreeIsSerial(origin: Rows, steps: seq<Step>, t: TxnId)
    requires ContractRun(Start(origin), steps) && BTreeRun(Start(origin), steps)
    requires Run(Start(origin), steps).floor <= t + 1
    ensures var m := Run(Start(origin), steps); VisibleAt(m.s, t) == SerialView(m, t)
  {
    BTreeRunKeeps(origin, steps);
    var m := Run(Start(origin), steps);
    forall x: TxnId ensures Faithful(m, x) {
      assert Summarizes(m, x);
      SummaryReplays(SerialRows(m, x), Log(m, x));
    }
    ViewIsSerial(m, t);
  }

  /** What a finalize through `c` of this state leaves is the serial replay up to `c`, at every key
      that is not exposed to a failed finalize or whose row that one has not moved, and at no other;
      so the whole replay if and only if no exposed row has been moved. */
  ghost predicate FinalizedSerially(m: Machine, c: TxnId, after: Rows) {
    var serial := SerialRows(m, c + 1);
    && (forall k :: Get(after, k) == Get(serial, k) <==> !Exposed(m, c, k) || Unmoved(m, k))
    && (after == serial <==> forall k | Exposed(m, c, k) :: Unmoved(m, k))
    && (m.floor <= c + 1 ==> after == serial)
  }

  lemma FinalizeIsSerial(m: Machine, c: TxnId, during: seq<Step>, end: Machine)
    requires Inv(m) && MergingRun(m, c, during, end) && forall x: TxnId :: Faithful(m, x)
    ensures FinalizedSerially(m, c, Next(end, EndFinalize).s.persistent)
  {
    InterleavedFinalize(m, c, during, end);
    PastIsSerial(m, c + 1);
    FinalizedIsPastIff(m, c);
    hide Faithful, Inv, Past, Finalize, Next, Exposed, Unmoved, SerialRows;
    forall k
      ensures Get(Finalize(m.s, c).persistent, k) == Get(Past(m, c + 1), k) <==> !Exposed(m, c, k) || Unmoved(m, k)
      ensures m.floor <= c + 1 ==> !Exposed(m, c, k)
    {
      FinalizedIsPast(m, c, k);
    }
  }

  /** After any run, a finalize leaves the serial replay up to its cutoff, whatever other steps
      come between its own, but for the rows that an earlier, failed finalize has moved. */
  lemma BTreeFinalizeIsSerial(origin: Rows, steps: seq<Step>, m: Machine, c: TxnId, during: seq<Step>, end: Machine)
    requires ContractRun(Start(origin), steps) && BTreeRun(Start(origin), steps) && m == Run(Start(origin), steps)
    requires MergingRun(m, c, during, end)
    ensures FinalizedSerially(m, c, Next(end, EndFinalize).s.persistent)
  {
    hide Next, Run, ContractRun, BTreeRun, FinalizedSerially, MergingRun;
    BTreeRunKeeps(origin, steps);
    BTreeFaithful(m);
    FinalizeIsSerial(m, c, during, end);
  }

  lemma BTreeFaithful(m: Machine)
    requires BTreeInv(m)
    ensures forall x: TxnId :: Faithful(m, x)
  {
    forall x: TxnId ensures Faithful(m, x) {
      assert Summarizes(m, x);
      SummaryReplays(SerialRows(m, x), Log(m, x));
    }
  }

  // ---------------------------------------------------------------- Table

  /** A write that, over the rows the writer could see, does what its log entry says.
      Unlike a BTree's, it may leave out a marker that those rows make unnecessary. */
  ghost predicate FaithfulEdit(below: Rows, cur: Layer, next: Layer, ops: seq<Op>) {
    && (Disjoint(cur) ==> Disjoint(next))
    && View(below, next) == Replay(View(below, cur), ops)
    && forall k | Touches(next, k) :: Touches(cur, k) || LogTouches(ops, k)
  }

  /** What a key-scoped write reservation is for: whoever else has written the key is
      earlier and has committed. */
  ghost predicate Reserved(m: Machine, t: TxnId, ops: seq<Op>) {
    forall k, x: TxnId | x != t && LogTouches(ops, k) && LogTouches(Log(m, x), k) :: x < t && x in m.history
  }

  ghost predicate TableStep(m: Machine, step: Step) {
    step.Write? && AssertWritable(m.s, step.txn) == Done ==>
      && FaithfulEdit(ViewStack(m.s.persistent, Low(m, step.txn)), PendingOf(m, step.txn), step.next, step.ops)
      && Reserved(m, step.txn, step.ops)
  }

  ghost predicate TableRun(m: Machine, steps: seq<Step>) {
    forall i | 0 <= i < |steps| :: TableStep(Run(m, steps[..i]), steps[i])
  }

  ghost predicate Contained(m: Machine, t: TxnId) {
    Faithful(m, t) && forall k | Touches(LayerAt(m, t), k) :: LogTouches(Log(m, t), k)
  }

  /** No later transaction has written a key that an earlier one still has pending. */
  ghost predicate Unraced(m: Machine, t: TxnId, u: TxnId) {
    t < u && t !in m.history ==> forall k :: !(LogTouches(Log(m, t), k) && LogTouches(Log(m, u), k))
  }

  ghost predicate TableInv(m: Machine) {
    Inv(m) && (forall t: TxnId :: Contained(m, t)) && forall t: TxnId, u: TxnId :: Unraced(m, t, u)
  }

  lemma LogTouchesConcat(a: seq<Op>, b: seq<Op>, k: Row)
    ensures LogTouches(a + b, k) <==> LogTouches(a, k) || LogTouches(b, k)
  {
    if op :| op in a && OpTouches(op, k) { assert op in a + b; }
    if op :| op in b && OpTouches(op, k) { assert op in a + b; }
  }

  lemma AllFaithful(m: Machine)
    requires forall t: TxnId :: Contained(m, t)
    ensures forall t: TxnId :: Faithful(m, t)
  {
    forall t: TxnId ensures Faithful(m, t) { assert Contained(m, t); }
  }

  lemma WriteContained(m: Machine, t: TxnId, next: Layer, ops: seq<Op>)
    requires TableInv(m) && Permitted(m, Write(t, next, ops)) && TableStep(m, Write(t, next, ops))
    requires AssertWritable(m.s, t) == Done
    ensures forall u: TxnId :: Contained(Next(m, Write(t, next, ops)), u)
  {
    var m' := Next(m, Write(t, next, ops));
    assert t !in m.history;
    forall u: TxnId ensures Contained(m', u) {
      assert Contained(m, u);
      SerialAgrees(m, m', u);
      if u == t {
        AboveFloor(m, t);
        AllFaithful(m);
        PastIsSerial(m, t);
        ReplayConcat(SerialRows(m, t), Log(m, t), ops);
        forall k | Touches(next, k) ensures LogTouches(Log(m', t), k) { LogTouchesConcat(Log(m, t), ops, k); }
      }
    }
  }

  lemma WriteUnraced(m: Machine, t: TxnId, next: Layer, ops: seq<Op>)
    requires TableInv(m) && Reserved(m, t, ops)
    requires AssertWritable(m.s, t) == Done
    ensures forall x: TxnId, u: TxnId :: Unraced(Next(m, Write(t, next, ops)), x, u)
  {
    var m' := Next(m, Write(t, next, ops));
    forall x: TxnId, u: TxnId ensures Unraced(m', x, u) {
      assert Unraced(m, x, u);
      forall k ensures LogTouches(Log(m', t), k) <==> LogTouches(Log(m, t), k) || LogTouches(ops, k) {
        LogTouchesConcat(Log(m, t), ops, k);
      }
      if x < u && x !in m'.history {
        forall k ensures !(LogTouches(Log(m', x), k) && LogTouches(Log(m', u), k)) {
          if x != t { assert Log(m', x) == Log(m, x); }
          if u != t { assert Log(m', u) == Log(m, u); }
        }
      }
    }
  }

  /** A commit below leaves a later delta faithful, as it wrote none of the later one's keys. */
  lemma CommitContained(m: Machine, t: TxnId)
    requires TableInv(m) && !Decided(m.s, t)
    ensures forall u: TxnId :: Contained(Next(m, CommitTxn(t)), u)
  {
    var m' := Next(m, CommitTxn(t));
    assert t !in m.history;
    forall u: TxnId ensures Contained(m', u) {
      assert Contained(m, u) && Unraced(m, t, u);
      assert LayerAt(m', u) == LayerAt(m, u) && Log(m', u) == Log(m, u);
      if u <= t {
        SerialAgrees(m, m', u);
      } else {
        forall k | LogTouches(Log(m, u), k) ensures Get(SerialRows(m', u), k) == Get(SerialRows(m, u), k) {
          SerialUntouched(m, t, u, k);
        }
        FaithfulKeywise(SerialRows(m, u), SerialRows(m', u), LayerAt(m, u), Log(m, u));
      }
    }
  }

  lemma FaithfulKeywise(a: Rows, b: Rows, d: Layer, log: seq<Op>)
    requires View(a, d) == Replay(a, log)
    requires forall k | Touches(d, k) :: LogTouches(log, k)
    requires forall k | LogTouches(log, k) :: Get(b, k) == Get(a, k)
    ensures View(b, d) == Replay(b, log)
  {
    forall k ensures Get(View(b, d), k) == Get(Replay(b, log), k) {
      if LogTouches(log, k) {
        ReplayIsKeywise(a, b, log, k);
        assert Get(View(a, d), k) == Get(View(b, d), k);
      } else {
        ReplayUntouched(b, log, k);
      }
    }
    SameRows(View(b, d), Replay(b, log));
  }

  /** What is at a key after the operation does not depend on the rows before it. */
  predicate Fixes(op: Op) { OnKey(op) || op.Replace? }

  lemma {:induction false} ReplayFixes(a: Rows, b: Rows, log: seq<Op>, k: Row)
    requires LogTouches(log, k) && forall op | op in log :: Fixes(op)
    ensures Get(Replay(a, log), k) == Get(Replay(b, log), k)
  {
    var front, last := log[..|log| - 1], log[|log| - 1];
    assert log == front + [last] && last in log && forall op | op in front :: op in log;
    if !OpTouches(last, k) {
      LogTouchesConcat(front, [last], k);
      ReplayFixes(a, b, front, k);
    }
  }

  /** A delta that does what its log says over some rows does so over other rows if and only if
      the two agree at every key that the log writes and the delta does not touch. */
  lemma FaithfulElsewhereIff(a: Rows, b: Rows, d: Layer, log: seq<Op>)
    requires View(a, d) == Replay(a, log)
    requires forall k | Touches(d, k) :: LogTouches(log, k)
    requires forall op | op in log :: Fixes(op)
    ensures View(b, d) == Replay(b, log) <==> forall k | LogTouches(log, k) && !Touches(d, k) :: Get(b, k) == Get(a, k)
  {
    forall k ensures Get(View(b, d), k) == Get(Replay(b, log), k)
                <==> !LogTouches(log, k) || Touches(d, k) || Get(b, k) == Get(a, k) {
      if LogTouches(log, k) {
        ReplayFixes(a, b, log, k);
        assert Get(View(a, d), k) == Get(Replay(a, log), k);
      } else {
        ReplayUntouched(b, log, k);
      }
    }
    if forall k | LogTouches(log, k) && !Touches(d, k) :: Get(b, k) == Get(a, k) {
      SameRows(View(b, d), Replay(b, log));
    }
  }

  lemma {:induction false} SerialUntouched(m: Machine, t: TxnId, n: nat, k: Row)
    requires !Decided(m.s, t) && t !in m.history && !LogTouches(Log(m, t), k)
    ensures Get(SerialRows(Next(m, CommitTxn(t)), n), k) == Get(SerialRows(m, n), k)
  {
    if 0 < n {
      var m' := Next(m, CommitTxn(t));
      SerialUntouched(m, t, n - 1, k);
      if n - 1 == t {
        ReplayUntouched(SerialRows(m', t), Log(m, t), k);
      } else if n - 1 in m.history {
        ReplayIsKeywise(SerialRows(m', n - 1), SerialRows(m, n - 1), Log(m, n - 1), k);
      }
    }
  }

  lemma OtherContained(m: Machine, step: Step)
    requires TableInv(m) && !step.Write? && !step.CommitTxn?
    ensures forall u: TxnId :: Contained(Next(m, step), u)
  {
    forall u: TxnId ensures Contained(Next(m, step), u) {
      assert Contained(m, u);
      LayersKept(m, step, u);
      OtherSerial(m, step, u);
      assert View(SerialRows(m, u), EMPTY_LAYER) == SerialRows(m, u);
    }
  }

  lemma OtherSerial(m: Machine, step: Step, n: nat)
    requires !step.Write? && !step.CommitTxn? && Ordered(m)
    ensures SerialRows(Next(m, step), n) == SerialRows(m, n)
  {
    forall t: TxnId | t in m.history ensures Log(Next(m, step), t) == Log(m, t) { LayersKept(m, step, t); }
    SerialAgrees(m, Next(m, step), n);
  }

  lemma OtherUnraced(m: Machine, step: Step)
    requires TableInv(m) && !(step.Write? && AssertWritable(m.s, step.txn) == Done)
    ensures forall x: TxnId, u: TxnId :: Unraced(Next(m, step), x, u)
  {
    forall x: TxnId, u: TxnId ensures Unraced(Next(m, step), x, u) {
      assert Unraced(m, x, u);
      LayersKept(m, step, x);
      LayersKept(m, step, u);
    }
  }

  lemma TableStepKeeps(m: Machine, step: Step)
    requires TableInv(m) && Contract(m, step) && TableStep(m, step)
    ensures TableInv(Next(m, step))
  {
    StepKeeps(m, step);
    if step.Write? && AssertWritable(m.s, step.txn) == Done {
      WriteContained(m, step.txn, step.next, step.ops);
      WriteUnraced(m, step.txn, step.next, step.ops);
    } else {
      OtherUnraced(m, step);
      if step.CommitTxn? && !Decided(m.s, step.txn) {
        CommitContained(m, step.txn);
      } else if !step.Write? && !step.CommitTxn? {
        OtherContained(m, step);
      }
    }
  }

  lemma {:induction false} TableRunKeeps(origin: Rows, steps: seq<Step>)
    requires ContractRun(Start(origin), steps) && TableRun(Start(origin), steps)
    ensures TableInv(Run(Start(origin), steps))
  {
    if steps == [] {
      StartHolds(origin);
      forall t: TxnId ensures Contained(Start(origin), t) {
        assert View(SerialRows(Start(origin), t), EMPTY_LAYER) == SerialRows(Start(origin), t);
      }
    } else {
      var front := steps[..|steps| - 1];
      assert forall i | 0 <= i < |front| :: front[..i] == steps[..i];
      TableRunKeeps(origin, front);
      TableStepKeeps(Run(Start(origin), front), steps[|steps| - 1]);
    }
  }

  /** Serial equivalence of Tables, and of whole-collection restoration: as for BTrees, in
      every run whose writes are reserved key by key. */
  lemma TableIsSerial(origin: Rows, steps: seq<Step>, t: TxnId)
    requires ContractRun(Start(origin), steps) && TableRun(Start(origin), steps)
    requires Run(Start(origin), steps).floor <= t + 1
    ensures var m := Run(Start(origin), steps); VisibleAt(m.s, t) == SerialView(m, t)
  {
    TableRunKeeps(origin, steps);
    var m := Run(Start(origin), steps);
    AllFaithful(m);
    ViewIsSerial(m, t);
  }

  lemma TableFinalizeIsSerial(origin: Rows, steps: seq<Step>, m: Machine, c: TxnId, during: seq<Step>, end: Machine)
    requires ContractRun(Start(origin), steps) && TableRun(Start(origin), steps) && m == Run(Start(origin), steps)
    requires MergingRun(m, c, during, end)
    ensures FinalizedSerially(m, c, Next(end, EndFinalize).s.persistent)
  {
    hide Next, Run, ContractRun, TableRun, FinalizedSerially, MergingRun;
    TableRunKeeps(origin, steps);
    AllFaithful(m);
    FinalizeIsSerial(m, c, during, end);
  }
}
