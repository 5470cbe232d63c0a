/** A collection as a transition system.  `finalize` is split into the capture of the
    committed deltas, one native write at a time, and the prune, because the state lock
    is not held while deltas are applied; every other operation may come in between. */
module Lifecycle {
  import opened Optional
  import opened Collation
  import opened Streams
  import opened Layers
  import opened Versions

  datatype Finalizing = Idle | Merging(cutoff: TxnId, todo: seq<Op>)

  /** A snapshot in use: the committed deltas it captured and the keys its read permit covers. */
  datatype Reader = Reader(txn: TxnId, base: seq<Layer>, range: iset<Row>)

  /** The collection, and a record of its past: the rows it began with, every delta ever
      committed, what each transaction asked for, and the first id no finalize has covered. */
  datatype Machine = Machine(
    s: State,
    fin: Finalizing,
    readers: map<nat, Reader>,
    floor: nat,
    origin: Rows,
    history: map<TxnId, Option<Layer>>,
    logs: map<TxnId, seq<Op>>)

  datatype Step =
    | Write(txn: TxnId, next: Layer, ops: seq<Op>)
    | CommitTxn(txn: TxnId)
    | RollbackTxn(txn: TxnId)
    | BeginFinalize(cutoff: TxnId)
    | MergeOne
    | FailMerge
    | EndFinalize
    | Open(id: nat, txn: TxnId, range: iset<Row>)
    | Close(id: nat)

  function Start(origin: Rows): Machine {
    Machine(State(origin, map[], map[], None), Idle, map[], 0, origin, map[], map[])
  }

  function Log(m: Machine, t: TxnId): seq<Op> { if t in m.logs then m.logs[t] else [] }

  function PendingOf(m: Machine, t: TxnId): Layer { PendingAt(m.s, t) }

  predicate Decided(s: State, t: TxnId) { Closed(s, t) || t in s.committed }

  function Max(a: nat, b: nat): nat { if a < b then b else a }

  ghost function Next(m: Machine, step: Step): Machine {
    match step
    case Write(t, next, ops) =>
      if AssertWritable(m.s, t) != Done then m
      else m.(s := m.s.(pending := m.s.pending[t := next]), logs := m.logs[t := Log(m, t) + ops])
    case CommitTxn(t) =>
      if Decided(m.s, t) then m
      else var s := Versions.Commit(m.s, t); m.(s := s, history := m.history[t := s.committed[t]])
    case RollbackTxn(t) =>
      if Decided(m.s, t) then m else m.(s := Versions.Rollback(m.s, t), logs := m.logs - {t})
    case BeginFinalize(c) =>
      if Closed(m.s, c) then m
      else m.(fin := Merging(c, PlanStack(Below(m.s.committed, c + 1))), floor := Max(m.floor, c + 1))
    case MergeOne =>
      if m.fin.Idle? || m.fin.todo == [] then m
      else m.(s := m.s.(persistent := Do(m.s.persistent, m.fin.todo[0])), fin := m.fin.(todo := m.fin.todo[1..]))
    case FailMerge => m.(fin := Idle)
    case EndFinalize =>
      if m.fin.Idle? || m.fin.todo != [] then m
      else m.(s := Prune(m.s, m.fin.cutoff), fin := Idle,
              logs := map t | t in m.logs && (m.fin.cutoff < t || t in m.history) :: m.logs[t])
    case Open(id, t, range) =>
      m.(readers := m.readers[id := Reader(t, Below(m.s.committed, t + 1), range)])
    case Close(id) => m.(readers := m.readers - {id})
  }

  /** What the contract asks of callers: decisions are serialized; a finalize comes after the
      work of every transaction it covers and the release of their streams, and a commit after
      the release of its own; a delta committed below an open snapshot stays out of the range
      that snapshot has reserved. */
  ghost predicate Contract(m: Machine, step: Step) {
    match step
    case Write(t, next, ops) => AssertWritable(m.s, t) == Done ==> m.floor <= t
    case CommitTxn(t) =>
      Decided(m.s, t) ||
      (m.floor <= t && forall r | r in m.readers ::
         m.readers[r].txn != t && Undisturbed(m.readers[r], t, PendingOf(m, t)))
    case RollbackTxn(t) => true
    case BeginFinalize(c) => Closed(m.s, c) || (m.fin.Idle? && forall r | r in m.readers :: c < m.readers[r].txn)
    case MergeOne => m.fin.Merging? && m.fin.todo != []
    case FailMerge => m.fin.Merging?
    case EndFinalize => m.fin.Merging? && m.fin.todo == []
    case Open(id, t, range) => m.floor <= t + 1 && id !in m.readers
    case Close(id) => true
  }

  /** A step within the contract whose write, if it is one, leaves its delta disjoint. */
  ghost predicate Permitted(m: Machine, step: Step) {
    Contract(m, step) && (step.Write? && AssertWritable(m.s, step.txn) == Done ==> Disjoint(step.next))
  }

  ghost predicate Undisturbed(r: Reader, t: TxnId, d: Layer) {
    t < r.txn ==> forall k | k in r.range :: !Touches(d, k)
  }

  function Low(m: Machine, n: nat): seq<Layer> { Below(m.s.committed, n) }

  /** The rows after every commit below `n`, had nothing ever been finalized. */
  function Past(m: Machine, n: nat): Rows { ViewStack(m.origin, Below(m.history, n)) }

  function ReadBase(m: Machine, r: Reader): Rows { ViewStack(m.s.persistent, r.base) }

  ghost predicate Inv(m: Machine) { Ordered(m) && Frontier(m) && MergeInv(m) && ReadersInv(m) }

  /** The deltas still held are the part of the history that has not been merged. */
  ghost predicate Ordered(m: Machine) {
    && CommittedDisjoint(m.s.committed) && CommittedDisjoint(m.history)
    && (forall t | t in m.s.pending :: Disjoint(m.s.pending[t]))
    && m.s.pending.Keys !! m.history.Keys
    && (forall t | t in m.s.committed :: t in m.history && m.history[t] == m.s.committed[t])
    && (forall t | t in m.history :: t !in m.s.committed <==> Closed(m.s, t))
    && (m.s.finalized.Some? ==> m.s.finalized.value < m.floor)
  }

  ghost predicate Frontier(m: Machine) { ViewStack(m.s.persistent, Low(m, m.floor)) == Past(m, m.floor) }

  /** A merge in progress writes only where captured deltas hide the canonical rows, and
      what is left of its plan leads to the merged rows. */
  ghost predicate MergeInv(m: Machine) {
    m.fin.Merging? ==>
    var captured := Low(m, m.fin.cutoff + 1);
    && m.fin.cutoff < m.floor
    && !Closed(m.s, m.fin.cutoff)
    && PlanWithin(m.fin.todo, captured)
    && Replay(m.s.persistent, m.fin.todo) == ViewStack(m.s.persistent, captured)
  }

  ghost predicate ReadersInv(m: Machine) { forall r | r in m.readers :: ReaderInv(m, m.readers[r]) }

  ghost predicate ReaderInv(m: Machine, r: Reader) {
    && m.floor <= r.txn + 1
    && (forall t | t in m.s.committed && t <= r.txn && m.s.committed[t].Some? ::
          m.s.committed[t].value in r.base || forall k | k in r.range :: !Touches(m.s.committed[t].value, k))
    && forall k | k in r.range :: Get(ReadBase(m, r), k) == Get(Past(m, r.txn + 1), k)
  }

  /** At and above the frontier, the canonical rows under the deltas still held are the past. */
  lemma AboveFloor(m: Machine, n: nat)
    requires Ordered(m) && Frontier(m) && m.floor <= n
    ensures ViewStack(m.s.persistent, Low(m, n)) == Past(m, n)
  {
    BetweenSplit(m.s.committed, 0, m.floor, n);
    BetweenSplit(m.history, 0, m.floor, n);
    BetweenAgrees(m.s.committed, m.history, m.floor, n);
    StackConcat(m.s.persistent, Low(m, m.floor), Between(m.s.committed, m.floor, n));
    StackConcat(m.origin, Below(m.history, m.floor), Between(m.s.committed, m.floor, n));
  }

  /** What a transaction at the cutoff or above sees, told without mention of what has been merged. */
  lemma VisibleIsPast(m: Machine, t: TxnId)
    requires Ordered(m) && Frontier(m) && m.floor <= t + 1
    ensures VisibleAt(m.s, t) == View(Past(m, t + 1), PendingOf(m, t))
  {
    AboveFloor(m, t + 1);
    StackConcat(m.s.persistent, Low(m, t + 1), Own(m.s, t));
    assert Low(m, t + 1) + [] == Low(m, t + 1);
    OwnView(Past(m, t + 1), m.s, t);
  }

  lemma StartHolds(origin: Rows)
    ensures Inv(Start(origin))
  {
  }

  lemma LowTouches(m: Machine, n: nat, k: Row)
    requires n <= m.floor && StackTouches(Low(m, n), k)
    ensures StackTouches(Low(m, m.floor), k)
  {
    BetweenSplit(m.s.committed, 0, n, m.floor);
    var d :| d in Low(m, n) && Touches(d, k);
    assert d in Low(m, m.floor);
  }

  lemma CommitKeeps(m: Machine, t: TxnId)
    requires Inv(m) && Permitted(m, CommitTxn(t))
    ensures Inv(Next(m, CommitTxn(t)))
  {
    if !Decided(m.s, t) {
      CommitOrders(m, t);
      CommitMerges(m, t);
      forall r | r in m.readers ensures ReaderInv(Next(m, CommitTxn(t)), m.readers[r]) {
        ReaderSurvivesCommit(m, t, m.readers[r]);
      }
    }
  }

  lemma CommitOrders(m: Machine, t: TxnId)
    requires Ordered(m) && Frontier(m) && !Decided(m.s, t) && m.floor <= t
    ensures Ordered(Next(m, CommitTxn(t))) && Frontier(Next(m, CommitTxn(t)))
  {
    hide ViewStack, Between, CommittedDisjoint;
    var m' := Next(m, CommitTxn(t));
    BetweenAgrees(m.s.committed, m'.s.committed, 0, m.floor);
    BetweenAgrees(m.history, m'.history, 0, m.floor);
    DisjointWith(m.s.committed, t, m'.s.committed[t]);
    DisjointWith(m.history, t, m'.history[t]);
  }

  lemma DisjointWith(c: map<TxnId, Option<Layer>>, t: TxnId, d: Option<Layer>)
    requires CommittedDisjoint(c) && (d.Some? ==> Disjoint(d.value))
    ensures CommittedDisjoint(c[t := d])
  {
  }

  lemma CommitMerges(m: Machine, t: TxnId)
    requires MergeInv(m) && !Decided(m.s, t) && m.floor <= t
    ensures MergeInv(Next(m, CommitTxn(t)))
  {
    if m.fin.Merging? {
      BetweenAgrees(m.s.committed, Next(m, CommitTxn(t)).s.committed, 0, m.fin.cutoff + 1);
    }
  }

  lemma ReaderSurvivesCommit(m: Machine, t: TxnId, r: Reader)
    requires Ordered(m) && !Decided(m.s, t)
    requires ReaderInv(m, r) && r.txn != t && Undisturbed(r, t, PendingOf(m, t))
    ensures ReaderInv(Next(m, CommitTxn(t)), r)
  {
    hide ViewStack, Between;
    var m' := Next(m, CommitTxn(t));
    forall k | k in r.range ensures Get(ReadBase(m', r), k) == Get(Past(m', r.txn + 1), k) {
      if t < r.txn {
        MiddleUntouched(m.origin, m.history, t, m'.history[t], r.txn + 1, k);
      } else {
        BetweenAgrees(m.history, m'.history, 0, r.txn + 1);
      }
    }
  }

  lemma ReaderKept(m: Machine, m': Machine, r: Reader)
    requires ReaderInv(m, r) && m'.floor <= r.txn + 1
    requires forall t | t in m'.s.committed :: t in m.s.committed && m'.s.committed[t] == m.s.committed[t]
    requires m'.s.persistent == m.s.persistent && m'.history == m.history && m'.origin == m.origin
    ensures ReaderInv(m', r)
  {
  }

  lemma BeginKeeps(m: Machine, c: TxnId)
    requires Inv(m) && Permitted(m, BeginFinalize(c))
    ensures Inv(Next(m, BeginFinalize(c)))
  {
    if !Closed(m.s, c) {
      BeginRaises(m, c);
      BeginMerges(m, c);
      forall r | r in m.readers ensures ReaderInv(Next(m, BeginFinalize(c)), m.readers[r]) {
        ReaderKept(m, Next(m, BeginFinalize(c)), m.readers[r]);
      }
    }
  }

  lemma BeginRaises(m: Machine, c: TxnId)
    requires Ordered(m) && Frontier(m) && !Closed(m.s, c)
    ensures Ordered(Next(m, BeginFinalize(c))) && Frontier(Next(m, BeginFinalize(c)))
  {
    hide ViewStack, Between, PlanStack;
    AboveFloor(m, Max(m.floor, c + 1));
  }

  lemma BeginMerges(m: Machine, c: TxnId)
    requires CommittedDisjoint(m.s.committed) && !Closed(m.s, c)
    ensures MergeInv(Next(m, BeginFinalize(c)))
  {
    PlanLeads(m.s.persistent, m.s.committed, c + 1);
  }

  lemma PlanLeads(rows: Rows, committed: map<TxnId, Option<Layer>>, n: nat)
    requires CommittedDisjoint(committed)
    ensures PlanWithin(PlanStack(Below(committed, n)), Below(committed, n))
    ensures Replay(rows, PlanStack(Below(committed, n))) == ViewStack(rows, Below(committed, n))
  {
    PlanStackTouches(Below(committed, n));
    PlanStackMaterializes(rows, Below(committed, n));
    BetweenDisjoint(committed, 0, n);
    StacksAgree(rows, Below(committed, n));
  }

  /** One native write of a merge changes nothing that a stack touching its key shows. */
  lemma WriteHidden(rows: Rows, op: Op, ds: seq<Layer>)
    requires OnKey(op) && StackTouches(ds, op.key)
    ensures ViewStack(Do(rows, op), ds) == ViewStack(rows, ds)
  {
    StackHidesAll(Do(rows, op), rows, ds);
  }

  /** Applying deltas over a store in which the first `n` of their writes are already made shows,
      and leaves, the same rows as applying them over the original. */
  lemma {:induction false} ReapplyingIsTheSame(rows: Rows, ds: seq<Layer>, n: nat)
    requires AllDisjoint(ds) && n <= |PlanStack(ds)|
    ensures ViewStack(Executed(rows, PlanStack(ds), n), ds) == ViewStack(rows, ds)
    ensures Replay(Executed(rows, PlanStack(ds), n), PlanStack(ds)) == Replay(rows, PlanStack(ds))
  {
    hide ViewStack, MaterializeStack, PlanStack;
    var plan := PlanStack(ds);
    if n == 0 {
      assert Executed(rows, plan, 0) == rows;
    } else {
      ReapplyingIsTheSame(rows, ds, n - 1);
      PlanStackTouches(ds);
      ExecutedOneMore(rows, plan, n);
      WriteHidden(Executed(rows, plan, n - 1), plan[n - 1], ds);
    }
    StacksAgree(rows, ds);
    StacksAgree(Executed(rows, plan, n), ds);
    PlanStackMaterializes(rows, ds);
    PlanStackMaterializes(Executed(rows, plan, n), ds);
  }

  lemma ExecutedOneMore(rows: Rows, plan: seq<Op>, n: nat)
    requires 0 < n <= |plan|
    ensures Executed(rows, plan, n) == Do(Executed(rows, plan, n - 1), plan[n - 1])
  {
    assert plan[..n][..n - 1] == plan[..n - 1];
  }

  lemma ReplayCons(rows: Rows, plan: seq<Op>)
    requires plan != []
    ensures Replay(rows, plan) == Replay(Do(rows, plan[0]), plan[1..])
  {
    assert plan == [plan[0]] + plan[1..];
    ReplayConcat(rows, [plan[0]], plan[1..]);
    assert Replay(rows, [plan[0]]) == Do(Replay(rows, []), plan[0]);
  }

  lemma MergeKeeps(m: Machine)
    requires Inv(m) && Permitted(m, MergeOne)
    ensures Inv(Next(m, MergeOne))
  {
    hide ViewStack, Replay, Between;
    var op := m.fin.todo[0];
    assert op in m.fin.todo;
    WriteHidden(m.s.persistent, op, Low(m, m.fin.cutoff + 1));
    LowTouches(m, m.fin.cutoff + 1, op.key);
    WriteHidden(m.s.persistent, op, Low(m, m.floor));
    ReplayCons(m.s.persistent, m.fin.todo);
    forall r | r in m.readers ensures ReaderInv(Next(m, MergeOne), m.readers[r]) {
      ReaderSurvivesMerge(m, m.readers[r]);
    }
  }

  lemma ReaderSurvivesMerge(m: Machine, r: Reader)
    requires MergeInv(m) && Permitted(m, MergeOne) && ReaderInv(m, r)
    ensures ReaderInv(Next(m, MergeOne), r)
  {
    hide ViewStack, Replay, Between;
    var op := m.fin.todo[0];
    assert op in m.fin.todo;
    forall k | k in r.range ensures Get(ReadBase(Next(m, MergeOne), r), k) == Get(ReadBase(m, r), k) {
      if k == op.key { ReaderHoldsDelta(m, r, k); }
      StackHides(Do(m.s.persistent, op), m.s.persistent, r.base, k);
    }
  }

  lemma ReaderHoldsDelta(m: Machine, r: Reader, k: Row)
    requires ReaderInv(m, r) && k in r.range
    requires m.fin.Merging? && m.fin.cutoff < m.floor && StackTouches(Low(m, m.fin.cutoff + 1), k)
    ensures StackTouches(r.base, k)
  {
    var d :| d in Low(m, m.fin.cutoff + 1) && Touches(d, k);
    InBetween(m.s.committed, 0, m.fin.cutoff + 1);
  }

  lemma PruneKeeps(m: Machine)
    requires Inv(m) && Permitted(m, EndFinalize)
    ensures Inv(Next(m, EndFinalize))
  {
    PruneOrders(m);
    PruneFrontier(m);
    forall r | r in m.readers ensures ReaderInv(Next(m, EndFinalize), m.readers[r]) {
      ReaderKept(m, Next(m, EndFinalize), m.readers[r]);
    }
  }

  lemma PruneOrders(m: Machine)
    requires Ordered(m) && MergeInv(m) && Permitted(m, EndFinalize)
    ensures Ordered(Next(m, EndFinalize))
  {
  }

  lemma PruneFrontier(m: Machine)
    requires Frontier(m) && MergeInv(m) && Permitted(m, EndFinalize)
    ensures Frontier(Next(m, EndFinalize))
  {
    hide ViewStack, Between;
    MergedUnderPrune(m.s, m.fin.cutoff, m.floor);
  }

  /** Once the deltas up to the cutoff are merged, dropping them shows the same rows. */
  lemma MergedUnderPrune(s: State, c: TxnId, n: nat)
    requires c < n && ViewStack(s.persistent, Below(s.committed, c + 1)) == s.persistent
    ensures ViewStack(s.persistent, Below(Prune(s, c).committed, n)) == ViewStack(s.persistent, Below(s.committed, n))
  {
    PrunedLow(s, c, n);
    BetweenSplit(s.committed, 0, c + 1, n);
    StackConcat(s.persistent, Below(s.committed, c + 1), Between(s.committed, c + 1, n));
  }

  lemma PrunedLow(s: State, cutoff: TxnId, n: nat)
    requires cutoff < n
    ensures Below(Prune(s, cutoff).committed, n) == Between(s.committed, cutoff + 1, n)
  {
    var left := Prune(s, cutoff).committed;
    BetweenSplit(left, 0, cutoff + 1, n);
    BetweenAgrees(s.committed, left, cutoff + 1, n);
    BetweenAgrees(map[], left, 0, cutoff + 1);
    NoDeltas(0, cutoff + 1);
  }

  lemma {:induction false} NoDeltas(lo: nat, hi: nat)
    ensures Between(map[], lo, hi) == []
  {
    if lo < hi { NoDeltas(lo, hi - 1); }
  }

  lemma OpenKeeps(m: Machine, id: nat, t: TxnId, range: iset<Row>)
    requires Inv(m) && Permitted(m, Open(id, t, range))
    ensures Inv(Next(m, Open(id, t, range)))
  {
    var m' := Next(m, Open(id, t, range));
    OpenedHolds(m, t, range);
    forall x | x in m'.readers ensures ReaderInv(m', m'.readers[x]) {
      ReaderKept(m, m', if x == id then Reader(t, Low(m, t + 1), range) else m.readers[x]);
    }
  }

  lemma OpenedHolds(m: Machine, t: TxnId, range: iset<Row>)
    requires Ordered(m) && Frontier(m) && m.floor <= t + 1
    ensures ReaderInv(m, Reader(t, Low(m, t + 1), range))
  {
    hide ViewStack, Between;
    AboveFloor(m, t + 1);
    InBetween(m.s.committed, 0, t + 1);
    forall x | x in m.s.committed && x <= t && m.s.committed[x].Some? ensures m.s.committed[x].value in Low(m, t + 1) {
      assert 0 <= x < t + 1;
    }
  }

  /** Every permitted step keeps the invariant. */
  lemma StepKeeps(m: Machine, step: Step)
    requires Inv(m) && Permitted(m, step)
    ensures Inv(Next(m, step))
  {
    match step
    case CommitTxn(t) => CommitKeeps(m, t);
    case BeginFinalize(c) => BeginKeeps(m, c);
    case MergeOne => MergeKeeps(m);
    case EndFinalize => PruneKeeps(m);
    case Open(id, t, range) => OpenKeeps(m, id, t, range);
    case Close(id) => CloseKeeps(m, id);
    case _ => PendingKeeps(m, step);
  }

  /** Writes, rollbacks and failed merges leave the committed side as it was. */
  lemma PendingKeeps(m: Machine, step: Step)
    requires Inv(m) && Permitted(m, step) && (step.Write? || step.RollbackTxn? || step.FailMerge?)
    ensures Inv(Next(m, step))
  {
    hide ViewStack, Low, Past, ReaderInv, Replay, PlanStack, PlanWithin, CommittedDisjoint, Disjoint;
    SameCommitted(m, Next(m, step));
  }

  lemma SameCommitted(m: Machine, m': Machine)
    requires Frontier(m) && MergeInv(m) && ReadersInv(m)
    requires m'.s.(pending := m.s.pending) == m.s && m'.floor == m.floor
    requires m'.history == m.history && m'.origin == m.origin
    requires m'.fin == m.fin || m'.fin.Idle?
    requires forall r | r in m'.readers :: r in m.readers && m'.readers[r] == m.readers[r]
    ensures Frontier(m') && MergeInv(m') && ReadersInv(m')
  {
    forall r | r in m'.readers ensures ReaderInv(m', m'.readers[r]) { ReaderKept(m, m', m.readers[r]); }
  }

  lemma CloseKeeps(m: Machine, id: nat)
    requires Inv(m)
    ensures Inv(Next(m, Close(id)))
  {
    SameCommitted(m, Next(m, Close(id)));
  }

  predicate FinalizeStep(step: Step) {
    step.BeginFinalize? || step.MergeOne? || step.FailMerge? || step.EndFinalize?
  }

  /** The prune that ends a finalize discards what a transaction has pending. */
  predicate Discards(m: Machine, step: Step, t: TxnId) {
    step.EndFinalize? && m.fin.Merging? && t <= m.fin.cutoff && t in m.s.pending
  }

  /** In-place finalization is invisible: no step of it, finished or failed, changes what any
      transaction at its cutoff or above sees, but for what the prune discards, or what an open
      snapshot reads within its range. */
  lemma FinalizeIsInvisible(m: Machine, step: Step, t: TxnId)
    requires Inv(m) && Permitted(m, step) && FinalizeStep(step)
    requires Next(m, step).floor <= t + 1 && !Discards(m, step, t)
    ensures Inv(Next(m, step))
    ensures VisibleAt(Next(m, step).s, t) == VisibleAt(m.s, t)
    ensures forall r, k | r in m.readers && k in m.readers[r].range ::
              Get(ReadBase(Next(m, step), m.readers[r]), k) == Get(ReadBase(m, m.readers[r]), k)
  {
    hide Ordered, Frontier, MergeInv, ReaderInv, VisibleAt, ViewStack, Between;
    StepKeeps(m, step);
    VisibleIsPast(m, t);
    VisibleIsPast(Next(m, step), t);
    BeginRaisesFloor(m, step);
    forall r, k | r in m.readers && k in m.readers[r].range
      ensures Get(ReadBase(Next(m, step), m.readers[r]), k) == Get(ReadBase(m, m.readers[r]), k)
    {
      ReaderReadsPast(m, r, k);
      ReaderReadsPast(Next(m, step), r, k);
    }
  }

  /** A finalize step changes neither the past nor anyone's pending work above the frontier. */
  lemma BeginRaisesFloor(m: Machine, step: Step)
    requires FinalizeStep(step) && MergeInv(m)
    ensures m.floor <= Next(m, step).floor
    ensures forall t: TxnId | Next(m, step).floor <= t + 1 && !Discards(m, step, t) ::
              PendingOf(Next(m, step), t) == PendingOf(m, t)
    ensures Next(m, step).history == m.history && Next(m, step).origin == m.origin
    ensures Next(m, step).readers == m.readers
  {
    hide ViewStack, Low, Replay, PlanStack, PlanWithin, Do, Past;
  }

  lemma ReaderReadsPast(m: Machine, id: nat, k: Row)
    requires ReadersInv(m) && id in m.readers && k in m.readers[id].range
    ensures Get(ReadBase(m, m.readers[id]), k) == Get(Past(m, m.readers[id].txn + 1), k)
  {
    assert ReaderInv(m, m.readers[id]);
  }

  /** What step of which transaction may change what `t` sees. */
  predicate Concerns(step: Step, t: TxnId) {
    match step
    case Write(x, _, _) => x == t
    case RollbackTxn(x) => x == t
    case CommitTxn(x) => x < t
    case _ => false
  }

  /** Isolation: a transaction's view changes only by its own writes and rollback and by the
      commit of an earlier transaction; its own commit leaves it as it was. */
  lemma ViewsAreIsolated(m: Machine, step: Step, t: TxnId)
    requires Inv(m) && Permitted(m, step) && !Concerns(step, t)
    requires Next(m, step).floor <= t + 1 && !Discards(m, step, t)
    ensures VisibleAt(Next(m, step).s, t) == VisibleAt(m.s, t)
  {
    hide Ordered, Frontier, MergeInv, ReaderInv, VisibleAt, ViewStack, Between;
    if FinalizeStep(step) {
      FinalizeIsInvisible(m, step, t);
    } else {
      StepKeeps(m, step);
      VisibleIsPast(m, t);
      VisibleIsPast(Next(m, step), t);
      if step.CommitTxn? && !Decided(m.s, step.txn) { CommitInPlace(m, step.txn, t); }
    }
  }

  /** Committing moves a delta from pending to committed without changing the rows on top. */
  lemma CommitInPlace(m: Machine, x: TxnId, t: TxnId)
    requires Ordered(m) && !Decided(m.s, x) && t <= x
    ensures var m' := Next(m, CommitTxn(x));
      View(Past(m', t + 1), PendingOf(m', t)) == View(Past(m, t + 1), PendingOf(m, t))
  {
    hide ViewStack, View;
    var m' := Next(m, CommitTxn(x));
    BetweenAgrees(m.history, m'.history, 0, t);
    if x == t {
      SplitAt(m.history, t, t + 1);
      SplitAt(m'.history, t, t + 1);
      assert DeltaOf(m'.history, t) == Own(m.s, t) && DeltaOf(m.history, t) == [];
      assert Below(m.history, t + 1) == Below(m.history, t);
      assert Below(m'.history, t + 1) == Below(m.history, t) + Own(m.s, t);
      StackConcat(m.origin, Below(m.history, t), Own(m.s, t));
      OwnView(Past(m, t), m.s, t);
      OwnView(Past(m', t + 1), m'.s, t);
    } else {
      BetweenAgrees(m.history, m'.history, 0, t + 1);
    }
  }

  lemma OwnView(rows: Rows, s: State, t: TxnId)
    ensures ViewStack(rows, Own(s, t)) == View(rows, if t in s.pending then s.pending[t] else EMPTY_LAYER)
    ensures View(rows, EMPTY_LAYER) == rows
  {
    if t in s.pending {
      assert ViewStack(rows, [s.pending[t]]) == View(ViewStack(rows, []), s.pending[t]);
    }
  }

  /** Runs of permitted steps. */
  ghost function Run(m: Machine, steps: seq<Step>): Machine
    decreases |steps|
  {
    if steps == [] then m else Next(Run(m, steps[..|steps| - 1]), steps[|steps| - 1])
  }

  ghost predicate PermittedRun(m: Machine, steps: seq<Step>) {
    forall i | 0 <= i < |steps| :: Permitted(Run(m, steps[..i]), steps[i])
  }

  ghost predicate ContractRun(m: Machine, steps: seq<Step>) {
    forall i | 0 <= i < |steps| :: Contract(Run(m, steps[..i]), steps[i])
  }

  lemma {:induction false} RunKeeps(m: Machine, steps: seq<Step>)
    requires Inv(m) && PermittedRun(m, steps)
    ensures Inv(Run(m, steps))
  {
    if steps != [] {
      var front := steps[..|steps| - 1];
      assert forall i | 0 <= i < |front| :: front[..i] == steps[..i];
      RunKeeps(m, front);
      StepKeeps(Run(m, front), steps[|steps| - 1]);
    }
  }

  /** A snapshot reads the same rows for as long as it is open, over any run. */
  lemma {:induction false} OpenReadsAreStable(m: Machine, steps: seq<Step>, id: nat, k: Row)
    requires Inv(m) && PermittedRun(m, steps) && id in m.readers && k in m.readers[id].range
    requires forall i | 0 <= i <= |steps| ::
               id in Run(m, steps[..i]).readers && Run(m, steps[..i]).readers[id] == m.readers[id]
    ensures Get(ReadBase(Run(m, steps), m.readers[id]), k) == Get(ReadBase(m, m.readers[id]), k)
  {
    if steps != [] {
      var front, last := steps[..|steps| - 1], steps[|steps| - 1];
      assert forall i | 0 <= i <= |front| :: front[..i] == steps[..i];
      OpenReadsAreStable(m, front, id, k);
      RunKeeps(m, front);
      var before := Run(m, front);
      assert front[..|front|] == front;
      assert Permitted(before, last);
      ReadIsStable(before, last, id, k);
    }
  }

  /** A scan may pull the canonical rows one key at a time while a finalize is merging: rows that
      were each read at some moment of an open snapshot show, under its deltas, the snapshot. */
  lemma LazyReadsAreStable(m: Machine, steps: seq<Step>, id: nat, pulled: Rows)
    requires Inv(m) && PermittedRun(m, steps) && id in m.readers
    requires forall i | 0 <= i <= |steps| ::
               id in Run(m, steps[..i]).readers && Run(m, steps[..i]).readers[id] == m.readers[id]
    requires forall k | k in m.readers[id].range :: PulledAt(m, steps, pulled, k)
    ensures forall k | k in m.readers[id].range ::
              Get(ViewStack(pulled, m.readers[id].base), k) == Get(ReadBase(m, m.readers[id]), k)
    ensures (forall k: Row :: k in m.readers[id].range) ==>
              ViewStack(pulled, m.readers[id].base) == ReadBase(m, m.readers[id])
  {
    hide Next, Inv, PermittedRun, Run, ViewStack;
    var r := m.readers[id];
    forall k | k in r.range ensures Get(ViewStack(pulled, r.base), k) == Get(ReadBase(m, r), k) {
      assert PulledAt(m, steps, pulled, k);
      var i :| 0 <= i <= |steps| && Get(pulled, k) == Get(Run(m, steps[..i]).s.persistent, k);
      PulledIsStable(m, steps, id, pulled, i, k);
    }
    if forall k: Row :: k in r.range { SameRows(ViewStack(pulled, r.base), ReadBase(m, r)); }
  }

  lemma PulledIsStable(m: Machine, steps: seq<Step>, id: nat, pulled: Rows, i: nat, k: Row)
    requires Inv(m) && PermittedRun(m, steps) && id in m.readers && i <= |steps| && k in m.readers[id].range
    requires forall j | 0 <= j <= |steps| ::
               id in Run(m, steps[..j]).readers && Run(m, steps[..j]).readers[id] == m.readers[id]
    requires Get(pulled, k) == Get(Run(m, steps[..i]).s.persistent, k)
    ensures Get(ViewStack(pulled, m.readers[id].base), k) == Get(ReadBase(m, m.readers[id]), k)
  {
    hide ViewStack, Next, Inv, Permitted, Run;
    StackHides(pulled, Run(m, steps[..i]).s.persistent, m.readers[id].base, k);
    assert forall j | 0 <= j <= i :: steps[..i][..j] == steps[..j];
    OpenReadsAreStable(m, steps[..i], id, k);
  }

  /** The row of a key as the canonical store held it after some prefix of the steps. */
  ghost predicate PulledAt(m: Machine, steps: seq<Step>, pulled: Rows, k: Row) {
    exists i :: 0 <= i <= |steps| && Get(pulled, k) == Get(Run(m, steps[..i]).s.persistent, k)
  }

  lemma ReadIsStable(m: Machine, step: Step, id: nat, k: Row)
    requires Inv(m) && Permitted(m, step) && id in m.readers && k in m.readers[id].range
    ensures Get(ReadBase(Next(m, step), m.readers[id]), k) == Get(ReadBase(m, m.readers[id]), k)
  {
    if step.MergeOne? {
      assert ReaderInv(m, m.readers[id]);
      FinalizeIsInvisible(m, step, m.readers[id].txn);
    }
  }

  // ---------------------------------------------------------------- what a finalize leaves

  /** The first id that the last completed finalize did not cover. */
  function FirstOpen(s: State): nat { if s.finalized.Some? then s.finalized.value + 1 else 0 }

  /** The past is what the last completed finalize covered, under the deltas still held. */
  lemma HeldIsPast(m: Machine, n: nat)
    requires Ordered(m) && FirstOpen(m.s) <= n
    ensures Past(m, n) == ViewStack(Past(m, FirstOpen(m.s)), Low(m, n))
  {
    hide ViewStack;
    var open := FirstOpen(m.s);
    BetweenSplit(m.history, 0, open, n);
    BetweenSplit(m.s.committed, 0, open, n);
    BetweenAgrees(m.history, m.s.committed, open, n);
    BetweenAgrees(map[], m.s.committed, 0, open);
    NoDeltas(0, open);
    assert Low(m, n) == Between(m.s.committed, open, n);
    StackConcat(m.origin, Below(m.history, open), Between(m.history, open, n));
  }

  /** The deltas above a cutoff that a failed finalize may have begun to merge. */
  function BegunAbove(m: Machine, c: TxnId): seq<Layer> { Between(m.s.committed, c + 1, m.floor) }

  /** A key that a failed finalize may have written and that a finalize through `c` will not. */
  ghost predicate Exposed(m: Machine, c: TxnId, k: Row) {
    StackTouches(BegunAbove(m, c), k) && !StackTouches(Low(m, c + 1), k)
  }

  /** The row of a key is still what the last completed finalize left. */
  ghost predicate Unmoved(m: Machine, k: Row) { Get(m.s.persistent, k) == Get(Past(m, FirstOpen(m.s)), k) }

  /** Only a failed finalize that reached further can have moved a row that is not to be merged. */
  lemma UnexposedIsUnmoved(m: Machine, c: TxnId, k: Row)
    requires Ordered(m) && Frontier(m) && !Closed(m.s, c)
    requires !StackTouches(Low(m, c + 1), k) && !StackTouches(BegunAbove(m, c), k)
    ensures Unmoved(m, k)
  {
    hide ViewStack;
    var n := Max(m.floor, c + 1);
    BetweenSplit(m.s.committed, 0, c + 1, n);
    StackTouchesConcat(Low(m, c + 1), Between(m.s.committed, c + 1, n), k);
    AboveFloor(m, n);
    HeldIsPast(m, n);
    StackUntouched(m.s.persistent, Low(m, n), k);
    StackUntouched(Past(m, FirstOpen(m.s)), Low(m, n), k);
  }

  /** A finalize without I/O errors leaves, of every commit up to its cutoff in order, the row of
      every key that is not exposed, and the row of an exposed key if and only if it was unmoved. */
  lemma FinalizedIsPast(m: Machine, c: TxnId, k: Row)
    requires Inv(m) && !Closed(m.s, c)
    ensures Get(Finalize(m.s, c).persistent, k) == Get(Past(m, c + 1), k) <==> !Exposed(m, c, k) || Unmoved(m, k)
    ensures m.floor <= c + 1 ==> !Exposed(m, c, k)
  {
    FinalizeShows(m.s, c);
    HeldIsPast(m, c + 1);
    hide ViewStack, Finalize, Inv;
    if StackTouches(Low(m, c + 1), k) {
      StackHides(m.s.persistent, Past(m, FirstOpen(m.s)), Low(m, c + 1), k);
    } else {
      StackUntouched(m.s.persistent, Low(m, c + 1), k);
      StackUntouched(Past(m, FirstOpen(m.s)), Low(m, c + 1), k);
      if !Exposed(m, c, k) { UnexposedIsUnmoved(m, c, k); }
    }
  }

  /** The exact condition, on the state before the call: a finalize leaves every commit up to its
      cutoff, in order, if and only if no exposed row has been moved. */
  lemma FinalizedIsPastIff(m: Machine, c: TxnId)
    requires Inv(m) && !Closed(m.s, c)
    ensures Finalize(m.s, c).persistent == Past(m, c + 1) <==> forall k | Exposed(m, c, k) :: Unmoved(m, k)
  {
    var after, past := Finalize(m.s, c).persistent, Past(m, c + 1);
    hide Finalize, Past, Inv, Exposed, Unmoved;
    forall k ensures Get(after, k) == Get(past, k) <==> !Exposed(m, c, k) || Unmoved(m, k) { FinalizedIsPast(m, c, k); }
    if forall k | Exposed(m, c, k) :: Unmoved(m, k) { SameRows(after, past); }
  }

  // ---------------------------------------------------------------- a finalize among other steps

  /** A finalize through `c` begins, and other steps and its own follow until it can end. */
  ghost predicate MergingRun(m: Machine, c: TxnId, during: seq<Step>, end: Machine) {
    var begun := Next(m, BeginFinalize(c));
    && !Closed(m.s, c) && Permitted(m, BeginFinalize(c))
    && PermittedRun(begun, during) && end == Run(begun, during)
    && (forall i | 0 <= i <= |during| :: Run(begun, during[..i]).fin.Merging?)
    && Permitted(end, EndFinalize)
  }

  /** So far the merge has written only where the deltas it captured hide the canonical rows. */
  ghost predicate MergedWithin(m: Machine, m': Machine, c: TxnId) {
    && m'.fin.Merging? && m'.fin.cutoff == c && c < m'.floor && !Closed(m'.s, c)
    && Low(m', c + 1) == Low(m, c + 1)
    && forall k | !StackTouches(Low(m, c + 1), k) :: Get(m'.s.persistent, k) == Get(m.s.persistent, k)
  }

  lemma MergedWithinNext(m: Machine, m': Machine, c: TxnId, step: Step)
    requires Inv(m') && Permitted(m', step) && MergedWithin(m, m', c) && Next(m', step).fin.Merging?
    ensures MergedWithin(m, Next(m', step), c)
  {
    hide ViewStack, Replay, PlanStack;
    match step
    case CommitTxn(t) =>
      if !Decided(m'.s, t) { BetweenAgrees(m'.s.committed, Next(m', step).s.committed, 0, c + 1); }
    case MergeOne =>
      assert m'.fin.todo[0] in m'.fin.todo;
    case _ =>
  }

  lemma {:induction false} MergingRunKeeps(m: Machine, begun: Machine, c: TxnId, during: seq<Step>)
    requires Inv(begun) && MergedWithin(m, begun, c) && PermittedRun(begun, during)
    requires forall i | 0 <= i <= |during| :: Run(begun, during[..i]).fin.Merging?
    ensures Inv(Run(begun, during)) && MergedWithin(m, Run(begun, during), c)
  {
    hide Inv, MergedWithin, Next, Permitted;
    if during != [] {
      var front, last := during[..|during| - 1], during[|during| - 1];
      assert forall i | 0 <= i <= |front| :: front[..i] == during[..i];
      MergingRunKeeps(m, begun, c, front);
      assert Permitted(Run(begun, front), last);
      assert during[..|during|] == during;
      MergedWithinNext(m, Run(begun, front), c, last);
      StepKeeps(Run(begun, front), last);
    }
  }

  /** Whatever comes between the steps of a finalize, it leaves in the canonical store what it
      would have left alone. */
  lemma InterleavedFinalize(m: Machine, c: TxnId, during: seq<Step>, end: Machine)
    requires Inv(m) && MergingRun(m, c, during, end)
    ensures Next(end, EndFinalize).s.persistent == Finalize(m.s, c).persistent
  {
    var begun := Next(m, BeginFinalize(c));
    BeginKeeps(m, c);
    assert MergedWithin(m, begun, c);
    MergingRunKeeps(m, begun, c, during);
    FinalizeShows(m.s, c);
    EndShows(m, end, c);
  }

  lemma EndShows(m: Machine, end: Machine, c: TxnId)
    requires MergeInv(end) && MergedWithin(m, end, c) && Permitted(end, EndFinalize)
    ensures Next(end, EndFinalize).s.persistent == ViewStack(m.s.persistent, Low(m, c + 1))
  {
    assert Replay(end.s.persistent, []) == end.s.persistent;
    StackHidesAll(end.s.persistent, m.s.persistent, Low(m, c + 1));
  }

  // ---------------------------------------------------------------- whole finalizes

  lemma RunNext(m: Machine, steps: seq<Step>, step: Step)
    ensures Run(m, steps + [step]) == Next(Run(m, steps), step)
    ensures PermittedRun(m, steps) && Permitted(Run(m, steps), step) ==> PermittedRun(m, steps + [step])
  {
    var all := steps + [step];
    assert all[..|steps|] == steps;
    if PermittedRun(m, steps) && Permitted(Run(m, steps), step) {
      forall i | 0 <= i < |all| ensures Permitted(Run(m, all[..i]), all[i]) {
        if i < |steps| { assert all[..i] == steps[..i]; }
      }
    }
  }

  /** `m'` is `m` after the first `n` native writes of a plan. */
  ghost predicate Midway(m: Machine, m': Machine, c: TxnId, plan: seq<Op>, n: nat)
    requires n <= |plan|
  {
    m'.fin == Merging(c, plan[n..]) && m'.s == m.s.(persistent := Executed(m.s.persistent, plan, n))
  }

  lemma MidwayNext(m: Machine, m': Machine, c: TxnId, plan: seq<Op>, n: nat)
    requires 0 < n <= |plan| && Midway(m, m', c, plan, n - 1)
    ensures Permitted(m', MergeOne) && Midway(m, Next(m', MergeOne), c, plan, n)
  {
    assert plan[..n][..n - 1] == plan[..n - 1];
    assert plan[n - 1..][1..] == plan[n..];
  }

  /** The start of a finalize and `n` of its native writes. */
  ghost function MergeSteps(c: TxnId, n: nat): seq<Step> {
    if n == 0 then [BeginFinalize(c)] else MergeSteps(c, n - 1) + [MergeOne]
  }

  lemma MergeStepsGrow(c: TxnId, n: nat)
    requires 0 < n
    ensures MergeSteps(c, n) == MergeSteps(c, n - 1) + [MergeOne]
  {
  }

  lemma MergeStarts(m: Machine, c: TxnId)
    requires m.fin.Idle? && !Closed(m.s, c) && Permitted(m, BeginFinalize(c))
    ensures PermittedRun(m, MergeSteps(c, 0)) && Midway(m, Run(m, MergeSteps(c, 0)), c, FinalizePlan(m.s, c), 0)
  {
    RunNext(m, [], BeginFinalize(c));
  }

  lemma {:induction false} MergeRun(m: Machine, c: TxnId, plan: seq<Op>, n: nat)
    requires m.fin.Idle? && !Closed(m.s, c) && Permitted(m, BeginFinalize(c))
    requires plan == FinalizePlan(m.s, c) && n <= |plan|
    ensures PermittedRun(m, MergeSteps(c, n)) && Midway(m, Run(m, MergeSteps(c, n)), c, plan, n)
  {
    hide Next, Permitted, Midway, Run, FinalizePlan, MergeSteps;
    if n == 0 {
      MergeStarts(m, c);
    } else {
      MergeStepsGrow(c, n);
      MergeRun(m, c, plan, n - 1);
      MidwayNext(m, Run(m, MergeSteps(c, n - 1)), c, plan, n);
      RunNext(m, MergeSteps(c, n - 1), MergeOne);
    }
  }

  /** The steps of one finalize call. */
  ghost function FinalizeRun(c: TxnId, plan: seq<Op>, budget: nat): seq<Step> {
    MergeSteps(c, Min(budget, |plan|)) + [if |plan| <= budget then EndFinalize else FailMerge]
  }

  /** A finalize call does what its steps do, whether or not it fails on the way. */
  lemma FinalizeIsStepwise(m: Machine, c: TxnId, plan: seq<Op>, budget: nat)
    requires m.fin.Idle? && !Closed(m.s, c) && Permitted(m, BeginFinalize(c))
    requires plan == FinalizePlan(m.s, c)
    ensures PermittedRun(m, FinalizeRun(c, plan, budget))
    ensures Run(m, FinalizeRun(c, plan, budget)).s == FinalizeResult(m.s, c, budget)
  {
    var n := Min(budget, |plan|);
    MergeRun(m, c, plan, n);
    RunNext(m, MergeSteps(c, n), if |plan| <= budget then EndFinalize else FailMerge);
    MidwayEnds(m, Run(m, MergeSteps(c, n)), c, plan, budget);
  }

  lemma MidwayEnds(m: Machine, m': Machine, c: TxnId, plan: seq<Op>, budget: nat)
    requires plan == FinalizePlan(m.s, c) && !Closed(m.s, c)
    requires Midway(m, m', c, plan, Min(budget, |plan|))
    ensures var last := if |plan| <= budget then EndFinalize else FailMerge;
      Permitted(m', last) && Next(m', last).s == FinalizeResult(m.s, c, budget)
  {
    assert Executed(m.s.persistent, plan, Min(budget, |plan|)) == Executed(m.s.persistent, plan, budget);
  }

  // ---------------------------------------------------------------- a finalize below one that failed

  const SEVEN := Layer(map[[7] := [0]], map[])

  /** Transaction 2 commits one row; a finalize through it merges the row and then fails; a
      finalize through 1 begins. */
  ghost function FailThenFinalize(): seq<Step> {
    [Write(2, SEVEN, [Put([7], [0])]), CommitTxn(2), BeginFinalize(2), MergeOne, FailMerge, BeginFinalize(1)]
  }

  ghost function AfterFailure(fin: Finalizing, rows: Rows, floor: nat): Machine {
    Machine(State(rows, map[2 := Some(SEVEN)], map[], None), fin, map[], floor,
      map[], map[2 := Some(SEVEN)], map[2 := [Put([7], [0])]])
  }

  /** Finalizing below a finalize that failed is not exact: what the failed one merged stays. */
  lemma FailedFinalizeReachesFurther(m: Machine)
    requires m == Run(Start(map[]), FailThenFinalize())
    ensures PermittedRun(Start(map[]), FailThenFinalize()) && Permitted(m, EndFinalize)
    ensures [7] in Next(m, EndFinalize).s.persistent && [7] !in Past(m, m.fin.cutoff + 1)
  {
    hide Next, Permitted, Run, PermittedRun, Past;
    var start: Machine := Start(map[]);
    var s0: seq<Step> := [];
    var s1 := s0 + [Write(2, SEVEN, [Put([7], [0])])];
    var s2 := s1 + [CommitTxn(2)];
    var s3 := s2 + [BeginFinalize(2)];
    var s4 := s3 + [MergeOne];
    var s5 := s4 + [FailMerge];
    assert Run(start, s0) == start && PermittedRun(start, s0) by { EmptyRun(start); }
    CommitsSeven();
    RunNext(start, s0, Write(2, SEVEN, [Put([7], [0])]));
    RunNext(start, s1, CommitTxn(2));
    MergesSeven();
    RunNext(start, s2, BeginFinalize(2));
    RunNext(start, s3, MergeOne);
    FailsAfterSeven();
    assert FailThenFinalize() == s5 + [BeginFinalize(1)];
    RunNext(start, s4, FailMerge);
    RunNext(start, s5, BeginFinalize(1));
    EndsBelowSeven(m);
  }

  lemma EmptyRun(m: Machine)
    ensures Run(m, []) == m && PermittedRun(m, [])
  {
  }

  lemma CommitsSeven()
    ensures var start: Machine := Start(map[]);
      var write := Write(2, SEVEN, [Put([7], [0])]);
      && Permitted(start, write) && Permitted(Next(start, write), CommitTxn(2))
      && Next(Next(start, write), CommitTxn(2)) == AfterFailure(Idle, map[], 0)
  {
    var m := Next(Start(map[]), Write(2, SEVEN, [Put([7], [0])]));
    assert [] + [Put([7], [0])] == [Put([7], [0])];
    assert m.logs == map[2 := [Put([7], [0])]] && m.s.pending == map[2 := SEVEN];
    assert m.s.pending - {2} == map[];
  }

  lemma MergesSeven()
    ensures var begun := AfterFailure(Merging(2, [Put([7], [0])]), map[], 3);
      && Permitted(AfterFailure(Idle, map[], 0), BeginFinalize(2))
      && Next(AfterFailure(Idle, map[], 0), BeginFinalize(2)) == begun
      && Permitted(begun, MergeOne)
      && Next(begun, MergeOne) == AfterFailure(Merging(2, []), map[[7] := [0]], 3)
  {
    var c := map[2 := Some(SEVEN)];
    assert Between(c, 0, 2) == [] by { NoneBetween(c, 2); }
    assert Below(c, 3) == [SEVEN];
    PlanOfSeven();
    var plan := [Put([7], [0])];
    assert plan[1..] == [];
    assert Do(map[], plan[0]) == map[[7] := [0]];
  }

  lemma {:induction false} NoneBetween(c: map<TxnId, Option<Layer>>, n: nat)
    requires forall t | t in c :: n <= t
    ensures Between(c, 0, n) == []
  {
    if 0 < n { NoneBetween(c, n - 1); }
  }

  lemma PlanOfSeven()
    ensures PlanStack([SEVEN]) == [Put([7], [0])] && PlanStack([]) == []
  {
    PlanOfTop([SEVEN]);
    ScanLists(SEVEN.inserts);
    ScanLists(SEVEN.deletes);
    ListingIsStream(NATURAL, Entries(SEVEN.inserts, map[]));
    ListingIsUnique(NATURAL, Scan(SEVEN.inserts), [Entry([7], [0])]);
    ListingIsStream(NATURAL, Entries(SEVEN.deletes, map[]));
    ListingIsUnique(NATURAL, Scan(SEVEN.deletes), []);
    assert Plans([]) == [];
  }

  lemma FailsAfterSeven()
    ensures var merged := AfterFailure(Merging(2, []), map[[7] := [0]], 3);
      && Permitted(merged, FailMerge) && Permitted(Next(merged, FailMerge), BeginFinalize(1))
      && Next(Next(merged, FailMerge), BeginFinalize(1)) == AfterFailure(Merging(1, []), map[[7] := [0]], 3)
  {
    NoneBetween(map[2 := Some(SEVEN)], 2);
    PlanOfSeven();
  }

  lemma EndsBelowSeven(m: Machine)
    requires m == AfterFailure(Merging(1, []), map[[7] := [0]], 3)
    ensures Permitted(m, EndFinalize)
    ensures [7] in Next(m, EndFinalize).s.persistent && [7] !in Past(m, m.fin.cutoff + 1)
  {
    NoneBetween(m.history, 2);
  }
}
