/** The shared lifecycle state of a collection as a value, and what each lifecycle
    decision does to it. */
module Versions {
  import opened Optional
  import opened Collation
  import opened Streams
  import opened Layers

  /** Transaction identities, by their place in the total order. */
  type TxnId = nat

  datatype Error = Outdated | Committed | Conflict | Background

  datatype Outcome = Done | Refused(error: Error)

  datatype State = State(
    persistent: Rows,
    committed: map<TxnId, Option<Layer>>,
    pending: map<TxnId, Layer>,
    finalized: Option<TxnId>)

  datatype Snapshot = Snapshot(persistent: Rows, deltas: seq<Layer>)

  predicate Closed(s: State, t: TxnId) { s.finalized.Some? && t <= s.finalized.value }

  function AssertWritable(s: State, t: TxnId): Outcome {
    if Closed(s, t) then Refused(Outdated) else if t in s.committed then Refused(Committed) else Done
  }

  /** The committed deltas of the transactions in `[lo, hi)`, in TxnId order. */
  function Between(committed: map<TxnId, Option<Layer>>, lo: nat, hi: nat): seq<Layer>
    decreases hi
  {
    if hi <= lo then [] else Between(committed, lo, hi - 1) + DeltaOf(committed, hi - 1)
  }

  function DeltaOf(committed: map<TxnId, Option<Layer>>, t: TxnId): seq<Layer> {
    if t in committed && committed[t].Some? then [committed[t].value] else []
  }

  function Below(committed: map<TxnId, Option<Layer>>, n: nat): seq<Layer> { Between(committed, 0, n) }

  function Own(s: State, t: TxnId): seq<Layer> { if t in s.pending then [s.pending[t]] else [] }

  function PendingAt(s: State, t: TxnId): Layer { if t in s.pending then s.pending[t] else EMPTY_LAYER }

  function WithPending(s: State, t: TxnId, d: Layer): State { s.(pending := s.pending[t := d]) }

  lemma WithPendingTwice(s: State, t: TxnId, a: Layer, b: Layer)
    ensures WithPending(s, t, a).pending[t] == a
    ensures WithPending(WithPending(s, t, a), t, b) == WithPending(s, t, b)
  {
  }

  function VisibleSnapshot(s: State, t: TxnId): Snapshot {
    Snapshot(s.persistent, Below(s.committed, t + 1) + Own(s, t))
  }

  function Read(snapshot: Snapshot): Rows { ViewStack(snapshot.persistent, snapshot.deltas) }

  /** The rows a transaction sees. */
  function VisibleAt(s: State, t: TxnId): Rows { Read(VisibleSnapshot(s, t)) }

  /** The rows of the commits up to a transaction's id, without its own delta. */
  function CommittedRows(s: State, txn: TxnId): Rows { ViewStack(s.persistent, Below(s.committed, txn + 1)) }

  /** Creating an empty pending delta changes no view. */
  lemma PendingInPlace(s: State, t: TxnId)
    ensures VisibleAt(WithPending(s, t, PendingAt(s, t)), t) == VisibleAt(s, t)
  {
    if t !in s.pending {
      var below := Below(s.committed, t + 1);
      assert below + [] == below;
      assert (below + [EMPTY_LAYER])[..|below|] == below;
    }
  }

  /** Writing one transaction's delta changes no other transaction's view. */
  lemma PendingIsPrivate(s: State, t: TxnId, d: Layer, u: TxnId)
    requires u != t
    ensures VisibleAt(WithPending(s, t, d), u) == VisibleAt(s, u)
  {
  }

  /** What the transaction sees once its delta is `d`. */
  lemma OwnDeltaOnTop(s: State, t: TxnId, d: Layer)
    ensures VisibleAt(WithPending(s, t, d), t) == View(CommittedRows(s, t), d)
    ensures VisibleAt(s, t) == View(CommittedRows(s, t), PendingAt(s, t))
  {
    var below := Below(s.committed, t + 1);
    assert (below + [d])[..|below|] == below;
    PendingInPlace(s, t);
    assert (below + [PendingAt(s, t)])[..|below|] == below;
  }

  /** The transaction may write: it has not been committed, and no finalize has covered it. */
  predicate Writable(s: State, txn: TxnId) {
    txn !in s.committed && (s.finalized.Some? ==> s.finalized.value < txn)
  }

  /** From one state to the next only what one transaction has pending has changed: no other view, and
      no disjoint delta into one that is not. */
  ghost predicate OnlyPendingOf(s: State, s': State, txn: TxnId) {
    && s'.persistent == s.persistent && s'.committed == s.committed && s'.finalized == s.finalized
    && (forall u | u != txn :: u in s'.pending <==> u in s.pending)
    && (forall u | u != txn && u in s.pending :: s'.pending[u] == s.pending[u])
    && (forall u: TxnId | u != txn :: VisibleAt(s', u) == VisibleAt(s, u))
    && (Disjoint(PendingAt(s, txn)) ==> Disjoint(PendingAt(s', txn)))
  }

  lemma PendingShows(s: State, t: TxnId, d: Layer)
    requires Disjoint(PendingAt(s, t)) ==> Disjoint(d)
    ensures OnlyPendingOf(s, WithPending(s, t, d), t)
    ensures VisibleAt(WithPending(s, t, d), t) == View(CommittedRows(s, t), d)
    ensures VisibleAt(s, t) == View(CommittedRows(s, t), PendingAt(s, t))
  {
    hide View, VisibleAt;
    OwnDeltaOnTop(s, t, d);
    forall u: TxnId | u != t ensures VisibleAt(WithPending(s, t, d), u) == VisibleAt(s, u) {
      PendingIsPrivate(s, t, d, u);
    }
  }

  function CommitOutcome(s: State, t: TxnId): Outcome { if Closed(s, t) then Refused(Outdated) else Done }

  function Commit(s: State, t: TxnId): State {
    if Closed(s, t) || t in s.committed then s
    else s.(committed := s.committed[t := if t in s.pending then Some(s.pending[t]) else None],
            pending := s.pending - {t})
  }

  function RollbackOutcome(s: State, t: TxnId): Outcome {
    if Closed(s, t) then Refused(Outdated) else if t in s.committed then Refused(Conflict) else Done
  }

  function Rollback(s: State, t: TxnId): State {
    if Closed(s, t) || t in s.committed then s else s.(pending := s.pending - {t})
  }

  /** The last step of `finalize`: drop everything at or below the cutoff. */
  function Prune(s: State, cutoff: TxnId): State {
    s.(committed := s.committed - UpTo(s.committed.Keys, cutoff),
       pending := s.pending - UpTo(s.pending.Keys, cutoff),
       finalized := Some(cutoff))
  }

  function UpTo(ids: set<TxnId>, cutoff: TxnId): set<TxnId> { set t | t in ids && t <= cutoff }

  function Min(a: nat, b: nat): nat { if a < b then a else b }

  /** The rows after the first `n` writes of a plan, or all of them if there are fewer. */
  function Executed(rows: Rows, plan: seq<Op>, n: nat): Rows { Replay(rows, plan[..Min(n, |plan|)]) }

  lemma ExecutedAll(rows: Rows, plan: seq<Op>, n: nat)
    requires |plan| <= n
    ensures Executed(rows, plan, n) == Replay(rows, plan)
  {
    assert plan[..|plan|] == plan;
  }

  /** The native writes a finalize makes. */
  function FinalizePlan(s: State, txn: TxnId): seq<Op> { PlanStack(Below(s.committed, txn + 1)) }

  function Merged(s: State, txn: TxnId, budget: nat): State {
    s.(persistent := Executed(s.persistent, FinalizePlan(s, txn), budget))
  }

  /** The outcome and the result of a finalize when only the first `budget` writes succeed: after
      an I/O error nothing is pruned and the rows are left partly merged. */
  function FinalizeOutcome(s: State, txn: TxnId, budget: nat): Outcome {
    if Closed(s, txn) || |FinalizePlan(s, txn)| <= budget then Done else Refused(Background)
  }

  function FinalizeResult(s: State, txn: TxnId, budget: nat): State {
    if Closed(s, txn) then s
    else
      var merged := Merged(s, txn, budget);
      if |FinalizePlan(s, txn)| <= budget then Prune(merged, txn) else merged
  }

  /** A finalize without I/O errors. */
  function Finalize(s: State, txn: TxnId): State { FinalizeResult(s, txn, |FinalizePlan(s, txn)|) }

  lemma {:induction false} BetweenSplit(c: map<TxnId, Option<Layer>>, lo: nat, mid: nat, hi: nat)
    requires lo <= mid <= hi
    ensures Between(c, lo, hi) == Between(c, lo, mid) + Between(c, mid, hi)
  {
    if mid < hi { BetweenSplit(c, lo, mid, hi - 1); }
  }

  lemma {:induction false} BetweenAgrees(a: map<TxnId, Option<Layer>>, b: map<TxnId, Option<Layer>>, lo: nat, hi: nat)
    requires forall t | lo <= t < hi :: t in a <==> t in b
    requires forall t | lo <= t < hi && t in a :: a[t] == b[t]
    ensures Between(a, lo, hi) == Between(b, lo, hi)
  {
    if lo < hi { BetweenAgrees(a, b, lo, hi - 1); }
  }

  lemma {:induction false} InBetween(c: map<TxnId, Option<Layer>>, lo: nat, hi: nat)
    ensures forall d :: d in Between(c, lo, hi) <==> exists t :: lo <= t < hi && t in c && c[t] == Some(d)
  {
    if lo < hi {
      InBetween(c, lo, hi - 1);
      forall d ensures d in Between(c, lo, hi) <==> exists t :: lo <= t < hi && t in c && c[t] == Some(d) {
        if t :| lo <= t < hi && t in c && c[t] == Some(d) { assert t < hi - 1 || t == hi - 1; }
      }
    }
  }

  ghost predicate CommittedDisjoint(c: map<TxnId, Option<Layer>>) {
    forall t | t in c && c[t].Some? :: Disjoint(c[t].value)
  }

  lemma BetweenDisjoint(c: map<TxnId, Option<Layer>>, lo: nat, hi: nat)
    requires CommittedDisjoint(c)
    ensures AllDisjoint(Between(c, lo, hi))
  {
    InBetween(c, lo, hi);
  }

  /** A finalize leaves in the canonical rows what the deltas up to its cutoff showed. */
  lemma FinalizeShows(s: State, t: TxnId)
    requires !Closed(s, t) && CommittedDisjoint(s.committed)
    ensures Finalize(s, t).persistent == ViewStack(s.persistent, Below(s.committed, t + 1))
  {
    ExecutedAll(s.persistent, FinalizePlan(s, t), |FinalizePlan(s, t)|);
    BetweenDisjoint(s.committed, 0, t + 1);
    PlanStackMaterializes(s.persistent, Below(s.committed, t + 1));
    StacksAgree(s.persistent, Below(s.committed, t + 1));
  }

  /** Committing a delta in the middle of the order leaves every key it does not touch alone. */
  lemma MiddleUntouched(rows: Rows, c: map<TxnId, Option<Layer>>, t: TxnId, d: Option<Layer>, n: nat, k: Row)
    requires t !in c && t < n
    requires d.Some? ==> !Touches(d.value, k)
    ensures Get(ViewStack(rows, Below(c[t := d], n)), k) == Get(ViewStack(rows, Below(c, n)), k)
  {
    var c' := c[t := d];
    SplitAt(c, t, n);
    SplitAt(c', t, n);
    BetweenAgrees(c, c', 0, t);
    BetweenAgrees(c, c', t + 1, n);
    LiftedUntouched(rows, Below(c, t), d, Between(c, t + 1, n), k);
    assert DeltaOf(c, t) == [];
    assert Below(c, t) + [] == Below(c, t);
  }

  lemma SplitAt(c: map<TxnId, Option<Layer>>, t: TxnId, n: nat)
    requires t < n
    ensures Below(c, n) == Below(c, t) + DeltaOf(c, t) + Between(c, t + 1, n)
  {
    BetweenSplit(c, 0, t + 1, n);
  }

  lemma LiftedUntouched(rows: Rows, lower: seq<Layer>, d: Option<Layer>, upper: seq<Layer>, k: Row)
    requires d.Some? ==> !Touches(d.value, k)
    ensures Get(ViewStack(rows, lower + (if d.Some? then [d.value] else []) + upper), k)
         == Get(ViewStack(rows, lower + upper), k)
  {
    var low := ViewStack(rows, lower);
    StackConcat(rows, lower, upper);
    if d.Some? {
      StackConcat(rows, lower + [d.value], upper);
      assert (lower + [d.value])[..|lower|] == lower;
      StackHides(View(low, d.value), low, upper, k);
    } else {
      assert lower + [] == lower;
    }
  }

  // ---------------------------------------------------------------- what each decision shows

  /** The transaction has been committed with a delta that touches the key. */
  ghost predicate CommittedTo(s: State, t: TxnId, k: Row) {
    t in s.committed && s.committed[t].Some? && Touches(s.committed[t].value, k)
  }

  /** What a transaction sees at a key comes from its own delta if that touches the key, or else from
      the latest commit up to its id that does, or else from the canonical rows. */
  lemma VisibleIsLatest(s: State, t: TxnId, k: Row)
    ensures t in s.pending && Touches(s.pending[t], k) ==>
              Get(VisibleAt(s, t), k) == Get(s.pending[t].inserts, k)
    ensures !(t in s.pending && Touches(s.pending[t], k)) ==> forall u: TxnId |
              u <= t && CommittedTo(s, u, k) && (forall x: TxnId | u < x <= t :: !CommittedTo(s, x, k)) ::
              Get(VisibleAt(s, t), k) == Get(s.committed[u].value.inserts, k)
    ensures !(t in s.pending && Touches(s.pending[t], k)) && (forall u: TxnId | u <= t :: !CommittedTo(s, u, k)) ==>
              Get(VisibleAt(s, t), k) == Get(s.persistent, k)
  {
    hide ViewStack, Between, VisibleAt;
    OwnDeltaOnTop(s, t, PendingAt(s, t));
    if !(t in s.pending && Touches(s.pending[t], k)) {
      assert Get(VisibleAt(s, t), k) == Get(CommittedRows(s, t), k);
      forall u: TxnId | u <= t && CommittedTo(s, u, k) && (forall x: TxnId | u < x <= t :: !CommittedTo(s, x, k))
        ensures Get(CommittedRows(s, t), k) == Get(s.committed[u].value.inserts, k)
      {
        LatestCommit(s, t, u, k);
      }
      if forall u: TxnId | u <= t :: !CommittedTo(s, u, k) {
        NotTouchedBetween(s, 0, t + 1, k);
        StackUntouched(s.persistent, Below(s.committed, t + 1), k);
      }
    }
  }

  lemma NotTouchedBetween(s: State, lo: nat, hi: nat, k: Row)
    requires forall x: TxnId | lo <= x < hi :: !CommittedTo(s, x, k)
    ensures !StackTouches(Between(s.committed, lo, hi), k)
  {
    InBetween(s.committed, lo, hi);
    if d :| d in Between(s.committed, lo, hi) && Touches(d, k) {
      var x :| lo <= x < hi && x in s.committed && s.committed[x] == Some(d);
      assert CommittedTo(s, x, k);
    }
  }

  lemma LatestCommit(s: State, t: TxnId, u: TxnId, k: Row)
    requires u <= t && CommittedTo(s, u, k) && forall x: TxnId | u < x <= t :: !CommittedTo(s, x, k)
    ensures Get(CommittedRows(s, t), k) == Get(s.committed[u].value.inserts, k)
  {
    hide ViewStack;
    var c, d := s.committed, s.committed[u].value;
    BetweenSplit(c, 0, u + 1, t + 1);
    NotTouchedBetween(s, u + 1, t + 1, k);
    StackConcat(s.persistent, Below(c, u + 1), Between(c, u + 1, t + 1));
    StackUntouched(ViewStack(s.persistent, Below(c, u + 1)), Between(c, u + 1, t + 1), k);
    assert Below(c, u + 1) == Below(c, u) + [d];
    LastTouchDecides(s.persistent, Below(c, u) + [d], |Below(c, u)|, k);
  }

  /** A transaction at or below the frontier is outdated, whatever is asked of it; above it a committed
      one can no longer write, a repeated commit is accepted, and a rollback after it is a conflict. */
  lemma OutcomesSay(s: State, t: TxnId)
    ensures s.finalized.Some? && t <= s.finalized.value ==>
              AssertWritable(s, t) == CommitOutcome(s, t) == RollbackOutcome(s, t) == Refused(Outdated)
    ensures s.finalized.None? || s.finalized.value < t ==>
              && AssertWritable(s, t) == (if t in s.committed then Refused(Committed) else Done)
              && RollbackOutcome(s, t) == (if t in s.committed then Refused(Conflict) else Done)
              && CommitOutcome(s, t) == Done
    ensures forall budget: nat :: FinalizeOutcome(s, t, budget) == Done <==>
              (s.finalized.Some? && t <= s.finalized.value) || |FinalizePlan(s, t)| <= budget
  {
  }

  /** A first commit changes neither what its transaction sees nor any earlier view, and moves its
      delta; a refused or repeated one changes nothing. */
  lemma CommitShows(s: State, t: TxnId)
    ensures var s' := Commit(s, t);
      if t in s.committed || (s.finalized.Some? && t <= s.finalized.value) then s' == s
      else
        && s'.persistent == s.persistent && s'.finalized == s.finalized
        && s'.committed.Keys == s.committed.Keys + {t} && s'.pending.Keys == s.pending.Keys - {t}
        && s'.committed[t] == (if t in s.pending then Some(s.pending[t]) else None)
        && (forall u | u in s.committed :: s'.committed[u] == s.committed[u])
        && (forall u | u in s'.pending :: s'.pending[u] == s.pending[u])
        && (forall u: TxnId | u <= t :: VisibleAt(s', u) == VisibleAt(s, u))
  {
    hide ViewStack, Between;
    if t !in s.committed && !Closed(s, t) {
      forall u: TxnId | u <= t ensures VisibleAt(Commit(s, t), u) == VisibleAt(s, u) { SnapshotKept(s, t, u); }
    }
  }

  lemma SnapshotKept(s: State, t: TxnId, u: TxnId)
    requires t !in s.committed && !Closed(s, t) && u <= t
    ensures VisibleSnapshot(Commit(s, t), u) == VisibleSnapshot(s, u)
  {
    var c, c' := s.committed, Commit(s, t).committed;
    if u < t {
      BetweenAgrees(c, c', 0, u + 1);
    } else {
      BetweenAgrees(c, c', 0, t);
      assert DeltaOf(c, t) == [] && DeltaOf(c', t) == Own(s, t);
      assert Below(c, t) + [] == Below(c, t) && Below(c, t) + Own(s, t) + [] == Below(c, t) + Own(s, t);
    }
  }

  /** A rollback leaves its transaction with what had been committed, and every other view as it was;
      a refused one changes nothing. */
  lemma RollbackShows(s: State, t: TxnId)
    ensures var s' := Rollback(s, t);
      if t in s.committed || (s.finalized.Some? && t <= s.finalized.value) then s' == s
      else
        && s'.persistent == s.persistent && s'.committed == s.committed && s'.finalized == s.finalized
        && s'.pending.Keys == s.pending.Keys - {t}
        && (forall u | u in s'.pending :: s'.pending[u] == s.pending[u])
        && VisibleAt(s', t) == CommittedRows(s, t)
        && (forall u: TxnId | u != t :: VisibleAt(s', u) == VisibleAt(s, u))
  {
    assert Below(s.committed, t + 1) + [] == Below(s.committed, t + 1);
  }

  /** A completed finalize moves the frontier to its cutoff and holds on to exactly the deltas above
      it, committed and pending; one that fails changes no delta, and one below the frontier nothing. */
  lemma FinalizeKeeps(s: State, c: TxnId, budget: nat)
    ensures var s' := FinalizeResult(s, c, budget);
      if s.finalized.Some? && c <= s.finalized.value then s' == s
      else if budget < |FinalizePlan(s, c)| then s' == s.(persistent := s'.persistent)
      else
        && s'.finalized == Some(c)
        && (forall t :: t in s'.committed <==> t in s.committed && c < t)
        && (forall t | t in s'.committed :: s'.committed[t] == s.committed[t])
        && (forall t :: t in s'.pending <==> t in s.pending && c < t)
        && (forall t | t in s'.pending :: s'.pending[t] == s.pending[t])
  {
  }
}
