/**
 Concurrent ClaimNextCommand calls.

 A call is a transaction: it fixes now() and a snapshot of eligible rows, visits them oldest
 first, skips a row that another transaction has locked or that no longer satisfies the
 condition, locks the first remaining one and updates it when it commits. Each visit, each
 commit and each abort is one atomic step, interleaved with steps of other transactions,
 insertions and reports. (Locking a row and checking its newest version again is one step.)
 */
module Claiming {
  import opened Common
  import opened Rows

  type TxnId = nat

  datatype Phase = Scanning | Holding | Committed | Ended

  datatype Txn = Txn(
    slug: Slug, tags: seq<string>,
    at: Time,                  // now() of the transaction
    snapshot: set<Id>,         // rows eligible when it began
    pending: set<Id>,          // those not visited yet
    busy: map<Id, TxnId>,      // those skipped because another transaction held them, with that one
    stale: set<Id>,            // those skipped because they were not eligible any more
    held: Option<Id>,          // the row it locked, kept as history after the end
    phase: Phase)

  /** As history: who last committed a claim of a row, and how often it was reported `queued`. */
  datatype State = State(now: Time, rows: Commands, txns: map<TxnId, Txn>,
                         claims: map<Id, TxnId>, requeued: multiset<Id>)

  datatype Action =
    | Tick(later: Time)
    | Insert(id: Id, target: Target, deadline: Option<Time>)
    | Update(id: Id, status: Status, opts: UpdateOpts)
    | Begin(t: TxnId, slug: Slug, tags: seq<string>)
    | SkipBusy(t: TxnId, id: Id, holder: TxnId)
    | SkipStale(t: TxnId, id: Id)
    | Lock(t: TxnId, id: Id)
    | Commit(t: TxnId)
    | Abort(t: TxnId)
    | FindNothing(t: TxnId)

  predicate Holds(s: State, u: TxnId, id: Id)
  {
    u in s.txns && s.txns[u].phase.Holding? && s.txns[u].held == Some(id)
  }

  /** The row that the scan visits next. */
  ghost predicate Visits(s: State, t: TxnId, id: Id)
  {
    t in s.txns && s.txns[t].phase.Scanning? && id in s.rows && id in s.txns[t].pending &&
    forall j :: j in s.txns[t].pending && j in s.rows ==> s.rows[id].createdAt <= s.rows[j].createdAt
  }

  predicate StillEligible(s: State, t: TxnId, id: Id)
    requires t in s.txns && id in s.rows
  {
    Eligible(s.rows[id], s.txns[t].slug, s.txns[t].tags, s.txns[t].at)
  }

  ghost predicate Enabled(s: State, a: Action)
  {
    match a
    case Tick(later) => s.now <= later
    case Insert(id, _, _) => id !in s.rows
    case Update(id, _, _) => id in s.rows && forall u :: u in s.txns ==> !Holds(s, u, id)
    case Begin(t, _, _) => t !in s.txns
    case SkipBusy(t, id, holder) => Visits(s, t, id) && Holds(s, holder, id)
    case SkipStale(t, id) => Visits(s, t, id) && !StillEligible(s, t, id)
    case Lock(t, id) => Visits(s, t, id) && StillEligible(s, t, id) && forall u :: u in s.txns ==> !Holds(s, u, id)
    case Commit(t) => t in s.txns && s.txns[t].phase.Holding? && s.txns[t].held.Some? && s.txns[t].held.value in s.rows
    case Abort(t) => t in s.txns && (s.txns[t].phase.Scanning? || s.txns[t].phase.Holding?)
    case FindNothing(t) => t in s.txns && s.txns[t].phase.Scanning? && s.txns[t].pending == {}
  }

  function SetTxn(s: State, t: TxnId, x: Txn): State
  {
    s.(txns := s.txns[t := x])
  }

  ghost function Next(s: State, a: Action): State
    requires Enabled(s, a)
  {
    match a
    case Tick(later) => s.(now := later)
    case Insert(id, target, deadline) => s.(rows := s.rows[id := NewCommand(target, deadline, s.now)])
    case Update(id, status, opts) =>
      s.(rows := s.rows[id := UpdateRow(s.rows[id], status, opts)],
         requeued := s.requeued + if status.Queued? then multiset{id} else multiset{})
    case Begin(t, slug, tags) =>
      var ids := EligibleIds(s.rows, slug, tags, s.now);
      SetTxn(s, t, Txn(slug, tags, s.now, ids, ids, map[], {}, None, Scanning))
    case SkipBusy(t, id, holder) =>
      SetTxn(s, t, s.txns[t].(pending := s.txns[t].pending - {id}, busy := s.txns[t].busy[id := holder]))
    case SkipStale(t, id) =>
      SetTxn(s, t, s.txns[t].(pending := s.txns[t].pending - {id}, stale := s.txns[t].stale + {id}))
    case Lock(t, id) =>
      SetTxn(s, t, s.txns[t].(pending := s.txns[t].pending - {id}, held := Some(id), phase := Holding))
    case Commit(t) =>
      var id := s.txns[t].held.value;
      SetTxn(s, t, s.txns[t].(phase := Committed))
        .(rows := s.rows[id := ClaimRow(s.rows[id], s.txns[t].slug, s.txns[t].at)], claims := s.claims[id := t])
    case Abort(t) => SetTxn(s, t, s.txns[t].(phase := Ended))
    case FindNothing(t) => SetTxn(s, t, s.txns[t].(phase := Ended))
  }

  // ----- invariant -----

  /** Locks exclude each other and keep their rows as they were checked. */
  ghost predicate LocksOk(s: State)
  {
    && (forall t :: t in s.txns && s.txns[t].phase.Holding? ==>
          s.txns[t].held.Some? && s.txns[t].held.value in s.rows && StillEligible(s, t, s.txns[t].held.value))
    && (forall t, u, id :: Holds(s, t, id) && Holds(s, u, id) ==> t == u)
  }

  /** The transactions that have committed a claim of the row. */
  function Claimants(s: State, id: Id): set<TxnId>
  {
    set t | t in s.txns && s.txns[t].phase.Committed? && s.txns[t].held == Some(id)
  }

  /** The claim columns are those of the last committed claim of the row. */
  ghost predicate ClaimsOk(s: State)
  {
    && (forall id :: id in s.claims ==> ClaimOk(s, id, s.claims[id]))
    && (forall id :: id in s.rows ==> ColumnsOk(s, id))
    && (forall t :: t in s.txns && s.txns[t].phase.Committed? ==> CommitOk(s, t))
    && (forall id :: id !in s.rows ==> Claimants(s, id) == {})
  }

  /** Each claim but the first needs a report that has put the row back into the queue. */
  predicate ColumnsOk(s: State, id: Id)
    requires id in s.rows
  {
    && (s.rows[id].assignedRunner.Some? <==> s.rows[id].claimedAt.Some?)
    && (s.rows[id].assignedRunner.Some? <==> id in s.claims)
    && |Claimants(s, id)| <= s.requeued[id] + if s.rows[id].status.Queued? then 0 else 1
  }

  predicate ClaimOk(s: State, id: Id, t: TxnId)
  {
    && id in s.rows && t in s.txns && s.txns[t].phase.Committed? && s.txns[t].held == Some(id)
    && s.rows[id].assignedRunner == Some(s.txns[t].slug)
    && s.rows[id].claimedAt == Some(s.txns[t].at)
  }

  /** The row that a transaction claimed was meant for it. */
  predicate CommitOk(s: State, t: TxnId)
    requires t in s.txns
  {
    var x := s.txns[t];
    && x.held.Some? && x.held.value in s.rows && x.held.value in s.claims
    && Matches(s.rows[x.held.value], x.slug, x.tags) && Unexpired(s.rows[x.held.value], x.at)
  }

  /** The row is not in the queue, or has been put back into it. */
  predicate LeftQueue(s: State, id: Id)
    requires id in s.rows
  {
    !s.rows[id].status.Queued? || s.requeued[id] > 0
  }

  /** What a scan has passed over, and why. */
  ghost predicate ScanOk(s: State, t: TxnId)
    requires t in s.txns
  {
    var x := s.txns[t];
    && (forall j :: j in x.snapshot ==>
          j in s.rows && Matches(s.rows[j], x.slug, x.tags) && Unexpired(s.rows[j], x.at)
          && (j in x.pending || j in x.busy || j in x.stale || x.held == Some(j)))
    && x.pending <= x.snapshot
    && (forall j :: j in x.busy ==> x.busy[j] in s.txns && x.busy[j] != t && s.txns[x.busy[j]].held == Some(j))
    && (forall j :: j in x.stale ==> j in s.rows && LeftQueue(s, j))
    && (x.phase.Scanning? ==> x.held.None?)
    && (x.held.Some? ==> x.held.value in s.rows)
    && (x.held.Some? ==> forall j :: j in x.pending ==> s.rows[x.held.value].createdAt <= s.rows[j].createdAt)
  }

  ghost predicate ScansOk(s: State)
  {
    forall t :: t in s.txns ==> ScanOk(s, t)
  }

  ghost predicate Inv(s: State)
  {
    LocksOk(s) && ClaimsOk(s) && ScansOk(s)
  }

  lemma NextHolds(s: State, a: Action, t: TxnId, id: Id)
    requires LocksOk(s) && Enabled(s, a) && Holds(Next(s, a), t, id)
    ensures Holds(s, t, id) || a == Lock(t, id)
  {
  }

  lemma NextKeepsLocks(s: State, a: Action)
    requires LocksOk(s) && Enabled(s, a)
    ensures LocksOk(Next(s, a))
  {
    var n := Next(s, a);
    forall t, u, id | Holds(n, t, id) && Holds(n, u, id) ensures t == u {
      NextHolds(s, a, t, id);
      NextHolds(s, a, u, id);
    }
    forall t | t in n.txns && n.txns[t].phase.Holding?
      ensures n.txns[t].held.Some? && n.txns[t].held.value in n.rows && StillEligible(n, t, n.txns[t].held.value)
    {
      if t in s.txns && s.txns[t].phase.Holding? {
        var id := s.txns[t].held.value;
        assert Holds(s, t, id) && StillEligible(s, t, id);
        assert a.Commit? && s.txns[a.t].held.value == id ==> Holds(s, a.t, id);
      }
    }
  }

  /** Rows keep their target, deadline and creation time, and once out of the queue return by a report only. */
  predicate RowFollows(s: State, n: State, id: Id)
    requires id in s.rows
  {
    && id in n.rows
    && n.rows[id].target == s.rows[id].target && n.rows[id].deadline == s.rows[id].deadline
    && n.rows[id].createdAt == s.rows[id].createdAt
    && s.requeued[id] <= n.requeued[id]
    && (!s.rows[id].status.Queued? ==> !n.rows[id].status.Queued? || n.requeued[id] > s.requeued[id])
  }

  lemma NextFollowsRows(s: State, a: Action)
    requires Enabled(s, a)
    ensures forall id :: id in s.rows ==> RowFollows(s, Next(s, a), id)
  {
  }

  /** All steps but commits leave claims and claim columns alone. */
  lemma RowsWithoutCommit(s: State, a: Action)
    requires Enabled(s, a) && !a.Commit?
    ensures Next(s, a).claims == s.claims
    ensures forall id :: id in s.rows ==>
              id in Next(s, a).rows && ColumnsSame(s.rows[id], Next(s, a).rows[id])
    ensures forall id :: id in Next(s, a).rows && id !in s.rows ==>
              Next(s, a).rows[id].assignedRunner.None? && Next(s, a).rows[id].claimedAt.None?
  {
  }

  predicate ColumnsSame(c: Command, d: Command)
  {
    d.assignedRunner == c.assignedRunner && d.claimedAt == c.claimedAt
  }

  lemma CommittedWithoutCommit(s: State, a: Action)
    requires Enabled(s, a) && !a.Commit?
    ensures forall t :: t in s.txns && s.txns[t].phase.Committed? ==>
              t in Next(s, a).txns && Next(s, a).txns[t] == s.txns[t]
    ensures forall t :: t in Next(s, a).txns && Next(s, a).txns[t].phase.Committed? ==>
              t in s.txns && Next(s, a).txns[t] == s.txns[t]
  {
  }

  lemma SameClaimants(s: State, a: Action, id: Id)
    requires Enabled(s, a) && !a.Commit?
    ensures Claimants(Next(s, a), id) == Claimants(s, id)
  {
    CommittedWithoutCommit(s, a);
  }

  lemma OneMoreClaimant(s: State, t: TxnId, id: Id)
    requires Enabled(s, Commit(t))
    ensures Claimants(Next(s, Commit(t)), id)
         == Claimants(s, id) + if s.txns[t].held == Some(id) then {t} else {}
  {
  }

  /** What any step but a commit keeps of a row's columns. */
  lemma ColumnsWithoutCommit(s: State, a: Action, id: Id)
    requires ClaimsOk(s) && Enabled(s, a) && !a.Commit? && id in Next(s, a).rows
    ensures ColumnsOk(Next(s, a), id)
  {
    RowsWithoutCommit(s, a);
    SameClaimants(s, a, id);
    if id in s.rows {
      assert ColumnsOk(s, id);
      NextFollowsRows(s, a);
      assert RowFollows(s, Next(s, a), id);
    } else {
      assert id !in s.claims;
    }
  }

  lemma ClaimsWithoutCommit(s: State, a: Action)
    requires ClaimsOk(s) && Enabled(s, a) && !a.Commit?
    ensures ClaimsOk(Next(s, a))
  {
    var n := Next(s, a);
    RowsWithoutCommit(s, a);
    CommittedWithoutCommit(s, a);
    NextFollowsRows(s, a);
    forall id | id in n.claims ensures ClaimOk(n, id, n.claims[id]) {
      assert ClaimOk(s, id, s.claims[id]);
    }
    forall id | id in n.rows ensures ColumnsOk(n, id) {
      ColumnsWithoutCommit(s, a, id);
    }
    forall t | t in n.txns && n.txns[t].phase.Committed? ensures CommitOk(n, t) {
      assert CommitOk(s, t);
      assert RowFollows(s, n, s.txns[t].held.value);
    }
    forall id | id !in n.rows ensures Claimants(n, id) == {} {
      SameClaimants(s, a, id);
    }
  }

  lemma ColumnsAtCommit(s: State, t: TxnId, id: Id)
    requires LocksOk(s) && ClaimsOk(s) && Enabled(s, Commit(t)) && id in s.rows
    ensures ColumnsOk(Next(s, Commit(t)), id)
  {
    var held := s.txns[t].held.value;
    assert StillEligible(s, t, held);
    assert ColumnsOk(s, id);
    OneMoreClaimant(s, t, id);
    if id == held {
      assert t !in Claimants(s, id);
    }
  }

  lemma CommitsAtCommit(s: State, t: TxnId, u: TxnId)
    requires LocksOk(s) && ClaimsOk(s) && Enabled(s, Commit(t)) && u in s.txns
    requires Next(s, Commit(t)).txns[u].phase.Committed?
    ensures CommitOk(Next(s, Commit(t)), u)
  {
    if u == t {
      assert StillEligible(s, t, s.txns[t].held.value);
    } else {
      assert CommitOk(s, u);
    }
  }

  lemma CommitKeepsClaims(s: State, t: TxnId)
    requires LocksOk(s) && ClaimsOk(s) && Enabled(s, Commit(t))
    ensures ClaimsOk(Next(s, Commit(t)))
  {
    var n := Next(s, Commit(t));
    var held := s.txns[t].held.value;
    forall id | id in n.claims ensures ClaimOk(n, id, n.claims[id]) {
      if id != held {
        assert ClaimOk(s, id, s.claims[id]);
      }
    }
    forall id | id in n.rows ensures ColumnsOk(n, id) {
      ColumnsAtCommit(s, t, id);
    }
    forall u | u in n.txns && n.txns[u].phase.Committed? ensures CommitOk(n, u) {
      CommitsAtCommit(s, t, u);
    }
    forall id | id !in n.rows ensures Claimants(n, id) == {} {
      OneMoreClaimant(s, t, id);
    }
  }

  lemma NextKeepsClaims(s: State, a: Action)
    requires LocksOk(s) && ClaimsOk(s) && Enabled(s, a)
    ensures ClaimsOk(Next(s, a))
  {
    if a.Commit? {
      CommitKeepsClaims(s, a.t);
    } else {
      ClaimsWithoutCommit(s, a);
    }
  }

  lemma HeldOf(s: State, a: Action, u: TxnId)
    requires ScansOk(s) && Enabled(s, a) && u in s.txns
    ensures u in Next(s, a).txns && (s.txns[u].held.Some? ==> Next(s, a).txns[u].held == s.txns[u].held)
  {
    assert ScanOk(s, u);
  }

  lemma HeldIsKept(s: State, a: Action)
    requires ScansOk(s) && Enabled(s, a)
    ensures forall u :: u in s.txns ==> u in Next(s, a).txns
    ensures forall u :: u in s.txns && s.txns[u].held.Some? ==> Next(s, a).txns[u].held == s.txns[u].held
  {
    forall u | u in s.txns
      ensures u in Next(s, a).txns && (s.txns[u].held.Some? ==> Next(s, a).txns[u].held == s.txns[u].held)
    {
      HeldOf(s, a, u);
    }
  }

  /** A transaction whose record changes at most in its phase. */
  lemma ScanFrame(s: State, n: State, t: TxnId)
    requires t in s.txns && ScanOk(s, t) && t in n.txns
    requires n.txns[t] == s.txns[t].(phase := n.txns[t].phase)
    requires n.txns[t].phase.Scanning? ==> s.txns[t].phase.Scanning?
    requires forall id :: id in s.rows ==> RowFollows(s, n, id)
    requires forall u :: u in s.txns ==> u in n.txns
    requires forall u :: u in s.txns && s.txns[u].held.Some? ==> n.txns[u].held == s.txns[u].held
    ensures ScanOk(n, t)
  {
  }

  lemma BusyScanKept(s: State, t: TxnId, id: Id, holder: TxnId)
    requires ScansOk(s) && Enabled(s, SkipBusy(t, id, holder))
    ensures ScanOk(Next(s, SkipBusy(t, id, holder)), t)
  {
    HeldIsKept(s, SkipBusy(t, id, holder));
    assert ScanOk(s, t);
  }

  lemma StaleScanKept(s: State, t: TxnId, id: Id)
    requires ScansOk(s) && Enabled(s, SkipStale(t, id))
    ensures ScanOk(Next(s, SkipStale(t, id)), t)
  {
    HeldIsKept(s, SkipStale(t, id));
    assert ScanOk(s, t);
  }

  lemma LockedScanKept(s: State, t: TxnId, id: Id)
    requires ScansOk(s) && Enabled(s, Lock(t, id))
    ensures ScanOk(Next(s, Lock(t, id)), t)
  {
    HeldIsKept(s, Lock(t, id));
    assert ScanOk(s, t);
  }

  lemma ActiveScanKept(s: State, a: Action)
    requires ScansOk(s) && Enabled(s, a) && (a.SkipBusy? || a.SkipStale? || a.Lock?)
    ensures ScanOk(Next(s, a), a.t)
  {
    if a.Lock? {
      LockedScanKept(s, a.t, a.id);
    } else if a.SkipBusy? {
      BusyScanKept(s, a.t, a.id, a.holder);
    } else {
      StaleScanKept(s, a.t, a.id);
    }
  }

  /** Whose record a step changes, and how. */
  lemma NextTxn(s: State, a: Action, t: TxnId)
    requires Enabled(s, a) && t in Next(s, a).txns
    requires !((a.SkipBusy? || a.SkipStale? || a.Lock?) && t == a.t)
    ensures t in s.txns ==>
              Next(s, a).txns[t] == s.txns[t].(phase := Next(s, a).txns[t].phase)
              && (Next(s, a).txns[t].phase.Scanning? ==> s.txns[t].phase.Scanning?)
    ensures t !in s.txns ==> a.Begin? && t == a.t
  {
  }

  lemma BeginScan(s: State, t: TxnId, slug: Slug, tags: seq<string>)
    requires Enabled(s, Begin(t, slug, tags))
    ensures ScanOk(Next(s, Begin(t, slug, tags)), t)
  {
  }

  lemma NextKeepsScan(s: State, a: Action, t: TxnId)
    requires ScansOk(s) && Enabled(s, a) && t in Next(s, a).txns
    ensures ScanOk(Next(s, a), t)
  {
    if (a.SkipBusy? || a.SkipStale? || a.Lock?) && t == a.t {
      ActiveScanKept(s, a);
    } else {
      NextTxn(s, a, t);
      if t in s.txns {
        HeldIsKept(s, a);
        NextFollowsRows(s, a);
        ScanFrame(s, Next(s, a), t);
      } else {
        BeginScan(s, t, a.slug, a.tags);
      }
    }
  }

  lemma NextKeepsScans(s: State, a: Action)
    requires ScansOk(s) && Enabled(s, a)
    ensures ScansOk(Next(s, a))
  {
    forall t | t in Next(s, a).txns ensures ScanOk(Next(s, a), t) {
      NextKeepsScan(s, a, t);
    }
  }

  lemma {:induction false} NextKeepsInv(s: State, a: Action)
    requires Inv(s) && Enabled(s, a)
    ensures Inv(Next(s, a))
  {
    NextKeepsLocks(s, a);
    NextKeepsClaims(s, a);
    NextKeepsScans(s, a);
  }

  /**
   A scan never waits: at any moment one step is open to it. It takes the oldest row it has not visited
   and locks it exactly if it may still be claimed and no other transaction holds it.
   */
  lemma {:induction false} ScanGoesOn(s: State, t: TxnId) returns (a: Action)
    requires Inv(s) && t in s.txns && s.txns[t].phase == Scanning
    ensures Enabled(s, a) && (a.FindNothing? || a.Lock? || a.SkipBusy? || a.SkipStale?) && a.t == t
    ensures a.FindNothing? <==> s.txns[t].pending == {}
    ensures s.txns[t].pending != {} ==>
              a.id in s.txns[t].pending && a.id in s.rows
              && (forall j :: j in s.txns[t].pending && j in s.rows ==> s.rows[a.id].createdAt <= s.rows[j].createdAt)
              && Next(s, a).txns[t].pending == s.txns[t].pending - {a.id}
              && (a.Lock? <==>
                  var c, x := s.rows[a.id], s.txns[t];
                  && c.status == Queued
                  && (c.target == ToSlug(x.slug) || (c.target.ToTag? && c.target.value in x.tags))
                  && (c.deadline.None? || x.at < c.deadline.value)
                  && forall u :: u in s.txns && s.txns[u].phase == Holding ==> s.txns[u].held != Some(a.id))
  {
    var x := s.txns[t];
    assert ScanOk(s, t);
    if x.pending == {} {
      return FindNothing(t);
    }
    var id := OldestExists(s.rows, x.pending);
    if !StillEligible(s, t, id) {
      return SkipStale(t, id);
    }
    if u :| u in s.txns && Holds(s, u, id) {
      return SkipBusy(t, id, u);
    }
    return Lock(t, id);
  }

  // ----- runs -----

  ghost predicate Legal(now: Time, actions: seq<Action>)
    decreases |actions|, 0
  {
    actions == [] ||
    (Legal(now, actions[..|actions| - 1]) &&
     Enabled(After(now, actions[..|actions| - 1]), actions[|actions| - 1]))
  }

  ghost function After(now: Time, actions: seq<Action>): State
    requires Legal(now, actions)
    decreases |actions|, 1
  {
    if actions == [] then State(now, map[], map[], map[], multiset{})
    else Next(After(now, actions[..|actions| - 1]), actions[|actions| - 1])
  }

  lemma {:induction false} RunKeepsInv(now: Time, actions: seq<Action>)
    requires Legal(now, actions)
    ensures Inv(After(now, actions))
  {
    if actions == [] {
    } else {
      RunKeepsInv(now, actions[..|actions| - 1]);
      NextKeepsInv(After(now, actions[..|actions| - 1]), actions[|actions| - 1]);
    }
  }

  function LastTick(now: Time, actions: seq<Action>): Time
  {
    if actions == [] then now
    else
      var a := actions[|actions| - 1];
      if a.Tick? then a.later else LastTick(now, actions[..|actions| - 1])
  }

  lemma {:induction false} ClockIsLastTick(now: Time, actions: seq<Action>)
    requires Legal(now, actions)
    ensures After(now, actions).now == LastTick(now, actions)
  {
    if actions == [] {
    } else {
      ClockIsLastTick(now, actions[..|actions| - 1]);
    }
  }

  /** How often the command was reported `queued`. */
  function Requeues(actions: seq<Action>, id: Id): nat
  {
    if actions == [] then 0
    else
      var n := |actions| - 1;
      Requeues(actions[..n], id)
      + if actions[n].Update? && actions[n].id == id && actions[n].status == Queued then 1 else 0
  }

  lemma {:induction false} RequeuedIsRequeues(now: Time, actions: seq<Action>, id: Id)
    requires Legal(now, actions)
    ensures After(now, actions).requeued[id] == Requeues(actions, id)
  {
    if actions == [] {
    } else {
      RequeuedIsRequeues(now, actions[..|actions| - 1], id);
    }
  }

  /**
   In every interleaving, whatever statuses are reported: a command is claimed at most once more
   than it was reported `queued`.
   */
  lemma {:induction false} ClaimsAreBounded(now: Time, actions: seq<Action>, id: Id)
    requires Legal(now, actions)
    ensures var s := After(now, actions);
            |set t | t in s.txns && s.txns[t].phase == Committed && s.txns[t].held == Some(id)|
            <= 1 + Requeues(actions, id)
    ensures Requeues(actions, id) == After(now, actions).requeued[id]
  {
    RunKeepsInv(now, actions);
    RequeuedIsRequeues(now, actions, id);
    var s := After(now, actions);
    assert Claimants(s, id) == set t | t in s.txns && s.txns[t].phase == Committed && s.txns[t].held == Some(id);
    if id in s.rows {
      assert ColumnsOk(s, id);
    }
  }

  lemma TwoAreTwo(all: set<TxnId>, t: TxnId, u: TxnId)
    requires t in all && u in all && t != u
    ensures |all| >= 2
  {
    assert all == {t} + (all - {t});
    assert u in all - {t};
  }

  /**
   So two committed claims are of different commands, unless the command was reported `queued`; and
   a claimed command targets the claimer's slug or one of its tags, and was claimed before its deadline.
   */
  lemma {:induction false} NoCommandIsClaimedTwice(now: Time, actions: seq<Action>, t: TxnId, u: TxnId)
    requires Legal(now, actions)
    requires t in After(now, actions).txns && u in After(now, actions).txns
    requires After(now, actions).txns[t].phase.Committed?
    ensures var s := After(now, actions);
            && s.txns[t].held.Some? && s.txns[t].held.value in s.rows
            && (var c := s.rows[s.txns[t].held.value];
                && (c.target == ToSlug(s.txns[t].slug) || (c.target.ToTag? && c.target.value in s.txns[t].tags))
                && (c.deadline.None? || s.txns[t].at < c.deadline.value))
            && (s.txns[u].phase.Committed? && s.txns[u].held == s.txns[t].held ==>
                  t == u || Requeues(actions, s.txns[t].held.value) > 0)
  {
    RunKeepsInv(now, actions);
    var s := After(now, actions);
    assert CommitOk(s, t);
    var id := s.txns[t].held.value;
    if s.txns[u].phase.Committed? && s.txns[u].held == Some(id) && t != u {
      TwoAreTwo(Claimants(s, id), t, u);
      ClaimsAreBounded(now, actions, id);
    }
  }

  /** The claim columns of a row are always those of its last committed claim. */
  lemma {:induction false} ColumnsAreOfAClaim(now: Time, actions: seq<Action>, id: Id)
    requires Legal(now, actions) && id in After(now, actions).rows
    ensures var s := After(now, actions);
            s.rows[id].assignedRunner.Some? || s.rows[id].claimedAt.Some? ==>
              id in s.claims && s.claims[id] in s.txns &&
              var x := s.txns[s.claims[id]];
              && x.phase == Committed && x.held == Some(id)
              && s.rows[id].assignedRunner == Some(x.slug) && s.rows[id].claimedAt == Some(x.at)
  {
    RunKeepsInv(now, actions);
    assert ColumnsOk(After(now, actions), id);
  }

  /**
   A row is taken in creation order: every row of the transaction's snapshot that is older than
   the row it holds was held by another claim, or has left the queue.
   */
  lemma {:induction false} OldestFreeRowIsTaken(now: Time, actions: seq<Action>, t: TxnId, j: Id)
    requires Legal(now, actions) && t in After(now, actions).txns
    requires var s := After(now, actions);
             s.txns[t].held.Some? && j in s.txns[t].snapshot && j in s.rows && s.txns[t].held.value in s.rows
             && s.rows[j].createdAt < s.rows[s.txns[t].held.value].createdAt
    ensures var s := After(now, actions);
            s.rows[j].status != Queued || Requeues(actions, j) > 0 ||
            (j in s.txns[t].busy && s.txns[t].busy[j] in s.txns && s.txns[t].busy[j] != t
             && s.txns[s.txns[t].busy[j]].held == Some(j))
  {
    RunKeepsInv(now, actions);
    RequeuedIsRequeues(now, actions, j);
    assert ScanOk(After(now, actions), t);
  }

  ghost predicate BeganAt(s: State, x: Txn)
  {
    && x.at == s.now
    && forall id :: id in x.snapshot <==>
         id in s.rows && s.rows[id].status == Queued
         && (s.rows[id].target == ToSlug(x.slug) || (s.rows[id].target.ToTag? && s.rows[id].target.value in x.tags))
         && (s.rows[id].deadline.None? || s.now < s.rows[id].deadline.value)
  }

  lemma TxnKeepsBeginning(s: State, a: Action, t: TxnId)
    requires Enabled(s, a) && t in Next(s, a).txns
    ensures t in s.txns ==>
              var x, y := s.txns[t], Next(s, a).txns[t];
              y.slug == x.slug && y.tags == x.tags && y.at == x.at && y.snapshot == x.snapshot
    ensures t !in s.txns ==>
              a == Begin(t, Next(s, a).txns[t].slug, Next(s, a).txns[t].tags) && BeganAt(s, Next(s, a).txns[t])
  {
  }

  /**
   Every transaction has begun at some point of the run: there it has read the clock, for good, and
   found the rows that it visits, which are those that it could claim at that moment.
   */
  lemma {:induction false} TransactionBegan(now: Time, actions: seq<Action>, t: TxnId) returns (i: nat)
    requires Legal(now, actions) && t in After(now, actions).txns
    ensures i < |actions| && Legal(now, actions[..i])
    ensures var x := After(now, actions).txns[t];
            actions[i] == Begin(t, x.slug, x.tags) && x.at == LastTick(now, actions[..i])
    ensures var x, rows := After(now, actions).txns[t], After(now, actions[..i]).rows;
            forall id :: id in x.snapshot <==>
              id in rows && rows[id].status == Queued
              && (rows[id].target == ToSlug(x.slug) || (rows[id].target.ToTag? && rows[id].target.value in x.tags))
              && (rows[id].deadline.None? || x.at < rows[id].deadline.value)
  {
    var n := |actions| - 1;
    var before := After(now, actions[..n]);
    ClockIsLastTick(now, actions[..n]);
    TxnKeepsBeginning(before, actions[n], t);
    if t in before.txns {
      i := TransactionBegan(now, actions[..n], t);
      assert actions[..n][..i] == actions[..i];
    } else {
      i := n;
    }
  }

  /** What a step does to the row of a command, written out. */
  lemma RowAfter(s: State, a: Action, id: Id)
    requires Enabled(s, a)
    ensures id in Next(s, a).rows <==> id in s.rows || (a.Insert? && a.id == id)
    ensures a.Insert? && a.id == id ==>
              Next(s, a).rows[id]
              == Command(a.target, Queued, None, None, None, None, a.deadline, s.now, None, None, None)
    ensures id in s.rows && a.Update? && a.id == id ==>
              var c, o := s.rows[id], a.opts;
              Next(s, a).rows[id] == c.(status := a.status,
                                        exitCode := if o.exitCode.None? then c.exitCode else o.exitCode,
                                        errorMessage := if o.errorMessage.None? then c.errorMessage else o.errorMessage,
                                        startedAt := if o.startedAt.None? then c.startedAt else o.startedAt,
                                        finishedAt := if o.finishedAt.None? then c.finishedAt else o.finishedAt)
    ensures id in s.rows && a.Commit? && s.txns[a.t].held == Some(id) ==>
              Next(s, a).rows[id] == s.rows[id].(status := Claimed, assignedRunner := Some(s.txns[a.t].slug),
                                                 claimedAt := Some(s.txns[a.t].at))
    ensures id in s.rows && !(a.Update? && a.id == id) && !(a.Commit? && s.txns[a.t].held == Some(id)) ==>
              Next(s, a).rows[id] == s.rows[id]
  {
  }

  /** A transaction that commits, aborts or finds nothing is over and holds no row any more. */
  lemma EndReleases(s: State, a: Action)
    requires Enabled(s, a) && (a.Commit? || a.Abort? || a.FindNothing?)
    ensures var n := Next(s, a);
            && a.t in n.txns && n.txns[a.t].phase == (if a.Commit? then Committed else Ended)
            && n.txns[a.t].held == s.txns[a.t].held && forall id :: !Holds(n, a.t, id)
  {
  }

  /** One step: only the commit of a transaction that holds the row sets them, and both at once. */
  lemma ColumnsChangeByCommit(s: State, a: Action, id: Id)
    requires Inv(s) && Enabled(s, a) && id in s.rows
    ensures id in Next(s, a).rows
    ensures var c, d := s.rows[id], Next(s, a).rows[id];
            d.assignedRunner != c.assignedRunner || d.claimedAt != c.claimedAt ==>
              a.Commit? && s.txns[a.t].held == Some(id) && c.status == Queued && d.status == Claimed
              && d.assignedRunner == Some(s.txns[a.t].slug) && d.claimedAt == Some(s.txns[a.t].at)
              && (c.assignedRunner.Some? ==> s.requeued[id] > 0)
  {
    if a.Commit? {
      assert StillEligible(s, a.t, s.txns[a.t].held.value);
      assert ColumnsOk(s, id);
      assert id in s.claims ==> ClaimOk(s, id, s.claims[id]);
      assert id in s.claims ==> s.claims[id] in Claimants(s, id);
    } else {
      RowsWithoutCommit(s, a);
    }
  }

  /**
   From any point of a run to any later one: assigned_runner and claimed_at stay once set, unless the
   command has been reported `queued`.
   */
  lemma {:induction false} ClaimColumnsAreFinal(now: Time, actions: seq<Action>, i: nat, id: Id)
    requires Legal(now, actions) && i <= |actions| && Legal(now, actions[..i])
    requires id in After(now, actions[..i]).rows && After(now, actions[..i]).rows[id].assignedRunner.Some?
    ensures id in After(now, actions).rows
    ensures var c, d := After(now, actions[..i]).rows[id], After(now, actions).rows[id];
            (d.assignedRunner == c.assignedRunner && d.claimedAt == c.claimedAt) || Requeues(actions, id) > 0
  {
    if i == |actions| {
      assert actions[..i] == actions;
    } else {
      var n := |actions| - 1;
      assert actions[..n][..i] == actions[..i];
      ClaimColumnsAreFinal(now, actions[..n], i, id);
      RunKeepsInv(now, actions[..n]);
      ColumnsChangeByCommit(After(now, actions[..n]), actions[n], id);
      RequeuedIsRequeues(now, actions[..n], id);
    }
  }

  /** A report can make a claimed row eligible again exactly if it carries the status `queued`. */
  lemma ReclaimableIff(c: Command, slug: Slug, tags: seq<string>, now: Time, status: Status, opts: UpdateOpts)
    requires Eligible(c, slug, tags, now)
    ensures Eligible(UpdateRow(ClaimRow(c, slug, now), status, opts), slug, tags, now) <==> status == Queued
  {
  }
}
