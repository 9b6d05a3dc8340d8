/** What every run of the dispatch protocol satisfies. */
module DispatchTheorems {
  import opened Common
  import opened Rows
  import opened Dispatch
  import L = Lane

  // ----- runs -----

  predicate Legal(now: Time, actions: seq<Action>)
    decreases |actions|, 0
  {
    actions == [] ||
    (Legal(now, actions[..|actions| - 1]) &&
     Enabled(After(now, actions[..|actions| - 1]), actions[|actions| - 1]))
  }

  function After(now: Time, actions: seq<Action>): State
    requires Legal(now, actions)
    decreases |actions|, 1
  {
    if actions == [] then Start(now)
    else Next(After(now, actions[..|actions| - 1]), actions[|actions| - 1])
  }

  lemma {:induction false} RunKeepsInv(now: Time, actions: seq<Action>)
    requires Legal(now, actions)
    ensures Inv(After(now, actions))
  {
    if actions == [] {
    } else {
      RunKeepsInv(now, actions[..|actions| - 1]);
      NextKeepsInv(After(now, actions[..|actions| - 1]), actions[|actions| - 1]);
    }
  }

  // ----- dispatch accounting -----

  /**
   In every reachable state and for every runner: active_count plus the increments not applied
   yet, those that failed and the surplus copies of Sends to several streams is the number of
   copies under way plus the losses and the decrements that failed. Once nothing is under way the
   counter is off by exactly the latter two less the two before.
   */
  lemma {:induction false} CounterDriftIsLosses(now: Time, actions: seq<Action>, slug: Slug)
    requires Legal(now, actions) && slug in After(now, actions).lanes
    ensures var l := After(now, actions).lanes[slug];
            && l.count + |l.owed| + |l.uncounted| + |l.missed| + |l.surplus|
               == L.UnderWay(l, None) + |l.lost| + |l.undeducted|
            && (L.UnderWay(l, None) == 0 && l.owed == multiset{} ==>
                  l.count == |l.lost| + |l.undeducted| - |l.surplus| - |l.missed|)
  {
    RunKeepsInv(now, actions);
    L.CounterAccounts(After(now, actions).lanes[slug]);
  }

  /** The same command by command: each credit is one copy, which is in exactly one place. */
  lemma {:induction false} CreditsAreConserved(now: Time, actions: seq<Action>, slug: Slug, id: Id)
    requires Legal(now, actions) && slug in After(now, actions).lanes
    ensures var l := After(now, actions).lanes[slug];
            l.credited[id] + l.surplus[id] == L.UnderWay(l, Some(id)) + l.lost[id] + l.settled[id]
  {
    RunKeepsInv(now, actions);
    assert L.Balanced(After(now, actions).lanes[slug], Some(id));
  }

  /** A stream is opened only while the runner has none. */
  predicate Solo(now: Time, actions: seq<Action>)
    requires Legal(now, actions)
  {
    actions == [] ||
    (Solo(now, actions[..|actions| - 1]) &&
     var a := actions[|actions| - 1];
     (a.Local? && a.move.Open? ==> After(now, actions[..|actions| - 1]).lanes[a.slug].buffers == []))
  }

  predicate OneStream(l: L.Lane)
  {
    |l.buffers| <= 1 && l.surplus == multiset{}
  }

  lemma MoveKeepsOneStream(l: L.Lane, m: L.Move)
    requires OneStream(l) && L.CanMove(l, m) && (m.Open? ==> l.buffers == [])
    ensures OneStream(L.Moved(l, m))
  {
    if m.Notify? || m.SendClaimed? {
      assert L.Copies(m.id, 0) == multiset{};
    }
  }

  lemma {:induction false} SoloKeepsOneStream(now: Time, actions: seq<Action>)
    requires Legal(now, actions) && Solo(now, actions)
    ensures forall slug :: slug in After(now, actions).lanes ==> OneStream(After(now, actions).lanes[slug])
  {
    if actions == [] {
    } else {
      var s := After(now, actions[..|actions| - 1]);
      var a := actions[|actions| - 1];
      SoloKeepsOneStream(now, actions[..|actions| - 1]);
      NextMovesOneLane(s, a);
      if MoveOf(s, a).Some? {
        MoveKeepsOneStream(s.lanes[MoveOf(s, a).value.0], MoveOf(s, a).value.1);
      }
    }
  }

  /** The copies of a command that are in a lane or have ended there. */
  function CopiesIn(l: L.Lane, id: Id): nat
  {
    L.UnderWay(l, Some(id)) + l.lost[id] + l.settled[id]
  }

  function CopiesOf(lanes: map<Slug, L.Lane>, id: Id): map<Slug, nat>
  {
    map slug | slug in lanes :: CopiesIn(lanes[slug], id)
  }

  /**
   With at most one stream per runner there is no surplus. A command then has as many copies, over
   all runners and wherever they are, as it has been dispatched, which is at most twice.
   */
  lemma {:induction false} SoloAccounting(now: Time, actions: seq<Action>, slug: Slug, id: Id)
    requires Legal(now, actions) && Solo(now, actions)
    ensures var s := After(now, actions);
            && (slug in s.lanes ==>
                  var l := s.lanes[slug];
                  && l.count + |l.owed| + |l.uncounted| + |l.missed|
                     == L.UnderWay(l, None) + |l.lost| + |l.undeducted|
                  && (L.UnderWay(l, None) == 0 && l.owed == multiset{} ==>
                        l.count == |l.lost| + |l.undeducted| - |l.missed|))
            && Sum(CopiesOf(s.lanes, id)) == Dispatched(s, id) <= 2
  {
    SoloKeepsOneStream(now, actions);
    if slug in After(now, actions).lanes {
      CounterDriftIsLosses(now, actions, slug);
    }
    RunKeepsInv(now, actions);
    OneStreamEach(After(now, actions).lanes, id);
    RedispatchIsBounded(now, actions, id);
  }

  lemma OneStreamCopies(l: L.Lane, id: Id)
    requires L.LaneInv(l) && OneStream(l)
    ensures CopiesIn(l, id) == l.credited[id]
  {
    assert L.Balanced(l, Some(id));
  }

  lemma OneStreamEach(lanes: map<Slug, L.Lane>, id: Id)
    requires LanesOk(lanes) && forall slug :: slug in lanes ==> OneStream(lanes[slug])
    ensures CopiesOf(lanes, id) == Credits(lanes, id)
  {
    forall slug | slug in lanes ensures CopiesIn(lanes[slug], id) == lanes[slug].credited[id] {
      OneStreamCopies(lanes[slug], id);
    }
  }

  // ----- bounded redispatch -----

  /**
   Over all runners together, a command is dispatched once for its notification, if that found a
   stream, and once for its claim, if it has been claimed: hence at most twice.
   */
  lemma {:induction false} RedispatchIsBounded(now: Time, actions: seq<Action>, id: Id)
    requires Legal(now, actions)
    ensures var s := After(now, actions);
            && Dispatched(s, id) == s.noticed[id] + s.claims[id]
            && s.noticed[id] <= 1 && s.claims[id] <= 1
            && (id in s.commands ==> (s.claims[id] == 1 <==> s.commands[id].assignedRunner.Some?))
            && (id !in s.commands ==> Dispatched(s, id) == 0)
  {
    RunKeepsInv(now, actions);
    var s := After(now, actions);
    assert Sum(Credits(s.lanes, id)) == s.noticed[id] + s.claims[id];
    if id in s.commands {
      assert CommandOk(s.commands[id], s.claims[id]);
    }
  }

  /** At some step of the run a notification of the command was delivered on an open stream. */
  predicate FoundAStream(now: Time, actions: seq<Action>, id: Id)
    requires Legal(now, actions)
  {
    actions != [] &&
    (FoundAStream(now, actions[..|actions| - 1], id) ||
     var a := actions[|actions| - 1];
     var lanes := After(now, actions[..|actions| - 1]).lanes;
     (a.Deliver? && a.id == id && a.slug in lanes && lanes[a.slug].buffers != []))
  }

  lemma {:induction false} NoticedIffFound(now: Time, actions: seq<Action>, id: Id)
    requires Legal(now, actions)
    ensures After(now, actions).noticed[id] > 0 <==> FoundAStream(now, actions, id)
  {
    if actions == [] {
    } else {
      NoticedIffFound(now, actions[..|actions| - 1], id);
      NextHistory(After(now, actions[..|actions| - 1]), actions[|actions| - 1]);
    }
  }

  /** Exactly when a command is dispatched twice, once, or not at all. */
  lemma {:induction false} DispatchedTwiceIff(now: Time, actions: seq<Action>, id: Id)
    requires Legal(now, actions) && id in After(now, actions).commands
    ensures var s := After(now, actions);
            && (Dispatched(s, id) == 2 <==>
                FoundAStream(now, actions, id) && s.commands[id].assignedRunner.Some?)
            && (Dispatched(s, id) == 0 <==>
                !FoundAStream(now, actions, id) && s.commands[id].assignedRunner.None?)
  {
    RedispatchIsBounded(now, actions, id);
    NoticedIffFound(now, actions, id);
  }

  /** The status columns as they stand after any run; nothing ever sets started_at. */
  lemma {:induction false} StatusColumnsAgree(now: Time, actions: seq<Action>, id: Id)
    requires Legal(now, actions) && id in After(now, actions).commands
    ensures var c := After(now, actions).commands[id];
            && c.status in {Queued, Claimed, Success, Failed, Cancelled}
            && (c.status in {Success, Failed, Cancelled} <==> c.finishedAt.Some?)
            && (c.status == Claimed ==> c.assignedRunner.Some?)
            && (c.status == Queued ==> c.assignedRunner.None?)
            && (c.assignedRunner.Some? <==> c.claimedAt.Some?)
            && c.startedAt.None?
  {
    RunKeepsInv(now, actions);
    assert CommandOk(After(now, actions).commands[id], After(now, actions).claims[id]);
  }

  /**
   `d` can be a later version of the row `c`: its status has not turned back, a claim is not
   rewritten, and what has been recorded about the outcome is not erased.
   */
  predicate Later(c: Command, d: Command)
  {
    && (c.status != Queued ==> d.status != Queued)
    && (c.status == Success || c.status == Failed || c.status == Cancelled ==>
          d.status == Success || d.status == Failed || d.status == Cancelled)
    && (c.assignedRunner.Some? ==> d.assignedRunner == c.assignedRunner && d.claimedAt == c.claimedAt)
    && (c.exitCode.Some? ==> d.exitCode.Some?)
    && (c.errorMessage.Some? ==> d.errorMessage.Some?)
    && d.target == c.target && d.deadline == c.deadline && d.createdAt == c.createdAt
  }

  /** What becomes of a row of `s` in `n`. */
  predicate Follows(s: State, n: State, id: Id)
    requires id in s.commands
  {
    id in n.commands && Later(s.commands[id], n.commands[id])
  }

  lemma WrittenRowIsLater(s: State, a: Action)
    requires CommandsOk(s.commands, s.claims) && Enabled(s, a) && RowOf(s, a).Some?
    ensures var (id, c) := RowOf(s, a).value; id in s.commands ==> Later(s.commands[id], c)
  {
    var (id, c) := RowOf(s, a).value;
    assert id in s.commands ==> CommandOk(s.commands[id], s.claims[id]);
  }

  lemma {:induction false} NextFollows(s: State, a: Action, id: Id)
    requires Inv(s) && Enabled(s, a) && id in s.commands
    ensures Follows(s, Next(s, a), id)
  {
    if a.Reap? {
      ReapKeepsCommands(s, a.runners);
    } else {
      NextWritesOneRow(s, a);
      if RowOf(s, a).Some? {
        WrittenRowIsLater(s, a);
      }
    }
  }

  /** From any point of a run to any later one. */
  lemma {:induction false} HistoryIsKept(now: Time, actions: seq<Action>, i: nat, id: Id)
    requires Legal(now, actions) && i <= |actions| && Legal(now, actions[..i])
    requires id in After(now, actions[..i]).commands
    ensures Follows(After(now, actions[..i]), After(now, actions), id)
  {
    if i == |actions| {
      assert actions[..i] == actions;
    } else {
      var n := |actions| - 1;
      assert actions[..n][..i] == actions[..i];
      HistoryIsKept(now, actions[..n], i, id);
      RunKeepsInv(now, actions[..n]);
      NextFollows(After(now, actions[..n]), actions[n], id);
    }
  }

  /** A command sent with target type "runner" is never claimed: only its notification can start it. */
  lemma {:induction false} RunnerTargetIsNeverClaimed(now: Time, actions: seq<Action>, id: Id)
    requires Legal(now, actions) && id in After(now, actions).commands
    requires After(now, actions).commands[id].target.ToRunner?
    ensures var s := After(now, actions);
            s.claims[id] == 0 && s.commands[id].assignedRunner.None? && !s.commands[id].status.Claimed?
  {
    RunKeepsInv(now, actions);
    assert CommandOk(After(now, actions).commands[id], After(now, actions).claims[id]);
  }

  /**
   The two routes agree on whom a command is for, but for the target type "runner": a registered
   runner may claim it by one of its lists of tags exactly if it may be announced to that runner.
   */
  lemma AddresseeMayClaimIff(s: State, c: Command, slug: Slug)
    requires exists r :: r in s.tags && r.0 == slug
    ensures (exists r :: r in s.tags && r.0 == slug && Matches(c, slug, r.1))
       <==> Addressee(s, c.target, slug) && !c.target.ToRunner?
  {
    if Addressee(s, c.target, slug) && c.target.ToTag? {
      var r :| r in s.tags && r.0 == slug && c.target.value in r.1;
      assert Matches(c, slug, r.1);
    } else if c.target == ToSlug(slug) {
      var r :| r in s.tags && r.0 == slug;
      assert Matches(c, slug, r.1);
    }
  }

  /** The reaper's two command statements change no row in any reachable state. */
  lemma {:induction false} ReaperIsIdle(now: Time, actions: seq<Action>, runners: Runners, later: Time)
    requires Legal(now, actions)
    ensures var cs := After(now, actions).commands;
            && (forall id :: id in cs ==> cs[id].status in {Queued, Claimed, Success, Failed, Cancelled})
            && FailExpired(cs, EXPIRY_STATUSES, later) == cs
            && FailStuck(cs, STUCK_STATUSES, runners, later) == cs
  {
    RunKeepsInv(now, actions);
    var s := After(now, actions);
    assert forall id :: id in s.commands ==> CommandOk(s.commands[id], s.claims[id]);
    ReaperChangesNothing(s.commands, runners, later);
  }

  lemma NextClock(s: State, a: Action)
    requires Enabled(s, a)
    ensures s.now <= Next(s, a).now
  {
  }

  /** Queued, and past its deadline. */
  predicate Expired(s: State, id: Id)
  {
    id in s.commands && s.commands[id].status == Queued
    && s.commands[id].deadline.Some? && s.commands[id].deadline.value <= s.now
  }

  predicate ReportsOn(a: Action, id: Id)
  {
    a.Report? && a.id == id
  }

  lemma ExpiredIsNotWritten(s: State, a: Action, id: Id)
    requires Enabled(s, a) && Expired(s, id) && !ReportsOn(a, id)
    ensures RowOf(s, a).Some? ==> RowOf(s, a).value.0 != id
  {
  }

  lemma NextKeepsExpired(s: State, a: Action, id: Id)
    requires Inv(s) && Enabled(s, a) && Expired(s, id) && !ReportsOn(a, id)
    ensures Expired(Next(s, a), id)
  {
    NextClock(s, a);
    if a.Reap? {
      ReapKeepsCommands(s, a.runners);
    } else {
      NextWritesOneRow(s, a);
      ExpiredIsNotWritten(s, a, id);
    }
  }

  /** None of the actions from the i-th on is a report on the command. */
  predicate NoReport(actions: seq<Action>, i: nat, id: Id)
  {
    forall k :: i <= k < |actions| ==> !ReportsOn(actions[k], id)
  }

  lemma NoReportBefore(actions: seq<Action>, i: nat, id: Id)
    requires i < |actions| && NoReport(actions, i, id)
    ensures NoReport(actions[..|actions| - 1], i, id) && !ReportsOn(actions[|actions| - 1], id)
  {
  }

  /**
   A queued command whose deadline has passed stays queued for ever, whatever happens, unless a
   report for it arrives: nobody can claim it any more and the reaper does not look at it.
   */
  lemma {:induction false} ExpiredInTheQueueStays(now: Time, actions: seq<Action>, i: nat, id: Id)
    requires Legal(now, actions) && i <= |actions| && Legal(now, actions[..i])
    requires Expired(After(now, actions[..i]), id)
    requires NoReport(actions, i, id)
    ensures Expired(After(now, actions), id)
  {
    if i == |actions| {
      assert actions[..i] == actions;
    } else {
      var n := |actions| - 1;
      assert actions[..n][..i] == actions[..i];
      NoReportBefore(actions, i, id);
      ExpiredInTheQueueStays(now, actions[..n], i, id);
      RunKeepsInv(now, actions[..n]);
      NextKeepsExpired(After(now, actions[..n]), actions[n], id);
    }
  }

  // ----- what goes on besides the rows -----

  /** What the two routes and a report do to the runner's lane. */
  lemma RouteMoves(s: State, a: Action)
    requires Enabled(s, a) && (a.Deliver? || a.Claim? || a.Report?) && a.slug in s.lanes
    ensures a.slug in Next(s, a).lanes
    ensures var l, n := s.lanes[a.slug], Next(s, a).lanes[a.slug];
            && (a.Claim? ==> n == l.(flushes := l.flushes - 1, uncounted := l.uncounted + multiset{a.id},
                                     credited := l.credited + multiset{a.id}))
            && (a.Report? ==> n == l.(results := l.results - multiset{a.id}, settling := l.settling + multiset{a.id}))
            && (a.Deliver? && l.buffers == [] ==> n == l)
            && (a.Deliver? && l.buffers != [] ==>
                  n == l.(owed := l.owed + multiset{a.id}, credited := l.credited + multiset{a.id},
                          buffers := n.buffers, lost := n.lost, surplus := n.surplus))
  {
    NextMovesOneLane(s, a);
  }

  /** Every other lane stays as it is. */
  lemma LanesApart(s: State, a: Action, slug: Slug)
    requires Enabled(s, a) && slug in s.lanes
    requires (a.Deliver? || a.Claim? || a.Report? || a.Local?) ==> a.slug != slug
    ensures slug in Next(s, a).lanes && Next(s, a).lanes[slug] == s.lanes[slug]
  {
    NextMovesOneLane(s, a);
  }

  function Opens(actions: seq<Action>, slug: Slug): nat
  {
    if actions == [] then 0
    else
      var a := actions[|actions| - 1];
      Opens(actions[..|actions| - 1], slug) + if a == Local(slug, L.Open) then 1 else 0
  }

  function ClaimTries(actions: seq<Action>, slug: Slug): nat
  {
    if actions == [] then 0
    else
      var a := actions[|actions| - 1];
      ClaimTries(actions[..|actions| - 1], slug)
      + if (a.Claim? && a.slug == slug) || a == Local(slug, L.ClaimNothing) then 1 else 0
  }

  lemma FlushesOf(l: L.Lane, m: L.Move)
    requires L.CanMove(l, m)
    ensures L.Moved(l, m).flushes
         == l.flushes + (if m == L.Open then 1 else 0) - (if m.Claim? || m == L.ClaimNothing then 1 else 0)
  {
  }

  lemma NextFlushes(s: State, a: Action, slug: Slug)
    requires Enabled(s, a) && slug in s.lanes
    ensures slug in Next(s, a).lanes
    ensures Next(s, a).lanes[slug].flushes
         == s.lanes[slug].flushes
            + (if a == Local(slug, L.Open) then 1 else 0)
            - (if (a.Claim? && a.slug == slug) || a == Local(slug, L.ClaimNothing) then 1 else 0)
  {
    NextMovesOneLane(s, a);
    if MoveOf(s, a).Some? {
      FlushesOf(s.lanes[MoveOf(s, a).value.0], MoveOf(s, a).value.1);
    }
  }

  lemma FirstFlushes(s: State, a: Action, slug: Slug)
    requires Enabled(s, a) && slug !in s.lanes
    ensures slug in Next(s, a).lanes ==> Next(s, a).lanes[slug].flushes == 0
    ensures a != Local(slug, L.Open) && !(a.Claim? && a.slug == slug) && a != Local(slug, L.ClaimNothing)
  {
    NextMovesOneLane(s, a);
  }

  /** A runner tries to claim once for every stream it opens: it claims at most as many commands as it connects. */
  lemma {:induction false} EachStreamClaimsOnce(now: Time, actions: seq<Action>, slug: Slug)
    requires Legal(now, actions)
    ensures ClaimTries(actions, slug) <= Opens(actions, slug)
    ensures Opens(actions, slug) - ClaimTries(actions, slug)
         == if slug in After(now, actions).lanes then After(now, actions).lanes[slug].flushes else 0
  {
    if actions == [] {
    } else {
      var n := |actions| - 1;
      EachStreamClaimsOnce(now, actions[..n], slug);
      if slug in After(now, actions[..n]).lanes {
        NextFlushes(After(now, actions[..n]), actions[n], slug);
      } else {
        FirstFlushes(After(now, actions[..n]), actions[n], slug);
      }
    }
  }

  /** What is known from the run alone of the clock, of registrations, and of announcements on their way. */
  datatype Board = Board(now: Time, tags: set<(Slug, seq<string>)>, unannounced: set<Id>,
                         notifications: set<(Slug, Id)>)

  function Posted(b: Board, a: Action): Board
  {
    if a.Tick? then b.(now := a.later)
    else if a.Register? then b.(tags := b.tags + {(a.slug, a.tags)})
    else if a.Submit? then b.(unannounced := b.unannounced + {a.id})
    else if a.Announce? then
      b.(unannounced := b.unannounced - {a.id}, notifications := b.notifications + {(a.slug, a.id)})
    else if a.AnnounceNobody? then b.(unannounced := b.unannounced - {a.id})
    else if a.LoseNotification? || a.Deliver? then b.(notifications := b.notifications - {(a.slug, a.id)})
    else b
  }

  function BoardOf(now: Time, actions: seq<Action>): Board
  {
    if actions == [] then Board(now, {}, {}, {})
    else Posted(BoardOf(now, actions[..|actions| - 1]), actions[|actions| - 1])
  }

  lemma NextPosts(s: State, a: Action)
    requires Enabled(s, a)
    ensures var n := Next(s, a);
            Board(n.now, n.tags, n.unannounced, n.notifications)
            == Posted(Board(s.now, s.tags, s.unannounced, s.notifications), a)
  {
  }

  /** A notification is under way from its announcement until it is delivered or lost, and so on. */
  lemma {:induction false} BoardIsKept(now: Time, actions: seq<Action>)
    requires Legal(now, actions)
    ensures var s := After(now, actions);
            Board(s.now, s.tags, s.unannounced, s.notifications) == BoardOf(now, actions)
  {
    if actions == [] {
    } else {
      BoardIsKept(now, actions[..|actions| - 1]);
      NextPosts(After(now, actions[..|actions| - 1]), actions[|actions| - 1]);
    }
  }

  // ----- where the columns of a row come from -----

  /** A flush goroutine may claim just the commands that are free, meant for the runner and not yet due. */
  lemma ClaimIff(s: State, slug: Slug, id: Id, tags: seq<string>)
    ensures Enabled(s, Claim(slug, id, tags)) <==>
            && slug in s.lanes && s.lanes[slug].flushes > 0 && (slug, tags) in s.tags
            && id in s.commands && s.commands[id].status == Queued
            && (s.commands[id].target == ToSlug(slug)
                || (s.commands[id].target.ToTag? && s.commands[id].target.value in tags))
            && (s.commands[id].deadline.None? || s.now < s.commands[id].deadline.value)
  {
  }

  /** What is asked of the other steps, all of which can otherwise happen at any moment. */
  lemma OthersIff(s: State, slug: Slug, id: Id, target: Target, deadline: Option<Time>, status: Status,
                  exitCode: Option<int>, errorMessage: Option<string>)
    ensures Enabled(s, Submit(id, target, deadline)) <==>
            id !in s.commands && target.value != "" && (target.ToOther? ==> target.kind != "")
    ensures Enabled(s, Deliver(slug, id)) <==> (slug, id) in s.notifications
    ensures Enabled(s, LoseNotification(slug, id)) <==> (slug, id) in s.notifications
    ensures Enabled(s, AnnounceNobody(id)) <==> id in s.unannounced
    ensures Enabled(s, Report(slug, id, status, exitCode, errorMessage)) <==>
            && slug in s.lanes && id in s.lanes[slug].results && id in s.commands
            && (status == Success || status == Failed || status == Cancelled)
    ensures Enabled(s, Kill(id)) <==>
            id in s.commands && (s.commands[id].status == Claimed || s.commands[id].status == Running)
  {
  }

  /** The runners to which a command may be announced. */
  lemma AnnounceIff(s: State, id: Id, slug: Slug)
    ensures Enabled(s, Announce(id, slug)) <==>
            && id in s.unannounced && id in s.commands
            && (s.commands[id].target in {ToSlug(slug), ToRunner(slug)}
                || (s.commands[id].target.ToTag? &&
                    exists r :: r in s.tags && r.0 == slug && s.commands[id].target.value in r.1))
  {
  }

  /** One action, as far as it concerns the row of one command. */
  function Recorded(c: Option<Command>, a: Action, id: Id, now: Time): Option<Command>
  {
    if a.Submit? && a.id == id then
      Some(Command(a.target, Queued, None, None, None, None, a.deadline, now, None, None, None))
    else if c.None? then None
    else if a.Claim? && a.id == id then
      Some(c.value.(status := Claimed, assignedRunner := Some(a.slug), claimedAt := Some(now)))
    else if a.Report? && a.id == id then
      Some(c.value.(status := a.status, finishedAt := Some(now),
                    exitCode := if a.exitCode.None? then c.value.exitCode else a.exitCode,
                    errorMessage := if a.errorMessage.None? then c.value.errorMessage else a.errorMessage))
    else if a == Kill(id) then Some(c.value.(killRequestedAt := Some(now)))
    else c
  }

  function RecordOf(now: Time, actions: seq<Action>, id: Id): Option<Command>
    requires Legal(now, actions)
  {
    if actions == [] then None
    else
      var n := |actions| - 1;
      Recorded(RecordOf(now, actions[..n], id), actions[n], id, After(now, actions[..n]).now)
  }

  function Find(cs: Commands, id: Id): Option<Command>
  {
    if id in cs then Some(cs[id]) else None
  }

  lemma FindPut(cs: Commands, j: Id, c: Command, id: Id)
    ensures Find(cs[j := c], id) == if j == id then Some(c) else Find(cs, id)
  {
  }

  lemma WrittenRowRecords(s: State, a: Action, id: Id)
    requires Enabled(s, a) && RowOf(s, a).Some?
    ensures Recorded(Find(s.commands, id), a, id, s.now)
         == if RowOf(s, a).value.0 == id then Some(RowOf(s, a).value.1) else Find(s.commands, id)
  {
  }

  lemma NoRowRecords(s: State, a: Action, id: Id)
    requires Enabled(s, a) && RowOf(s, a).None?
    ensures Recorded(Find(s.commands, id), a, id, s.now) == Find(s.commands, id)
  {
  }

  lemma NextRecords(s: State, a: Action, id: Id)
    requires Inv(s) && Enabled(s, a)
    ensures Find(Next(s, a).commands, id) == Recorded(Find(s.commands, id), a, id, s.now)
  {
    if a.Reap? {
      ReapKeepsCommands(s, a.runners);
    } else {
      NextWritesOneRow(s, a);
      if RowOf(s, a).Some? {
        FindPut(s.commands, RowOf(s, a).value.0, RowOf(s, a).value.1, id);
        WrittenRowRecords(s, a, id);
      } else {
        NoRowRecords(s, a, id);
      }
    }
  }

  /**
   In every run a row is what the submission of its command, the claims, reports and kill requests for
   it, and the times at which they happened make of it, and nothing else has a part in it.
   */
  lemma {:induction false} RowIsRecorded(now: Time, actions: seq<Action>, id: Id)
    requires Legal(now, actions)
    ensures Find(After(now, actions).commands, id) == RecordOf(now, actions, id)
  {
    if actions == [] {
    } else {
      var n := |actions| - 1;
      RowIsRecorded(now, actions[..n], id);
      RunKeepsInv(now, actions[..n]);
      NextRecords(After(now, actions[..n]), actions[n], id);
    }
  }

  /** A claim has been made before the deadline, by a runner that the command is for. */
  predicate ClaimedInTime(c: Command, tags: set<(Slug, seq<string>)>)
  {
    c.assignedRunner.Some? ==>
      var slug := c.assignedRunner.value;
      && c.claimedAt.Some? && (c.deadline.None? || c.claimedAt.value < c.deadline.value)
      && (c.target == ToSlug(slug)
          || (c.target.ToTag? && exists r :: r in tags && r.0 == slug && c.target.value in r.1))
  }

  lemma RecordedInTime(c: Option<Command>, a: Action, id: Id, now: Time, tags: set<(Slug, seq<string>)>)
    requires c.Some? ==> ClaimedInTime(c.value, tags)
    requires a.Claim? && a.id == id ==>
               (a.slug, a.tags) in tags && c.Some? && Eligible(c.value, a.slug, a.tags, now)
    ensures var d := Recorded(c, a, id, now); d.Some? ==> ClaimedInTime(d.value, tags)
  {
    if a.Claim? && a.id == id {
      var r := (a.slug, a.tags);
      assert r in tags && r.0 == a.slug;
    }
  }

  lemma MoreTags(c: Command, tags: set<(Slug, seq<string>)>, more: set<(Slug, seq<string>)>)
    requires ClaimedInTime(c, tags) && tags <= more
    ensures ClaimedInTime(c, more)
  {
  }

  lemma NextTags(s: State, a: Action)
    requires Enabled(s, a)
    ensures s.tags <= Next(s, a).tags
  {
  }

  lemma NextClaimsInTime(s: State, a: Action, id: Id)
    requires Inv(s) && Enabled(s, a) && (id in s.commands ==> ClaimedInTime(s.commands[id], s.tags))
    ensures id in Next(s, a).commands ==> ClaimedInTime(Next(s, a).commands[id], Next(s, a).tags)
  {
    NextRecords(s, a, id);
    RecordedInTime(Find(s.commands, id), a, id, s.now, s.tags);
    NextTags(s, a);
    if id in Next(s, a).commands {
      MoreTags(Next(s, a).commands[id], s.tags, Next(s, a).tags);
    }
  }

  /**
   In every reachable state a claimed command was claimed before its deadline, by the runner it names or
   by one that has registered with its tag.
   */
  lemma {:induction false} ClaimsAreInTime(now: Time, actions: seq<Action>, id: Id)
    requires Legal(now, actions) && id in After(now, actions).commands
    ensures var s := After(now, actions);
            var c := s.commands[id];
            c.assignedRunner.Some? ==>
              var slug := c.assignedRunner.value;
              && c.claimedAt.Some? && (c.deadline.None? || c.claimedAt.value < c.deadline.value)
              && (c.target == ToSlug(slug)
                  || (c.target.ToTag? && exists r :: r in s.tags && r.0 == slug && c.target.value in r.1))
  {
    var n := |actions| - 1;
    var s := After(now, actions[..n]);
    RunKeepsInv(now, actions[..n]);
    if id in s.commands {
      ClaimsAreInTime(now, actions[..n], id);
    }
    NextClaimsInTime(s, actions[n], id);
    assert ClaimedInTime(After(now, actions).commands[id], After(now, actions).tags);
  }

  // ----- results reported by the SDK -----

  /** Every report carries its exit code and the status that the SDK derives from it. */
  predicate SdkReports(actions: seq<Action>)
  {
    forall i :: 0 <= i < |actions| && actions[i].Report? ==>
                  actions[i].exitCode.Some? && actions[i].status == ReportedStatus(actions[i].exitCode.value)
  }

  predicate OutcomeOk(c: Command)
  {
    if c.status == Queued || c.status == Claimed then c.exitCode.None?
    else c.exitCode.Some? && c.status == if c.exitCode.value == 0 then Success else Failed
  }

  ghost predicate OutcomesOk(cs: Commands)
  {
    forall id :: id in cs ==> OutcomeOk(cs[id])
  }

  lemma WrittenOutcome(s: State, a: Action)
    requires CommandsOk(s.commands, s.claims) && OutcomesOk(s.commands) && Enabled(s, a) && RowOf(s, a).Some?
    requires a.Report? ==> a.exitCode.Some? && a.status == ReportedStatus(a.exitCode.value)
    ensures OutcomeOk(RowOf(s, a).value.1)
  {
    var (id, c) := RowOf(s, a).value;
    if id in s.commands {
      assert OutcomeOk(s.commands[id]) && CommandOk(s.commands[id], s.claims[id]);
    }
  }

  lemma NextKeepsOutcomes(s: State, a: Action)
    requires CommandsOk(s.commands, s.claims) && OutcomesOk(s.commands) && Enabled(s, a)
    requires a.Report? ==> a.exitCode.Some? && a.status == ReportedStatus(a.exitCode.value)
    ensures OutcomesOk(Next(s, a).commands)
  {
    if a.Reap? {
      ReapKeepsCommands(s, a.runners);
    } else {
      NextWritesOneRow(s, a);
      if RowOf(s, a).Some? {
        WrittenOutcome(s, a);
      }
    }
  }

  /**
   As long as all reports come from the SDK, a command is finished exactly if it has an exit code,
   successful exactly if that is 0, and never cancelled.
   */
  lemma {:induction false} OutcomeIsExitCode(now: Time, actions: seq<Action>)
    requires Legal(now, actions) && SdkReports(actions)
    ensures OutcomesOk(After(now, actions).commands)
  {
    if actions == [] {
    } else {
      var n := |actions| - 1;
      assert forall i :: 0 <= i < n ==> actions[..n][i] == actions[i];
      OutcomeIsExitCode(now, actions[..n]);
      RunKeepsInv(now, actions[..n]);
      NextKeepsOutcomes(After(now, actions[..n]), actions[n]);
    }
  }

  // ----- the bound is reached -----

  /** A state in which a command is announced to a runner that has just opened its only stream. */
  predicate Ready(s: State, slug: Slug, id: Id, tags: seq<string>)
  {
    && (slug, id) in s.notifications && (slug, tags) in s.tags
    && slug in s.lanes && s.lanes[slug] == L.Empty(1).(buffers := [[]], flushes := 1)
    && id in s.commands && s.commands[id].status == Queued
    && (s.commands[id].target == ToSlug(slug)
        || (s.commands[id].target.ToTag? && s.commands[id].target.value in tags))
    && (s.commands[id].deadline.None? || s.now < s.commands[id].deadline.value)
  }

  /**
   The notification can be delivered on the stream, and then the goroutine started with the
   stream can claim the same command, because the delivery leaves the row as it was.
   */
  lemma BothRoutesCredit(s: State, slug: Slug, id: Id, tags: seq<string>)
    requires Ready(s, slug, id, tags)
    ensures Enabled(s, Deliver(slug, id)) && Enabled(Next(s, Deliver(slug, id)), Claim(slug, id, tags))
    ensures var n := Next(Next(s, Deliver(slug, id)), Claim(slug, id, tags));
            slug in n.lanes && n.lanes[slug].credited[id] == 2
  {
    var m := Next(s, Deliver(slug, id));
    RouteMoves(s, Deliver(slug, id));
    ClaimIff(m, slug, id, tags);
    RouteMoves(m, Claim(slug, id, tags));
  }

  /** One action of a solo run. */
  lemma SoloStep(now: Time, actions: seq<Action>, a: Action)
    requires Legal(now, actions) && Solo(now, actions) && Enabled(After(now, actions), a)
    requires a.Local? && a.move.Open? ==> After(now, actions).lanes[a.slug].buffers == []
    ensures Legal(now, actions + [a]) && Solo(now, actions + [a])
    ensures After(now, actions + [a]) == Next(After(now, actions), a)
  {
    assert (actions + [a])[..|actions|] == actions;
  }

  lemma AnnouncedHappens() returns (actions: seq<Action>)
    ensures Legal(0, actions) && Solo(0, actions)
    ensures After(0, actions) ==
            State(0, map[0 := NewCommand(ToSlug("r"), None, 0)], {("r", [])}, map["r" := L.Empty(1)],
                  {}, {("r", 0)}, multiset{}, multiset{})
  {
    SoloStep(0, [], Register("r", [], 1));
    var a1 := [] + [Register("r", [], 1)];
    SoloStep(0, a1, Submit(0, ToSlug("r"), None));
    var a2 := a1 + [Submit(0, ToSlug("r"), None)];
    SoloStep(0, a2, Announce(0, "r"));
    actions := a2 + [Announce(0, "r")];
  }

  lemma ReadyHappens() returns (actions: seq<Action>)
    ensures Legal(0, actions) && Solo(0, actions) && Ready(After(0, actions), "r", 0, [])
  {
    var a := AnnouncedHappens();
    SoloStep(0, a, Local("r", L.Open));
    actions := a + [Local("r", L.Open)];
  }

  lemma CreditedTwice() returns (actions: seq<Action>)
    ensures Legal(0, actions) && Solo(0, actions)
    ensures "r" in After(0, actions).lanes && After(0, actions).lanes["r"].credited[0] == 2
  {
    var a := ReadyHappens();
    BothRoutesCredit(After(0, a), "r", 0, []);
    SoloStep(0, a, Deliver("r", 0));
    SoloStep(0, a + [Deliver("r", 0)], Claim("r", 0, []));
    actions := a + [Deliver("r", 0)] + [Claim("r", 0, [])];
  }

  lemma CreditIsDispatch(s: State, slug: Slug, id: Id)
    requires slug in s.lanes
    ensures s.lanes[slug].credited[id] <= Dispatched(s, id)
  {
    SumTake(Credits(s.lanes, id), slug);
  }

  /** One command, one runner, one stream, and two dispatches: the bound is reached. */
  lemma TwoCreditsHappen()
    ensures exists actions: seq<Action> ::
              Legal(0, actions) && Solo(0, actions) && Dispatched(After(0, actions), 0) == 2
  {
    var actions := CreditedTwice();
    CreditIsDispatch(After(0, actions), "r", 0);
    RedispatchIsBounded(0, actions, 0);
  }
}
