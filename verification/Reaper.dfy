/**
 The reaper and the life of a runner row. The reaper's two command statements are described by
 functions of the status set they filter on; that the set as written matches no row in any
 reachable state of the dispatch protocol is proved with the dispatch model.
 */
module Reaper {
  import opened Common
  import opened Rows
  import opened Store

  /** runnerOrphanAge, in seconds. */
  const ORPHAN_AGE: Time := 5 * 60

  /** One pass: expired commands, then orphaned runners, then stuck commands. */
  method Run(store: Store, now: Time)
    modifies store`commands, store`runners
    ensures store.runners == map slug | slug in old(store.runners) ::
              var r := old(store.runners)[slug];
              if r.status == Offline && r.lastSeen.Some? && r.lastSeen.value < now - 300 && r.orphanedAt.None?
              then r.(status := Orphaned, orphanedAt := Some(now)) else r
    ensures store.commands == map id | id in old(store.commands) ::
              var c := old(store.commands)[id];
              if (c.status == Pending || c.status == Running) && c.deadline.Some? && c.deadline.value < now
              then c.(status := Failed, errorMessage := Some("deadline exceeded"), finishedAt := Some(now))
              else if c.status == Running && c.assignedRunner.Some? && c.assignedRunner.value in old(store.runners)
                      && old(store.runners)[c.assignedRunner.value].status in {Offline, Orphaned}
              then c.(status := Failed, errorMessage := Some("runner became unavailable"), finishedAt := Some(now))
              else c
  {
    var expired := store.FailExpiredCommands(now);
    var orphaned := store.MarkOrphanedRunners(now - ORPHAN_AGE, now);
    var stuck := store.FailStuckCommands(now);
    PassOnCommands(old(store.commands), old(store.runners), now);
    OrphansAreStillUnavailable(FailExpired(old(store.commands), EXPIRY_STATUSES, now), STUCK_STATUSES,
                               old(store.runners), now - ORPHAN_AGE, now);
  }

  lemma PassOnCommands(cs: Commands, rs: Runners, now: Time)
    ensures FailStuck(FailExpired(cs, EXPIRY_STATUSES, now), STUCK_STATUSES, rs, now) == map id | id in cs ::
              var c := cs[id];
              if (c.status == Pending || c.status == Running) && c.deadline.Some? && c.deadline.value < now
              then c.(status := Failed, errorMessage := Some("deadline exceeded"), finishedAt := Some(now))
              else if c.status == Running && c.assignedRunner.Some? && c.assignedRunner.value in rs
                      && rs[c.assignedRunner.value].status in {Offline, Orphaned}
              then c.(status := Failed, errorMessage := Some("runner became unavailable"), finishedAt := Some(now))
              else c
  {
  }

  /** Marking runners first makes no difference to which commands are stuck. */
  lemma OrphansAreStillUnavailable(cs: Commands, statuses: set<Status>, rs: Runners, cutoff: Time, now: Time)
    ensures FailStuck(cs, statuses, MarkOrphaned(rs, cutoff, now), now) == FailStuck(cs, statuses, rs, now)
  {
    var marked := MarkOrphaned(rs, cutoff, now);
    forall id | id in cs ensures Stuck(cs[id], statuses, marked) <==> Stuck(cs[id], statuses, rs) {
      var r := cs[id].assignedRunner;
      assert r.Some? && r.value in rs ==> (marked[r.value].status.Online? <==> rs[r.value].status.Online?);
    }
  }

  // ----- with the status set as a parameter -----

  /** No command of the set is left past its deadline, provided the set does not contain `failed`. */
  lemma ExpiryClearsIff(cs: Commands, statuses: set<Status>, now: Time)
    ensures (forall id :: id in cs ==> !Overdue(FailExpired(cs, statuses, now)[id], statuses, now))
       <==> (Failed !in statuses || forall id :: id in cs ==> !Overdue(cs[id], statuses, now))
  {
    var after := FailExpired(cs, statuses, now);
    if Failed in statuses {
      assert forall id :: id in cs ==> (Overdue(after[id], statuses, now) <==> Overdue(cs[id], statuses, now));
    } else {
      assert forall id :: id in cs ==> !Overdue(after[id], statuses, now);
    }
  }

  /** The same for commands of unavailable runners. */
  lemma StuckClearsIff(cs: Commands, statuses: set<Status>, rs: Runners, now: Time)
    ensures (forall id :: id in cs ==> !Stuck(FailStuck(cs, statuses, rs, now)[id], statuses, rs))
       <==> (Failed !in statuses || forall id :: id in cs ==> !Stuck(cs[id], statuses, rs))
  {
    var after := FailStuck(cs, statuses, rs, now);
    if Failed in statuses {
      assert forall id :: id in cs ==> (Stuck(after[id], statuses, rs) <==> Stuck(cs[id], statuses, rs));
    } else {
      assert forall id :: id in cs ==> !Stuck(after[id], statuses, rs);
    }
  }

  /** After a pass exactly the orphanable runners and those orphaned already are orphaned. */
  lemma OrphaningIsExact(rs: Runners, cutoff: Time, now: Time, slug: Slug)
    requires slug in rs
    ensures slug in MarkOrphaned(rs, cutoff, now)
    ensures var r, marked := rs[slug], MarkOrphaned(rs, cutoff, now)[slug];
            && (marked.status == Orphaned <==>
                r.status == Orphaned
                || (r.status == Offline && r.lastSeen.Some? && r.lastSeen.value < cutoff && r.orphanedAt.None?))
            && (marked.orphanedAt == r.orphanedAt || (r.orphanedAt.None? && marked.orphanedAt == Some(now)))
            && marked.(status := r.status, orphanedAt := r.orphanedAt) == r
            && !Orphanable(marked, cutoff)
  {
  }

  // ----- the life of a runner -----

  datatype State = State(now: Time, runners: Runners, orphanings: multiset<Slug>)

  datatype Action =
    | Tick(later: Time)
    | Register(slug: Slug, tags: seq<string>, limit: int)
    | Heartbeat(slug: Slug)
    | Deregister(slug: Slug)
    | Count(slug: Slug, delta: int)
    | Reap

  function Orphans(s: State): set<Slug>
  {
    set slug | slug in s.runners && Orphanable(s.runners[slug], s.now - ORPHAN_AGE)
  }

  function Next(s: State, a: Action): State
  {
    match a
    case Tick(later) => s.(now := later)
    case Register(slug, tags, limit) => s.(runners := Upsert(s.runners, slug, tags, limit, s.now))
    case Heartbeat(slug) =>
      if slug in s.runners then s.(runners := s.runners[slug := HeartbeatRow(s.runners[slug], s.now)]) else s
    case Deregister(slug) =>
      if slug in s.runners then s.(runners := s.runners[slug := s.runners[slug].(status := Offline)]) else s
    case Count(slug, delta) => s.(runners := AddActive(s.runners, slug, delta))
    case Reap =>
      s.(runners := MarkOrphaned(s.runners, s.now - ORPHAN_AGE, s.now),
         orphanings := s.orphanings + multiset(Orphans(s)))
  }

  /** Every action is possible in every state, and nothing is assumed of the clock. */
  function After(now: Time, actions: seq<Action>): State
  {
    if actions == [] then State(now, map[], multiset{})
    else Next(After(now, actions[..|actions| - 1]), actions[|actions| - 1])
  }

  /** orphaned_at is set exactly if the runner has been orphaned, and then only once. */
  ghost predicate Inv(s: State)
  {
    forall slug :: OnceOrphaned(s, slug)
  }

  predicate OnceOrphaned(s: State, slug: Slug)
  {
    if slug in s.runners
    then s.orphanings[slug] == (if s.runners[slug].orphanedAt.Some? then 1 else 0)
         && (s.runners[slug].status.Orphaned? ==> s.runners[slug].orphanedAt.Some?)
    else s.orphanings[slug] == 0
  }

  lemma NextKeepsInv(s: State, a: Action)
    requires Inv(s)
    ensures Inv(Next(s, a))
  {
    forall slug ensures OnceOrphaned(Next(s, a), slug) {
      assert OnceOrphaned(s, slug);
    }
  }

  lemma {:induction false} RunKeepsInv(now: Time, actions: seq<Action>)
    ensures Inv(After(now, actions))
  {
    if actions == [] {
    } else {
      RunKeepsInv(now, actions[..|actions| - 1]);
      NextKeepsInv(After(now, actions[..|actions| - 1]), actions[|actions| - 1]);
    }
  }

  /**
   In its whole history a runner is orphaned at most once. Registering again does not clear
   orphaned_at, so from then on no pass of the reaper touches the runner.
   */
  lemma {:induction false} OrphanedAtMostOnce(now: Time, actions: seq<Action>, slug: Slug)
    ensures After(now, actions).orphanings[slug] <= 1
    ensures After(now, actions).orphanings[slug] == 1 ==>
              slug in After(now, actions).runners && slug !in Orphans(After(now, actions))
  {
    RunKeepsInv(now, actions);
    assert OnceOrphaned(After(now, actions), slug);
  }

  function LastTick(now: Time, actions: seq<Action>): Time
  {
    if actions == [] then now
    else
      var a := actions[|actions| - 1];
      if a.Tick? then a.later else LastTick(now, actions[..|actions| - 1])
  }

  lemma {:induction false} ClockIsLastTick(now: Time, actions: seq<Action>)
    ensures After(now, actions).now == LastTick(now, actions)
  {
    if actions == [] {
    } else {
      ClockIsLastTick(now, actions[..|actions| - 1]);
    }
  }

  /** The sum of the changes to a runner's counter since it first registered. */
  function CountOf(now: Time, actions: seq<Action>, slug: Slug): int
  {
    if actions == [] then 0
    else
      var front, a := actions[..|actions| - 1], actions[|actions| - 1];
      CountOf(now, front, slug)
      + if a.Count? && a.slug == slug && slug in After(now, front).runners then a.delta else 0
  }

  /** Neither registering again, nor heartbeats, deregistration or the reaper touch the counter. */
  lemma {:induction false} CounterIsSum(now: Time, actions: seq<Action>, slug: Slug)
    ensures if slug in After(now, actions).runners
            then After(now, actions).runners[slug].activeCount == CountOf(now, actions, slug)
            else CountOf(now, actions, slug) == 0
  {
    if actions == [] {
    } else {
      CounterIsSum(now, actions[..|actions| - 1], slug);
    }
  }

  /** When the server last heard of a runner: at a registration, or at a heartbeat after one. */
  function LastHeard(now: Time, actions: seq<Action>, slug: Slug): Option<Time>
  {
    if actions == [] then None
    else
      var front, a := actions[..|actions| - 1], actions[|actions| - 1];
      var before := LastHeard(now, front, slug);
      if (a.Register? && a.slug == slug) || (a == Heartbeat(slug) && before.Some?) then Some(LastTick(now, front))
      else before
  }

  /** The last that was heard of the runner is that it deregistered. */
  predicate SignedOff(actions: seq<Action>, slug: Slug)
  {
    actions != [] &&
    var a := actions[|actions| - 1];
    if (a.Register? || a.Heartbeat?) && a.slug == slug then false
    else a == Deregister(slug) || SignedOff(actions[..|actions| - 1], slug)
  }

  /** What is known of a runner that has never been orphaned. */
  predicate KnownAs(s: State, slug: Slug, heard: Option<Time>, off: bool)
  {
    && (slug in s.runners <==> heard.Some?)
    && (slug in s.runners ==>
          s.runners[slug].lastSeen == heard
          && (s.orphanings[slug] == 0 ==> s.runners[slug].status == if off then Offline else Online))
  }

  lemma NextKnownAs(s: State, a: Action, slug: Slug, heard: Option<Time>, off: bool)
    requires Inv(s) && KnownAs(s, slug, heard, off)
    ensures (a.Register? || (a.Heartbeat? && heard.Some?)) && a.slug == slug ==>
              KnownAs(Next(s, a), slug, Some(s.now), false)
    ensures a == Heartbeat(slug) && heard.None? ==> KnownAs(Next(s, a), slug, None, false)
    ensures a == Deregister(slug) ==> KnownAs(Next(s, a), slug, heard, true)
    ensures a.Tick? || a.Reap? || a.slug != slug || a.Count? ==> KnownAs(Next(s, a), slug, heard, off)
  {
    assert OnceOrphaned(s, slug);
  }

  lemma {:induction false} RunKnownAs(now: Time, actions: seq<Action>, slug: Slug)
    ensures KnownAs(After(now, actions), slug, LastHeard(now, actions, slug), SignedOff(actions, slug))
  {
    if actions == [] {
    } else {
      var front, a := actions[..|actions| - 1], actions[|actions| - 1];
      RunKnownAs(now, front, slug);
      RunKeepsInv(now, front);
      ClockIsLastTick(now, front);
      NextKnownAs(After(now, front), a, slug, LastHeard(now, front, slug), SignedOff(front, slug));
    }
  }

  /**
   In every run, a pass of the reaper orphans a runner exactly if the last that was heard of it is that
   it deregistered, it was last seen more than five minutes ago, and it was never orphaned before.
   */
  lemma {:induction false} OrphanedByPassIff(now: Time, actions: seq<Action>, slug: Slug)
    ensures var s, heard := After(now, actions), LastHeard(now, actions, slug);
            Next(s, Reap).orphanings[slug] > s.orphanings[slug] <==>
            heard.Some? && heard.value < LastTick(now, actions) - 300 && SignedOff(actions, slug)
            && s.orphanings[slug] == 0
  {
    RunKnownAs(now, actions, slug);
    ClockIsLastTick(now, actions);
    RunKeepsInv(now, actions);
    assert OnceOrphaned(After(now, actions), slug);
    assert multiset(Orphans(After(now, actions)))[slug] == if slug in Orphans(After(now, actions)) then 1 else 0;
  }

  /** A runner that never deregisters stays online for the server, however long it is silent. */
  lemma {:induction false} SilentRunnerStaysOnline(now: Time, actions: seq<Action>, slug: Slug)
    requires Deregister(slug) !in actions
    ensures slug in After(now, actions).runners ==> After(now, actions).runners[slug].status.Online?
    ensures After(now, actions).orphanings[slug] == 0
  {
    if actions == [] {
    } else {
      SilentRunnerStaysOnline(now, actions[..|actions| - 1], slug);
      assert actions[|actions| - 1] != Deregister(slug);
    }
  }
}
