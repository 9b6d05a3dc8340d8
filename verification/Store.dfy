/** The PostgreSQL store: each method is one statement on the tables, hence one atomic step. */
module Store {
  import opened Common
  import opened Rows

  class Store {
    var commands: Commands
    var runners: Runners
    var nextId: Id

    /** Ids are drawn from unused ones. */
    ghost predicate Valid()
      reads this
    {
      forall id :: id in commands ==> id < nextId
    }

    constructor ()
      ensures Valid() && commands == map[] && runners == map[]
    {
      commands, runners, nextId := map[], map[], 0;
    }

    /** Registering again keeps the counter, the time of orphaning and the creation time. */
    method UpsertRunner(slug: Slug, tags: seq<string>, limit: int, now: Time)
      modifies this`runners
      ensures slug !in old(runners) ==>
                runners == old(runners)[slug := Runner(tags, Online, limit, 0, Some(now), None, now)]
      ensures slug in old(runners) ==>
                var r := old(runners)[slug];
                runners == old(runners)[slug := Runner(tags, Online, limit, r.activeCount, Some(now),
                                                       r.orphanedAt, r.createdAt)]
    {
      runners := Upsert(runners, slug, tags, limit, now);
    }

    /** The online runners with the tag, each once, the most recently created first. */
    method ListRunners(tag: string) returns (listed: seq<(Slug, Runner)>)
      ensures forall i :: 0 <= i < |listed| ==>
                listed[i].0 in runners && listed[i].1 == runners[listed[i].0]
                && listed[i].1.status == Online && tag in listed[i].1.tags
      ensures forall slug :: slug in runners && runners[slug].status == Online && tag in runners[slug].tags ==>
                (slug, runners[slug]) in listed
      ensures forall i, j :: 0 <= i < j < |listed| ==>
                listed[i].0 != listed[j].0 && listed[i].1.createdAt >= listed[j].1.createdAt
    {
      listed := [];
      var left := set slug | slug in runners && Listable(runners, slug, tag);
      while left != {}
        invariant Lists(runners, listed, tag, left) && Remain(runners, listed, tag, left)
        decreases |left|
      {
        ghost var witnessed := NewestExists(runners, left);
        var slug :| slug in left
                    && forall other :: other in left ==> runners[other].createdAt <= runners[slug].createdAt;
        ListNext(runners, listed, tag, left, slug);
        listed := listed + [(slug, runners[slug])];
        left := left - {slug};
      }
    }

    method UpdateRunnerHeartbeat(slug: Slug, now: Time) returns (found: bool)
      modifies this`runners
      ensures found <==> slug in old(runners)
      ensures found ==> runners == old(runners)[slug := old(runners)[slug].(lastSeen := Some(now), status := Online)]
      ensures !found ==> runners == old(runners)
    {
      found := slug in runners;
      if found {
        runners := runners[slug := HeartbeatRow(runners[slug], now)];
      }
    }

    method UpdateRunnerStatus(slug: Slug, status: RunnerStatus) returns (found: bool)
      modifies this`runners
      ensures found <==> slug in old(runners)
      ensures runners == if found then old(runners)[slug := old(runners)[slug].(status := status)] else old(runners)
    {
      found := slug in runners;
      if found {
        runners := runners[slug := runners[slug].(status := status)];
      }
    }

    method IncrementRunnerActiveCount(slug: Slug, delta: int) returns (found: bool)
      modifies this`runners
      ensures found <==> slug in old(runners)
      ensures found ==>
                runners == old(runners)[slug := old(runners)[slug].(
                                          activeCount := old(runners)[slug].activeCount + delta)]
      ensures !found ==> runners == old(runners)
      ensures runners == AddActive(old(runners), slug, delta)
    {
      found := slug in runners;
      runners := AddActive(runners, slug, delta);
    }

    method InsertCommand(target: Target, deadline: Option<Time>, now: Time) returns (id: Id)
      requires Valid()
      modifies this`commands, this`nextId
      ensures Valid() && id !in old(commands)
      ensures commands == old(commands)[id := Command(target, Queued, None, None, None, None, deadline, now,
                                                      None, None, None)]
    {
      id := nextId;
      nextId := nextId + 1;
      commands := commands[id := NewCommand(target, deadline, now)];
    }

    /**
     `ORDER BY created_at LIMIT 1` over the eligible rows, then the update of the chosen row.
     Among rows created at the same time any may be chosen, as in PostgreSQL.
     */
    method ClaimNextCommand(slug: Slug, tags: seq<string>, now: Time) returns (claimed: Option<Id>)
      modifies this`commands
      ensures claimed.None? <==> EligibleIds(old(commands), slug, tags, now) == {}
      ensures claimed.None? ==> commands == old(commands)
      ensures claimed.None? ==>
                forall id :: id in commands && commands[id].status == Queued
                             && (commands[id].target == ToSlug(slug)
                                 || (commands[id].target.ToTag? && commands[id].target.value in tags)) ==>
                  commands[id].deadline.Some? && commands[id].deadline.value <= now
      ensures claimed.Some? ==> Oldest(old(commands), claimed.value, EligibleIds(old(commands), slug, tags, now))
      ensures claimed.Some? ==>
                claimed.value in old(commands) &&
                var c := old(commands)[claimed.value];
                && c.status == Queued
                && (c.target == ToSlug(slug) || (c.target.ToTag? && c.target.value in tags))
                && (c.deadline.None? || c.deadline.value > now)
                && commands == old(commands)[claimed.value := c.(status := Claimed, assignedRunner := Some(slug),
                                                                 claimedAt := Some(now))]
      ensures claimed.Some? ==>
                forall id :: id in old(commands) && old(commands)[id].status == Queued
                             && (old(commands)[id].target == ToSlug(slug)
                                 || (old(commands)[id].target.ToTag? && old(commands)[id].target.value in tags))
                             && (old(commands)[id].deadline.None? || old(commands)[id].deadline.value > now) ==>
                  claimed.value in old(commands)
                  && old(commands)[claimed.value].createdAt <= old(commands)[id].createdAt
    {
      var eligible := EligibleIds(commands, slug, tags, now);
      if eligible == {} {
        assert forall id :: id in commands && Eligible(commands[id], slug, tags, now) ==> id in eligible;
        return None;
      }
      ghost var witnessed := OldestExists(commands, eligible);
      var id :| id in eligible && Oldest(commands, id, eligible);
      commands := commands[id := ClaimRow(commands[id], slug, now)];
      claimed := Some(id);
    }

    method UpdateCommandStatus(id: Id, status: Status, opts: UpdateOpts) returns (found: bool)
      modifies this`commands
      ensures found <==> id in old(commands)
      ensures !found ==> commands == old(commands)
      ensures found ==>
                var c := old(commands)[id];
                commands == old(commands)[id := c.(
                  status := status,
                  exitCode := if opts.exitCode.None? then c.exitCode else opts.exitCode,
                  errorMessage := if opts.errorMessage.None? then c.errorMessage else opts.errorMessage,
                  startedAt := if opts.startedAt.None? then c.startedAt else opts.startedAt,
                  finishedAt := if opts.finishedAt.None? then c.finishedAt else opts.finishedAt)]
    {
      found := id in commands;
      if found {
        commands := commands[id := UpdateRow(commands[id], status, opts)];
      }
    }

    /** Refused unless the row is claimed or running; the status itself does not change. */
    method SetCommandKillRequested(id: Id, now: Time) returns (found: bool)
      modifies this`commands
      ensures found <==> id in old(commands) && (old(commands)[id].status.Claimed? || old(commands)[id].status.Running?)
      ensures commands == (if found then old(commands)[id := old(commands)[id].(killRequestedAt := Some(now))]
                           else old(commands))
    {
      found := id in commands && (commands[id].status.Claimed? || commands[id].status.Running?);
      if found {
        commands := commands[id := commands[id].(killRequestedAt := Some(now))];
      }
    }

    method FailExpiredCommands(now: Time) returns (count: nat)
      modifies this`commands
      ensures commands == FailExpired(old(commands), EXPIRY_STATUSES, now)
      ensures commands == map id | id in old(commands) ::
                var c := old(commands)[id];
                if (c.status == Pending || c.status == Running) && c.deadline.Some? && c.deadline.value < now
                then c.(status := Failed, errorMessage := Some("deadline exceeded"), finishedAt := Some(now)) else c
      ensures count == |set id | id in old(commands) && commands[id] != old(commands)[id]|
    {
      count := |set id | id in commands && Overdue(commands[id], EXPIRY_STATUSES, now)|;
      commands := FailExpired(commands, EXPIRY_STATUSES, now);
      assert (set id | id in old(commands) && commands[id] != old(commands)[id])
          == set id | id in old(commands) && Overdue(old(commands)[id], EXPIRY_STATUSES, now);
    }

    method MarkOrphanedRunners(cutoff: Time, now: Time) returns (count: nat)
      modifies this`runners
      ensures runners == map slug | slug in old(runners) ::
                var r := old(runners)[slug];
                if r.status == Offline && r.lastSeen.Some? && r.lastSeen.value < cutoff && r.orphanedAt.None?
                then r.(status := Orphaned, orphanedAt := Some(now)) else r
      ensures runners == MarkOrphaned(old(runners), cutoff, now)
      ensures count == |set slug | slug in old(runners) && runners[slug] != old(runners)[slug]|
    {
      count := |set slug | slug in runners && Orphanable(runners[slug], cutoff)|;
      runners := MarkOrphaned(runners, cutoff, now);
      assert (set slug | slug in old(runners) && runners[slug] != old(runners)[slug])
          == set slug | slug in old(runners) && Orphanable(old(runners)[slug], cutoff);
    }

    method FailStuckCommands(now: Time) returns (count: nat)
      modifies this`commands
      ensures commands == FailStuck(old(commands), STUCK_STATUSES, runners, now)
      ensures commands == map id | id in old(commands) ::
                var c := old(commands)[id];
                if c.status == Running && c.assignedRunner.Some? && c.assignedRunner.value in runners
                   && runners[c.assignedRunner.value].status in {Offline, Orphaned}
                then c.(status := Failed, errorMessage := Some("runner became unavailable"), finishedAt := Some(now))
                else c
      ensures count == |set id | id in old(commands) && commands[id] != old(commands)[id]|
    {
      count := |set id | id in commands && Stuck(commands[id], STUCK_STATUSES, runners)|;
      commands := FailStuck(commands, STUCK_STATUSES, runners, now);
      assert (set id | id in old(commands) && commands[id] != old(commands)[id])
          == set id | id in old(commands) && Stuck(old(commands)[id], STUCK_STATUSES, runners);
    }
  }
}
