/** Rows of the commands and runners tables and the statements that change them. */
module Rows {
  import opened Common

  /** The text column commands.status. */
  datatype Status = Queued | Claimed | Pending | Running | Success | Failed | Cancelled | OtherStatus(text: string)

  datatype RunnerStatus = Online | Offline | Orphaned

  /** target_type with target_value. */
  datatype Target =
    | ToSlug(value: string)
    | ToRunner(value: string)
    | ToTag(value: string)
    | ToOther(kind: string, value: string)

  datatype Command = Command(
    target: Target,
    status: Status,
    assignedRunner: Option<Slug>,
    exitCode: Option<int>,
    errorMessage: Option<string>,
    killRequestedAt: Option<Time>,
    deadline: Option<Time>,
    createdAt: Time,
    claimedAt: Option<Time>,
    startedAt: Option<Time>,
    finishedAt: Option<Time>)

  datatype Runner = Runner(
    tags: seq<string>,
    status: RunnerStatus,
    concurrencyLimit: int,
    activeCount: int,
    lastSeen: Option<Time>,
    orphanedAt: Option<Time>,
    createdAt: Time)

  type Commands = map<Id, Command>
  type Runners = map<Slug, Runner>

  /** Both target_type and target_value are present; Send refuses a command otherwise. */
  predicate Complete(target: Target)
  {
    target.value != "" && (target.ToOther? ==> target.kind != "")
  }

  // ----- commands -----

  function NewCommand(target: Target, deadline: Option<Time>, now: Time): Command
  {
    Command(target, Queued, None, None, None, None, deadline, now, None, None, None)
  }

  /** The target clause of ClaimNextCommand: slug and tag targets only. */
  predicate Matches(c: Command, slug: Slug, tags: seq<string>)
  {
    (c.target.ToSlug? && c.target.value == slug) || (c.target.ToTag? && c.target.value in tags)
  }

  predicate Unexpired(c: Command, now: Time)
  {
    c.deadline.None? || c.deadline.value > now
  }

  predicate Eligible(c: Command, slug: Slug, tags: seq<string>, now: Time)
  {
    c.status.Queued? && Matches(c, slug, tags) && Unexpired(c, now)
  }

  function ClaimRow(c: Command, slug: Slug, now: Time): Command
  {
    c.(status := Claimed, assignedRunner := Some(slug), claimedAt := Some(now))
  }

  function Coalesce<T>(a: Option<T>, b: Option<T>): Option<T>
  {
    if a.Some? then a else b
  }

  datatype UpdateOpts = UpdateOpts(exitCode: Option<int>, errorMessage: Option<string>,
                                   startedAt: Option<Time>, finishedAt: Option<Time>)

  /** UpdateCommandStatus: whatever the old status was. */
  function UpdateRow(c: Command, status: Status, opts: UpdateOpts): Command
  {
    c.(status := status,
       exitCode := Coalesce(opts.exitCode, c.exitCode),
       errorMessage := Coalesce(opts.errorMessage, c.errorMessage),
       startedAt := Coalesce(opts.startedAt, c.startedAt),
       finishedAt := Coalesce(opts.finishedAt, c.finishedAt))
  }

  /** What the result handler passes on: it dates the end, never the beginning. */
  function ReportOpts(exitCode: Option<int>, errorMessage: Option<string>, now: Time): UpdateOpts
  {
    UpdateOpts(exitCode, errorMessage, None, Some(now))
  }

  /** No other row among the eligible ones is older. */
  predicate Oldest(cs: Commands, id: Id, eligible: set<Id>)
  {
    id in cs && id in eligible && forall j :: j in eligible && j in cs ==> cs[id].createdAt <= cs[j].createdAt
  }

  lemma {:induction false} OldestExists(cs: Commands, eligible: set<Id>) returns (id: Id)
    requires eligible != {} && eligible <= cs.Keys
    ensures Oldest(cs, id, eligible)
    decreases |eligible|
  {
    id :| id in eligible;
    if eligible != {id} {
      assert eligible == (eligible - {id}) + {id};
      var other := OldestExists(cs, eligible - {id});
      if cs[other].createdAt < cs[id].createdAt {
        id := other;
      }
    }
  }

  function EligibleIds(cs: Commands, slug: Slug, tags: seq<string>, now: Time): set<Id>
  {
    set id | id in cs && Eligible(cs[id], slug, tags, now)
  }

  /** The status a report may carry: what the SDK sends, and `cancelled` from the API description. */
  predicate Final(s: Status)
  {
    s.Success? || s.Failed? || s.Cancelled?
  }

  /** The SDK's ReportResult derives the status from the exit code. */
  function ReportedStatus(exitCode: int): (s: Status)
    ensures Final(s) && !s.Cancelled? && (s.Success? <==> exitCode == 0)
  {
    if exitCode != 0 then Failed else Success
  }

  // ----- the reaper's statements, with the status set they filter on -----

  predicate Overdue(c: Command, statuses: set<Status>, now: Time)
  {
    c.status in statuses && c.deadline.Some? && c.deadline.value < now
  }

  function FailRow(c: Command, message: string, now: Time): Command
  {
    c.(status := Failed, errorMessage := Some(message), finishedAt := Some(now))
  }

  function FailExpired(cs: Commands, statuses: set<Status>, now: Time): Commands
  {
    map id | id in cs :: if Overdue(cs[id], statuses, now) then FailRow(cs[id], "deadline exceeded", now) else cs[id]
  }

  predicate Stuck(c: Command, statuses: set<Status>, rs: Runners)
  {
    c.status in statuses && c.assignedRunner.Some? && c.assignedRunner.value in rs
    && !rs[c.assignedRunner.value].status.Online?
  }

  function FailStuck(cs: Commands, statuses: set<Status>, rs: Runners, now: Time): Commands
  {
    map id | id in cs ::
      if Stuck(cs[id], statuses, rs) then FailRow(cs[id], "runner became unavailable", now) else cs[id]
  }

  const EXPIRY_STATUSES: set<Status> := {Pending, Running}
  const STUCK_STATUSES: set<Status> := {Running}

  // ----- runners -----

  /** UpsertRunner: a conflict keeps active_count, orphaned_at and created_at. */
  function Upsert(rs: Runners, slug: Slug, tags: seq<string>, limit: int, now: Time): Runners
  {
    if slug in rs
    then rs[slug := rs[slug].(tags := tags, status := Online, concurrencyLimit := limit, lastSeen := Some(now))]
    else rs[slug := Runner(tags, Online, limit, 0, Some(now), None, now)]
  }

  /** The filter of ListRunners as Send uses it: online and with the tag. */
  predicate Listable(rs: Runners, slug: Slug, tag: string)
  {
    slug in rs && rs[slug].status.Online? && tag in rs[slug].tags
  }

  lemma {:induction false} NewestExists(rs: Runners, slugs: set<Slug>) returns (slug: Slug)
    requires slugs != {} && slugs <= rs.Keys
    ensures slug in slugs && forall other :: other in slugs ==> rs[other].createdAt <= rs[slug].createdAt
    decreases |slugs|
  {
    slug :| slug in slugs;
    var rest := slugs - {slug};
    if rest != {} {
      var other := NewestExists(rs, rest);
      if rs[slug].createdAt < rs[other].createdAt {
        slug := other;
      }
    }
  }

  predicate IsEntry(rs: Runners, e: (Slug, Runner), tag: string)
  {
    Listable(rs, e.0, tag) && e.1 == rs[e.0]
  }

  /** The listable runners but for those in `left`, each once, the most recently created first. */
  ghost predicate Lists(rs: Runners, listed: seq<(Slug, Runner)>, tag: string, left: set<Slug>)
  {
    && (forall i :: 0 <= i < |listed| ==> IsEntry(rs, listed[i], tag) && listed[i].0 !in left)
    && (forall slug :: Listable(rs, slug, tag) && slug !in left ==> (slug, rs[slug]) in listed)
    && (forall i, j :: 0 <= i < j < |listed| ==>
          listed[i].0 != listed[j].0 && listed[i].1.createdAt >= listed[j].1.createdAt)
  }

  /** Those in `left` are listable and no more recent than the ones listed. */
  ghost predicate Remain(rs: Runners, listed: seq<(Slug, Runner)>, tag: string, left: set<Slug>)
  {
    && (forall slug :: slug in left ==> Listable(rs, slug, tag))
    && (forall i, slug :: 0 <= i < |listed| && slug in left ==> listed[i].1.createdAt >= rs[slug].createdAt)
  }

  lemma ListNext(rs: Runners, listed: seq<(Slug, Runner)>, tag: string, left: set<Slug>, slug: Slug)
    requires Lists(rs, listed, tag, left) && Remain(rs, listed, tag, left) && slug in left
    requires forall other :: other in left ==> rs[other].createdAt <= rs[slug].createdAt
    ensures Lists(rs, listed + [(slug, rs[slug])], tag, left - {slug})
    ensures Remain(rs, listed + [(slug, rs[slug])], tag, left - {slug})
  {
    var more := listed + [(slug, rs[slug])];
    forall other | Listable(rs, other, tag) && other !in left - {slug} ensures (other, rs[other]) in more {
      if other == slug {
        assert more[|listed|] == (slug, rs[slug]);
      } else {
        assert (other, rs[other]) in listed;
      }
    }
  }

  function HeartbeatRow(r: Runner, now: Time): Runner
  {
    r.(lastSeen := Some(now), status := Online)
  }

  /** active_count = active_count + delta; no row, no change. */
  function AddActive(rs: Runners, slug: Slug, delta: int): Runners
  {
    if slug in rs then rs[slug := rs[slug].(activeCount := rs[slug].activeCount + delta)] else rs
  }

  predicate Orphanable(r: Runner, cutoff: Time)
  {
    r.status.Offline? && r.lastSeen.Some? && r.lastSeen.value < cutoff && r.orphanedAt.None?
  }

  function MarkOrphaned(rs: Runners, cutoff: Time, now: Time): Runners
  {
    map slug | slug in rs ::
      if Orphanable(rs[slug], cutoff) then rs[slug].(status := Orphaned, orphanedAt := Some(now)) else rs[slug]
  }
}
