/**
 The whole dispatch protocol as one state machine: the command table, pending notifications
 and one lane per runner, moved by interleaved atomic steps.

 A command reaches a runner by two independent routes. Sending it inserts a queued row and
 announces it once; the notification is turned into an event without touching the row. Every
 stream that connects starts one goroutine that claims at most one queued row. `noticed` and
 `claims` record, as history, which commands have been credited by which route.
 */
module Dispatch {
  import opened Common
  import opened Rows
  import L = Lane

  datatype State = State(
    now: Time,
    commands: Commands,
    tags: set<(Slug, seq<string>)>,     // history: every registration, as a handler may have read it
    lanes: map<Slug, L.Lane>,
    unannounced: set<Id>,               // inserted, NotifyRunner to follow
    notifications: set<(Slug, Id)>,     // NOTIFY payloads under way to the listener
    noticed: multiset<Id>,
    claims: multiset<Id>)

  datatype Action =
    | Tick(later: Time)
    | Register(slug: Slug, tags: seq<string>, max: nat)
    | Submit(id: Id, target: Target, deadline: Option<Time>)
    | Announce(id: Id, slug: Slug)
    | AnnounceNobody(id: Id)                  // no runner has the tag, or NOTIFY failed
    | LoseNotification(slug: Slug, id: Id)    // the listener was reconnecting
    | Deliver(slug: Slug, id: Id)             // handleNotification up to Send
    | Claim(slug: Slug, id: Id, tags: seq<string>)   // ClaimNextCommand in a flush goroutine, by the tags it read
    | Report(slug: Slug, id: Id, status: Status, exitCode: Option<int>, errorMessage: Option<string>)
    | Kill(id: Id)
    | Reap(runners: Runners)                  // FailExpiredCommands, then FailStuckCommands
    | Local(slug: Slug, move: L.Move)

  function Start(now: Time): State
  {
    State(now, map[], {}, map[], {}, {}, multiset{}, multiset{})
  }

  /** To whom the Send handler announces a command with this target. */
  predicate Addressee(s: State, target: Target, slug: Slug)
  {
    match target
    case ToSlug(v) => slug == v
    case ToRunner(v) => slug == v
    case ToTag(v) => exists r :: r in s.tags && r.0 == slug && v in r.1
    case ToOther(_, _) => false
  }

  predicate Enabled(s: State, a: Action)
  {
    match a
    case Tick(later) => s.now <= later
    case Register(_, _, _) => true
    case Submit(id, target, _) => id !in s.commands && Complete(target)
    case Announce(id, slug) => id in s.unannounced && id in s.commands && Addressee(s, s.commands[id].target, slug)
    case AnnounceNobody(id) => id in s.unannounced
    case LoseNotification(slug, id) => (slug, id) in s.notifications
    case Deliver(slug, id) => (slug, id) in s.notifications
    case Claim(slug, id, tags) =>
      slug in s.lanes && (slug, tags) in s.tags && L.CanMove(s.lanes[slug], L.Claim(id))
      && id in s.commands && Eligible(s.commands[id], slug, tags, s.now)
    case Report(slug, id, status, _, _) =>
      slug in s.lanes && L.CanMove(s.lanes[slug], L.StoreResult(id)) && id in s.commands && Final(status)
    case Kill(id) => id in s.commands && (s.commands[id].status.Claimed? || s.commands[id].status.Running?)
    case Reap(_) => true
    case Local(slug, m) =>
      slug in s.lanes && L.CanMove(s.lanes[slug], m) && !m.Notify? && !m.Claim? && !m.StoreResult?
  }

  /** Whether the notification finds an open stream. */
  predicate Reached(s: State, slug: Slug)
  {
    slug in s.lanes && s.lanes[slug].buffers != []
  }

  function SetLane(s: State, slug: Slug, m: L.Move): State
    requires slug in s.lanes && L.CanMove(s.lanes[slug], m)
  {
    s.(lanes := s.lanes[slug := L.Moved(s.lanes[slug], m)])
  }

  function SetCommand(s: State, id: Id, c: Command): State
  {
    s.(commands := s.commands[id := c])
  }

  function ReportedRow(s: State, a: Action): Command
    requires a.Report? && a.id in s.commands
  {
    UpdateRow(s.commands[a.id], a.status, ReportOpts(a.exitCode, a.errorMessage, s.now))
  }

  function Next(s: State, a: Action): State
    requires Enabled(s, a)
  {
    match a
    case Tick(later) => s.(now := later)
    case Register(slug, tags, max) =>
      s.(tags := s.tags + {(slug, tags)},
         lanes := if slug in s.lanes then s.lanes else s.lanes[slug := L.Empty(max)])
    case Submit(id, target, deadline) =>
      SetCommand(s, id, NewCommand(target, deadline, s.now)).(unannounced := s.unannounced + {id})
    case Announce(id, slug) =>
      s.(unannounced := s.unannounced - {id}, notifications := s.notifications + {(slug, id)})
    case AnnounceNobody(id) => s.(unannounced := s.unannounced - {id})
    case LoseNotification(slug, id) => s.(notifications := s.notifications - {(slug, id)})
    case Deliver(slug, id) =>
      var rest := s.(notifications := s.notifications - {(slug, id)});
      if Reached(s, slug) then SetLane(rest, slug, L.Notify(id)).(noticed := s.noticed + multiset{id}) else rest
    case Claim(slug, id, _) =>
      SetCommand(SetLane(s, slug, L.Claim(id)), id, ClaimRow(s.commands[id], slug, s.now))
        .(claims := s.claims + multiset{id})
    case Report(slug, id, _, _, _) =>
      SetCommand(SetLane(s, slug, L.StoreResult(id)), id, ReportedRow(s, a))
    case Kill(id) => SetCommand(s, id, s.commands[id].(killRequestedAt := Some(s.now)))
    case Reap(runners) =>
      s.(commands := FailStuck(FailExpired(s.commands, EXPIRY_STATUSES, s.now), STUCK_STATUSES, runners, s.now))
    case Local(slug, m) => SetLane(s, slug, m)
  }

  // ----- invariant -----

  predicate Shipped(status: Status)
  {
    status.Queued? || status.Claimed? || Final(status)
  }

  /** Status and claim columns of a command that has been claimed `claimed` times. */
  predicate CommandOk(c: Command, claimed: nat)
  {
    && Shipped(c.status)
    && claimed <= 1
    && (c.assignedRunner.Some? <==> claimed == 1)
    && (c.assignedRunner.Some? <==> c.claimedAt.Some?)
    && (c.status.Queued? ==> claimed == 0)
    && (c.status.Claimed? ==> claimed == 1)
    && (Final(c.status) <==> c.finishedAt.Some?)
    && c.startedAt.None?
    && (c.assignedRunner.Some? ==> c.target.ToTag? || c.target == ToSlug(c.assignedRunner.value))
  }

  ghost predicate CommandsOk(cs: Commands, claims: multiset<Id>)
  {
    && (forall id :: id in cs ==> CommandOk(cs[id], claims[id]))
    && (forall id :: id !in cs ==> claims[id] == 0)
  }

  /** No command is announced twice: it waits, is under way, or has been noticed once. */
  ghost predicate NoticesOk(known: set<Id>, unannounced: set<Id>, notifications: set<(Slug, Id)>, noticed: multiset<Id>)
  {
    && unannounced <= known
    && (forall n :: n in notifications ==> n.1 in known && n.1 !in unannounced)
    && (forall n, m :: n in notifications && m in notifications && n.1 == m.1 ==> n == m)
    && (forall id :: id in unannounced ==> noticed[id] == 0)
    && (forall n :: n in notifications ==> noticed[n.1] == 0)
    && (forall id :: noticed[id] <= if id in known then 1 else 0)
  }

  /** What the lanes have been credited for a command, lane by lane. */
  function Credits(lanes: map<Slug, L.Lane>, id: Id): map<Slug, nat>
  {
    map slug | slug in lanes :: lanes[slug].credited[id]
  }

  /** How often a command has been dispatched, by any route to any runner. */
  ghost function Dispatched(s: State, id: Id): nat
  {
    Sum(Credits(s.lanes, id))
  }

  /** The lanes are credited by the two routes and by nothing else. */
  ghost predicate CreditsOk(lanes: map<Slug, L.Lane>, noticed: multiset<Id>, claims: multiset<Id>)
  {
    forall id :: Sum(Credits(lanes, id)) == noticed[id] + claims[id]
  }

  ghost predicate LanesOk(lanes: map<Slug, L.Lane>)
  {
    forall slug :: slug in lanes ==> L.LaneInv(lanes[slug])
  }

  ghost predicate Inv(s: State)
  {
    && CommandsOk(s.commands, s.claims)
    && NoticesOk(s.commands.Keys, s.unannounced, s.notifications, s.noticed)
    && LanesOk(s.lanes)
    && CreditsOk(s.lanes, s.noticed, s.claims)
  }

  // ----- what an action does to each part of the state -----

  /** The row that an action writes. */
  function RowOf(s: State, a: Action): Option<(Id, Command)>
    requires Enabled(s, a)
  {
    match a
    case Submit(id, target, deadline) => Some((id, NewCommand(target, deadline, s.now)))
    case Claim(slug, id, _) => Some((id, ClaimRow(s.commands[id], slug, s.now)))
    case Report(_, id, _, _, _) => Some((id, ReportedRow(s, a)))
    case Kill(id) => Some((id, s.commands[id].(killRequestedAt := Some(s.now))))
    case _ => None
  }

  lemma NextWritesOneRow(s: State, a: Action)
    requires Enabled(s, a) && !a.Reap?
    ensures Next(s, a).commands
         == match RowOf(s, a) case None => s.commands case Some((id, c)) => s.commands[id := c]
  {
  }

  lemma NextHistory(s: State, a: Action)
    requires Enabled(s, a)
    ensures Next(s, a).noticed == s.noticed + if a.Deliver? && Reached(s, a.slug) then multiset{a.id} else multiset{}
    ensures Next(s, a).claims == s.claims + if a.Claim? then multiset{a.id} else multiset{}
  {
  }

  /** The lane that an action moves, if any, with its move. */
  function MoveOf(s: State, a: Action): Option<(Slug, L.Move)>
  {
    match a
    case Deliver(slug, id) => if Reached(s, slug) then Some((slug, L.Notify(id))) else None
    case Claim(slug, id, _) => Some((slug, L.Claim(id)))
    case Report(slug, id, _, _, _) => Some((slug, L.StoreResult(id)))
    case Local(slug, m) => Some((slug, m))
    case _ => None
  }

  lemma NextMovesOneLane(s: State, a: Action)
    requires Enabled(s, a)
    ensures MoveOf(s, a).Some? ==>
              var (slug, m) := MoveOf(s, a).value;
              slug in s.lanes && L.CanMove(s.lanes[slug], m)
              && Next(s, a).lanes == s.lanes[slug := L.Moved(s.lanes[slug], m)]
    ensures MoveOf(s, a).None? ==>
              (Next(s, a).lanes
               == if a.Register? && a.slug !in s.lanes then s.lanes[a.slug := L.Empty(a.max)] else s.lanes)
  {
  }

  // ----- preservation -----

  lemma ReaperChangesNothing(cs: Commands, rs: Runners, now: Time)
    requires forall id :: id in cs ==> Shipped(cs[id].status)
    ensures FailExpired(cs, EXPIRY_STATUSES, now) == cs && FailStuck(cs, STUCK_STATUSES, rs, now) == cs
  {
  }

  lemma ReapKeepsCommands(s: State, runners: Runners)
    requires CommandsOk(s.commands, s.claims)
    ensures Next(s, Reap(runners)).commands == s.commands
  {
    assert forall id :: id in s.commands ==> CommandOk(s.commands[id], s.claims[id]);
    ReaperChangesNothing(s.commands, runners, s.now);
  }

  lemma WriteKeepsCommands(s: State, a: Action)
    requires CommandsOk(s.commands, s.claims) && Enabled(s, a) && RowOf(s, a).Some?
    ensures var (id, c) := RowOf(s, a).value;
            CommandsOk(s.commands[id := c], s.claims + if a.Claim? then multiset{a.id} else multiset{})
  {
    var (id, c) := RowOf(s, a).value;
    var claims := s.claims + if a.Claim? then multiset{a.id} else multiset{};
    assert forall j :: j != id ==> claims[j] == s.claims[j];
    assert id in s.commands ==> CommandOk(s.commands[id], s.claims[id]);
    assert CommandOk(c, claims[id]);
  }

  lemma {:induction false} NextKeepsCommands(s: State, a: Action)
    requires CommandsOk(s.commands, s.claims) && Enabled(s, a)
    ensures CommandsOk(Next(s, a).commands, Next(s, a).claims)
  {
    NextHistory(s, a);
    if a.Reap? {
      ReapKeepsCommands(s, a.runners);
    } else {
      NextWritesOneRow(s, a);
      if RowOf(s, a).Some? {
        WriteKeepsCommands(s, a);
      }
    }
  }

  lemma AnnouncingKeepsNotices(s: State, a: Action)
    requires NoticesOk(s.commands.Keys, s.unannounced, s.notifications, s.noticed) && Enabled(s, a)
    requires a.Submit? || a.Announce? || a.AnnounceNobody? || a.LoseNotification?
    ensures NoticesOk(Next(s, a).commands.Keys, Next(s, a).unannounced, Next(s, a).notifications, Next(s, a).noticed)
  {
    if a.Submit? {
      assert Next(s, a).commands.Keys == s.commands.Keys + {a.id};
    }
  }

  lemma DeliveryKeepsNotices(s: State, slug: Slug, id: Id)
    requires NoticesOk(s.commands.Keys, s.unannounced, s.notifications, s.noticed) && (slug, id) in s.notifications
    ensures NoticesOk(s.commands.Keys, s.unannounced, s.notifications - {(slug, id)}, s.noticed)
    ensures NoticesOk(s.commands.Keys, s.unannounced, s.notifications - {(slug, id)}, s.noticed + multiset{id})
  {
    assert s.noticed[(slug, id).1] == 0;
  }

  lemma OthersKeepNotices(s: State, a: Action)
    requires Enabled(s, a) && CommandsOk(s.commands, s.claims)
    requires !a.Submit? && !a.Announce? && !a.AnnounceNobody? && !a.LoseNotification? && !a.Deliver?
    ensures Next(s, a).commands.Keys == s.commands.Keys && Next(s, a).unannounced == s.unannounced
    ensures Next(s, a).notifications == s.notifications && Next(s, a).noticed == s.noticed
  {
    if a.Reap? {
      ReapKeepsCommands(s, a.runners);
    } else {
      NextWritesOneRow(s, a);
    }
  }

  lemma {:induction false} NextKeepsNotices(s: State, a: Action)
    requires CommandsOk(s.commands, s.claims) && Enabled(s, a)
    requires NoticesOk(s.commands.Keys, s.unannounced, s.notifications, s.noticed)
    ensures NoticesOk(Next(s, a).commands.Keys, Next(s, a).unannounced, Next(s, a).notifications, Next(s, a).noticed)
  {
    if a.Submit? || a.Announce? || a.AnnounceNobody? || a.LoseNotification? {
      AnnouncingKeepsNotices(s, a);
    } else if a.Deliver? {
      DeliveryKeepsNotices(s, a.slug, a.id);
    } else {
      OthersKeepNotices(s, a);
    }
  }

  lemma MoveCredits(l: L.Lane, m: L.Move)
    requires L.CanMove(l, m)
    ensures L.Moved(l, m).credited
         == l.credited + if m.Notify? then multiset{m.id} else if m.Claim? then multiset{m.id} else multiset{}
  {
  }

  lemma {:induction false} NextKeepsLanes(s: State, a: Action)
    requires LanesOk(s.lanes) && Enabled(s, a)
    ensures LanesOk(Next(s, a).lanes)
  {
    NextMovesOneLane(s, a);
    if MoveOf(s, a).Some? {
      var (slug, m) := MoveOf(s, a).value;
      L.MoveKeepsLaneInv(s.lanes[slug], m);
    } else if a.Register? {
      L.EmptyLaneInv(a.max);
    }
  }

  /** What the total for `id` gains when a lane is put in place. */
  lemma PutLane(lanes: map<Slug, L.Lane>, slug: Slug, l: L.Lane, id: Id)
    ensures Sum(Credits(lanes[slug := l], id)) + (if slug in lanes then lanes[slug].credited[id] else 0)
         == Sum(Credits(lanes, id)) + l.credited[id]
  {
    assert Credits(lanes[slug := l], id) == Credits(lanes, id)[slug := l.credited[id]];
    SumPut(Credits(lanes, id), slug, l.credited[id]);
  }

  /** The command that an action credits to a lane. */
  function CreditOf(s: State, a: Action): multiset<Id>
  {
    if (a.Deliver? && Reached(s, a.slug)) || a.Claim? then multiset{a.id} else multiset{}
  }

  lemma NextCredits(s: State, a: Action)
    requires Enabled(s, a) && MoveOf(s, a).Some?
    ensures var (slug, m) := MoveOf(s, a).value;
            slug in s.lanes && L.CanMove(s.lanes[slug], m)
            && L.Moved(s.lanes[slug], m).credited == s.lanes[slug].credited + CreditOf(s, a)
  {
    NextMovesOneLane(s, a);
    MoveCredits(s.lanes[MoveOf(s, a).value.0], MoveOf(s, a).value.1);
  }

  lemma NextKeepsCredits(s: State, a: Action)
    requires CreditsOk(s.lanes, s.noticed, s.claims) && Enabled(s, a)
    ensures CreditsOk(Next(s, a).lanes, Next(s, a).noticed, Next(s, a).claims)
  {
    NextMovesOneLane(s, a);
    NextHistory(s, a);
    forall id ensures Sum(Credits(Next(s, a).lanes, id)) == Next(s, a).noticed[id] + Next(s, a).claims[id] {
      if MoveOf(s, a).Some? {
        var (slug, m) := MoveOf(s, a).value;
        NextCredits(s, a);
        PutLane(s.lanes, slug, L.Moved(s.lanes[slug], m), id);
      } else if a.Register? && a.slug !in s.lanes {
        PutLane(s.lanes, a.slug, L.Empty(a.max), id);
      }
    }
  }

  lemma {:induction false} NextKeepsInv(s: State, a: Action)
    requires Inv(s) && Enabled(s, a)
    ensures Inv(Next(s, a))
  {
    NextKeepsCommands(s, a);
    NextKeepsNotices(s, a);
    NextKeepsLanes(s, a);
    NextKeepsCredits(s, a);
  }
}
