/**
 The server's handlers as sequential code over the store and the hub. An event is represented
 by the id of its command. What happens between two statements of a handler is the subject of
 the dispatch model; the last lemmas here say that its moves add up to these handlers.
 */
module Handlers {
  import opened Common
  import opened Rows
  import opened Store
  import Hub
  import L = Lane

  // ----- notification payloads -----

  /** What precedes the first colon. */
  function SlugOf(payload: string): (slug: string)
    ensures |slug| <= |payload| && ':' !in slug
    ensures |slug| < |payload| <==> ':' in payload
  {
    if payload == "" || payload[0] == ':' then "" else [payload[0]] + SlugOf(payload[1..])
  }

  function TextOf(payload: string): string
  {
    if ':' in payload then payload[|SlugOf(payload)| + 1..] else ""
  }

  lemma {:induction false} SlugOfSplit(a: string, b: string)
    requires ':' !in a
    ensures SlugOf(a + ":" + b) == a && TextOf(a + ":" + b) == b
  {
    var p := a + ":" + b;
    assert p[|a|] == ':';
    if a == "" {
      assert p == ":" + b;
    } else {
      assert p[1..] == a[1..] + ":" + b;
      SlugOfSplit(a[1..], b);
    }
  }

  method SplitNotificationPayload(payload: string) returns (parts: seq<string>)
    ensures parts == if ':' in payload then [SlugOf(payload), TextOf(payload)] else [payload]
  {
    for i := 0 to |payload|
      invariant ':' !in payload[..i]
    {
      if payload[i] == ':' {
        assert payload == payload[..i] + ":" + payload[i + 1..];
        SlugOfSplit(payload[..i], payload[i + 1..]);
        return [payload[..i], payload[i + 1..]];
      }
    }
    assert payload[..|payload|] == payload;
    return [payload];
  }

  /** The payload "slug:id" comes apart as NotifyRunner put it together exactly if the slug has no colon. */
  lemma PayloadRoundTripIff(slug: string, idText: string)
    ensures SlugOf(slug + ":" + idText) == slug && TextOf(slug + ":" + idText) == idText <==> ':' !in slug
  {
    if ':' !in slug {
      SlugOfSplit(slug, idText);
    }
  }

  // ----- the lanes, as the store and the hub hold them -----

  type Lanes = map<Slug, L.Lane>

  /** The table of runners, and what the streams of each runner have in their channels. */
  datatype Held = Held(runners: Runners, buffers: map<Slug, seq<seq<Id>>>)

  ghost function View(hub: Hub.Hub<Id>, store: Store): (h: Held)
    reads hub, hub.Channels(), store
    ensures h.runners == store.runners && forall slug :: Hub.Listed(h.buffers, slug) == hub.Buffers(slug)
  {
    Held(store.runners, hub.AllBuffers())
  }

  /** The counter of each lane is its runner's, and its buffers are those of the runner's streams. */
  predicate Reflects(lanes: Lanes, h: Held)
  {
    SameCounts(lanes, h.runners) && forall slug :: slug in lanes ==> lanes[slug].buffers == Hub.Listed(h.buffers, slug)
  }

  /** What the handlers' contracts say: the counter of one runner has moved, and no other column or row. */
  predicate Counted(h: Held, after: Held, slug: Slug, delta: int)
  {
    slug in h.runners
    && after.runners == h.runners[slug := h.runners[slug].(activeCount := h.runners[slug].activeCount + delta)]
  }

  /** And an event has been offered to its streams, and to no others. */
  ghost predicate Offered(h: Held, after: Held, slug: Slug, id: Id)
  {
    && Hub.Listed(after.buffers, slug) == Hub.OfferAll(Hub.Listed(h.buffers, slug), id)
    && forall s :: s != slug ==> Hub.Listed(after.buffers, s) == Hub.Listed(h.buffers, s)
  }

  lemma PutAndTake(a: multiset<Id>, id: Id)
    ensures a + multiset{id} - multiset{id} == a && id in a + multiset{id}
  {
  }

  /** Send and increment, or a failing one. */
  function NotifiedLane(l: L.Lane, id: Id, counts: bool): L.Lane
    requires l.buffers != []
  {
    PutAndTake(l.owed, id);
    L.Moved(L.Moved(l, L.Notify(id)), if counts then L.CountNotified(id) else L.MissNotified(id))
  }

  /** Claim and increment, or a failing one. */
  function ClaimedLane(l: L.Lane, id: Id, counts: bool): L.Lane
    requires L.CanMove(l, L.Claim(id))
  {
    PutAndTake(l.uncounted, id);
    L.Moved(L.Moved(l, L.Claim(id)), if counts then L.CountClaimed(id) else L.MissClaimed(id))
  }

  lemma ClaimedLaneHas(l: L.Lane, id: Id, counts: bool)
    requires L.CanMove(l, L.Claim(id))
    ensures var r := ClaimedLane(l, id, counts);
            && L.CanMove(r, L.SendClaimed(id)) && r.buffers == l.buffers && r.uncounted == l.uncounted
            && r.count == l.count + (if counts then 1 else 0) && r.unsent == l.unsent + multiset{id}
  {
    PutAndTake(l.uncounted, id);
    PutAndTake(l.unsent, id);
  }

  /** And then Send. */
  function FlushedLane(l: L.Lane, id: Id, counts: bool): L.Lane
    requires L.CanMove(l, L.Claim(id))
  {
    ClaimedLaneHas(l, id, counts);
    L.Moved(ClaimedLane(l, id, counts), L.SendClaimed(id))
  }

  /** Update of the status and decrement, or a failing one. */
  function ReportedLane(l: L.Lane, id: Id, counts: bool): L.Lane
    requires L.CanMove(l, L.StoreResult(id))
  {
    PutAndTake(l.settling, id);
    L.Moved(L.Moved(l, L.StoreResult(id)), if counts then L.Settle(id) else L.MissSettled(id))
  }

  lemma NotifiedLaneHas(l: L.Lane, id: Id, counts: bool)
    requires l.buffers != []
    ensures var r := NotifiedLane(l, id, counts);
            && r.owed == l.owed && r.buffers == Hub.OfferAll(l.buffers, id)
            && r.count == l.count + (if counts then 1 else 0)
  {
    PutAndTake(l.owed, id);
  }

  lemma FlushedLaneHas(l: L.Lane, id: Id, counts: bool)
    requires L.CanMove(l, L.Claim(id))
    ensures var r := FlushedLane(l, id, counts);
            && r.uncounted == l.uncounted && r.unsent == l.unsent && r.buffers == Hub.OfferAll(l.buffers, id)
            && r.count == l.count + (if counts then 1 else 0)
  {
    ClaimedLaneHas(l, id, counts);
    PutAndTake(l.unsent, id);
  }

  lemma ReportedLaneHas(l: L.Lane, id: Id, counts: bool)
    requires L.CanMove(l, L.StoreResult(id))
    ensures var r := ReportedLane(l, id, counts);
            && r.settling == l.settling && r.buffers == l.buffers && r.count == l.count - (if counts then 1 else 0)
  {
    PutAndTake(l.settling, id);
  }

  /** The counter of one runner and the buffers of its streams change, and its lane with them. */
  lemma OneLaneMoves(lanes: Lanes, h: Held, after: Held, slug: Slug, l: L.Lane)
    requires Reflects(lanes, h) && slug in lanes
    requires Counted(h, after, slug, l.count - lanes[slug].count)
    requires Hub.Listed(after.buffers, slug) == l.buffers
    requires forall s :: s != slug ==> Hub.Listed(after.buffers, s) == Hub.Listed(h.buffers, s)
    ensures Reflects(lanes[slug := l], after)
  {
    OneCountMoves(lanes, h.runners, slug, l);
  }

  predicate SameCounts(lanes: Lanes, rs: Runners)
  {
    lanes.Keys == rs.Keys && forall slug :: slug in lanes ==> lanes[slug].count == rs[slug].activeCount
  }

  lemma OneCountMoves(lanes: Lanes, rs: Runners, slug: Slug, l: L.Lane)
    requires SameCounts(lanes, rs) && slug in lanes
    ensures SameCounts(lanes[slug := l], rs[slug := rs[slug].(activeCount := l.count)])
  {
  }

  lemma DispatchReflected(lanes: Lanes, h: Held, after: Held, slug: Slug, l: L.Lane, id: Id, counts: bool)
    requires Reflects(lanes, h) && slug in lanes
    requires Counted(h, after, slug, if counts then 1 else 0) && Offered(h, after, slug, id)
    requires l.count == lanes[slug].count + (if counts then 1 else 0)
    requires l.buffers == Hub.OfferAll(lanes[slug].buffers, id)
    ensures Reflects(lanes[slug := l], after)
  {
    OneLaneMoves(lanes, h, after, slug, l);
  }

  /** With the two moves of a notification the lanes reflect what HandleNotification leaves when it sends. */
  lemma NotificationIsTwoMoves(lanes: Lanes, h: Held, after: Held, slug: Slug, id: Id, counts: bool)
    requires Reflects(lanes, h) && slug in lanes && lanes[slug].buffers != []
    requires Counted(h, after, slug, if counts then 1 else 0) && Offered(h, after, slug, id)
    ensures Reflects(lanes[slug := NotifiedLane(lanes[slug], id, counts)], after)
    ensures NotifiedLane(lanes[slug], id, counts).owed == lanes[slug].owed
  {
    NotifiedLaneHas(lanes[slug], id, counts);
    DispatchReflected(lanes, h, after, slug, NotifiedLane(lanes[slug], id, counts), id, counts);
  }

  /** With the three moves of a flush they reflect what FlushQueuedCommands leaves when it claims a command. */
  lemma FlushIsThreeMoves(lanes: Lanes, h: Held, after: Held, slug: Slug, id: Id, counts: bool)
    requires Reflects(lanes, h) && slug in lanes && L.CanMove(lanes[slug], L.Claim(id))
    requires Counted(h, after, slug, if counts then 1 else 0) && Offered(h, after, slug, id)
    ensures var l := FlushedLane(lanes[slug], id, counts);
            && Reflects(lanes[slug := l], after)
            && l.uncounted == lanes[slug].uncounted && l.unsent == lanes[slug].unsent
  {
    FlushedLaneHas(lanes[slug], id, counts);
    DispatchReflected(lanes, h, after, slug, FlushedLane(lanes[slug], id, counts), id, counts);
  }

  /** With the two moves of a report they reflect what ReportResult leaves for a known command. */
  lemma ReportIsTwoMoves(lanes: Lanes, h: Held, after: Held, slug: Slug, id: Id, counts: bool)
    requires Reflects(lanes, h) && slug in lanes && L.CanMove(lanes[slug], L.StoreResult(id))
    requires Counted(h, after, slug, if counts then -1 else 0) && after.buffers == h.buffers
    ensures Reflects(lanes[slug := ReportedLane(lanes[slug], id, counts)], after)
    ensures ReportedLane(lanes[slug], id, counts).settling == lanes[slug].settling
  {
    ReportedLaneHas(lanes[slug], id, counts);
    OneLaneMoves(lanes, h, after, slug, ReportedLane(lanes[slug], id, counts));
  }

  /** A stream comes or goes, or takes an event out of its channel: the runners' table stays. */
  predicate Rebuffered(h: Held, after: Held, slug: Slug, buffers: seq<seq<Id>>)
  {
    && after.runners == h.runners
    && after.buffers == if buffers == [] then h.buffers - {slug} else h.buffers[slug := buffers]
  }

  /** Register, Unregister and the receive of the stream loop are the moves Open, Close and Write. */
  lemma StreamIsOneMove(lanes: Lanes, h: Held, after: Held, slug: Slug, i: nat)
    requires Reflects(lanes, h) && slug in lanes
    ensures Rebuffered(h, after, slug, Hub.Listed(h.buffers, slug) + [[]]) ==>
              Reflects(lanes[slug := L.Moved(lanes[slug], L.Open)], after)
    ensures i < |lanes[slug].buffers| ==>
              var rest := lanes[slug].buffers[..i] + lanes[slug].buffers[i + 1..];
              Rebuffered(h, after, slug, rest) ==> Reflects(lanes[slug := L.Moved(lanes[slug], L.Close(i))], after)
    ensures i < |lanes[slug].buffers| && lanes[slug].buffers[i] != [] ==>
              var rest := lanes[slug].buffers[i := lanes[slug].buffers[i][1..]];
              Rebuffered(h, after, slug, rest) ==>
                Reflects(lanes[slug := L.Moved(lanes[slug], L.Write(i))], after)
                && Reflects(lanes[slug := L.Moved(lanes[slug], L.FailWrite(i))], after)
  {
    RebufferReflected(lanes, h, after, slug, L.Moved(lanes[slug], L.Open));
    if i < |lanes[slug].buffers| {
      RebufferReflected(lanes, h, after, slug, L.Moved(lanes[slug], L.Close(i)));
      if lanes[slug].buffers[i] != [] {
        RebufferReflected(lanes, h, after, slug, L.Moved(lanes[slug], L.Write(i)));
        RebufferReflected(lanes, h, after, slug, L.Moved(lanes[slug], L.FailWrite(i)));
      }
    }
  }

  lemma RebufferReflected(lanes: Lanes, h: Held, after: Held, slug: Slug, l: L.Lane)
    requires Reflects(lanes, h) && slug in lanes && l.count == lanes[slug].count
    ensures Rebuffered(h, after, slug, l.buffers) ==> Reflects(lanes[slug := l], after)
  {
  }

  /** The clauses of the handlers' contracts, read off store and hub. */
  twostate lemma ContractsSay(hub: Hub.Hub<Id>, store: Store, slug: Slug, id: Id, delta: int)
    requires slug in old(store.runners)
    requires store.runners == old(store.runners)[slug := old(store.runners)[slug].(
                                    activeCount := old(store.runners)[slug].activeCount + delta)]
    requires hub.Buffers(slug) == Hub.OfferAll(old(hub.Buffers(slug)), id)
    requires forall s :: s != slug ==> hub.Buffers(s) == old(hub.Buffers(s))
    ensures Counted(old(View(hub, store)), View(hub, store), slug, delta)
    ensures Offered(old(View(hub, store)), View(hub, store), slug, id)
  {
  }

  // ----- the two dispatch routes -----

  /**
   The beginning of HandleNotification, up to the point where the command has been read. `uuid` is
   pgtype.UUID.Scan.
   */
  method NotifiedCommand(payload: string, uuid: string -> Option<Id>, cs: Commands) returns (id: Option<Id>)
    ensures ':' !in payload ==> id.None?
    ensures ':' in payload ==>
              var text := TextOf(payload);
              id == if uuid(text).Some? && uuid(text).value in cs then uuid(text) else None
  {
    var parts := SplitNotificationPayload(payload);
    if |parts| != 2 {
      return None;
    }
    id := uuid(parts[1]);
    if id.Some? && id.value !in cs {
      id := None;
    }
  }

  /**
   The command's row is only read; the counter goes up if there is a stream, even a full one.
   Here and below `counts` says whether the statement on the counter succeeds; if it does not, the
   code only logs that.
   */
  method HandleNotification(payload: string, uuid: string -> Option<Id>, counts: bool,
                            hub: Hub.Hub<Id>, store: Store)
    returns (sent: bool)
    requires hub.Valid()
    modifies store`runners, hub.At(SlugOf(payload))
    ensures hub.Valid() && hub.connections == old(hub.connections)
    ensures ':' !in payload ==> !sent
    ensures ':' in payload ==>
              (sent <==> uuid(TextOf(payload)).Some? && uuid(TextOf(payload)).value in store.commands
                         && hub.At(SlugOf(payload)) != [])
    ensures var slug := SlugOf(payload);
            store.runners == (if sent && counts && slug in old(store.runners)
                              then old(store.runners)[slug := old(store.runners)[slug].(
                                     activeCount := old(store.runners)[slug].activeCount + 1)]
                              else old(store.runners))
    ensures sent ==>
              hub.Buffers(SlugOf(payload))
              == Hub.OfferAll(old(hub.Buffers(SlugOf(payload))), uuid(TextOf(payload)).value)
    ensures forall s :: !sent || s != SlugOf(payload) ==> hub.Buffers(s) == old(hub.Buffers(s))
  {
    var id := NotifiedCommand(payload, uuid, store.commands);
    if id.None? {
      return false;
    }
    var slug := SlugOf(payload);
    sent := SendAndCount(slug, id.value, counts, hub, store);
  }

  /**
   NotifyRunner and, when its notification arrives, HandleNotification: for a slug without a colon
   the event is sent exactly if the command is stored and that slug has a stream.
   */
  method NotifyAndHandle(slug: Slug, text: string, uuid: string -> Option<Id>, counts: bool,
                         hub: Hub.Hub<Id>, store: Store)
    returns (sent: bool)
    requires hub.Valid() && ':' !in slug
    modifies store`runners, hub.At(slug)
    ensures hub.Valid() && hub.connections == old(hub.connections)
    ensures sent <==> uuid(text).Some? && uuid(text).value in store.commands && hub.At(slug) != []
    ensures store.runners == (if sent && counts && slug in old(store.runners)
                              then old(store.runners)[slug := old(store.runners)[slug].(
                                     activeCount := old(store.runners)[slug].activeCount + 1)]
                              else old(store.runners))
    ensures sent ==> hub.Buffers(slug) == Hub.OfferAll(old(hub.Buffers(slug)), uuid(text).value)
    ensures forall s :: !sent || s != slug ==> hub.Buffers(s) == old(hub.Buffers(s))
  {
    SlugOfSplit(slug, text);
    sent := HandleNotification(slug + ":" + text, uuid, counts, hub, store);
  }

  /** The end of HandleNotification: Send, and the increment if there is a stream. */
  method SendAndCount(slug: Slug, id: Id, counts: bool, hub: Hub.Hub<Id>, store: Store) returns (sent: bool)
    requires hub.Valid()
    modifies store`runners, hub.At(slug)
    ensures hub.Valid() && hub.connections == old(hub.connections)
    ensures sent <==> hub.At(slug) != []
    ensures store.runners == (if sent && counts && slug in old(store.runners)
                              then old(store.runners)[slug := old(store.runners)[slug].(
                                     activeCount := old(store.runners)[slug].activeCount + 1)]
                              else old(store.runners))
    ensures sent ==> hub.Buffers(slug) == Hub.OfferAll(old(hub.Buffers(slug)), id)
    ensures forall s :: !sent || s != slug ==> hub.Buffers(s) == old(hub.Buffers(s))
  {
    sent := hub.Send(slug, id);
    if sent && counts {
      var found := store.IncrementRunnerActiveCount(slug, 1);
    }
  }

  /** What a flush goroutine does to the tables, given whom it claimed. */
  ghost predicate Flushed(before: Commands, after: Commands, slug: Slug, tags: seq<string>, now: Time,
                          claimed: Option<Id>)
  {
    match claimed
    case None => EligibleIds(before, slug, tags, now) == {} && after == before
    case Some(id) =>
      Oldest(before, id, EligibleIds(before, slug, tags, now)) && after == before[id := ClaimRow(before[id], slug, now)]
  }

  /**
   The counter goes up for every claim, also when no stream is left to send the event to; and the
   event is sent also when the counter does not go up, as happens when the stream has just ended.
   */
  method FlushQueuedCommands(slug: Slug, now: Time, counts: bool, hub: Hub.Hub<Id>, store: Store)
    returns (claimed: Option<Id>)
    requires hub.Valid()
    modifies store`runners, store`commands, hub.At(slug)
    ensures hub.Valid() && hub.connections == old(hub.connections)
    ensures slug !in old(store.runners) ==> claimed.None? && store.commands == old(store.commands)
    ensures slug in old(store.runners) ==>
              Flushed(old(store.commands), store.commands, slug, old(store.runners)[slug].tags, now, claimed)
    ensures claimed.Some? ==> slug in old(store.runners)
    ensures store.runners == (if claimed.Some? && counts
                              then old(store.runners)[slug := old(store.runners)[slug].(
                                     activeCount := old(store.runners)[slug].activeCount + 1)]
                              else old(store.runners))
    ensures claimed.Some? ==> hub.Buffers(slug) == Hub.OfferAll(old(hub.Buffers(slug)), claimed.value)
    ensures forall s :: claimed.None? || s != slug ==> hub.Buffers(s) == old(hub.Buffers(s))
  {
    claimed := ClaimForStream(slug, now, store);
    if claimed.Some? {
      CountAndSend(slug, claimed.value, counts, hub, store);
    }
  }

  /** The beginning of FlushQueuedCommands: GetRunner and the claim. */
  method ClaimForStream(slug: Slug, now: Time, store: Store) returns (claimed: Option<Id>)
    modifies store`commands
    ensures slug !in store.runners ==> claimed.None? && store.commands == old(store.commands)
    ensures slug in store.runners ==>
              Flushed(old(store.commands), store.commands, slug, store.runners[slug].tags, now, claimed)
  {
    if slug !in store.runners {
      return None;
    }
    claimed := store.ClaimNextCommand(slug, store.runners[slug].tags, now);
  }

  /** The end of FlushQueuedCommands: the increment, and Send whether or not it succeeded. */
  method CountAndSend(slug: Slug, id: Id, counts: bool, hub: Hub.Hub<Id>, store: Store)
    requires hub.Valid()
    modifies store`runners, hub.At(slug)
    ensures hub.Valid() && hub.connections == old(hub.connections)
    ensures store.runners == (if counts && slug in old(store.runners)
                              then old(store.runners)[slug := old(store.runners)[slug].(
                                     activeCount := old(store.runners)[slug].activeCount + 1)]
                              else old(store.runners))
    ensures hub.Buffers(slug) == Hub.OfferAll(old(hub.Buffers(slug)), id)
    ensures forall s :: s != slug ==> hub.Buffers(s) == old(hub.Buffers(s))
  {
    if counts {
      var found := store.IncrementRunnerActiveCount(slug, 1);
    }
    var sent := hub.Send(slug, id);
  }

  /** Nothing is deducted for an unknown command. */
  method ReportResult(slug: Slug, id: Id, status: Status, exitCode: Option<int>, errorMessage: Option<string>,
                      now: Time, counts: bool, store: Store)
    returns (found: bool)
    modifies store`commands, store`runners
    ensures found <==> id in old(store.commands)
    ensures !found ==> store.commands == old(store.commands) && store.runners == old(store.runners)
    ensures found ==>
              var c := old(store.commands)[id];
              store.commands == old(store.commands)[id := c.(
                status := status,
                exitCode := if exitCode.None? then c.exitCode else exitCode,
                errorMessage := if errorMessage.None? then c.errorMessage else errorMessage,
                finishedAt := Some(now))]
    ensures found ==>
              store.runners == (if counts && slug in old(store.runners)
                                then old(store.runners)[slug := old(store.runners)[slug].(
                                       activeCount := old(store.runners)[slug].activeCount - 1)]
                                else old(store.runners))
  {
    var opts := ReportOpts(exitCode, errorMessage, now);
    found := store.UpdateCommandStatus(id, status, opts);
    if found && counts {
      var known := store.IncrementRunnerActiveCount(slug, -1);
    }
  }

  // ----- sending a command -----

  /** The first of the listed runners with the smallest counter. */
  method LeastBusy(listed: seq<(Slug, Runner)>) returns (best: nat)
    requires listed != []
    ensures best < |listed|
    ensures forall i :: 0 <= i < |listed| ==> listed[best].1.activeCount <= listed[i].1.activeCount
    ensures forall i :: 0 <= i < best ==> listed[best].1.activeCount < listed[i].1.activeCount
  {
    best := 0;
    for i := 0 to |listed|
      invariant best < |listed| && best <= i
      invariant forall k :: 0 <= k < i ==> listed[best].1.activeCount <= listed[k].1.activeCount
      invariant forall k :: 0 <= k < best ==> listed[best].1.activeCount < listed[k].1.activeCount
    {
      if listed[i].1.activeCount < listed[best].1.activeCount {
        best := i;
      }
    }
  }

  /**
   The runner that a command for a tag is announced to, if any: online and with the tag, with the
   smallest counter of all such runners, and the newest of those with that counter.
   */
  method ChooseRunner(tag: string, store: Store) returns (chosen: Option<Slug>)
    ensures chosen.None? ==> forall slug :: slug in store.runners && store.runners[slug].status == Online ==>
              tag !in store.runners[slug].tags
    ensures chosen.Some? ==>
              chosen.value in store.runners &&
              var mine := store.runners[chosen.value];
              && mine.status == Online && tag in mine.tags
              && forall slug :: slug in store.runners && store.runners[slug].status == Online
                                && tag in store.runners[slug].tags ==>
                   var its := store.runners[slug];
                   mine.activeCount < its.activeCount
                   || (mine.activeCount == its.activeCount && mine.createdAt >= its.createdAt)
  {
    var listed := store.ListRunners(tag);
    if |listed| == 0 {
      return None;
    }
    var best := LeastBusy(listed);
    chosen := Some(listed[best].0);
    forall slug | slug in store.runners && store.runners[slug].status == Online && tag in store.runners[slug].tags
      ensures var mine, its := listed[best].1, store.runners[slug];
              mine.activeCount < its.activeCount
              || (mine.activeCount == its.activeCount && mine.createdAt >= its.createdAt)
    {
      var k :| 0 <= k < |listed| && listed[k] == (slug, store.runners[slug]);
      assert k != best ==> k < best || k > best;
    }
  }

  /** Inserts the command and says to whom it is announced; a command without a target is refused. */
  method SendCommand(target: Target, deadline: Option<Time>, now: Time, store: Store)
    returns (sent: Option<Id>, announced: Option<Slug>)
    requires store.Valid()
    modifies store`commands, store`nextId
    ensures store.Valid()
    ensures sent.None? <==> target.value == "" || (target.ToOther? && target.kind == "")
    ensures sent.None? ==> store.commands == old(store.commands) && announced.None?
    ensures sent.Some? ==>
              sent.value !in old(store.commands)
              && store.commands == old(store.commands)[sent.value := Command(target, Queued, None, None, None, None,
                                                                             deadline, now, None, None, None)]
    ensures sent.Some? && (target.ToSlug? || target.ToRunner?) ==> announced == Some(target.value)
    ensures target.ToOther? ==> announced.None?
    ensures sent.Some? && target.ToTag? && announced.None? ==>
              forall slug :: slug in store.runners && store.runners[slug].status == Online ==>
                target.value !in store.runners[slug].tags
    ensures sent.Some? && target.ToTag? && announced.Some? ==>
              announced.value in store.runners &&
              var mine := store.runners[announced.value];
              && mine.status == Online && target.value in mine.tags
              && forall slug :: slug in store.runners && store.runners[slug].status == Online
                                && target.value in store.runners[slug].tags ==>
                   var its := store.runners[slug];
                   mine.activeCount < its.activeCount
                   || (mine.activeCount == its.activeCount && mine.createdAt >= its.createdAt)
  {
    sent, announced := None, None;
    if !Complete(target) {
      return;
    }
    var id := store.InsertCommand(target, deadline, now);
    sent := Some(id);
    if target.ToSlug? || target.ToRunner? {
      announced := Some(target.value);
    } else if target.ToTag? {
      announced := ChooseRunner(target.value, store);
    }
  }

  // ----- draining a queue -----

  /** `claimed` are the first `k` eligible commands in creation order, or all of them. */
  ghost predicate IsFifoPrefix(cs: Commands, eligible: set<Id>, k: nat, claimed: seq<Id>)
  {
    && |claimed| == (if k < |eligible| then k else |eligible|)
    && (forall i :: 0 <= i < |claimed| ==> claimed[i] in eligible && claimed[i] in cs)
    && (forall i, j :: 0 <= i < j < |claimed| ==> claimed[i] != claimed[j])
    && (forall i, j :: 0 <= i < j < |claimed| ==> cs[claimed[i]].createdAt <= cs[claimed[j]].createdAt)
    && (forall i, id :: 0 <= i < |claimed| && id in eligible && id in cs && id !in claimed ==>
          cs[claimed[i]].createdAt <= cs[id].createdAt)
  }

  function ClaimAll(cs: Commands, claimed: seq<Id>, slug: Slug, now: Time): Commands
  {
    map id | id in cs :: if id in claimed then ClaimRow(cs[id], slug, now) else cs[id]
  }

  lemma {:induction false} DistinctCount(s: seq<Id>, all: set<Id>)
    requires forall i :: 0 <= i < |s| ==> s[i] in all
    requires forall i, j :: 0 <= i < j < |s| ==> s[i] != s[j]
    ensures |s| <= |all|
    ensures |s| == |all| <==> forall x :: x in all ==> x in s
  {
    if s == [] {
      if all != {} {
        var x :| x in all;
      }
    } else {
      var n := |s| - 1;
      DistinctCount(s[..n], all - {s[n]});
      assert forall x :: x in s <==> x in s[..n] || x == s[n];
    }
  }

  lemma EligibleAfter(cs: Commands, claimed: seq<Id>, slug: Slug, tags: seq<string>, now: Time)
    requires forall id :: id in claimed ==> id in cs
    ensures EligibleIds(ClaimAll(cs, claimed, slug, now), slug, tags, now)
         == set id | id in EligibleIds(cs, slug, tags, now) && id !in claimed
  {
    var after := ClaimAll(cs, claimed, slug, now);
    assert forall id :: id in after ==>
        (Eligible(after[id], slug, tags, now) <==> Eligible(cs[id], slug, tags, now) && id !in claimed);
  }

  lemma AppendOldest(cs: Commands, all: set<Id>, k: nat, claimed: seq<Id>, x: Id)
    requires IsFifoPrefix(cs, all, k, claimed) && x in all && x in cs && x !in claimed
    requires forall id :: id in all && id in cs && id !in claimed ==> cs[x].createdAt <= cs[id].createdAt
    ensures IsFifoPrefix(cs, all, k + 1, claimed + [x])
  {
    var more := claimed + [x];
    DistinctCount(claimed, all);
    DistinctCount(more, all);
    assert forall id :: id !in more ==> id !in claimed;
  }

  lemma NothingToAppend(cs: Commands, all: set<Id>, k: nat, claimed: seq<Id>)
    requires IsFifoPrefix(cs, all, k, claimed) && forall id :: id in all ==> id in claimed
    ensures IsFifoPrefix(cs, all, k + 1, claimed)
  {
    DistinctCount(claimed, all);
  }

  lemma ClaimAllSnoc(cs: Commands, claimed: seq<Id>, x: Id, slug: Slug, now: Time)
    requires x in cs && x !in claimed
    ensures x in ClaimAll(cs, claimed, slug, now)
    ensures ClaimAll(cs, claimed + [x], slug, now)
         == ClaimAll(cs, claimed, slug, now)[x := ClaimRow(ClaimAll(cs, claimed, slug, now)[x], slug, now)]
  {
    assert forall id :: id in claimed + [x] <==> id in claimed || id == x;
  }

  function Extended(claimed: seq<Id>, next: Option<Id>): (more: seq<Id>)
    ensures |more| == |claimed| + if next.Some? then 1 else 0
  {
    if next.Some? then claimed + [next.value] else claimed
  }

  /** One more connect after `k` of them. */
  lemma {:induction false} ClaimOneMore(cs: Commands, k: nat, claimed: seq<Id>, slug: Slug, tags: seq<string>,
                                        now: Time, after: Commands, next: Option<Id>)
    requires IsFifoPrefix(cs, EligibleIds(cs, slug, tags, now), k, claimed)
    requires Flushed(ClaimAll(cs, claimed, slug, now), after, slug, tags, now, next)
    ensures IsFifoPrefix(cs, EligibleIds(cs, slug, tags, now), k + 1, Extended(claimed, next))
    ensures after == ClaimAll(cs, Extended(claimed, next), slug, now)
  {
    var all := EligibleIds(cs, slug, tags, now);
    var left := EligibleIds(ClaimAll(cs, claimed, slug, now), slug, tags, now);
    EligibleAfter(cs, claimed, slug, tags, now);
    assert forall id :: id in all && id !in claimed ==> id in left;
    if next.Some? {
      assert next.value in left;
      AppendOldest(cs, all, k, claimed, next.value);
      ClaimAllSnoc(cs, claimed, next.value, slug, now);
    } else {
      NothingToAppend(cs, all, k, claimed);
    }
  }

  /** One more connect, after those that claimed `claimed` of the commands `cs`. */
  method ConnectAgain(slug: Slug, now: Time, claimed: seq<Id>, hub: Hub.Hub<Id>, store: Store,
                      ghost cs: Commands, ghost k: nat)
    returns (next: Option<Id>)
    requires hub.Valid() && slug in store.runners && store.commands == ClaimAll(cs, claimed, slug, now)
    requires IsFifoPrefix(cs, EligibleIds(cs, slug, store.runners[slug].tags, now), k, claimed)
    modifies store`runners, store`commands, hub.At(slug)
    ensures hub.Valid() && hub.connections == old(hub.connections)
    ensures store.commands == ClaimAll(cs, Extended(claimed, next), slug, now)
    ensures IsFifoPrefix(cs, EligibleIds(cs, slug, old(store.runners)[slug].tags, now), k + 1, Extended(claimed, next))
    ensures store.runners == (if next.Some?
                              then old(store.runners)[slug := old(store.runners)[slug].(
                                     activeCount := old(store.runners)[slug].activeCount + 1)]
                              else old(store.runners))
  {
    next := FlushQueuedCommands(slug, now, true, hub, store);
    ClaimOneMore(cs, k, claimed, slug, old(store.runners)[slug].tags, now, store.commands, next);
  }

  /** With nothing else going on, `k` connects of a runner claim the first `k` of its commands. */
  method DrainByConnects(slug: Slug, now: Time, k: nat, hub: Hub.Hub<Id>, store: Store) returns (claimed: seq<Id>)
    requires hub.Valid() && slug in store.runners
    modifies store`runners, store`commands, hub.At(slug)
    ensures var eligible := EligibleIds(old(store.commands), slug, old(store.runners)[slug].tags, now);
            IsFifoPrefix(old(store.commands), eligible, k, claimed)
    ensures store.commands == ClaimAll(old(store.commands), claimed, slug, now)
    ensures slug in store.runners
    ensures store.runners[slug]
         == old(store.runners)[slug].(activeCount := old(store.runners)[slug].activeCount + |claimed|)
    ensures forall s :: s != slug ==> (s in store.runners <==> s in old(store.runners))
    ensures forall s :: s != slug && s in store.runners ==> store.runners[s] == old(store.runners)[s]
  {
    claimed := [];
    ghost var cs := store.commands;
    ghost var rs := store.runners;
    ghost var row := rs[slug];
    assert ClaimAll(cs, claimed, slug, now) == cs;
    for i := 0 to k
      invariant hub.Valid() && hub.At(slug) == old(hub.At(slug))
      invariant slug in store.runners && store.runners[slug] == row.(activeCount := row.activeCount + |claimed|)
      invariant forall s :: s != slug ==> (s in store.runners <==> s in rs)
      invariant forall s :: s != slug && s in store.runners ==> store.runners[s] == rs[s]
      invariant store.commands == ClaimAll(cs, claimed, slug, now)
      invariant IsFifoPrefix(cs, EligibleIds(cs, slug, row.tags, now), i, claimed)
    {
      var next := ConnectAgain(slug, now, claimed, hub, store, cs, i);
      claimed := Extended(claimed, next);
    }
  }

  /** If creation times differ there is only one such sequence, the same prefix for every `k`. */
  lemma {:induction false} FifoPrefixUnique(cs: Commands, eligible: set<Id>, k: nat, a: seq<Id>, b: seq<Id>)
    requires forall x, y :: x in eligible && y in eligible && x in cs && y in cs && x != y ==>
               cs[x].createdAt != cs[y].createdAt
    requires IsFifoPrefix(cs, eligible, k, a) && IsFifoPrefix(cs, eligible, k, b)
    ensures a == b
  {
    forall i | 0 <= i < |a| && a[..i] == b[..i] ensures a[i] == b[i] {
      assert forall j :: 0 <= j < i ==> b[j] == b[..i][j] == a[..i][j] == a[j];
      SameNext(cs, eligible, k, a, b, i);
      SameNext(cs, eligible, k, b, a, i);
    }
    PointwiseEqual(a, b, |a|);
  }

  /** The i-th of one sequence is no younger than the i-th of the other. */
  lemma SameNext(cs: Commands, eligible: set<Id>, k: nat, a: seq<Id>, b: seq<Id>, i: nat)
    requires IsFifoPrefix(cs, eligible, k, a) && IsFifoPrefix(cs, eligible, k, b)
    requires i < |a| && forall j :: 0 <= j < i ==> a[i] != b[j]
    ensures cs[b[i]].createdAt <= cs[a[i]].createdAt
  {
    if a[i] in b {
      var j :| 0 <= j < |b| && b[j] == a[i];
    }
  }

  lemma {:induction false} PointwiseEqual(a: seq<Id>, b: seq<Id>, n: nat)
    requires n <= |a| == |b|
    requires forall i :: 0 <= i < |a| && a[..i] == b[..i] ==> a[i] == b[i]
    ensures a[..n] == b[..n]
    ensures n == |a| ==> a == b
  {
    if n == 0 {
    } else {
      PointwiseEqual(a, b, n - 1);
      assert a[..n] == a[..n - 1] + [a[n - 1]] && b[..n] == b[..n - 1] + [b[n - 1]];
    }
    if n == |a| {
      assert a == a[..n] && b == b[..n];
    }
  }
}
