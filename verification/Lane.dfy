/**
 One runner's share of the dispatch protocol: the hub's buffers for it, the wire, the client
 and the reports on their way back, together with the server's counter active_count.

 A lane is moved by one atomic step at a time. Pairs that the code performs as two statements
 (Send then increment, claim then increment then Send, update the status then decrement) are
 separate moves. `credited`, `surplus`, `lost` and `settled` are history: which commands have
 been credited to the counter, which extra copies a Send to several streams has made, which
 copies have disappeared, and which reports have been settled. A statement on the counter can
 fail, for instance because the request it belongs to has been cancelled; the code then carries
 on. `missed` and `undeducted` record which commands that has happened to.
 */
module Lane {
  import opened Common
  import opened ClientLoop
  import Hub

  datatype Lane = Lane(
    count: int,                  // runners.active_count
    buffers: seq<seq<Id>>,       // one hub channel per open stream
    wire: multiset<Id>,          // written to a stream, not read yet
    inbox: seq<Id>,              // the client's event channel
    client: Client,
    results: multiset<Id>,       // executions finished, report not stored yet
    settling: multiset<Id>,      // status stored, decrement to follow
    flushes: nat,                // flush goroutines that have not claimed yet
    uncounted: multiset<Id>,     // claimed, increment to follow
    unsent: multiset<Id>,        // claimed and counted, Send to follow
    owed: multiset<Id>,          // sent on a notification, increment to follow
    credited: multiset<Id>,
    surplus: multiset<Id>,
    lost: multiset<Id>,
    settled: multiset<Id>,
    missed: multiset<Id>,        // the increment failed
    undeducted: multiset<Id>)    // the decrement failed

  datatype Move =
    | Open                       // Stream: Register, start flushQueuedCommands
    | Close(i: nat)              // Stream returns: Unregister
    | Write(i: nat)              // Stream: event taken from the channel and written
    | FailWrite(i: nat)          // the same with a failing write or marshalling
    | LoseOnWire(id: Id)         // connection broken, or the event cannot be parsed
    | Read(id: Id)               // the client's reader puts the event into its channel
    | Act(a: Action)             // the client's event loop or a completion
    | Notify(id: Id)             // handleNotification: Send
    | CountNotified(id: Id)      // handleNotification: increment
    | MissNotified(id: Id)       // the same, failing
    | ClaimNothing               // flushQueuedCommands finds nothing
    | Claim(id: Id)              // flushQueuedCommands: claim
    | CountClaimed(id: Id)       // flushQueuedCommands: increment
    | MissClaimed(id: Id)        // the same, failing: the stream has been closed
    | SendClaimed(id: Id)        // flushQueuedCommands: Send
    | LoseResult(id: Id)         // the report fails
    | StoreResult(id: Id)        // ReportResult: UpdateCommandStatus
    | Settle(id: Id)             // ReportResult: decrement
    | MissSettled(id: Id)        // the same, failing: the client has given up waiting
    | Restart                    // the client process is replaced

  function Empty(max: nat): Lane
  {
    var none: multiset<Id> := multiset{};
    Lane(0, [], none, [], Fresh(max), none, none, 0, none, none, none, none, none, none, none, none, none)
  }

  // ----- counting copies of events -----

  /** What is counted: the copies of one command, or with None all copies. */
  type Who = Option<Id>

  function Amount(copies: multiset<Id>, who: Who): nat
  {
    match who
    case None => |copies|
    case Some(id) => copies[id]
  }

  function One(id: Id, who: Who): nat
  {
    if who.None? || who.value == id then 1 else 0
  }

  function Copies(id: Id, n: nat): multiset<Id>
  {
    if n == 0 then multiset{} else Copies(id, n - 1) + multiset{id}
  }

  /** Everything in the hub's buffers. */
  function Buffered(buffers: seq<seq<Id>>, who: Who): nat
  {
    if buffers == [] then 0
    else Buffered(buffers[..|buffers| - 1], who) + Amount(multiset(buffers[|buffers| - 1]), who)
  }

  /** How many of the channels have no room left. */
  function Full(buffers: seq<seq<Id>>): (n: nat)
    ensures n <= |buffers|
  {
    if buffers == [] then 0
    else Full(buffers[..|buffers| - 1]) + if |buffers[|buffers| - 1]| < Hub.CAPACITY then 0 else 1
  }

  /** The event that the loop holds, unless its entry has been inserted. */
  function AtGate(g: Gate): multiset<Id>
  {
    match g
    case Received(id) => multiset{id}
    case Counted(id) => multiset{id}
    case Ready(id) => multiset{id}
    case Vacant(id) => multiset{id}
    case _ => multiset{}
  }

  function Held(c: Client): multiset<Id>
  {
    AtGate(c.gate) + multiset(c.active.Keys)
  }

  /** What the loop gives up with a step. */
  function Refused(c: Client, a: Action): multiset<Id>
    requires Enabled(c, a)
  {
    if a.RefuseAtCapacity? || a.RefusePayload? || a.RefuseDuplicate? || a.FailPipes? || a.FailStart?
    then multiset{c.gate.id} else multiset{}
  }

  function Completed(c: Client, a: Action): multiset<Id>
    requires Enabled(c, a)
  {
    if a.Complete? then multiset{c.live[a.token]} else multiset{}
  }

  /** Copies that are somewhere between the claim or the Send and the stored report. */
  function UnderWay(l: Lane, who: Who): nat
  {
    Amount(l.uncounted, who) + Amount(l.unsent, who) + Buffered(l.buffers, who) + Amount(l.wire, who)
    + Amount(multiset(l.inbox), who) + Amount(Held(l.client), who) + Amount(l.results, who)
    + Amount(l.settling, who)
  }

  // ----- moves -----

  predicate CanMove(l: Lane, m: Move)
  {
    match m
    case Open => true
    case Close(i) => i < |l.buffers|
    case Write(i) => i < |l.buffers| && l.buffers[i] != []
    case FailWrite(i) => i < |l.buffers| && l.buffers[i] != []
    case LoseOnWire(id) => id in l.wire
    case Read(id) => id in l.wire && |l.inbox| < Hub.CAPACITY
    case Act(a) => Enabled(l.client, a) && (a.Receive? ==> l.inbox != [] && l.inbox[0] == a.id)
    case Notify(_) => l.buffers != []
    case CountNotified(id) => id in l.owed
    case MissNotified(id) => id in l.owed
    case ClaimNothing => l.flushes > 0
    case Claim(_) => l.flushes > 0
    case CountClaimed(id) => id in l.uncounted
    case MissClaimed(id) => id in l.uncounted
    case SendClaimed(id) => id in l.unsent
    case LoseResult(id) => id in l.results
    case StoreResult(id) => id in l.results
    case Settle(id) => id in l.settling
    case MissSettled(id) => id in l.settling
    case Restart => true
  }

  /** Hub.Send: copies that find a full channel are lost; with no stream the one copy is lost. */
  function SendCopy(l: Lane, id: Id): Lane
  {
    l.(buffers := Hub.OfferAll(l.buffers, id),
       lost := l.lost + Copies(id, if l.buffers == [] then 1 else Full(l.buffers)),
       surplus := l.surplus + Copies(id, if l.buffers == [] then 0 else |l.buffers| - 1))
  }

  function Moved(l: Lane, m: Move): Lane
    requires CanMove(l, m)
  {
    match m
    case Open => l.(buffers := l.buffers + [[]], flushes := l.flushes + 1)
    case Close(i) => l.(buffers := l.buffers[..i] + l.buffers[i + 1..], lost := l.lost + multiset(l.buffers[i]))
    case Write(i) => l.(buffers := l.buffers[i := l.buffers[i][1..]], wire := l.wire + multiset{l.buffers[i][0]})
    case FailWrite(i) => l.(buffers := l.buffers[i := l.buffers[i][1..]], lost := l.lost + multiset{l.buffers[i][0]})
    case LoseOnWire(id) => l.(wire := l.wire - multiset{id}, lost := l.lost + multiset{id})
    case Read(id) => l.(wire := l.wire - multiset{id}, inbox := l.inbox + [id])
    case Act(a) =>
      l.(inbox := if a.Receive? then l.inbox[1..] else l.inbox,
         client := Next(l.client, a),
         lost := l.lost + Refused(l.client, a),
         results := l.results + Completed(l.client, a))
    case Notify(id) => SendCopy(l, id).(credited := l.credited + multiset{id}, owed := l.owed + multiset{id})
    case CountNotified(id) => l.(owed := l.owed - multiset{id}, count := l.count + 1)
    case MissNotified(id) => l.(owed := l.owed - multiset{id}, missed := l.missed + multiset{id})
    case ClaimNothing => l.(flushes := l.flushes - 1)
    case Claim(id) =>
      l.(flushes := l.flushes - 1, uncounted := l.uncounted + multiset{id}, credited := l.credited + multiset{id})
    case CountClaimed(id) =>
      l.(uncounted := l.uncounted - multiset{id}, unsent := l.unsent + multiset{id}, count := l.count + 1)
    case MissClaimed(id) =>
      l.(uncounted := l.uncounted - multiset{id}, unsent := l.unsent + multiset{id},
         missed := l.missed + multiset{id})
    case SendClaimed(id) => SendCopy(l, id).(unsent := l.unsent - multiset{id})
    case LoseResult(id) => l.(results := l.results - multiset{id}, lost := l.lost + multiset{id})
    case StoreResult(id) => l.(results := l.results - multiset{id}, settling := l.settling + multiset{id})
    case Settle(id) =>
      l.(settling := l.settling - multiset{id}, settled := l.settled + multiset{id}, count := l.count - 1)
    case MissSettled(id) =>
      l.(settling := l.settling - multiset{id}, settled := l.settled + multiset{id},
         undeducted := l.undeducted + multiset{id})
    case Restart =>
      l.(inbox := [], client := Fresh(l.client.max), results := multiset{},
         lost := l.lost + multiset(l.inbox) + Held(l.client) + l.results)
  }

  // ----- conservation -----

  /** Every credited or surplus copy is in exactly one place, command by command and in total. */
  ghost predicate Conserved(l: Lane)
  {
    forall who: Who :: Balanced(l, who)
  }

  predicate Balanced(l: Lane, who: Who)
  {
    Amount(l.credited, who) + Amount(l.surplus, who)
    == UnderWay(l, who) + Amount(l.lost, who) + Amount(l.settled, who)
  }

  /** The counter is the credits that have been counted less the settled reports that were deducted. */
  ghost predicate CountExact(l: Lane)
  {
    l.count + |l.owed| + |l.uncounted| + |l.settled| + |l.missed| == |l.credited| + |l.undeducted|
  }

  ghost predicate Bounded(l: Lane)
  {
    && |l.inbox| <= Hub.CAPACITY
    && (forall i :: 0 <= i < |l.buffers| ==> |l.buffers[i]| <= Hub.CAPACITY)
    && Inv(l.client)
  }

  ghost predicate LaneInv(l: Lane)
  {
    Conserved(l) && CountExact(l) && Bounded(l)
  }

  lemma Added(a: multiset<Id>, b: multiset<Id>, who: Who)
    ensures Amount(a + b, who) == Amount(a, who) + Amount(b, who)
  {
  }

  lemma SingleCopy(id: Id, who: Who)
    ensures Amount(multiset{id}, who) == One(id, who)
    ensures Amount(multiset([id]), who) == One(id, who)
    ensures Amount(multiset{}, who) == 0
    ensures Amount(multiset([]), who) == 0
  {
  }

  lemma Put(a: multiset<Id>, id: Id, who: Who)
    ensures Amount(a + multiset{id}, who) == Amount(a, who) + One(id, who)
  {
  }

  lemma Taken(a: multiset<Id>, id: Id, who: Who)
    requires id in a
    ensures Amount(a - multiset{id}, who) == Amount(a, who) - One(id, who)
  {
    assert a == (a - multiset{id}) + multiset{id};
  }

  lemma OneAppended(s: seq<Id>, id: Id, who: Who)
    ensures Amount(multiset(s + [id]), who) == Amount(multiset(s), who) + One(id, who)
  {
    assert multiset(s + [id]) == multiset(s) + multiset{id};
  }

  lemma Popped(s: seq<Id>, who: Who)
    requires s != []
    ensures Amount(multiset(s), who) == Amount(multiset(s[1..]), who) + One(s[0], who)
  {
    assert s == [s[0]] + s[1..];
    assert multiset(s) == multiset{s[0]} + multiset(s[1..]);
  }

  lemma {:induction false} ManyCopies(id: Id, n: nat, who: Who)
    ensures Amount(Copies(id, n), who) == n * One(id, who)
  {
    if n == 0 {
    } else {
      ManyCopies(id, n - 1, who);
      Put(Copies(id, n - 1), id, who);
    }
  }

  lemma BufferedSnoc(buffers: seq<seq<Id>>, b: seq<Id>, who: Who)
    ensures Buffered(buffers + [b], who) == Buffered(buffers, who) + Amount(multiset(b), who)
  {
    assert (buffers + [b])[..|buffers|] == buffers;
  }

  lemma {:induction false} BufferedUpdate(buffers: seq<seq<Id>>, i: nat, b: seq<Id>, who: Who)
    requires i < |buffers|
    ensures Buffered(buffers[i := b], who) + Amount(multiset(buffers[i]), who)
         == Buffered(buffers, who) + Amount(multiset(b), who)
  {
    var n := |buffers| - 1;
    if i < n {
      BufferedUpdate(buffers[..n], i, b, who);
      assert buffers[i := b] == buffers[..n][i := b] + [buffers[n]];
      BufferedSnoc(buffers[..n][i := b], buffers[n], who);
    } else {
      assert buffers[i := b] == buffers[..n] + [b];
      BufferedSnoc(buffers[..n], b, who);
    }
  }

  lemma {:induction false} BufferedRemove(buffers: seq<seq<Id>>, i: nat, who: Who)
    requires i < |buffers|
    ensures Buffered(buffers[..i] + buffers[i + 1..], who) + Amount(multiset(buffers[i]), who)
         == Buffered(buffers, who)
  {
    var n := |buffers| - 1;
    var front := buffers[..n];
    if i < n {
      BufferedRemove(front, i, who);
      assert buffers[..i] + buffers[i + 1..] == front[..i] + front[i + 1..] + [buffers[n]];
      BufferedSnoc(front[..i] + front[i + 1..], buffers[n], who);
    } else {
      assert buffers[..i] + buffers[i + 1..] == front;
    }
  }

  lemma TakeHead(buffers: seq<seq<Id>>, i: nat, who: Who)
    requires i < |buffers| && buffers[i] != []
    ensures Buffered(buffers[i := buffers[i][1..]], who) + One(buffers[i][0], who) == Buffered(buffers, who)
  {
    BufferedUpdate(buffers, i, buffers[i][1..], who);
    Popped(buffers[i], who);
  }

  /** A Send to k streams makes k copies, some of which find no room. */
  lemma {:induction false} OfferedCopies(buffers: seq<seq<Id>>, id: Id, who: Who)
    ensures Buffered(Hub.OfferAll(buffers, id), who) + Full(buffers) * One(id, who)
         == Buffered(buffers, who) + |buffers| * One(id, who)
  {
    if buffers == [] {
    } else {
      var n := |buffers| - 1;
      OfferedCopies(buffers[..n], id, who);
      BufferedSnoc(Hub.OfferAll(buffers[..n], id), Hub.Offer(buffers[n], id), who);
      OneAppended(buffers[n], id, who);
    }
  }

  /** What a Send adds to the history of losses and of surplus copies. */
  lemma SendHistory(l: Lane, id: Id, who: Who)
    ensures var k := |l.buffers|;
            && Amount(SendCopy(l, id).lost, who)
               == Amount(l.lost, who) + (if k == 0 then 1 else Full(l.buffers)) * One(id, who)
            && Amount(SendCopy(l, id).surplus, who)
               == Amount(l.surplus, who) + (if k == 0 then 0 else k - 1) * One(id, who)
  {
    var k := |l.buffers|;
    var gone := if k == 0 then 1 else Full(l.buffers);
    var extra := if k == 0 then 0 else k - 1;
    ManyCopies(id, gone, who);
    ManyCopies(id, extra, who);
    Added(l.lost, Copies(id, gone), who);
    Added(l.surplus, Copies(id, extra), who);
  }

  lemma SendKeepsCopies(l: Lane, id: Id, who: Who)
    ensures Buffered(SendCopy(l, id).buffers, who) + Amount(SendCopy(l, id).lost, who) + Amount(l.surplus, who)
         == Buffered(l.buffers, who) + Amount(l.lost, who) + One(id, who) + Amount(SendCopy(l, id).surplus, who)
  {
    SendHistory(l, id, who);
    OfferedCopies(l.buffers, id, who);
  }

  lemma HeldSplit(c: Client, who: Who)
    ensures Amount(Held(c), who) == Amount(AtGate(c.gate), who) + Amount(multiset(c.active.Keys), who)
  {
    Added(AtGate(c.gate), multiset(c.active.Keys), who);
  }

  /** The client neither makes nor loses copies beyond those it refuses or completes. */
  predicate HeldKept(c: Client, a: Action, who: Who)
    requires Enabled(c, a)
  {
    Amount(Held(c), who) + (if a.Receive? then One(a.id, who) else 0)
    == Amount(Held(Next(c, a)), who) + Amount(Refused(c, a), who) + Amount(Completed(c, a), who)
  }

  lemma {:induction false} HeldStep(c: Client, a: Action, who: Who)
    requires Inv(c) && Enabled(c, a)
    ensures HeldKept(c, a, who)
  {
    if a.Insert? {
      InsertKeepsHeld(c, who);
    } else if a.FailStart? {
      FailStartKeepsHeld(c, who);
    } else if a.Complete? {
      CompleteKeepsHeld(c, a.token, who);
    } else {
      GateStep(c, a, who);
      HeldSplit(c, who);
      HeldSplit(Next(c, a), who);
    }
  }

  lemma InsertKeepsHeld(c: Client, who: Who)
    requires Inv(c) && Enabled(c, Insert)
    ensures HeldKept(c, Insert, who)
  {
    HeldSplit(c, who);
    HeldSplit(Next(c, Insert), who);
    KeyAdded(c.active, c.gate.id, c.next, who);
    SingleCopy(c.gate.id, who);
  }

  lemma FailStartKeepsHeld(c: Client, who: Who)
    requires Inv(c) && Enabled(c, FailStart)
    ensures HeldKept(c, FailStart, who)
  {
    HeldSplit(c, who);
    HeldSplit(Next(c, FailStart), who);
    KeyRemoved(c.active, c.gate.id, who);
    SingleCopy(c.gate.id, who);
  }

  lemma CompleteKeepsHeld(c: Client, t: Token, who: Who)
    requires Inv(c) && Enabled(c, Complete(t))
    ensures HeldKept(c, Complete(t), who)
  {
    HeldSplit(c, who);
    HeldSplit(Next(c, Complete(t)), who);
    KeyRemoved(c.active, c.live[t], who);
    SingleCopy(c.live[t], who);
  }

  /** The steps that leave the executor's map alone. */
  lemma GateStep(c: Client, a: Action, who: Who)
    requires Enabled(c, a) && !a.Insert? && !a.FailStart? && !a.Complete?
    ensures Next(c, a).active == c.active && Amount(Completed(c, a), who) == 0
    ensures Amount(AtGate(c.gate), who) + (if a.Receive? then One(a.id, who) else 0)
         == Amount(AtGate(Next(c, a).gate), who) + Amount(Refused(c, a), who)
  {
    SingleCopy(if a.Receive? then a.id else c.gate.id, who);
  }

  lemma KeyAdded(m: map<Id, Token>, id: Id, t: Token, who: Who)
    requires id !in m
    ensures Amount(multiset(m[id := t].Keys), who) == Amount(multiset(m.Keys), who) + One(id, who)
  {
    assert m[id := t].Keys == m.Keys + {id};
    assert multiset(m.Keys + {id}) == multiset(m.Keys) + multiset{id};
  }

  lemma KeyRemoved(m: map<Id, Token>, id: Id, who: Who)
    requires id in m
    ensures Amount(multiset((m - {id}).Keys), who) + One(id, who) == Amount(multiset(m.Keys), who)
    ensures Amount(multiset{id}, who) == One(id, who)
  {
    assert (m - {id}).Keys == m.Keys - {id};
    assert multiset(m.Keys - {id}) + multiset{id} == multiset(m.Keys);
  }

  lemma StreamEndsKeepBalance(l: Lane, m: Move, who: Who)
    requires Balanced(l, who) && CanMove(l, m) && (m.Open? || m.Close?)
    ensures Balanced(Moved(l, m), who)
  {
    if m.Open? {
      BufferedSnoc(l.buffers, [], who);
      SingleCopy(0, who);
    } else {
      BufferedRemove(l.buffers, m.i, who);
      Added(l.lost, multiset(l.buffers[m.i]), who);
    }
  }

  lemma WriteKeepsBalance(l: Lane, m: Move, who: Who)
    requires Balanced(l, who) && CanMove(l, m) && (m.Write? || m.FailWrite?)
    ensures Balanced(Moved(l, m), who)
  {
    TakeHead(l.buffers, m.i, who);
    Put(l.wire, l.buffers[m.i][0], who);
    Put(l.lost, l.buffers[m.i][0], who);
  }

  lemma NotifyKeepsBalance(l: Lane, id: Id, who: Who)
    requires Balanced(l, who) && CanMove(l, Notify(id))
    ensures Balanced(Moved(l, Notify(id)), who)
  {
    SendKeepsCopies(l, id, who);
    Put(l.credited, id, who);
  }

  lemma SendClaimedKeepsBalance(l: Lane, id: Id, who: Who)
    requires Balanced(l, who) && CanMove(l, SendClaimed(id))
    ensures Balanced(Moved(l, SendClaimed(id)), who)
  {
    SendKeepsCopies(l, id, who);
    Taken(l.unsent, id, who);
  }

  lemma ClaimKeepsBalance(l: Lane, m: Move, who: Who)
    requires Balanced(l, who) && CanMove(l, m) && (m.Claim? || m.CountClaimed? || m.MissClaimed?)
    ensures Balanced(Moved(l, m), who)
  {
    if m.Claim? {
      Put(l.uncounted, m.id, who);
      Put(l.credited, m.id, who);
    } else {
      Taken(l.uncounted, m.id, who);
      Put(l.unsent, m.id, who);
    }
  }

  lemma WireKeepsBalance(l: Lane, m: Move, who: Who)
    requires Balanced(l, who) && CanMove(l, m) && (m.LoseOnWire? || m.Read?)
    ensures Balanced(Moved(l, m), who)
  {
    Taken(l.wire, m.id, who);
    Put(l.lost, m.id, who);
    OneAppended(l.inbox, m.id, who);
  }

  lemma ResultKeepsBalance(l: Lane, m: Move, who: Who)
    requires Balanced(l, who) && CanMove(l, m) && (m.LoseResult? || m.StoreResult?)
    ensures Balanced(Moved(l, m), who)
  {
    Taken(l.results, m.id, who);
    Put(l.lost, m.id, who);
    Put(l.settling, m.id, who);
  }

  lemma SettleKeepsBalance(l: Lane, m: Move, who: Who)
    requires Balanced(l, who) && CanMove(l, m) && (m.Settle? || m.MissSettled?)
    ensures Balanced(Moved(l, m), who)
  {
    Taken(l.settling, m.id, who);
    Put(l.settled, m.id, who);
  }

  lemma ActKeepsBalance(l: Lane, a: Action, who: Who)
    requires Balanced(l, who) && Inv(l.client) && CanMove(l, Act(a))
    ensures Balanced(Moved(l, Act(a)), who)
  {
    HeldStep(l.client, a, who);
    Added(l.lost, Refused(l.client, a), who);
    Added(l.results, Completed(l.client, a), who);
    if a.Receive? {
      Popped(l.inbox, who);
    }
  }

  lemma RestartLoses(l: Lane, who: Who)
    ensures Amount(Moved(l, Restart).lost, who)
         == Amount(l.lost, who) + Amount(multiset(l.inbox), who) + Amount(Held(l.client), who) + Amount(l.results, who)
  {
    var held := Held(l.client);
    Added(l.lost, multiset(l.inbox), who);
    Added(l.lost + multiset(l.inbox), held, who);
    Added(l.lost + multiset(l.inbox) + held, l.results, who);
  }

  lemma Nothing(who: Who)
    ensures Amount(multiset{}, who) == 0 && Amount(multiset([]), who) == 0
  {
  }

  lemma FreshHoldsNothing(max: nat, who: Who)
    ensures Amount(Held(Fresh(max)), who) == 0
  {
    assert Held(Fresh(max)) == multiset{};
  }

  lemma RestartEmpties(l: Lane, who: Who)
    ensures UnderWay(Moved(l, Restart), who)
            + Amount(multiset(l.inbox), who) + Amount(Held(l.client), who) + Amount(l.results, who)
         == UnderWay(l, who)
  {
    FreshHoldsNothing(l.client.max, who);
    Nothing(who);
  }

  lemma RestartKeepsBalance(l: Lane, who: Who)
    requires Balanced(l, who)
    ensures Balanced(Moved(l, Restart), who)
  {
    RestartLoses(l, who);
    RestartEmpties(l, who);
  }

  lemma {:induction false} MoveKeepsBalance(l: Lane, m: Move, who: Who)
    requires Balanced(l, who) && Inv(l.client) && CanMove(l, m)
    ensures Balanced(Moved(l, m), who)
  {
    match m
    case Open => StreamEndsKeepBalance(l, m, who);
    case Close(_) => StreamEndsKeepBalance(l, m, who);
    case Write(_) => WriteKeepsBalance(l, m, who);
    case FailWrite(_) => WriteKeepsBalance(l, m, who);
    case LoseOnWire(_) => WireKeepsBalance(l, m, who);
    case Read(_) => WireKeepsBalance(l, m, who);
    case Act(a) => ActKeepsBalance(l, a, who);
    case Notify(id) => NotifyKeepsBalance(l, id, who);
    case CountNotified(_) =>
    case MissNotified(_) =>
    case ClaimNothing =>
    case Claim(_) => ClaimKeepsBalance(l, m, who);
    case CountClaimed(_) => ClaimKeepsBalance(l, m, who);
    case MissClaimed(_) => ClaimKeepsBalance(l, m, who);
    case SendClaimed(id) => SendClaimedKeepsBalance(l, id, who);
    case LoseResult(_) => ResultKeepsBalance(l, m, who);
    case StoreResult(_) => ResultKeepsBalance(l, m, who);
    case Settle(_) => SettleKeepsBalance(l, m, who);
    case MissSettled(_) => SettleKeepsBalance(l, m, who);
    case Restart => RestartKeepsBalance(l, who);
  }

  lemma MoveKeepsCount(l: Lane, m: Move)
    requires CountExact(l) && CanMove(l, m)
    ensures CountExact(Moved(l, m))
  {
  }

  lemma MoveKeepsBounded(l: Lane, m: Move)
    requires Bounded(l) && CanMove(l, m)
    ensures Bounded(Moved(l, m))
  {
    match m
    case Act(a) => NextKeepsInv(l.client, a);
    case Notify(id) => OfferKeepsBound(l.buffers, id);
    case SendClaimed(id) => OfferKeepsBound(l.buffers, id);
    case _ =>
  }

  lemma OfferKeepsBound(buffers: seq<seq<Id>>, id: Id)
    requires forall i :: 0 <= i < |buffers| ==> |buffers[i]| <= Hub.CAPACITY
    ensures forall i :: 0 <= i < |buffers| ==> |Hub.OfferAll(buffers, id)[i]| <= Hub.CAPACITY
  {
    forall i: nat | i < |buffers| ensures |Hub.OfferAll(buffers, id)[i]| <= Hub.CAPACITY {
      Hub.OfferAllAt(buffers, id, i);
    }
  }

  lemma {:induction false} MoveKeepsLaneInv(l: Lane, m: Move)
    requires LaneInv(l) && CanMove(l, m)
    ensures LaneInv(Moved(l, m))
  {
    forall who: Who ensures Balanced(Moved(l, m), who) {
      assert Balanced(l, who);
      MoveKeepsBalance(l, m, who);
    }
    MoveKeepsCount(l, m);
    MoveKeepsBounded(l, m);
  }

  lemma EmptyLaneInv(max: nat)
    ensures LaneInv(Empty(max))
  {
    assert forall who: Who :: Amount(multiset{}, who) == 0;
    assert Held(Fresh(max)) == multiset{};
    forall who: Who ensures Balanced(Empty(max), who) {
      SingleCopy(0, who);
    }
  }

  // ----- what the invariant says about the counter -----

  /**
   The counter with the increments still to come, those that failed and the surplus copies is the
   copies still under way plus the losses and the decrements that failed. The drift of a lane at
   rest is therefore exactly its losses and failed decrements less surplus and failed increments.
   */
  lemma CounterAccounts(l: Lane)
    requires LaneInv(l)
    ensures l.count + |l.owed| + |l.uncounted| + |l.missed| + |l.surplus|
         == UnderWay(l, None) + |l.lost| + |l.undeducted|
    ensures UnderWay(l, None) == 0 && l.owed == multiset{} ==>
              l.count == |l.lost| + |l.undeducted| - |l.surplus| - |l.missed|
  {
    assert Balanced(l, None);
  }

  // ----- what the moves do, one by one -----

  /** The copies that a move loses. */
  lemma LostByMove(l: Lane, m: Move)
    requires CanMove(l, m)
    ensures Moved(l, m).lost == l.lost +
            match m
            case Close(i) => multiset(l.buffers[i])
            case FailWrite(i) => multiset{l.buffers[i][0]}
            case LoseOnWire(id) => multiset{id}
            case Act(a) =>
              if a.RefuseAtCapacity? || a.RefusePayload? || a.RefuseDuplicate? || a.FailPipes? || a.FailStart?
              then multiset{l.client.gate.id} else multiset{}
            case Notify(id) => Copies(id, Full(l.buffers))
            case SendClaimed(id) => Copies(id, if l.buffers == [] then 1 else Full(l.buffers))
            case LoseResult(id) => multiset{id}
            case Restart => multiset(l.inbox) + Held(l.client) + l.results
            case _ => multiset{}
  {
  }

  /** A stream can end and the client be replaced at any time, and every write and read can fail. */
  lemma StreamsCanFail(l: Lane, i: nat, id: Id)
    ensures CanMove(l, Restart) && CanMove(l, Open) && (CanMove(l, Close(i)) <==> i < |l.buffers|)
    ensures CanMove(l, FailWrite(i)) == CanMove(l, Write(i)) == (i < |l.buffers| && l.buffers[i] != [])
    ensures CanMove(l, LoseOnWire(id)) <==> id in l.wire
    ensures CanMove(l, Read(id)) <==> id in l.wire && |l.inbox| < 10
  {
  }

  /** Every statement on the counter that can succeed can fail, for either route. */
  lemma IncrementsCanFail(l: Lane, id: Id)
    ensures CanMove(l, MissNotified(id)) == CanMove(l, CountNotified(id)) == (id in l.owed)
    ensures CanMove(l, MissClaimed(id)) == CanMove(l, CountClaimed(id)) == (id in l.uncounted)
    ensures CanMove(l, ClaimNothing) == CanMove(l, Claim(id)) == (l.flushes > 0)
    ensures CanMove(l, SendClaimed(id)) <==> id in l.unsent
  {
  }

  /** Every report can fail, and so can its decrement. */
  lemma ReportsCanFail(l: Lane, id: Id)
    ensures CanMove(l, LoseResult(id)) == CanMove(l, StoreResult(id)) == (id in l.results)
    ensures CanMove(l, MissSettled(id)) == CanMove(l, Settle(id)) == (id in l.settling)
  {
  }

  predicate CanGo(l: Lane, moves: seq<Move>)
    decreases |moves|, 0
  {
    moves == [] ||
    (CanGo(l, moves[..|moves| - 1]) && CanMove(Gone(l, moves[..|moves| - 1]), moves[|moves| - 1]))
  }

  function Gone(l: Lane, moves: seq<Move>): Lane
    requires CanGo(l, moves)
    decreases |moves|, 1
  {
    if moves == [] then l else Moved(Gone(l, moves[..|moves| - 1]), moves[|moves| - 1])
  }

  predicate Leads(at: Lane, m: Move, n: Lane)
  {
    CanMove(at, m) && n == Moved(at, m)
  }

  ghost predicate Reaches(l: Lane, n: Lane)
  {
    exists moves :: CanGo(l, moves) && Gone(l, moves) == n
  }

  lemma Stays(l: Lane)
    ensures Reaches(l, l)
  {
    assert CanGo(l, []) && Gone(l, []) == l;
  }

  lemma Goes(l: Lane, at: Lane, m: Move, n: Lane)
    requires Reaches(l, at) && Leads(at, m, n)
    ensures Reaches(l, n)
  {
    var moves :| CanGo(l, moves) && Gone(l, moves) == at;
    assert (moves + [m])[..|moves|] == moves;
    assert CanGo(l, moves + [m]) && Gone(l, moves + [m]) == n;
  }

  /** The event is on the wire. */
  function Written(l: Lane, id: Id): Lane
    requires l.buffers != [] && l.buffers[0] != []
  {
    l.(buffers := l.buffers[0 := l.buffers[0][1..]], wire := l.wire + multiset{id})
  }

  /** It is the only one in the client's channel. */
  function Fetched(l: Lane, id: Id): Lane
    requires l.buffers != [] && l.buffers[0] != []
  {
    l.(buffers := l.buffers[0 := l.buffers[0][1..]], inbox := [id])
  }

  /** Only the client has changed: the event is taken out of its channel and stands at `gate`. */
  function AtLoop(l: Lane, gate: Gate): Lane
    requires l.buffers != [] && l.buffers[0] != []
  {
    l.(buffers := l.buffers[0 := l.buffers[0][1..]], client := l.client.(gate := gate))
  }

  /** Its execution has been entered, and started. */
  function Executing(l: Lane, id: Id, started: bool): Lane
    requires l.buffers != [] && l.buffers[0] != []
  {
    var c, t := l.client, l.client.next;
    l.(buffers := l.buffers[0 := l.buffers[0][1..]],
       client := Client(c.max, if started then Idle else Starting(id, t), c.active[id := t],
                        if started then c.live[t := id] else c.live, t + 1))
  }

  /** It has completed. */
  function Finished(l: Lane, results: multiset<Id>, settling: multiset<Id>): Lane
    requires l.buffers != [] && l.buffers[0] != []
  {
    l.(buffers := l.buffers[0 := l.buffers[0][1..]], client := l.client.(next := l.client.next + 1),
       results := results, settling := settling)
  }

  /** An event is first in a stream's channel, and the client is free to take it. */
  predicate Free(l: Lane, id: Id)
  {
    && l.buffers != [] && l.buffers[0] != [] && l.buffers[0][0] == id
    && l.inbox == [] && l.client.gate == Idle && |l.client.active| < l.client.max && id !in l.client.active
    && l.client.next !in l.client.live
  }

  lemma AddAndTake(a: multiset<Id>, id: Id)
    ensures a + multiset{id} - multiset{id} == a && id in a + multiset{id}
  {
  }

  lemma IsWritten(l: Lane, id: Id)
    requires Free(l, id)
    ensures Leads(l, Write(0), Written(l, id))
  {
  }

  lemma IsRead(l: Lane, id: Id)
    requires Free(l, id)
    ensures Leads(Written(l, id), Read(id), Fetched(l, id))
  {
    AddAndTake(l.wire, id);
  }

  lemma IsReceived(l: Lane, id: Id)
    requires Free(l, id)
    ensures Leads(Fetched(l, id), Act(Receive(id)), AtLoop(l, Received(id)))
  {
    assert [id][1..] == [];
  }

  lemma IsCounted(l: Lane, id: Id)
    requires Free(l, id)
    ensures Leads(AtLoop(l, Received(id)), Act(PassCapacity), AtLoop(l, Counted(id)))
  {
  }

  lemma IsReady(l: Lane, id: Id)
    requires Free(l, id)
    ensures Leads(AtLoop(l, Counted(id)), Act(Renumber), AtLoop(l, Ready(id)))
  {
  }

  lemma IsVacant(l: Lane, id: Id)
    requires Free(l, id)
    ensures Leads(AtLoop(l, Ready(id)), Act(PassDuplicate), AtLoop(l, Vacant(id)))
  {
  }

  lemma IsInserted(l: Lane, id: Id)
    requires Free(l, id)
    ensures Leads(AtLoop(l, Vacant(id)), Act(Insert), Executing(l, id, false))
  {
  }

  lemma IsStarted(l: Lane, id: Id)
    requires Free(l, id)
    ensures Leads(Executing(l, id, false), Act(Start), Executing(l, id, true))
  {
  }

  lemma IsCompleted(l: Lane, id: Id)
    requires Free(l, id)
    ensures Leads(Executing(l, id, true), Act(Complete(l.client.next)),
                  Finished(l, l.results + multiset{id}, l.settling))
  {
    CompleteAgain(l.client, id);
  }

  lemma IsStored(l: Lane, id: Id)
    requires Free(l, id)
    ensures Leads(Finished(l, l.results + multiset{id}, l.settling), StoreResult(id),
                  Finished(l, l.results, l.settling + multiset{id}))
  {
    AddAndTake(l.results, id);
  }

  /** The report is settled. */
  function Through(l: Lane, id: Id): Lane
    requires l.buffers != [] && l.buffers[0] != []
  {
    Finished(l, l.results, l.settling).(settled := l.settled + multiset{id}, count := l.count - 1)
  }

  lemma IsSettled(l: Lane, id: Id)
    requires Free(l, id)
    ensures Leads(Finished(l, l.results, l.settling + multiset{id}), Settle(id), Through(l, id))
  {
    AddAndTake(l.settling, id);
  }

  lemma Arrives(l: Lane, id: Id)
    requires Free(l, id)
    ensures Reaches(l, AtLoop(l, Vacant(id)))
  {
    IsWritten(l, id);
    IsRead(l, id);
    IsReceived(l, id);
    IsCounted(l, id);
    IsReady(l, id);
    IsVacant(l, id);
    Stays(l);
    Goes(l, l, Write(0), Written(l, id));
    Goes(l, Written(l, id), Read(id), Fetched(l, id));
    Goes(l, Fetched(l, id), Act(Receive(id)), AtLoop(l, Received(id)));
    Goes(l, AtLoop(l, Received(id)), Act(PassCapacity), AtLoop(l, Counted(id)));
    Goes(l, AtLoop(l, Counted(id)), Act(Renumber), AtLoop(l, Ready(id)));
    Goes(l, AtLoop(l, Ready(id)), Act(PassDuplicate), AtLoop(l, Vacant(id)));
  }

  lemma CompleteAgain(c: Client, id: Id)
    requires id !in c.active && c.next !in c.live
    ensures c.active[id := c.next] - {id} == c.active && c.live[c.next := id] - {c.next} == c.live
  {
  }

  lemma IsExecuted(l: Lane, id: Id)
    requires Free(l, id)
    ensures Reaches(l, Executing(l, id, true))
  {
    IsInserted(l, id);
    IsStarted(l, id);
    Arrives(l, id);
    Goes(l, AtLoop(l, Vacant(id)), Act(Insert), Executing(l, id, false));
    Goes(l, Executing(l, id, false), Act(Start), Executing(l, id, true));
  }

  lemma IsReported(l: Lane, id: Id)
    requires Free(l, id)
    ensures Reaches(l, Finished(l, l.results, l.settling + multiset{id}))
  {
    var end := Finished(l, l.results + multiset{id}, l.settling);
    IsCompleted(l, id);
    IsStored(l, id);
    IsExecuted(l, id);
    Goes(l, Executing(l, id, true), Act(Complete(l.client.next)), end);
    Goes(l, end, StoreResult(id), Finished(l, l.results, l.settling + multiset{id}));
  }

  /**
   With nothing in its way an event that is first in a stream's channel is written, read, executed,
   reported and deducted: then the lane is as it was before, but that the event has left the channel,
   a report has been settled, and the counter is one less.
   */
  lemma CopyGoesThrough(l: Lane, id: Id)
    requires Free(l, id)
    ensures exists moves ::
              CanGo(l, moves)
              && Gone(l, moves) == l.(buffers := l.buffers[0 := l.buffers[0][1..]],
                                      client := l.client.(next := l.client.next + 1),
                                      settled := l.settled + multiset{id}, count := l.count - 1)
  {
    IsSettled(l, id);
    IsReported(l, id);
    Goes(l, Finished(l, l.results, l.settling + multiset{id}), Settle(id), Through(l, id));
  }
}
