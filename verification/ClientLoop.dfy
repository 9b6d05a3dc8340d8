/**
 The runner's single event loop against any number of completion goroutines.

 Handling an event is cut into its critical sections: the capacity check, the duplicate check
 and the insertion each take the executor's lock on their own, so completions may come in
 between. An execution has an identity of its own (a token), which makes it possible to say
 whose entry a completion removes.
 */
module ClientLoop {
  import opened Common

  type Token = nat

  /** Where the event loop stands in handleCommandEvent and Execute. */
  datatype Gate =
    | Idle
    | Received(id: Id)                 // taken from the event channel
    | Counted(id: Id)                  // fewer than the maximum were active
    | Ready(id: Id)                    // the payload is good, its line counter has been reset
    | Vacant(id: Id)                   // no entry with this id
    | Starting(id: Id, token: Token)   // entry inserted, process not started yet

  /** `active` is the executor's map; `live` are the executions whose goroutine waits for the process. */
  datatype Client = Client(max: nat, gate: Gate, active: map<Id, Token>, live: map<Token, Id>, next: Token)

  datatype Action =
    | Receive(id: Id)
    | RefuseAtCapacity
    | PassCapacity
    | RefusePayload       // the payload has no "cmd" string
    | Renumber            // it has one: set the active command, reset its line counter
    | RefuseDuplicate
    | PassDuplicate
    | FailPipes           // no stdout or stderr pipe
    | Insert
    | FailStart
    | Start
    | Complete(token: Token)

  function Fresh(max: nat): Client
  {
    Client(max, Idle, map[], map[], 0)
  }

  predicate Enabled(c: Client, a: Action)
  {
    match a
    case Receive(_) => c.gate.Idle?
    case RefuseAtCapacity => c.gate.Received? && |c.active| >= c.max
    case PassCapacity => c.gate.Received? && |c.active| < c.max
    case RefusePayload => c.gate.Counted?
    case Renumber => c.gate.Counted?
    case RefuseDuplicate => c.gate.Ready? && c.gate.id in c.active
    case PassDuplicate => c.gate.Ready? && c.gate.id !in c.active
    case FailPipes => c.gate.Vacant?
    case Insert => c.gate.Vacant?
    case FailStart => c.gate.Starting?
    case Start => c.gate.Starting?
    case Complete(t) => t in c.live
  }

  function Next(c: Client, a: Action): Client
    requires Enabled(c, a)
  {
    match a
    case Receive(id) => c.(gate := Received(id))
    case RefuseAtCapacity => c.(gate := Idle)
    case PassCapacity => c.(gate := Counted(c.gate.id))
    case RefusePayload => c.(gate := Idle)
    case Renumber => c.(gate := Ready(c.gate.id))
    case RefuseDuplicate => c.(gate := Idle)
    case PassDuplicate => c.(gate := Vacant(c.gate.id))
    case FailPipes => c.(gate := Idle)
    case Insert => c.(gate := Starting(c.gate.id, c.next), active := c.active[c.gate.id := c.next], next := c.next + 1)
    case FailStart => c.(gate := Idle, active := c.active - {c.gate.id})
    case Start => c.(gate := Idle, live := c.live[c.gate.token := c.gate.id])
    case Complete(t) => c.(live := c.live - {t}, active := c.active - {c.live[t]})
  }

  /** Entries and live executions belong to each other, but for the entry being started. */
  predicate Paired(c: Client)
  {
    && (forall t :: t in c.live ==> t < c.next && c.live[t] in c.active && c.active[c.live[t]] == t)
    && (forall id :: id in c.active ==>
          (c.active[id] in c.live && c.live[c.active[id]] == id) || c.gate == Starting(id, c.active[id]))
  }

  /** What the checks have established stays true until the insertion, and bounds the map. */
  predicate Guarded(c: Client)
  {
    && |c.active| <= c.max
    && (c.gate.Counted? || c.gate.Ready? || c.gate.Vacant? ==> |c.active| < c.max)
    && (c.gate.Vacant? ==> c.gate.id !in c.active)
    && (c.gate.Starting? ==> c.gate.id in c.active && c.active[c.gate.id] == c.gate.token
                             && c.gate.token !in c.live && c.gate.token < c.next)
  }

  predicate Inv(c: Client)
  {
    Paired(c) && Guarded(c)
  }

  lemma SizeInsert(m: map<Id, Token>, k: Id, v: Token)
    requires k !in m
    ensures |m[k := v]| == |m| + 1
  {
    assert m[k := v].Keys == m.Keys + {k};
  }

  lemma SizeRemove(m: map<Id, Token>, k: Id)
    requires k in m
    ensures |m - {k}| == |m| - 1
  {
    assert (m - {k}).Keys == m.Keys - {k};
  }

  lemma {:induction false} NextKeepsInv(c: Client, a: Action)
    requires Inv(c) && Enabled(c, a)
    ensures Inv(Next(c, a))
  {
    match a
    case Insert =>
      SizeInsert(c.active, c.gate.id, c.next);
    case FailStart =>
      SizeRemove(c.active, c.gate.id);
    case Complete(t) =>
      SizeRemove(c.active, c.live[t]);
    case _ =>
  }

  /** A completion removes its own entry and no other. */
  lemma {:induction false} CompletionRemovesItsOwnEntry(c: Client, t: Token)
    requires Inv(c) && Enabled(c, Complete(t))
    ensures c.live[t] in c.active && c.active[c.live[t]] == t
    ensures Next(c, Complete(t)).active == map id | id in c.active && c.active[id] != t :: c.active[id]
  {
    var n := Next(c, Complete(t)).active;
    forall id | id in c.active ensures id in n <==> c.active[id] != t {
    }
  }

  // ----- runs -----

  /** `actions` can be performed one after the other from `c`. */
  predicate Legal(c: Client, actions: seq<Action>)
    decreases |actions|, 0
  {
    actions == [] ||
    (Legal(c, actions[..|actions| - 1]) &&
     Enabled(After(c, actions[..|actions| - 1]), actions[|actions| - 1]))
  }

  function After(c: Client, actions: seq<Action>): Client
    requires Legal(c, actions)
    decreases |actions|, 1
  {
    if actions == [] then c
    else Next(After(c, actions[..|actions| - 1]), actions[|actions| - 1])
  }

  lemma {:induction false} RunKeepsInv(max: nat, actions: seq<Action>)
    requires Legal(Fresh(max), actions)
    ensures Inv(After(Fresh(max), actions)) && After(Fresh(max), actions).max == max
  {
    if actions == [] {
    } else {
      RunKeepsInv(max, actions[..|actions| - 1]);
      NextKeepsInv(After(Fresh(max), actions[..|actions| - 1]), actions[|actions| - 1]);
    }
  }

  /**
   In every run, whatever the interleaving: at most `max` entries and at most `max` live
   executions, no command with two live executions, and no duplicate slips in between the
   duplicate check and the insertion.
   */
  lemma {:induction false} ConcurrencyIsBounded(max: nat, actions: seq<Action>)
    requires Legal(Fresh(max), actions)
    ensures var c := After(Fresh(max), actions);
            && |c.active| <= max && |c.live| <= max
            && (forall t, u :: t in c.live && u in c.live && c.live[t] == c.live[u] ==> t == u)
            && (c.gate.Vacant? ==> c.gate.id !in c.active)
  {
    RunKeepsInv(max, actions);
    var c := After(Fresh(max), actions);
    LiveAtMostActive(c.live, c.active);
  }

  lemma {:induction false} LiveAtMostActive(live: map<Token, Id>, active: map<Id, Token>)
    requires forall t :: t in live ==> live[t] in active && active[live[t]] == t
    ensures |live| <= |active|
    decreases |live|
  {
    if live == map[] {
    } else {
      var t :| t in live;
      var live', active' := live - {t}, active - {live[t]};
      assert live'.Keys == live.Keys - {t} && active'.Keys == active.Keys - {live[t]};
      LiveAtMostActive(live', active');
    }
  }

  // ----- the executor as written -----

  /** The executor with the event loop's position; every method is one critical section. */
  class Executor {
    var max: nat
    var gate: Gate
    var active: map<Id, Token>
    var live: map<Token, Id>
    var next: Token

    ghost function View(): Client
      reads this
    {
      Client(max, gate, active, live, next)
    }

    constructor (max: nat)
      ensures View() == Fresh(max) && Inv(View())
    {
      this.max, gate, active, live, next := max, Idle, map[], map[], 0;
    }

    /** The event loop takes an event and asks ActiveCount. */
    method Admit(id: Id) returns (ok: bool)
      requires Inv(View()) && gate.Idle?
      modifies this
      ensures Inv(View())
      ensures ok <==> |old(active)| < old(max)
      ensures View() == (var c := Next(old(View()), Receive(id));
                         Next(c, if ok then PassCapacity else RefuseAtCapacity))
    {
      NextKeepsInv(View(), Receive(id));
      gate := Received(id);
      ok := |active| < max;
      NextKeepsInv(View(), if ok then PassCapacity else RefuseAtCapacity);
      gate := if ok then Counted(id) else Idle;
    }

    /** The payload check; with a command string the counter of its lines is reset. */
    method Prepare(hasCommand: bool)
      requires Inv(View()) && gate.Counted?
      modifies this
      ensures Inv(View()) && View() == Next(old(View()), if hasCommand then Renumber else RefusePayload)
    {
      NextKeepsInv(View(), if hasCommand then Renumber else RefusePayload);
      gate := if hasCommand then Ready(gate.id) else Idle;
    }

    /** The first critical section of Execute. */
    method CheckDuplicate() returns (ok: bool)
      requires Inv(View()) && gate.Ready?
      modifies this
      ensures Inv(View())
      ensures ok <==> old(gate).id !in old(active)
      ensures View() == Next(old(View()), if ok then PassDuplicate else RefuseDuplicate)
    {
      ok := gate.id !in active;
      NextKeepsInv(View(), if ok then PassDuplicate else RefuseDuplicate);
      gate := if ok then Vacant(gate.id) else Idle;
    }

    /** The second critical section of Execute. */
    method InsertEntry() returns (token: Token)
      requires Inv(View()) && gate.Vacant?
      modifies this
      ensures Inv(View()) && View() == Next(old(View()), Insert)
      ensures token !in live && old(gate).id in active && active[old(gate).id] == token
      ensures forall id :: id in old(active) ==> id in active && active[id] == old(active)[id]
    {
      NextKeepsInv(View(), Insert);
      token := next;
      var id := gate.id;
      active := active[id := token];
      next := next + 1;
      gate := Starting(id, token);
    }

    /** What follows cmd.Start: delete the entry on an error, otherwise leave it to a goroutine. */
    method FinishStart(started: bool)
      requires Inv(View()) && gate.Starting?
      modifies this
      ensures Inv(View()) && View() == Next(old(View()), if started then Start else FailStart)
    {
      NextKeepsInv(View(), if started then Start else FailStart);
      if started {
        live := live[gate.token := gate.id];
      } else {
        active := active - {gate.id};
      }
      gate := Idle;
    }

    /** The critical section of a completion goroutine: `delete(e.active, commandID)`. */
    method Finish(token: Token)
      requires Inv(View()) && token in live
      modifies this
      ensures Inv(View()) && View() == Next(old(View()), Complete(token))
      ensures active == map id | id in old(active) && old(active)[id] != token :: old(active)[id]
    {
      NextKeepsInv(View(), Complete(token));
      CompletionRemovesItsOwnEntry(View(), token);
      active := active - {live[token]};
      live := live - {token};
    }
  }
}
