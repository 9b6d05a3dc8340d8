/**
 The event loop with what goes on beside it: lines are taken from the channels of executions, also
 after these have completed, and their results are handled. It shows when a second dispatch of a
 running command gets as far as resetting the counter of its lines.
 */
module Renumbering {
  import opened Common
  import opened ClientLoop
  import S = SeqNumbering

  /** `streams` are the executions whose lines have not drained, `ended` those with a result to handle. */
  datatype State = State(client: Client, streams: map<Token, Id>, ended: map<Token, Id>, history: map<Id, seq<S.Op>>)

  datatype Step =
    | Loop(a: Action)
    | TakeLine(t: Token)
    | Drain(t: Token)     // the channel is closed and empty
    | Handle(t: Token)    // handleResult, up to its report

  function Begin(max: nat): State
  {
    State(Fresh(max), map[], map[], map[])
  }

  predicate CanStep(s: State, x: Step)
  {
    match x
    case Loop(a) => Enabled(s.client, a)
    case TakeLine(t) => t in s.streams
    case Drain(t) => t in s.streams && t !in s.client.live
    case Handle(t) => t in s.ended
  }

  /** What has happened to the counter of a command. */
  function HistoryOf(s: State, id: Id): seq<S.Op>
  {
    if id in s.history then s.history[id] else []
  }

  function Recorded(s: State, id: Id, op: S.Op): State
  {
    s.(history := s.history[id := HistoryOf(s, id) + [op]])
  }

  function Stepped(s: State, x: Step): State
    requires CanStep(s, x)
  {
    match x
    case Loop(a) =>
      var n := s.(client := Next(s.client, a));
      if a.Renumber? then Recorded(n, s.client.gate.id, S.Dispatch)
      else if a.Start? then n.(streams := s.streams[s.client.gate.token := s.client.gate.id])
      else if a.Complete? then n.(ended := s.ended[a.token := s.client.live[a.token]])
      else n
    case TakeLine(t) => Recorded(s, s.streams[t], S.Line)
    case Drain(t) => s.(streams := s.streams - {t})
    case Handle(t) => Recorded(s.(ended := s.ended - {t}), s.ended[t], S.Result)
  }

  predicate CanRun(max: nat, steps: seq<Step>)
    decreases |steps|, 0
  {
    steps == [] ||
    (CanRun(max, steps[..|steps| - 1]) && CanStep(AfterSteps(max, steps[..|steps| - 1]), steps[|steps| - 1]))
  }

  function AfterSteps(max: nat, steps: seq<Step>): State
    requires CanRun(max, steps)
    decreases |steps|, 1
  {
    if steps == [] then Begin(max)
    else Stepped(AfterSteps(max, steps[..|steps| - 1]), steps[|steps| - 1])
  }

  /** Until its channel has drained an execution can have another line, also after its result; then it cannot. */
  lemma LinesUntilDrained(s: State, t: Token)
    requires t in s.streams && CanStep(s, Drain(t))
    ensures CanStep(s, TakeLine(t)) && !CanStep(Stepped(s, Drain(t)), TakeLine(t))
    ensures t in s.ended ==> CanStep(Stepped(s, Handle(t)), TakeLine(t)) && !CanStep(Stepped(s, Handle(t)), Handle(t))
  {
  }

  lemma {:induction false} RunKeepsClient(max: nat, steps: seq<Step>)
    requires CanRun(max, steps)
    ensures Inv(AfterSteps(max, steps).client) && AfterSteps(max, steps).client.max == max
  {
    if steps == [] {
    } else {
      var s, x := AfterSteps(max, steps[..|steps| - 1]), steps[|steps| - 1];
      RunKeepsClient(max, steps[..|steps| - 1]);
      if x.Loop? {
        NextKeepsInv(s.client, x.a);
      }
    }
  }

  /** In no run of a client that takes one command at a time is the counter of a running one reset. */
  lemma {:induction false} RunningIsResetByTwo(max: nat, steps: seq<Step>)
    requires CanRun(max, steps) && CanStep(AfterSteps(max, steps), Loop(Renumber))
    requires AfterSteps(max, steps).client.gate.id in AfterSteps(max, steps).client.active
    ensures max >= 2
  {
    RunKeepsClient(max, steps);
    var c := AfterSteps(max, steps).client;
    SizeRemove(c.active, c.gate.id);
  }

  // ----- a command that is dispatched twice while it runs -----

  ghost predicate Reachable(max: nat, s: State)
  {
    exists steps: seq<Step> :: CanRun(max, steps) && AfterSteps(max, steps) == s
  }

  /** One more step of some run. */
  lemma Reach(max: nat, s: State, x: Step, n: State)
    requires Reachable(max, s) && CanStep(s, x) && n == Stepped(s, x)
    ensures Reachable(max, n)
  {
    var steps :| CanRun(max, steps) && AfterSteps(max, steps) == s;
    assert (steps + [x])[..|steps|] == steps;
    assert CanRun(max, steps + [x]) && AfterSteps(max, steps + [x]) == n;
  }

  /** A client for two commands at a time before anything is inserted. */
  function Empty(gate: Gate, history: seq<S.Op>): State
  {
    State(Client(2, gate, map[], map[], 0), map[], map[], if history == [] then map[] else map[0 := history])
  }

  /** The same with command 0 running as execution 0. */
  function Busy(gate: Gate, history: seq<S.Op>): State
  {
    State(Client(2, gate, map[0 := 0], map[0 := 0], 1), map[0 := 0], map[], map[0 := history])
  }

  lemma GetsReady()
    ensures Reachable(2, Empty(Ready(0), [S.Dispatch]))
  {
    var none: seq<Step> := [];
    assert CanRun(2, none) && AfterSteps(2, none) == Empty(Idle, []);
    Reach(2, Empty(Idle, []), Loop(Receive(0)), Empty(Received(0), []));
    Reach(2, Empty(Received(0), []), Loop(PassCapacity), Empty(Counted(0), []));
    assert [] + [S.Dispatch] == [S.Dispatch];
    Reach(2, Empty(Counted(0), []), Loop(Renumber), Empty(Ready(0), [S.Dispatch]));
  }

  lemma GetsVacant()
    ensures Reachable(2, Empty(Vacant(0), [S.Dispatch]))
  {
    GetsReady();
    Reach(2, Empty(Ready(0), [S.Dispatch]), Loop(PassDuplicate), Empty(Vacant(0), [S.Dispatch]));
  }

  function BeingStarted(): State
  {
    State(Client(2, Starting(0, 0), map[0 := 0], map[], 1), map[], map[], map[0 := [S.Dispatch]])
  }

  lemma GetsStarting()
    ensures Reachable(2, BeingStarted())
  {
    GetsVacant();
    Reach(2, Empty(Vacant(0), [S.Dispatch]), Loop(Insert), BeingStarted());
  }

  lemma StartIsBusy()
    ensures CanStep(BeingStarted(), Loop(Start))
    ensures Stepped(BeingStarted(), Loop(Start)) == Busy(Idle, [S.Dispatch])
  {
    var none: map<Token, Id> := map[];
    assert none[0 := 0] == map[0 := 0];
  }

  lemma GetsRunning()
    ensures Reachable(2, Busy(Idle, [S.Dispatch]))
  {
    GetsStarting();
    StartIsBusy();
    Reach(2, BeingStarted(), Loop(Start), Busy(Idle, [S.Dispatch]));
  }

  /** A line of the running command. */
  lemma HasLine(history: seq<S.Op>)
    requires Reachable(2, Busy(Idle, history))
    ensures Reachable(2, Busy(Idle, history + [S.Line]))
  {
    Reach(2, Busy(Idle, history), TakeLine(0), Busy(Idle, history + [S.Line]));
  }

  lemma IsCounted(history: seq<S.Op>)
    requires Reachable(2, Busy(Idle, history))
    ensures Reachable(2, Busy(Counted(0), history))
  {
    assert |map[0 := 0]| == 1;
    Reach(2, Busy(Idle, history), Loop(Receive(0)), Busy(Received(0), history));
    Reach(2, Busy(Received(0), history), Loop(PassCapacity), Busy(Counted(0), history));
  }

  lemma IsReset(history: seq<S.Op>)
    requires Reachable(2, Busy(Counted(0), history))
    ensures Reachable(2, Busy(Ready(0), history + [S.Dispatch]))
  {
    Reach(2, Busy(Counted(0), history), Loop(Renumber), Busy(Ready(0), history + [S.Dispatch]));
  }

  lemma IsRefused(history: seq<S.Op>)
    requires Reachable(2, Busy(Ready(0), history))
    ensures Reachable(2, Busy(Idle, history))
  {
    Reach(2, Busy(Ready(0), history), Loop(RefuseDuplicate), Busy(Idle, history));
  }

  /** Another dispatch of it: refused as a duplicate, after it has reset the counter. */
  lemma IsDispatchedAgain(history: seq<S.Op>)
    requires Reachable(2, Busy(Idle, history))
    ensures Reachable(2, Busy(Idle, history + [S.Dispatch]))
  {
    IsCounted(history);
    IsReset(history);
    IsRefused(history + [S.Dispatch]);
  }

  function Over(history: seq<S.Op>): State
  {
    State(Client(2, Idle, map[], map[], 1), map[0 := 0], map[], map[0 := history])
  }

  /** It completes, and its result is handled. */
  lemma IsHandled(history: seq<S.Op>)
    requires Reachable(2, Busy(Idle, history))
    ensures Reachable(2, Over(history + [S.Result]))
  {
    var ended := State(Client(2, Idle, map[], map[], 1), map[0 := 0], map[0 := 0], map[0 := history]);
    Reach(2, Busy(Idle, history), Loop(Complete(0)), ended);
    Reach(2, ended, Handle(0), Over(history + [S.Result]));
  }

  lemma GetsOver(h1: seq<S.Op>, h2: seq<S.Op>, h3: seq<S.Op>, h4: seq<S.Op>)
    requires h1 == [S.Dispatch] && h2 == h1 + [S.Line] && h3 == h2 + [S.Dispatch] && h4 == h3 + [S.Line]
    ensures Reachable(2, Over(h4 + [S.Result]))
  {
    GetsRunning();
    HasLine(h1);
    IsDispatchedAgain(h2);
    HasLine(h3);
    IsHandled(h4);
  }

  /** With two commands at a time it happens: all lines drain before the result, and two are numbered 0. */
  lemma RunningIsRenumbered()
    ensures exists s: State ::
              Reachable(2, s) && HistoryOf(s, 0) == [S.Dispatch, S.Line, S.Dispatch, S.Line, S.Result]
              && S.Numbers(HistoryOf(s, 0)) == [0, 0]
  {
    var h := [S.Dispatch, S.Line, S.Dispatch, S.Line, S.Result];
    GetsOver(h[..1], h[..2], h[..3], h[..4]);
    assert h[..4] + [S.Result] == h;
    S.RedispatchRestartsTheNumbers();
    assert Reachable(2, Over(h)) && HistoryOf(Over(h), 0) == h;
  }
}
