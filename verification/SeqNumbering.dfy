/**
 Sequence numbers of log lines. The runner keeps a counter per command: dispatching a command
 sets it to 0, a line takes it and adds one, handling the result deletes it (a missing counter
 counts as 0). Lines may still be draining when the result is handled.
 */
module SeqNumbering {
  import opened Common

  /** What happens to one command's counter. */
  datatype Op = Dispatch | Line | Result

  /** The counter after `ops`, where a missing entry is 0. */
  function Counter(ops: seq<Op>): nat
  {
    if ops == [] then 0
    else if ops[|ops| - 1].Line? then Counter(ops[..|ops| - 1]) + 1
    else 0
  }

  /** The numbers given to the lines among `ops`. */
  function Numbers(ops: seq<Op>): seq<nat>
  {
    if ops == [] then []
    else
      var before := ops[..|ops| - 1];
      Numbers(before) + if ops[|ops| - 1].Line? then [Counter(before)] else []
  }

  lemma {:induction false} NumbersSnoc(ops: seq<Op>, op: Op)
    ensures Numbers(ops + [op]) == Numbers(ops) + if op.Line? then [Counter(ops)] else []
    ensures Counter(ops + [op]) == if op.Line? then Counter(ops) + 1 else 0
  {
    assert (ops + [op])[..|ops|] == ops;
  }

  lemma NumberTaken(ops: seq<Op>, n: nat)
    requires Counter(ops) == n
    ensures Numbers(ops + [Line]) == Numbers(ops) + [n] && Counter(ops + [Line]) == n + 1
  {
    NumbersSnoc(ops, Line);
  }

  class Runner {
    var activeCommand: Option<Id>
    var logSeq: map<Id, nat>
    ghost var history: map<Id, seq<Op>>

    ghost function History(id: Id): seq<Op>
      reads this
    {
      if id in history then history[id] else []
    }

    function Number(id: Id): nat
      reads this
    {
      if id in logSeq then logSeq[id] else 0
    }

    ghost predicate Counted(id: Id)
      reads this
    {
      Number(id) == Counter(History(id))
    }

    ghost predicate Valid()
      reads this
    {
      forall id :: Counted(id)
    }

    constructor ()
      ensures Valid() && logSeq == map[] && activeCommand.None?
    {
      activeCommand, logSeq, history := None, map[], map[];
    }

    /** handleCommandEvent, before it calls Execute: also for a command that is already running. */
    method BeginCommand(id: Id)
      requires Valid()
      modifies this
      ensures Valid() && activeCommand == Some(id)
      ensures history == old(history)[id := old(History(id)) + [Dispatch]]
      ensures logSeq == old(logSeq)[id := 0]
    {
      activeCommand := Some(id);
      logSeq := logSeq[id := 0];
      NumbersSnoc(History(id), Dispatch);
      history := history[id := History(id) + [Dispatch]];
      forall other ensures Counted(other) {
        assert old(Counted(other));
      }
    }

    /** One line of streamLogs. */
    method NextNumber(id: Id) returns (n: nat)
      requires Valid()
      modifies this`logSeq, this`history
      ensures Valid()
      ensures history == old(history)[id := old(History(id)) + [Line]]
      ensures Numbers(History(id)) == Numbers(old(History(id))) + [n]
      ensures n == (if id in old(logSeq) then old(logSeq)[id] else 0) && logSeq == old(logSeq)[id := n + 1]
    {
      n := Number(id);
      assert Counted(id);
      ghost var before := History(id);
      NumberTaken(before, n);
      logSeq := logSeq[id := n + 1];
      history := history[id := before + [Line]];
      assert History(id) == before + [Line] && Number(id) == n + 1;
      forall other ensures Counted(other) {
        if other != id {
          assert old(Counted(other));
          assert History(other) == old(History(other)) && Number(other) == old(Number(other));
        }
      }
    }

    /** handleResult, before it reports. */
    method EndCommand(id: Id)
      requires Valid()
      modifies this
      ensures Valid()
      ensures activeCommand == if old(activeCommand) == Some(id) then None else old(activeCommand)
      ensures history == old(history)[id := old(History(id)) + [Result]]
      ensures logSeq == old(logSeq) - {id}
    {
      if activeCommand == Some(id) {
        activeCommand := None;
      }
      logSeq := logSeq - {id};
      NumbersSnoc(History(id), Result);
      history := history[id := History(id) + [Result]];
      forall other ensures Counted(other) {
        assert old(Counted(other));
      }
    }
  }

  /** With a number all smaller ones have been given. */
  lemma {:induction false} NumbersBelow(ops: seq<Op>)
    ensures forall k: nat :: k < Counter(ops) ==> k in Numbers(ops)
    ensures forall n, k: nat :: n in Numbers(ops) && k < n ==> k in Numbers(ops)
  {
    if ops == [] {
    } else {
      NumbersBelow(ops[..|ops| - 1]);
    }
  }

  // ----- runs of numbers -----

  /** 0, 1, ..., k - 1 */
  function Iota(k: nat): seq<nat>
  {
    if k == 0 then [] else Iota(k - 1) + [k - 1]
  }

  lemma {:induction false} IotaAt(k: nat)
    ensures |Iota(k)| == k && forall i :: 0 <= i < k ==> Iota(k)[i] == i
  {
    if k == 0 {
    } else {
      IotaAt(k - 1);
    }
  }

  function IotaAll(lengths: seq<nat>): seq<seq<nat>>
  {
    if lengths == [] then [] else IotaAll(lengths[..|lengths| - 1]) + [Iota(lengths[|lengths| - 1])]
  }

  /** The last of the stretches gets one more line. */
  function Longer(lengths: seq<nat>): seq<nat>
    requires lengths != []
  {
    lengths[..|lengths| - 1] + [lengths[|lengths| - 1] + 1]
  }

  /** The lengths of the stretches between dispatches and results; always at least one stretch. */
  function Stretches(ops: seq<Op>): (lengths: seq<nat>)
    ensures lengths != []
  {
    if ops == [] then [0]
    else
      var before := Stretches(ops[..|ops| - 1]);
      if ops[|ops| - 1].Line? then Longer(before) else before + [0]
  }

  function Resets(ops: seq<Op>): nat
  {
    if ops == [] then 0 else Resets(ops[..|ops| - 1]) + if ops[|ops| - 1].Line? then 0 else 1
  }

  lemma IotaAllSnoc(lengths: seq<nat>, k: nat)
    ensures Flatten(IotaAll(lengths + [k])) == Flatten(IotaAll(lengths)) + Iota(k)
  {
    assert (lengths + [k])[..|lengths|] == lengths;
    FlattenSnoc(IotaAll(lengths), Iota(k));
  }

  /**
   For every history the numbers are runs 0..k-1, one for each stretch, and only a dispatch or a
   result begins a new run.
   */
  lemma {:induction false} NumbersAreRuns(ops: seq<Op>)
    ensures Numbers(ops) == Flatten(IotaAll(Stretches(ops)))
    ensures |Stretches(ops)| == 1 + Resets(ops)
    ensures Stretches(ops)[|Stretches(ops)| - 1] == Counter(ops)
  {
    if ops == [] {
      IotaAllSnoc([], 0);
      assert Stretches(ops) == [] + [0];
    } else {
      NumbersAreRuns(ops[..|ops| - 1]);
      if ops[|ops| - 1].Line? {
        var before := Stretches(ops[..|ops| - 1]);
        LongerStretch(before[..|before| - 1], before[|before| - 1]);
        assert before == before[..|before| - 1] + [before[|before| - 1]];
      } else {
        IotaAllSnoc(Stretches(ops[..|ops| - 1]), 0);
      }
    }
  }

  lemma LongerStretch(front: seq<nat>, x: nat)
    ensures Flatten(IotaAll(front + [x + 1])) == Flatten(IotaAll(front + [x])) + [x]
  {
    var flat := Flatten(IotaAll(front));
    IotaAllSnoc(front, x);
    IotaAllSnoc(front, x + 1);
    assert flat + (Iota(x) + [x]) == flat + Iota(x) + [x];
  }

  // ----- when the numbers rise -----

  predicate StrictlyIncreasing(ns: seq<nat>)
  {
    forall i, j :: 0 <= i < j < |ns| ==> ns[i] < ns[j]
  }

  /** At most one of the stretches has lines. */
  predicate OneOccupied(lengths: seq<nat>)
  {
    forall i, j :: 0 <= i < j < |lengths| ==> lengths[i] == 0 || lengths[j] == 0
  }

  predicate AllEmpty(lengths: seq<nat>)
  {
    forall i :: 0 <= i < |lengths| ==> lengths[i] == 0
  }

  lemma OccupiedSnoc(front: seq<nat>, k: nat)
    ensures AllEmpty(front + [k]) <==> AllEmpty(front) && k == 0
    ensures OneOccupied(front + [k]) <==> OneOccupied(front) && (k == 0 || AllEmpty(front))
  {
    var lengths := front + [k];
    assert forall i :: 0 <= i < |front| ==> lengths[i] == front[i];
    assert lengths[|front|] == k;
  }

  /** A run put behind other numbers, which begin at 0 if there are any. */
  lemma RunBehind(flat: seq<nat>, k: nat)
    requires flat != [] ==> flat[0] == 0
    ensures flat + Iota(k) != [] ==> (flat + Iota(k))[0] == 0
    ensures flat + Iota(k) == [] <==> flat == [] && k == 0
    ensures k == 0 ==> flat + Iota(k) == flat
    ensures flat == [] ==> StrictlyIncreasing(flat + Iota(k)) && flat + Iota(k) == Iota(k)
    ensures flat != [] && k > 0 ==> !StrictlyIncreasing(flat + Iota(k)) && flat + Iota(k) != Iota(|flat| + k)
  {
    IotaAt(k);
    IotaAt(|flat| + k);
    if flat == [] {
      assert flat + Iota(k) == Iota(k);
    } else if k == 0 {
      assert flat + Iota(k) == flat;
    } else {
      assert (flat + Iota(k))[0] == 0 && (flat + Iota(k))[|flat|] == 0;
      assert Iota(|flat| + k)[|flat|] == |flat|;
    }
  }

  lemma {:induction false} RunsIncreaseIff(lengths: seq<nat>)
    ensures var flat := Flatten(IotaAll(lengths));
            && (flat == [] <==> AllEmpty(lengths))
            && (flat != [] ==> flat[0] == 0)
            && (StrictlyIncreasing(flat) <==> OneOccupied(lengths))
            && (flat == Iota(|flat|) <==> OneOccupied(lengths))
  {
    if lengths == [] {
    } else {
      var front, k := lengths[..|lengths| - 1], lengths[|lengths| - 1];
      assert lengths == front + [k];
      RunsIncreaseIff(front);
      IotaAllSnoc(front, k);
      OccupiedSnoc(front, k);
      RunBehind(Flatten(IotaAll(front)), k);
      IotaAt(k);
    }
  }

  /**
   For every history, with any number of dispatches and results: the numbers rise, and are then
   one unbroken run, exactly if at most one stretch between dispatches and results has lines.
   */
  lemma NumbersIncreaseIff(ops: seq<Op>)
    ensures StrictlyIncreasing(Numbers(ops)) <==> OneOccupied(Stretches(ops))
    ensures Numbers(ops) == Iota(|Numbers(ops)|) <==> OneOccupied(Stretches(ops))
  {
    NumbersAreRuns(ops);
    RunsIncreaseIff(Stretches(ops));
  }

  /** All lines drain before the result, and still two of them are numbered 0. */
  lemma RedispatchRestartsTheNumbers()
    ensures Numbers([Dispatch, Line, Dispatch, Line, Result]) == [0, 0]
  {
    var o2 := [] + [Dispatch] + [Line];
    var o3 := o2 + [Dispatch];
    NumbersSnoc([], Dispatch);
    NumbersSnoc([] + [Dispatch], Line);
    NumbersSnoc(o2, Dispatch);
    NumbersSnoc(o3, Line);
    NumbersSnoc(o3 + [Line], Result);
    assert o3 + [Line] + [Result] == [Dispatch, Line, Dispatch, Line, Result];
  }

  // ----- one execution without redispatch -----

  /** The command is dispatched and has had `a` lines. */
  function Running(a: nat): seq<Op>
  {
    if a == 0 then [Dispatch] else Running(a - 1) + [Line]
  }

  /** `a` lines before the result is handled, `b` lines drained after it. */
  function OneExecution(a: nat, b: nat): seq<Op>
  {
    if b == 0 then Running(a) + [Result] else OneExecution(a, b - 1) + [Line]
  }

  lemma StretchesSnoc(ops: seq<Op>, op: Op)
    ensures Stretches(ops + [op]) == if op.Line? then Longer(Stretches(ops)) else Stretches(ops) + [0]
  {
    assert (ops + [op])[..|ops|] == ops;
  }

  lemma OneMoreLine(ops: seq<Op>, front: seq<nat>, x: nat)
    requires Stretches(ops) == front + [x]
    ensures Stretches(ops + [Line]) == front + [x + 1]
  {
    StretchesSnoc(ops, Line);
  }

  lemma StretchesOfDispatch()
    ensures Stretches([Dispatch]) == [0, 0]
  {
    var none: seq<Op> := [];
    assert Stretches(none) == [0];
    StretchesSnoc(none, Dispatch);
    assert none + [Dispatch] == [Dispatch];
  }

  lemma {:induction false} StretchesOfRunning(a: nat)
    ensures Stretches(Running(a)) == [0, a]
  {
    if a == 0 {
      StretchesOfDispatch();
    } else {
      StretchesOfRunning(a - 1);
      OneMoreLine(Running(a - 1), [0], a - 1);
      assert [0] + [a] == [0, a];
    }
  }

  lemma {:induction false} StretchesOfOneExecution(a: nat, b: nat)
    ensures Stretches(OneExecution(a, b)) == [0, a, b]
  {
    if b == 0 {
      StretchesOfRunning(a);
      StretchesSnoc(Running(a), Result);
    } else {
      StretchesOfOneExecution(a, b - 1);
      OneMoreLine(OneExecution(a, b - 1), [0, a], b - 1);
      assert [0, a] + [b] == [0, a, b];
    }
  }

  /** Two runs at most. */
  lemma NumbersOfOneExecution(a: nat, b: nat)
    ensures Numbers(OneExecution(a, b)) == Iota(a) + Iota(b)
  {
    NumbersAreRuns(OneExecution(a, b));
    StretchesOfOneExecution(a, b);
    FlattenThree(a, b);
  }

  lemma FlattenThree(a: nat, b: nat)
    ensures Flatten(IotaAll([0, a, b])) == Iota(a) + Iota(b)
  {
    FlattenTwo(a);
    IotaAllSnoc([0, a], b);
    assert [0, a] + [b] == [0, a, b];
  }

  lemma FlattenTwo(a: nat)
    ensures Flatten(IotaAll([0, a])) == Iota(a)
  {
    FlattenOne();
    IotaAllSnoc([0], a);
    assert [0] + [a] == [0, a];
    assert [] + Iota(a) == Iota(a);
  }

  lemma FlattenOne()
    ensures Flatten(IotaAll([0])) == []
  {
    IotaAllSnoc([], 0);
    assert [] + [0] == [0];
  }

  lemma OneOfTwo(a: nat, b: nat)
    ensures OneOccupied([0, a, b]) <==> a == 0 || b == 0
  {
    var lengths := [0, a, b];
    assert lengths[1] == a && lengths[2] == b;
  }

  /** Without redispatch this means that all lines drain on one side of the result. */
  lemma UnbrokenIff(a: nat, b: nat)
    ensures Numbers(OneExecution(a, b)) == Iota(a + b) <==> a == 0 || b == 0
    ensures StrictlyIncreasing(Numbers(OneExecution(a, b))) <==> a == 0 || b == 0
  {
    NumbersIncreaseIff(OneExecution(a, b));
    StretchesOfOneExecution(a, b);
    NumbersOfOneExecution(a, b);
    IotaAt(a);
    IotaAt(b);
    OneOfTwo(a, b);
  }
}
