/**
 One execution's log channel: the readers of its two pipes put lines into it, streamLogs takes
 them out, numbers them and hands them to the shipper.

 The pipes share the channel. A complete line that finds it full is dropped, the final carry of a
 pipe waits for room. streamLogs receives a line, takes a number for it under one lock and adds it
 to the shipper under another; dispatches and results of the command, which reset the counter, and
 everything that happens to the shipper's buffer come in between. `chunks`, `offered`, `room`,
 `sent` and `history` are history.
 */
module LogChannel {
  import opened Common
  import opened LineReassembly
  import opened Shipper
  import P = LogPipeline
  import S = SeqNumbering

  const CAPACITY: nat := 100

  datatype Pipe = Stdout | Stderr

  datatype LogLine = LogLine(pipe: Pipe, text: Bytes, at: Time)

  datatype PipeReader = PipeReader(
    chunks: seq<Bytes>,     // what Read has returned
    carry: Bytes,           // `incomplete`
    waiting: seq<Bytes>,    // lines of the last read still to be offered
    offered: seq<Bytes>,    // lines offered so far
    room: seq<bool>,        // whether the channel had room for each of them
    ended: bool,            // the pipe is exhausted
    closed: bool)           // and the final carry has been sent

  /** What streamLogs has in its hands. */
  datatype Hand = Nothing | Received(line: LogLine) | Numbered(entry: Entry)

  datatype Run = Run(
    command: Id,
    out: PipeReader,
    err: PipeReader,
    channel: seq<LogLine>,
    sent: seq<LogLine>,
    hand: Hand,
    counter: nat,            // the command's entry of logSeq, 0 if missing
    history: seq<S.Op>,
    ship: State)

  datatype Step =
    | Read(pipe: Pipe, chunk: Bytes)
    | Offer(pipe: Pipe, at: Time)
    | End(pipe: Pipe)
    | SendCarry(pipe: Pipe, at: Time)
    | Receive
    | Number
    | Hand
    | Dispatch
    | Result
    | Ship(a: Action)        // flushes of the buffer, arrivals, and lines of other commands

  function SourceOf(pipe: Pipe): string
  {
    if pipe.Stdout? then "stdout" else "stderr"
  }

  function NewReader(): PipeReader
  {
    PipeReader([], [], [], [], [], false, false)
  }

  function Begin(command: Id): Run
  {
    Run(command, NewReader(), NewReader(), [], [], Nothing, 0, [], State([], [], [], [], []))
  }

  function ReaderOf(s: Run, pipe: Pipe): PipeReader
  {
    if pipe.Stdout? then s.out else s.err
  }

  function SetReader(s: Run, pipe: Pipe, r: PipeReader): Run
  {
    if pipe.Stdout? then s.(out := r) else s.(err := r)
  }

  predicate CanStep(s: Run, x: Step)
  {
    match x
    case Read(p, chunk) => chunk != [] && ReaderOf(s, p).waiting == [] && !ReaderOf(s, p).ended
    case Offer(p, _) => ReaderOf(s, p).waiting != []
    case End(p) => ReaderOf(s, p).waiting == [] && !ReaderOf(s, p).ended
    case SendCarry(p, _) =>
      ReaderOf(s, p).ended && !ReaderOf(s, p).closed && (ReaderOf(s, p).carry == [] || |s.channel| < CAPACITY)
    case Receive => s.channel != [] && s.hand.Nothing?
    case Number => s.hand.Received?
    case Hand => s.hand.Numbered?
    case Dispatch => true
    case Result => true
    case Ship(a) => Enabled(s.ship, a) && (a.Add? ==> a.e.command != s.command)
  }

  /** The reader after a read: the complete lines wait to be offered. */
  function AfterRead(r: PipeReader, chunk: Bytes): PipeReader
    requires chunk != []
  {
    var fed := Feed(false, Reader([], r.carry), chunk);
    r.(chunks := r.chunks + [chunk], carry := fed.carry, waiting := fed.out)
  }

  function AfterOffer(r: PipeReader, room: bool): PipeReader
    requires r.waiting != []
  {
    r.(waiting := r.waiting[1..], offered := r.offered + [r.waiting[0]], room := r.room + [room])
  }

  function Put(s: Run, line: LogLine): Run
  {
    s.(channel := s.channel + [line], sent := s.sent + [line])
  }

  function EntryFor(s: Run, line: LogLine): Entry
  {
    Entry(s.command, SourceOf(line.pipe), LevelOf(SourceOf(line.pipe)), line.text, s.counter, line.at)
  }

  function Stepped(s: Run, x: Step): Run
    requires CanStep(s, x)
  {
    match x
    case Read(p, chunk) => SetReader(s, p, AfterRead(ReaderOf(s, p), chunk))
    case Offer(p, at) =>
      var r := ReaderOf(s, p);
      var room := |s.channel| < CAPACITY;
      SetReader(if room then Put(s, LogLine(p, r.waiting[0], at)) else s, p, AfterOffer(r, room))
    case End(p) => SetReader(s, p, ReaderOf(s, p).(ended := true))
    case SendCarry(p, at) =>
      var r := ReaderOf(s, p);
      SetReader(if r.carry == [] then s else Put(s, LogLine(p, r.carry, at)), p, r.(closed := true))
    case Receive => s.(channel := s.channel[1..], hand := Received(s.channel[0]))
    case Number =>
      s.(hand := Numbered(EntryFor(s, s.hand.line)), counter := s.counter + 1, history := s.history + [S.Line])
    case Hand => s.(hand := Nothing, ship := Next(s.ship, Add(s.hand.entry)))
    case Dispatch => s.(counter := 0, history := s.history + [S.Dispatch])
    case Result => s.(counter := 0, history := s.history + [S.Result])
    case Ship(a) => s.(ship := Next(s.ship, a))
  }

  // ----- the readers -----

  /** Whether the channel had room for the i-th line that a reader offered. */
  function RoomOf(room: seq<bool>): nat -> bool
  {
    (i: nat) => i < |room| && room[i]
  }

  predicate ReaderOk(r: PipeReader)
  {
    && After(false, r.chunks) == Reader(r.offered + r.waiting, r.carry)
    && |r.room| == |r.offered|
    && (r.ended ==> r.waiting == [])
    && (r.closed ==> r.ended)
  }

  /** The lines that a reader has got into the channel. */
  function Got(r: PipeReader): seq<Bytes>
  {
    Admitted(RoomOf(r.room), r.offered) + if r.closed then OneOrNone(r.carry) else []
  }

  /** The texts of the lines that come from one pipe. */
  function Texts(lines: seq<LogLine>, pipe: Pipe): seq<Bytes>
  {
    if lines == [] then []
    else
      var last := lines[|lines| - 1];
      Texts(lines[..|lines| - 1], pipe) + if last.pipe == pipe then [last.text] else []
  }

  lemma TextsSnoc(lines: seq<LogLine>, line: LogLine, pipe: Pipe)
    ensures Texts(lines + [line], pipe) == Texts(lines, pipe) + if line.pipe == pipe then [line.text] else []
  {
    assert (lines + [line])[..|lines|] == lines;
  }

  lemma ReadKeepsReader(r: PipeReader, chunk: Bytes)
    requires ReaderOk(r) && chunk != [] && r.waiting == [] && !r.ended
    ensures ReaderOk(AfterRead(r, chunk)) && Got(AfterRead(r, chunk)) == Got(r)
  {
    var chunks := r.chunks + [chunk];
    assert chunks[..|r.chunks|] == r.chunks;
    assert r.offered + r.waiting == r.offered;
    assert Feed(false, Reader([], r.carry), chunk).out == NonEmpty(Lines(r.carry + chunk));
  }

  lemma {:induction false} AdmittedAgree(a: nat -> bool, b: nat -> bool, lines: seq<Bytes>)
    requires forall i: nat :: i < |lines| ==> a(i) == b(i)
    ensures Admitted(a, lines) == Admitted(b, lines)
  {
    if lines == [] {
    } else {
      AdmittedAgree(a, b, lines[..|lines| - 1]);
    }
  }

  lemma OfferKeepsReader(r: PipeReader, room: bool)
    requires ReaderOk(r) && r.waiting != []
    ensures ReaderOk(AfterOffer(r, room))
    ensures Got(AfterOffer(r, room)) == Got(r) + if room then [r.waiting[0]] else []
  {
    var line := r.waiting[0];
    assert r.offered + [line] + r.waiting[1..] == r.offered + r.waiting;
    AdmittedSnoc(RoomOf(r.room + [room]), r.offered, line);
    AdmittedAgree(RoomOf(r.room), RoomOf(r.room + [room]), r.offered);
  }

  lemma CarryKeepsReader(r: PipeReader)
    requires ReaderOk(r) && r.ended && !r.closed
    ensures ReaderOk(r.(closed := true)) && Got(r.(closed := true)) == Got(r) + OneOrNone(r.carry)
  {
  }

  predicate ReadersOk(s: Run)
  {
    && ReaderOk(s.out) && ReaderOk(s.err)
    && Texts(s.sent, Stdout) == Got(s.out) && Texts(s.sent, Stderr) == Got(s.err)
  }

  lemma OfferKeepsReaders(s: Run, x: Step)
    requires ReadersOk(s) && CanStep(s, x) && (x.Offer? || x.SendCarry?)
    ensures ReadersOk(Stepped(s, x))
  {
    var r := ReaderOf(s, x.pipe);
    if x.Offer? {
      OfferKeepsReader(r, |s.channel| < CAPACITY);
      TextsSnoc(s.sent, LogLine(x.pipe, r.waiting[0], x.at), Stdout);
      TextsSnoc(s.sent, LogLine(x.pipe, r.waiting[0], x.at), Stderr);
    } else {
      CarryKeepsReader(r);
      TextsSnoc(s.sent, LogLine(x.pipe, r.carry, x.at), Stdout);
      TextsSnoc(s.sent, LogLine(x.pipe, r.carry, x.at), Stderr);
    }
  }

  lemma StepKeepsReaders(s: Run, x: Step)
    requires ReadersOk(s) && CanStep(s, x)
    ensures ReadersOk(Stepped(s, x))
  {
    if x.Offer? || x.SendCarry? {
      OfferKeepsReaders(s, x);
    } else if x.Read? {
      ReadKeepsReader(ReaderOf(s, x.pipe), x.chunk);
    }
  }

  // ----- from the channel to the shipper -----

  /** The entries that have got a number, in the order in which they got it. */
  function Passed(s: Run): seq<Entry>
  {
    P.Of(s.ship.added, s.command) + if s.hand.Numbered? then [s.hand.entry] else []
  }

  /** The lines that have none yet. */
  function Behind(s: Run): seq<LogLine>
  {
    (if s.hand.Received? then [s.hand.line] else []) + s.channel
  }

  predicate Tells(e: Entry, line: LogLine)
  {
    && e.line == line.text && e.at == line.at
    && (line.pipe == Stdout ==> e.source == "stdout" && e.level == "info")
    && (line.pipe == Stderr ==> e.source == "stderr" && e.level == "error")
  }

  predicate Tell(entries: seq<Entry>, lines: seq<LogLine>)
  {
    |entries| == |lines| && forall i :: 0 <= i < |entries| ==> Tells(entries[i], lines[i])
  }

  /** What has passed and what is behind make up what was sent. */
  predicate InStep(passed: seq<Entry>, behind: seq<LogLine>, sent: seq<LogLine>)
  {
    |passed| <= |sent| && Tell(passed, sent[..|passed|]) && behind == sent[|passed|..]
  }

  /** Nothing is lost, invented or reordered between the channel and the shipper. */
  predicate PathOk(s: Run)
  {
    && InStep(Passed(s), Behind(s), s.sent)
    && (s.hand.Numbered? ==> s.hand.entry.command == s.command)
    && |s.channel| <= 100
  }

  /** The numbers are those that the history of the command gives. */
  predicate NumbersOk(s: Run)
  {
    P.NumberedBy(Passed(s), s.history) && s.counter == S.Counter(s.history)
  }

  lemma OfSnoc(rows: seq<Entry>, e: Entry, c: Id)
    ensures P.Of(rows + [e], c) == if e.command == c then P.Of(rows, c) + [e] else P.Of(rows, c)
  {
    assert (rows + [e])[..|rows|] == rows;
  }

  /** What a step does to the entries that have passed. */
  lemma StepPassed(s: Run, x: Step)
    requires CanStep(s, x) && (s.hand.Numbered? ==> s.hand.entry.command == s.command)
    ensures Passed(Stepped(s, x)) == Passed(s) + if x.Number? then [EntryFor(s, s.hand.line)] else []
  {
    if x.Hand? {
      OfSnoc(s.ship.added, s.hand.entry, s.command);
    } else if x.Ship? && x.a.Add? {
      OfSnoc(s.ship.added, x.a.e, s.command);
    }
  }

  /** The line that a step puts into the channel. */
  function SentBy(s: Run, x: Step): seq<LogLine>
    requires CanStep(s, x)
  {
    match x
    case Offer(p, at) => if |s.channel| < CAPACITY then [LogLine(p, ReaderOf(s, p).waiting[0], at)] else []
    case SendCarry(p, at) => if ReaderOf(s, p).carry == [] then [] else [LogLine(p, ReaderOf(s, p).carry, at)]
    case _ => []
  }

  lemma StepSends(s: Run, x: Step)
    requires CanStep(s, x)
    ensures Stepped(s, x).sent == s.sent + SentBy(s, x) && Stepped(s, x).command == s.command
    ensures |Stepped(s, x).channel| <= |s.channel| + |SentBy(s, x)|
    ensures |SentBy(s, x)| > 0 ==> |s.channel| < CAPACITY
  {
  }

  lemma StepBehind(s: Run, x: Step)
    requires CanStep(s, x)
    ensures x.Number? ==> Behind(s) == [s.hand.line] + Behind(Stepped(s, x))
    ensures !x.Number? ==> Behind(Stepped(s, x)) == Behind(s) + SentBy(s, x)
  {
    if x.Receive? {
      assert [s.channel[0]] + s.channel[1..] == s.channel;
    } else if x.Offer? || x.SendCarry? {
      ConcatAssociates(if s.hand.Received? then [s.hand.line] else [], s.channel, SentBy(s, x));
    }
  }

  lemma MoreSent(passed: seq<Entry>, behind: seq<LogLine>, sent: seq<LogLine>, more: seq<LogLine>)
    requires InStep(passed, behind, sent)
    ensures InStep(passed, behind + more, sent + more)
  {
    assert (sent + more)[..|passed|] == sent[..|passed|];
  }

  lemma OnePasses(passed: seq<Entry>, behind: seq<LogLine>, sent: seq<LogLine>, e: Entry, line: LogLine)
    requires InStep(passed, [line] + behind, sent) && Tells(e, line)
    ensures InStep(passed + [e], behind, sent)
  {
    var n := |passed|;
    assert sent[n..][0] == line;
    assert sent[..n + 1] == sent[..n] + [sent[n]];
    assert sent[n..][1..] == sent[n + 1..];
  }

  lemma StepKeepsPath(s: Run, x: Step)
    requires PathOk(s) && CanStep(s, x)
    ensures PathOk(Stepped(s, x))
  {
    StepPassed(s, x);
    StepBehind(s, x);
    StepSends(s, x);
    if x.Number? {
      OnePasses(Passed(s), Behind(Stepped(s, x)), s.sent, EntryFor(s, s.hand.line), s.hand.line);
    } else {
      MoreSent(Passed(s), Behind(s), s.sent, SentBy(s, x));
    }
  }

  /** What a step adds to the history of the command. */
  function OpsOf(x: Step): seq<S.Op>
  {
    match x
    case Number => [S.Line]
    case Dispatch => [S.Dispatch]
    case Result => [S.Result]
    case _ => []
  }

  lemma StepHistory(s: Run, x: Step)
    requires CanStep(s, x)
    ensures Stepped(s, x).history == s.history + OpsOf(x)
    ensures Stepped(s, x).counter == if OpsOf(x) == [] then s.counter else if x.Number? then s.counter + 1 else 0
  {
  }

  /** One step of the history, with the entry that got a number by it. */
  lemma NumberedOn(passed: seq<Entry>, history: seq<S.Op>, op: S.Op, more: seq<Entry>)
    requires P.NumberedBy(passed, history)
    requires if op.Line? then |more| == 1 && more[0].number == S.Counter(history) else more == []
    ensures P.NumberedBy(passed + more, history + [op])
    ensures S.Counter(history + [op]) == if op.Line? then S.Counter(history) + 1 else 0
  {
    S.NumbersSnoc(history, op);
  }

  lemma NumbersGoOn(s: Run, n: Run, ops: seq<S.Op>, more: seq<Entry>)
    requires NumbersOk(s) && |ops| <= 1 && n.history == s.history + ops && Passed(n) == Passed(s) + more
    requires n.counter == if ops == [] then s.counter else if ops[0].Line? then s.counter + 1 else 0
    requires if ops != [] && ops[0].Line? then |more| == 1 && more[0].number == s.counter else more == []
    ensures NumbersOk(n)
  {
    if ops == [] {
      assert s.history + ops == s.history && Passed(s) + more == Passed(s);
    } else {
      assert ops == [ops[0]];
      NumberedOn(Passed(s), s.history, ops[0], more);
    }
  }

  lemma StepKeepsNumbers(s: Run, x: Step)
    requires PathOk(s) && NumbersOk(s) && CanStep(s, x)
    ensures NumbersOk(Stepped(s, x))
  {
    StepPassed(s, x);
    StepHistory(s, x);
    NumbersGoOn(s, Stepped(s, x), OpsOf(x), if x.Number? then [EntryFor(s, s.hand.line)] else []);
  }

  lemma StepConserves(s: Run, x: Step)
    requires P.Conserved(s.ship) && CanStep(s, x)
    ensures P.Conserved(Stepped(s, x).ship)
  {
    if x.Hand? || x.Ship? {
      var a := if x.Hand? then Add(s.hand.entry) else x.a;
      forall e: Entry ensures P.Accounted(Stepped(s, x).ship, e) {
        assert P.Accounted(s.ship, e);
        P.NextKeepsAccounted(s.ship, a, e);
      }
    }
  }

  // ----- drops -----

  predicate NothingDropped(r: PipeReader)
  {
    forall i :: 0 <= i < |r.room| ==> r.room[i]
  }

  function CarrySent(r: PipeReader): nat
  {
    if r.closed && r.carry != [] then 1 else 0
  }

  /** The lines that the readers have sent or tried to send. */
  function Tried(s: Run): nat
  {
    |s.out.offered| + |s.err.offered| + CarrySent(s.out) + CarrySent(s.err)
  }

  /** A line is dropped only once more than a channelful of lines has been tried. */
  predicate DropsOk(s: Run)
  {
    && |s.channel| <= |s.sent| <= Tried(s)
    && ((NothingDropped(s.out) && NothingDropped(s.err)) || Tried(s) > 100)
  }

  lemma StepKeepsDrops(s: Run, x: Step)
    requires DropsOk(s) && CanStep(s, x)
    ensures DropsOk(Stepped(s, x))
  {
  }

  // ----- runs -----

  ghost predicate Inv(s: Run)
  {
    ReadersOk(s) && PathOk(s) && NumbersOk(s) && P.Conserved(s.ship) && DropsOk(s)
  }

  lemma {:induction false} StepKeepsInv(s: Run, x: Step)
    requires Inv(s) && CanStep(s, x)
    ensures Inv(Stepped(s, x))
  {
    StepKeepsReaders(s, x);
    StepKeepsPath(s, x);
    StepKeepsNumbers(s, x);
    StepConserves(s, x);
    StepKeepsDrops(s, x);
  }

  lemma BeginInv(c: Id)
    ensures Inv(Begin(c))
  {
  }

  predicate CanRun(c: Id, steps: seq<Step>)
    decreases |steps|, 0
  {
    steps == [] ||
    (CanRun(c, steps[..|steps| - 1]) && CanStep(AfterSteps(c, steps[..|steps| - 1]), steps[|steps| - 1]))
  }

  function AfterSteps(c: Id, steps: seq<Step>): Run
    requires CanRun(c, steps)
    decreases |steps|, 1
  {
    if steps == [] then Begin(c)
    else Stepped(AfterSteps(c, steps[..|steps| - 1]), steps[|steps| - 1])
  }

  lemma {:induction false} RunKeepsInv(c: Id, steps: seq<Step>)
    requires CanRun(c, steps)
    ensures Inv(AfterSteps(c, steps))
  {
    if steps == [] {
      BeginInv(c);
    } else {
      RunKeepsInv(c, steps[..|steps| - 1]);
      StepKeepsInv(AfterSteps(c, steps[..|steps| - 1]), steps[|steps| - 1]);
    }
  }

  lemma {:induction false} RunKeepsCommand(c: Id, steps: seq<Step>)
    requires CanRun(c, steps)
    ensures AfterSteps(c, steps).command == c
  {
    if steps == [] {
    } else {
      RunKeepsCommand(c, steps[..|steps| - 1]);
      StepSends(AfterSteps(c, steps[..|steps| - 1]), steps[|steps| - 1]);
    }
  }

  /** What a pipe has been read as, read by read. */
  function ChunksOf(steps: seq<Step>, pipe: Pipe): seq<Bytes>
  {
    if steps == [] then []
    else
      var x := steps[|steps| - 1];
      ChunksOf(steps[..|steps| - 1], pipe) + if x.Read? && x.pipe == pipe then [x.chunk] else []
  }

  lemma StepReads(s: Run, x: Step, pipe: Pipe)
    requires CanStep(s, x)
    ensures ReaderOf(Stepped(s, x), pipe).chunks
         == ReaderOf(s, pipe).chunks + if x.Read? && x.pipe == pipe then [x.chunk] else []
  {
  }

  lemma {:induction false} RunReads(c: Id, steps: seq<Step>, pipe: Pipe)
    requires CanRun(c, steps)
    ensures ReaderOf(AfterSteps(c, steps), pipe).chunks == ChunksOf(steps, pipe)
  {
    if steps == [] {
    } else {
      RunReads(c, steps[..|steps| - 1], pipe);
      StepReads(AfterSteps(c, steps[..|steps| - 1]), steps[|steps| - 1], pipe);
    }
  }

  /** What has happened to the command's counter, step by step. */
  function OpsIn(steps: seq<Step>): seq<S.Op>
  {
    if steps == [] then [] else OpsIn(steps[..|steps| - 1]) + OpsOf(steps[|steps| - 1])
  }

  lemma {:induction false} RunRecords(c: Id, steps: seq<Step>)
    requires CanRun(c, steps)
    ensures AfterSteps(c, steps).history == OpsIn(steps)
  {
    if steps == [] {
    } else {
      RunRecords(c, steps[..|steps| - 1]);
      StepHistory(AfterSteps(c, steps[..|steps| - 1]), steps[|steps| - 1]);
    }
  }

  // ----- a line that gets through -----

  ghost predicate Reachable(c: Id, s: Run)
  {
    exists steps :: CanRun(c, steps) && AfterSteps(c, steps) == s
  }

  lemma Reach(c: Id, s: Run, x: Step, n: Run)
    requires Reachable(c, s) && CanStep(s, x) && n == Stepped(s, x)
    ensures Reachable(c, n)
  {
    var steps :| CanRun(c, steps) && AfterSteps(c, steps) == s;
    assert (steps + [x])[..|steps|] == steps;
    assert CanRun(c, steps + [x]) && AfterSteps(c, steps + [x]) == n;
  }

  /** The line "a" has been read, offered, and so on. */
  function ReaderOfA(waiting: seq<Bytes>, ended: bool, closed: bool): PipeReader
  {
    var a: Bytes := [97];
    PipeReader([[97, 10]], [], waiting, if waiting == [] then [a] else [], if waiting == [] then [true] else [],
               ended, closed)
  }

  lemma ReadsA()
    ensures AfterRead(NewReader(), [97, 10]) == ReaderOfA([[97]], false, false)
  {
    var d: Bytes := [97, 10];
    assert [] + d == d && d[..1] == [97];
    LinesOfTail([97]);
    assert Lines(d) == [[97]];
    assert Lines(d)[..0] == [];
    assert NonEmpty(Lines(d)) == [[97]];
  }

  lemma HasReadA(c: Id)
    ensures Reachable(c, Begin(c).(out := ReaderOfA([[97]], false, false)))
  {
    var none: seq<Step> := [];
    assert CanRun(c, none) && AfterSteps(c, none) == Begin(c);
    ReadsA();
    Reach(c, Begin(c), Read(Stdout, [97, 10]), Begin(c).(out := ReaderOfA([[97]], false, false)));
  }

  lemma OffersA()
    ensures AfterOffer(ReaderOfA([[97]], false, false), true) == ReaderOfA([], false, false)
  {
  }

  lemma StartsWithA(c: Id, at: Time)
    ensures Reachable(c, Begin(c).(out := ReaderOfA([], false, false), channel := [LogLine(Stdout, [97], at)],
                                   sent := [LogLine(Stdout, [97], at)]))
  {
    var line := LogLine(Stdout, [97], at);
    var s := Begin(c).(out := ReaderOfA([[97]], false, false));
    HasReadA(c);
    OffersA();
    assert s.out.waiting == [[97]];
    Reach(c, s, Offer(Stdout, at), s.(out := ReaderOfA([], false, false), channel := [line], sent := [line]));
  }

  function Quiet(): PipeReader
  {
    PipeReader([], [], [], [], [], true, true)
  }

  /** Both pipes have ended, and the line is where the parameters say. */
  function WithA(c: Id, at: Time, channel: seq<LogLine>, hand: Hand, counter: nat, history: seq<S.Op>, ship: State): Run
  {
    Run(c, ReaderOfA([], true, true), Quiet(), channel, [LogLine(Stdout, [97], at)], hand, counter, history, ship)
  }

  lemma PipesEnd(c: Id, at: Time)
    ensures Reachable(c, WithA(c, at, [LogLine(Stdout, [97], at)], Nothing, 0, [], State([], [], [], [], [])))
  {
    StartsWithA(c, at);
    var line := LogLine(Stdout, [97], at);
    var s := Begin(c).(out := ReaderOfA([], false, false), channel := [line], sent := [line]);
    Reach(c, s, End(Stdout), s.(out := ReaderOfA([], true, false)));
    var s1 := s.(out := ReaderOfA([], true, false));
    Reach(c, s1, End(Stderr), s1.(err := NewReader().(ended := true)));
    var s2 := s1.(err := NewReader().(ended := true));
    Reach(c, s2, SendCarry(Stdout, at), s2.(out := ReaderOfA([], true, true)));
    var s3 := s2.(out := ReaderOfA([], true, true));
    Reach(c, s3, SendCarry(Stderr, at), s3.(err := Quiet()));
  }

  /**
   A line that a process writes is read, offered, received, numbered 0, shipped and stored, with the
   labels of its pipe: there is a run in which it is all there is in the table.
   */
  lemma OneLineArrives(c: Id, at: Time)
    ensures exists s ::
              Reachable(c, s) && s.out.closed && s.err.closed && s.channel == [] && s.hand == Nothing
              && s.ship.buffer == [] && s.ship.flying == [] && s.ship.lost == []
              && s.ship.stored == [Entry(c, "stdout", "info", [97], 0, at)]
  {
    PipesEnd(c, at);
    var line := LogLine(Stdout, [97], at);
    var e := Entry(c, "stdout", "info", [97], 0, at);
    var empty := State([], [], [], [], []);
    Reach(c, WithA(c, at, [line], Nothing, 0, [], empty), Receive, WithA(c, at, [], Received(line), 0, [], empty));
    Reach(c, WithA(c, at, [], Received(line), 0, [], empty), Number,
          WithA(c, at, [], Numbered(e), 1, [S.Line], empty));
    var s1, s2, s3 := State([e], [], [], [], [e]), State([], [[e]], [], [], [e]), State([], [], [e], [], [e]);
    Reach(c, WithA(c, at, [], Numbered(e), 1, [S.Line], empty), Step.Hand, WithA(c, at, [], Nothing, 1, [S.Line], s1));
    Reach(c, WithA(c, at, [], Nothing, 1, [S.Line], s1), Ship(Take), WithA(c, at, [], Nothing, 1, [S.Line], s2));
    Reach(c, WithA(c, at, [], Nothing, 1, [S.Line], s2), Ship(StoreBatch(0)),
          WithA(c, at, [], Nothing, 1, [S.Line], s3));
    assert WithA(c, at, [], Nothing, 1, [S.Line], s3).ship.stored == [e];
  }
}
