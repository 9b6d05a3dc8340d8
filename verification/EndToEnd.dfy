/**
 From the pipes of a process to the pages of GetLogs: the readers, the log channel, the numbering,
 the shipper and the table taken together.
 */
module EndToEnd {
  import opened Common
  import opened LineReassembly
  import opened LogChannel
  import opened Shipper
  import P = LogPipeline
  import S = SeqNumbering
  import W = WatchLogs

  /** The texts of the entries with these labels. */
  function TextOf(entries: seq<Entry>, source: string, level: string): seq<Bytes>
  {
    if entries == [] then []
    else
      var last := entries[|entries| - 1];
      TextOf(entries[..|entries| - 1], source, level)
      + if last.source == source && last.level == level then [last.line] else []
  }

  lemma {:induction false} TellTexts(entries: seq<Entry>, lines: seq<LogLine>)
    requires Tell(entries, lines)
    ensures TextOf(entries, "stdout", "info") == Texts(lines, Stdout)
    ensures TextOf(entries, "stderr", "error") == Texts(lines, Stderr)
  {
    if entries == [] {
    } else {
      var n := |entries| - 1;
      TellTexts(entries[..n], lines[..n]);
      TellsApart(entries[n], lines[n]);
    }
  }

  lemma TellsApart(e: Entry, line: LogLine)
    requires Tells(e, line)
    ensures e.line == line.text
    ensures e.source == "stdout" && e.level == "info" <==> line.pipe == Stdout
    ensures e.source == "stderr" && e.level == "error" <==> line.pipe == Stderr
  {
    assert "stdout"[3] != "stderr"[3];
  }

  predicate LabelOk(e: Entry)
  {
    (e.source == "stdout" && e.level == "info") || (e.source == "stderr" && e.level == "error")
  }

  predicate Labelled(entries: seq<Entry>)
  {
    forall e :: e in entries ==> LabelOk(e)
  }

  /** Both readers have finished, streamLogs has passed everything on, and it has all been stored. */
  predicate Finished(s: Run)
  {
    s.out.closed && s.err.closed && s.channel == [] && s.hand.Nothing? && P.Drained(s.ship)
  }

  /** What has been added for the command in a finished run. */
  lemma {:induction false} AddedInRun(c: Id, steps: seq<Step>)
    requires CanRun(c, steps) && Finished(AfterSteps(c, steps))
    ensures var s := AfterSteps(c, steps);
            var lines := P.Of(s.ship.added, c);
            && P.Settles(s.ship) && P.NumberedBy(lines, s.history) && |lines| == |s.sent| && Labelled(lines)
            && TextOf(lines, "stdout", "info") == Delivered(RoomOf(s.out.room), s.out.chunks)
            && TextOf(lines, "stderr", "error") == Delivered(RoomOf(s.err.room), s.err.chunks)
  {
    var s := AfterSteps(c, steps);
    RunKeepsInv(c, steps);
    RunKeepsCommand(c, steps);
    assert Passed(s) == P.Of(s.ship.added, c);
    assert Behind(s) == [];
    assert s.sent[..|s.sent|] == s.sent;
    TellTexts(Passed(s), s.sent);
    assert s.out.offered + [] == s.out.offered && s.err.offered + [] == s.err.offered;
    forall e | e in P.Of(s.ship.added, c) ensures LabelOk(e) {
      var i :| 0 <= i < |Passed(s)| && Passed(s)[i] == e;
      TellsApart(e, s.sent[i]);
    }
  }

  /**
   The lines labelled "stdout" and "info" are, in order, what the reader of that pipe got into the
   channel, those labelled "stderr" and "error" what the other one did, and there are no others: in every run
   of the two readers, streamLogs and the shipper that has finished without losing a batch and in
   which at most one stretch between dispatches and results of the command has lines; for every
   order in which batches arrive and every order that the database gives to equal numbers.
   */
  lemma {:induction false} DeliveredComesBack(c: Id, steps: seq<Step>, size: int, pages: seq<seq<Entry>>)
    requires CanRun(c, steps) && Finished(AfterSteps(c, steps))
    requires S.OneOccupied(S.Stretches(OpsIn(steps)))
    requires P.PagesOf(AfterSteps(c, steps).ship.stored, c, size, pages)
    requires |pages| * P.ClampSize(size) >= |AfterSteps(c, steps).sent|
    ensures var s := AfterSteps(c, steps);
            && TextOf(Flatten(pages), "stdout", "info") == Delivered(RoomOf(s.out.room), ChunksOf(steps, Stdout))
            && TextOf(Flatten(pages), "stderr", "error") == Delivered(RoomOf(s.err.room), ChunksOf(steps, Stderr))
    ensures forall e :: e in Flatten(pages) ==>
              (e.source == "stdout" && e.level == "info") || (e.source == "stderr" && e.level == "error")
  {
    var s := AfterSteps(c, steps);
    AddedInRun(c, steps);
    RunReads(c, steps, Stdout);
    RunReads(c, steps, Stderr);
    RunRecords(c, steps);
    P.SettledIff(P.Of(s.ship.added, c), s.history);
    P.EnoughPagesGiveBack(s.ship, c, size, pages);
  }

  /** With no line dropped, what a reader got into the channel is what it emits. */
  lemma AllDelivered(r: PipeReader)
    requires ReaderOk(r) && r.closed && NothingDropped(r)
    ensures Delivered(RoomOf(r.room), r.chunks) == Emitted(false, r.chunks)
  {
    assert r.offered + [] == r.offered;
    AdmittedAgree(RoomOf(r.room), _ => true, r.offered);
    AdmittedSubsequence(_ => true, r.offered);
  }

  /**
   If moreover no line of the pipe was dropped, it is the effective stream that comes back; so it
   is the output of the process itself exactly if no read completed a line that an earlier read had
   begun.
   */
  lemma {:induction false} OutputComesBackIff(c: Id, steps: seq<Step>, pipe: Pipe, size: int, pages: seq<seq<Entry>>)
    requires CanRun(c, steps) && Finished(AfterSteps(c, steps))
    requires S.OneOccupied(S.Stretches(OpsIn(steps)))
    requires P.PagesOf(AfterSteps(c, steps).ship.stored, c, size, pages)
    requires |pages| * P.ClampSize(size) >= |AfterSteps(c, steps).sent|
    requires NothingDropped(ReaderOf(AfterSteps(c, steps), pipe))
    ensures var chunks := ChunksOf(steps, pipe);
            var texts := if pipe == Stdout then TextOf(Flatten(pages), "stdout", "info")
                         else TextOf(Flatten(pages), "stderr", "error");
            && texts == Pieces(Effective(chunks))
            && (texts == Pieces(Flatten(chunks)) <==> CleanReads(chunks))
  {
    var r := ReaderOf(AfterSteps(c, steps), pipe);
    DeliveredComesBack(c, steps, size, pages);
    RunReads(c, steps, pipe);
    RunKeepsInv(c, steps);
    AllDelivered(r);
    ShippedReaderFollowsEffective(r.chunks);
    ShippedReaderCorrectIff(r.chunks);
  }

  /** How many lines the reader of a pipe has to send, with the final carry. */
  function LinesToSend(r: PipeReader): nat
  {
    |Emitted(false, r.chunks)|
  }

  lemma TriedAtMost(r: PipeReader)
    requires ReaderOk(r)
    ensures |r.offered| <= LinesToSend(r)
    ensures r.closed && r.carry != [] ==> |r.offered| + 1 <= LinesToSend(r)
  {
  }

  /** In every run: as long as the two pipes together have no more lines than the channel holds, none is dropped. */
  lemma {:induction false} FewLinesAreNotDropped(c: Id, steps: seq<Step>)
    requires CanRun(c, steps)
    requires |Emitted(false, ChunksOf(steps, Stdout))| + |Emitted(false, ChunksOf(steps, Stderr))| <= 100
    ensures NothingDropped(AfterSteps(c, steps).out) && NothingDropped(AfterSteps(c, steps).err)
  {
    var s := AfterSteps(c, steps);
    RunKeepsInv(c, steps);
    RunReads(c, steps, Stdout);
    RunReads(c, steps, Stderr);
    TriedAtMost(s.out);
    TriedAtMost(s.err);
  }

  /**
   Exactly when the pages are sure to be the lines in order, for lines that can be told apart: one
   stretch at most has lines, and GetLogs does not replace the size that the caller counts by.
   */
  lemma {:induction false} LinesComeBackIff(c: Id, steps: seq<Step>, size: int)
    requires CanRun(c, steps) && Finished(AfterSteps(c, steps)) && size > 0
    requires var lines := P.Of(AfterSteps(c, steps).ship.added, c);
             forall i, j :: 0 <= i < j < |lines| ==> lines[i] != lines[j]
    ensures var s := AfterSteps(c, steps);
            P.AlwaysGiveBack(s.ship.stored, c, size, P.Of(s.ship.added, c)) <==>
            S.OneOccupied(S.Stretches(OpsIn(steps))) && (size <= 1000 || |s.sent| <= 100)
  {
    var s := AfterSteps(c, steps);
    AddedInRun(c, steps);
    RunRecords(c, steps);
    P.SettledIff(P.Of(s.ship.added, c), s.history);
    P.CountedPagesIff(s.ship, c, size);
  }

  // ----- following -----

  /** 1, 2, ..., k */
  function Count(k: nat): (ns: seq<int>)
    ensures |ns| == k && forall i :: 0 <= i < k ==> ns[i] == i + 1
  {
    seq(k, i => i + 1)
  }

  /** Positive numbers that rise, and with each number all smaller ones: they count up from 1. */
  lemma CountsUp(ns: seq<int>)
    requires W.Increasing(ns) && forall n, m :: n in ns && 0 < m < n ==> m in ns
    ensures forall i :: 0 <= i < |ns| ==> ns[i] == i + 1
  {
    if ns != [] {
      var all := Count(ns[|ns| - 1]);
      forall n | n in ns ensures n in all {
        var i :| 0 <= i < |ns| && ns[i] == n;
        assert all[n - 1] == n;
      }
      assert forall m :: m in all ==> m > 0;
      W.LowerPart(ns, all, |ns|);
    }
  }

  lemma NumbersOfOrder(lines: seq<Entry>, ops: seq<S.Op>, rows: seq<Entry>, m: nat)
    requires P.NumberedBy(lines, ops) && multiset(rows) == multiset(lines)
    ensures m in S.Numbers(ops) ==> exists r :: r in rows && r.number == m
    ensures forall r :: r in rows ==> r.number >= 0 && r.number in S.Numbers(ops)
  {
    forall r | r in rows ensures r.number >= 0 && r.number in S.Numbers(ops) {
      assert r in multiset(lines);
      var i :| 0 <= i < |lines| && lines[i] == r;
      assert S.Numbers(ops)[i] == r.number;
    }
    if m in S.Numbers(ops) {
      var i :| 0 <= i < |lines| && S.Numbers(ops)[i] == m;
      assert lines[i] in multiset(rows);
    }
  }

  lemma ShownBelow(lines: seq<Entry>, ops: seq<S.Op>, rows: seq<Entry>, n: int, m: int)
    requires P.NumberedBy(lines, ops) && P.IsOrder(lines, rows)
    requires n in W.Shown(rows) && 0 < m < n
    ensures m in W.Shown(rows)
  {
    W.ShownIn(rows);
    var q :| q in W.FirstPage(rows) && q.number == n;
    NumbersOfOrder(lines, ops, rows, m);
    S.NumbersBelow(ops);
    assert q in rows;
    var r :| r in rows && r.number == m;
    W.OnPageBelow(rows, q, r);
  }

  /**
   Following a finished execution: no line numbered 0 is ever shown, which is the first of every
   stretch between dispatches and results; and what can be shown is one line for each of the
   numbers 1, 2, 3 and so on.
   */
  lemma {:induction false} FollowerMissesFirstLines(c: Id, steps: seq<Step>, snapshots: seq<Option<seq<Entry>>>)
    requires CanRun(c, steps) && Finished(AfterSteps(c, steps)) && W.Accumulating(snapshots)
    requires P.IsOrder(P.Of(AfterSteps(c, steps).ship.stored, c), W.LastSeen(snapshots))
    ensures forall r :: r in W.Delivered(snapshots) ==> r.number > 0
    ensures forall i :: 0 <= i < |W.Shown(W.LastSeen(snapshots))| ==> W.Shown(W.LastSeen(snapshots))[i] == i + 1
  {
    var s, rows := AfterSteps(c, steps), W.LastSeen(snapshots);
    var lines := P.Of(s.ship.added, c);
    W.FollowRises(W.FirstPages(snapshots));
    AddedInRun(c, steps);
    P.StoredOrder(s.ship, c, rows);
    W.ShownIncreases(rows);
    forall n, m | n in W.Shown(rows) && 0 < m < n ensures m in W.Shown(rows) {
      ShownBelow(lines, s.history, rows, n, m);
    }
    CountsUp(W.Shown(rows));
  }
}
