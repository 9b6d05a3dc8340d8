/**
 The executor's pipe reader: reads of arbitrary size are glued back into lines.

 `incomplete` carries an unterminated line from one read to the next. The reader assigns it
 only when the data at hand does not end in a newline, so a carry that has just been
 completed stays behind and is prepended to the following read once more. `Feed` describes
 one read with and without that omission (`clear` is the one-line repair).
 */
module LineReassembly {
  import opened Common

  predicate EndsWithNewline(data: Bytes)
  {
    |data| > 0 && data[|data| - 1] == NL
  }

  // ----- reference: the lines of a whole byte string -----

  /** The terminated lines of `d`, without their newlines. */
  function Lines(d: Bytes): seq<Bytes>
  {
    if d == [] then []
    else if d[|d| - 1] == NL then Lines(d[..|d| - 1]) + [Tail(d[..|d| - 1])]
    else Lines(d[..|d| - 1])
  }

  /** What follows the last newline of `d`. */
  function Tail(d: Bytes): Bytes
  {
    if d == [] || d[|d| - 1] == NL then [] else Tail(d[..|d| - 1]) + [d[|d| - 1]]
  }

  function OneOrNone(line: Bytes): seq<Bytes>
  {
    if line == [] then [] else [line]
  }

  function NonEmpty(lines: seq<Bytes>): seq<Bytes>
  {
    if lines == [] then [] else NonEmpty(lines[..|lines| - 1]) + OneOrNone(lines[|lines| - 1])
  }

  /** The non-empty newline-separated pieces of a whole stream. */
  function Pieces(d: Bytes): seq<Bytes>
  {
    NonEmpty(Lines(d)) + OneOrNone(Tail(d))
  }

  function Unlines(lines: seq<Bytes>): Bytes
  {
    if lines == [] then [] else Unlines(lines[..|lines| - 1]) + lines[|lines| - 1] + [NL]
  }

  lemma LinesSnoc(d: Bytes, b: byte)
    ensures Lines(d + [b]) == if b == NL then Lines(d) + [Tail(d)] else Lines(d)
    ensures Tail(d + [b]) == if b == NL then [] else Tail(d) + [b]
  {
    assert (d + [b])[..|d|] == d;
  }

  lemma UnlinesOne(lines: seq<Bytes>, line: Bytes)
    ensures Unlines(lines + [line]) == Unlines(lines) + line + [NL]
  {
    assert (lines + [line])[..|lines|] == lines;
  }

  /** Lines and tail of `d` are `d`, cut at its newlines. */
  predicate Cut(d: Bytes, lines: seq<Bytes>, tail: Bytes)
  {
    && Unlines(lines) + tail == d
    && NL !in tail && forall l :: l in lines ==> NL !in l
  }

  lemma CutSnoc(d: Bytes, lines: seq<Bytes>, tail: Bytes, b: byte, more: Bytes)
    requires Cut(d, lines, tail) && more == d + [b]
    ensures b == NL ==> Cut(more, lines + [tail], [])
    ensures b != NL ==> Cut(more, lines, tail + [b])
  {
    if b == NL {
      UnlinesOne(lines, tail);
    } else {
      ConcatAssociates(Unlines(lines), tail, [b]);
    }
  }

  lemma {:induction false} CutAtNewlines(d: Bytes)
    ensures Cut(d, Lines(d), Tail(d))
  {
    if d == [] {
    } else {
      var e, b := d[..|d| - 1], d[|d| - 1];
      CutAtNewlines(e);
      CutSnoc(e, Lines(e), Tail(e), b, d);
      assert Lines(d) == if b == NL then Lines(e) + [Tail(e)] else Lines(e);
      assert Tail(d) == if b == NL then [] else Tail(e) + [b];
    }
  }

  lemma LinesJoin(d: Bytes)
    ensures Unlines(Lines(d)) + Tail(d) == d
    ensures NL !in Tail(d) && forall l :: l in Lines(d) ==> NL !in l
  {
    CutAtNewlines(d);
  }

  lemma {:induction false} LinesOfTail(t: Bytes)
    requires NL !in t
    ensures Lines(t) == [] && Tail(t) == t
  {
    if t == [] {
    } else {
      LinesOfTail(t[..|t| - 1]);
    }
  }

  lemma SplitLast(a: Bytes, b: Bytes)
    requires b != []
    ensures a + b == a + b[..|b| - 1] + [b[|b| - 1]]
  {
    assert b == b[..|b| - 1] + [b[|b| - 1]];
  }

  lemma LinesStep(x: Bytes, y: Bytes, front: seq<Bytes>, c: byte)
    requires Lines(x) == front + Lines(y) && Tail(x) == Tail(y)
    ensures Lines(x + [c]) == front + Lines(y + [c]) && Tail(x + [c]) == Tail(y + [c])
  {
    LinesSnoc(x, c);
    LinesSnoc(y, c);
    ConcatAssociates(front, Lines(y), [Tail(y)]);
  }

  lemma LinesAppendNothing(a: Bytes)
    ensures a + [] == a && Tail(a) + [] == Tail(a)
    ensures Lines(Tail(a)) == [] && Tail(Tail(a)) == Tail(a)
  {
    LinesJoin(a);
    LinesOfTail(Tail(a));
  }

  /** Splitting a concatenation: only the tail of the first part meets the second part. */
  lemma {:induction false} LinesAppend(a: Bytes, b: Bytes)
    ensures Lines(a + b) == Lines(a) + Lines(Tail(a) + b)
    ensures Tail(a + b) == Tail(Tail(a) + b)
  {
    if b == [] {
      LinesAppendNothing(a);
    } else {
      var n := |b| - 1;
      LinesAppend(a, b[..n]);
      SplitLast(a, b);
      SplitLast(Tail(a), b);
      LinesStep(a + b[..n], Tail(a) + b[..n], Lines(a), b[n]);
    }
  }

  /** `Lines` and `Tail` are the only way to cut a byte string at its newlines. */
  lemma {:induction false} LinesUnique(lines: seq<Bytes>, tail: Bytes)
    requires NL !in tail && forall l :: l in lines ==> NL !in l
    ensures Lines(Unlines(lines) + tail) == lines && Tail(Unlines(lines) + tail) == tail
  {
    if lines == [] {
      assert Unlines(lines) + tail == tail;
      LinesOfTail(tail);
    } else {
      var n := |lines| - 1;
      var l := lines[n];
      var u := Unlines(lines[..n]) + l;
      LinesUnique(lines[..n], l);
      assert Unlines(lines) == u + [NL];
      assert Unlines(lines)[..|u|] == u;
      assert Lines(Unlines(lines)) == lines && Tail(Unlines(lines)) == [];
      LinesAppend(Unlines(lines), tail);
      assert [] + tail == tail;
      LinesOfTail(tail);
    }
  }

  // ----- splitLines -----

  /** What splitLines returns: the terminated lines and, if any, the unterminated rest. */
  function Split(d: Bytes): seq<Bytes>
  {
    Lines(d) + OneOrNone(Tail(d))
  }

  lemma UnlinesSnoc(data: Bytes, lines: seq<Bytes>, start: nat, i: nat)
    requires start <= i < |data| && data[i] == NL && Unlines(lines) == data[..start]
    ensures Unlines(lines + [data[start..i]]) == data[..i + 1]
  {
    assert (lines + [data[start..i]])[..|lines|] == lines;
    assert data[..i + 1] == data[..start] + data[start..i] + [NL];
  }

  method SplitLines(data: Bytes) returns (lines: seq<Bytes>)
    ensures lines == Split(data)
  {
    lines := [];
    var start := 0;
    for i := 0 to |data|
      invariant 0 <= start <= i
      invariant Unlines(lines) == data[..start]
      invariant forall l :: l in lines ==> NL !in l
      invariant NL !in data[start..i]
    {
      if data[i] == NL {
        UnlinesSnoc(data, lines, start, i);
        lines := lines + [data[start..i]];
        start := i + 1;
      }
    }
    assert data == data[..start] + data[start..];
    LinesUnique(lines, data[start..]);
    if start < |data| {
      lines := lines + [data[start..]];
    }
  }

  // ----- streamOutput -----

  datatype Reader = Reader(out: seq<Bytes>, carry: Bytes)

  /** One read. With `clear` the carry is dropped once its line has been completed. */
  function Feed(clear: bool, r: Reader, chunk: Bytes): Reader
  {
    if chunk == [] then r
    else
      var data := r.carry + chunk;
      Reader(r.out + NonEmpty(Lines(data)),
             if !EndsWithNewline(data) then Tail(data) else if clear then [] else r.carry)
  }

  function After(clear: bool, chunks: seq<Bytes>): Reader
  {
    if chunks == [] then Reader([], [])
    else Feed(clear, After(clear, chunks[..|chunks| - 1]), chunks[|chunks| - 1])
  }

  lemma AfterStep(clear: bool, chunks: seq<Bytes>, k: nat)
    requires k < |chunks|
    ensures After(clear, chunks[..k + 1]) == Feed(clear, After(clear, chunks[..k]), chunks[k])
  {
    assert chunks[..k + 1][..k] == chunks[..k];
  }

  /** The lines among `lines` for which the log channel had room when they were offered. */
  function Admitted(room: nat -> bool, lines: seq<Bytes>): seq<Bytes>
  {
    if lines == [] then []
    else Admitted(room, lines[..|lines| - 1]) + if room(|lines| - 1) then [lines[|lines| - 1]] else []
  }

  /** Everything a reader emits when the pipe is exhausted and the channel never fills up. */
  function Emitted(clear: bool, chunks: seq<Bytes>): seq<Bytes>
  {
    After(clear, chunks).out + OneOrNone(After(clear, chunks).carry)
  }

  /** What reaches the log channel: lines are dropped where it is full, the final carry never is. */
  function Delivered(room: nat -> bool, chunks: seq<Bytes>): seq<Bytes>
  {
    Admitted(room, After(false, chunks).out) + OneOrNone(After(false, chunks).carry)
  }

  lemma AdmittedSnoc(room: nat -> bool, lines: seq<Bytes>, line: Bytes)
    ensures Admitted(room, lines + [line]) == Admitted(room, lines) + if room(|lines|) then [line] else []
  {
    assert (lines + [line])[..|lines|] == lines;
  }

  lemma NonEmptyStep(lines: seq<Bytes>, i: nat)
    requires i < |lines|
    ensures NonEmpty(lines[..i + 1]) == NonEmpty(lines[..i]) + OneOrNone(lines[i])
  {
    assert lines[..i + 1][..i] == lines[..i];
  }

  /** Where the loop over the lines of one read stops, and with which carry. */
  lemma FeedDone(r: Reader, chunk: Bytes, i: nat, incomplete: Bytes)
    requires chunk != [] && i <= |Split(r.carry + chunk)|
    requires if EndsWithNewline(r.carry + chunk) then i == |Split(r.carry + chunk)| && incomplete == r.carry
             else i == |Split(r.carry + chunk)| - 1 && incomplete == Split(r.carry + chunk)[i]
    ensures Feed(false, r, chunk) == Reader(r.out + NonEmpty(Split(r.carry + chunk)[..i]), incomplete)
  {
    var data := r.carry + chunk;
    assert Split(data)[..|Lines(data)|] == Lines(data);
  }

  /** One line of a read is offered to the log channel, or skipped because it is empty. */
  lemma OfferStep(room: nat -> bool, before: seq<Bytes>, lines: seq<Bytes>, i: nat, offered: seq<Bytes>)
    requires i < |lines| && offered == before + NonEmpty(lines[..i])
    ensures lines[i] == [] ==> before + NonEmpty(lines[..i + 1]) == offered
    ensures lines[i] != [] ==> before + NonEmpty(lines[..i + 1]) == offered + [lines[i]]
    ensures lines[i] != [] ==>
              (Admitted(room, offered + [lines[i]])
               == Admitted(room, offered) + if room(|offered|) then [lines[i]] else [])
  {
    NonEmptyStep(lines, i);
    AdmittedSnoc(room, offered, lines[i]);
  }

  /** What the reader does with the bytes of one read; `offered` are the lines offered so far. */
  method DeliverRead(incomplete: Bytes, chunk: Bytes, room: nat -> bool, count: nat, ghost offered: seq<Bytes>)
    returns (carry: Bytes, delivered: seq<Bytes>, more: nat)
    requires chunk != [] && count == |offered|
    ensures var r := Feed(false, Reader(offered, incomplete), chunk);
            carry == r.carry && count + more == |r.out|
            && Admitted(room, r.out) == Admitted(room, offered) + delivered
  {
    carry := incomplete;
    delivered := [];
    more := 0;
    var data := incomplete + chunk;
    var lines := SplitLines(data);
    ghost var all := offered;
    assert offered + NonEmpty(lines[..0]) == offered;
    var i := 0;
    while i < |lines|
      invariant 0 <= i <= |lines| && carry == incomplete
      invariant i == |lines| ==> EndsWithNewline(data)
      invariant all == offered + NonEmpty(lines[..i]) && count + more == |all|
      invariant Admitted(room, all) == Admitted(room, offered) + delivered
    {
      var line := lines[i];
      if i == |lines| - 1 && !EndsWithNewline(data) {
        carry := line;
        break;
      }
      OfferStep(room, offered, lines, i, all);
      if line != [] {
        all := all + [line];
        if room(count + more) {
          ConcatAssociates(Admitted(room, offered), delivered, [line]);
          delivered := delivered + [line];
        }
        more := more + 1;
      }
      i := i + 1;
    }
    FeedDone(Reader(offered, incomplete), chunk, i, carry);
  }

  /**
   The reader loop. `chunks` is what successive calls of Read return before the end of the
   pipe; `room(i)` says whether the channel has room for the i-th line offered to it. Complete
   lines are offered without blocking, the final carry is sent with a blocking send.
   */
  method StreamOutput(chunks: seq<Bytes>, room: nat -> bool) returns (delivered: seq<Bytes>)
    ensures delivered == Delivered(room, chunks)
  {
    delivered := [];
    var incomplete: Bytes := [];
    var count := 0;
    for k := 0 to |chunks|
      invariant incomplete == After(false, chunks[..k]).carry
      invariant count == |After(false, chunks[..k]).out|
      invariant delivered == Admitted(room, After(false, chunks[..k]).out)
    {
      AfterStep(false, chunks, k);
      var chunk := chunks[k];
      if |chunk| > 0 {
        var added, more;
        incomplete, added, more := DeliverRead(incomplete, chunk, room, count, After(false, chunks[..k]).out);
        delivered := delivered + added;
        count := count + more;
      }
    }
    assert chunks[..|chunks|] == chunks;
    if |incomplete| > 0 {
      delivered := delivered + [incomplete];
    }
  }

  lemma AdmittedOne(room: nat -> bool, lines: seq<Bytes>, line: Bytes)
    requires IsSubsequence(Admitted(room, lines), lines)
    ensures IsSubsequence(Admitted(room, lines + [line]), lines + [line])
    ensures room(|lines|) && Admitted(room, lines) == lines ==> Admitted(room, lines + [line]) == lines + [line]
  {
    AdmittedSnoc(room, lines, line);
    if room(|lines|) {
      SubsequenceKeep(Admitted(room, lines), lines, line);
    } else {
      assert Admitted(room, lines + [line]) == Admitted(room, lines);
      SubsequenceDrop(Admitted(room, lines), lines, line);
    }
  }

  lemma {:induction false} AdmittedSubsequence(room: nat -> bool, lines: seq<Bytes>)
    ensures IsSubsequence(Admitted(room, lines), lines)
    ensures (forall i: nat :: room(i)) ==> Admitted(room, lines) == lines
  {
    if lines == [] {
    } else {
      var n := |lines| - 1;
      AdmittedSubsequence(room, lines[..n]);
      AdmittedOne(room, lines[..n], lines[n]);
      assert lines == lines[..n] + [lines[n]];
    }
  }

  /** A full channel only removes lines, and none are removed while there is room. */
  lemma DeliveredSubsequence(room: nat -> bool, chunks: seq<Bytes>)
    ensures IsSubsequence(Delivered(room, chunks), Emitted(false, chunks))
    ensures (forall i: nat :: room(i)) ==> Delivered(room, chunks) == Emitted(false, chunks)
  {
    var r := After(false, chunks);
    AdmittedSubsequence(room, r.out);
    if r.carry == [] {
      assert Delivered(room, chunks) == Admitted(room, r.out) && Emitted(false, chunks) == r.out;
    } else {
      SubsequenceKeep(Admitted(room, r.out), r.out, r.carry);
    }
  }

  // ----- what the reader as written emits -----

  /** The carry left behind by a read that ends in a newline while a line was pending. */
  function Stale(chunks: seq<Bytes>): Bytes
    requires chunks != []
  {
    if EndsWithNewline(chunks[|chunks| - 1]) then After(false, chunks[..|chunks| - 1]).carry else []
  }

  /** The stream the reader behaves as if it had read: every stale carry comes once more. */
  function Effective(chunks: seq<Bytes>): Bytes
  {
    if chunks == [] then []
    else Effective(chunks[..|chunks| - 1]) + chunks[|chunks| - 1] + Stale(chunks)
  }

  function StaleBytes(chunks: seq<Bytes>): nat
  {
    if chunks == [] then 0 else StaleBytes(chunks[..|chunks| - 1]) + |Stale(chunks)|
  }

  lemma NonEmptyConcat(a: seq<Bytes>, b: seq<Bytes>)
    ensures NonEmpty(a + b) == NonEmpty(a) + NonEmpty(b)
  {
    if b == [] {
      assert a + b == a;
    } else {
      assert (a + b)[..|a + b| - 1] == a + b[..|b| - 1];
      NonEmptyConcat(a, b[..|b| - 1]);
    }
  }

  /** A reader at the lines and tail of `d` is, after a read, at those of the longer stream. */
  lemma FeedFollows(clear: bool, r: Reader, d: Bytes, chunk: Bytes)
    requires chunk != [] && r == Reader(NonEmpty(Lines(d)), Tail(d))
    ensures Feed(clear, r, chunk).out == NonEmpty(Lines(d + chunk))
    ensures EndsWithNewline(r.carry + chunk) == EndsWithNewline(chunk)
    ensures EndsWithNewline(chunk) ==> Tail(d + chunk) == []
    ensures !EndsWithNewline(chunk) ==> Feed(clear, r, chunk).carry == Tail(d + chunk)
  {
    LinesAppend(d, chunk);
    NonEmptyConcat(Lines(d), Lines(Tail(d) + chunk));
  }

  /** Exact behaviour: the reader emits the pieces of the effective stream, for any chunking. */
  lemma {:induction false} ShippedReaderFollowsEffective(chunks: seq<Bytes>)
    ensures After(false, chunks) == Reader(NonEmpty(Lines(Effective(chunks))), Tail(Effective(chunks)))
    ensures Emitted(false, chunks) == Pieces(Effective(chunks))
  {
    if chunks == [] {
    } else {
      var n := |chunks| - 1;
      ShippedReaderFollowsEffective(chunks[..n]);
      EffectiveStep(After(false, chunks[..n]), Effective(chunks[..n]), chunks[n], Stale(chunks));
    }
  }

  lemma EffectiveStep(r: Reader, d: Bytes, chunk: Bytes, stale: Bytes)
    requires r == Reader(NonEmpty(Lines(d)), Tail(d))
    requires stale == if EndsWithNewline(chunk) then r.carry else []
    ensures Feed(false, r, chunk) ==
            Reader(NonEmpty(Lines(d + chunk + stale)), Tail(d + chunk + stale))
  {
    if chunk == [] {
      assert d + chunk + stale == d;
    } else {
      FeedFollows(false, r, d, chunk);
      if EndsWithNewline(chunk) {
        LinesJoin(d);
        AppendToEnded(d + chunk, stale);
      } else {
        assert d + chunk + stale == d + chunk;
      }
    }
  }

  lemma AppendToEnded(d: Bytes, t: Bytes)
    requires Tail(d) == [] && NL !in t
    ensures Lines(d + t) == Lines(d) && Tail(d + t) == t
  {
    LinesAppend(d, t);
    assert [] + t == t;
    LinesOfTail(t);
  }

  /** The repaired reader emits the pieces of the stream, so chunking cannot be observed. */
  lemma {:induction false} RepairedReaderFollowsStream(chunks: seq<Bytes>)
    ensures After(true, chunks) == Reader(NonEmpty(Lines(Flatten(chunks))), Tail(Flatten(chunks)))
    ensures Emitted(true, chunks) == Pieces(Flatten(chunks))
  {
    if chunks == [] {
    } else {
      var n := |chunks| - 1;
      RepairedReaderFollowsStream(chunks[..n]);
      if chunks[n] == [] {
        assert Flatten(chunks) == Flatten(chunks[..n]);
      } else {
        FeedFollows(true, After(true, chunks[..n]), Flatten(chunks[..n]), chunks[n]);
      }
    }
  }

  lemma {:induction false} RepairedReaderIgnoresChunking(chunks: seq<Bytes>, others: seq<Bytes>)
    requires Flatten(chunks) == Flatten(others)
    ensures Emitted(true, chunks) == Emitted(true, others)
  {
    RepairedReaderFollowsStream(chunks);
    RepairedReaderFollowsStream(others);
  }

  // ----- when the reader as written is right -----

  /** No read ends in a newline that terminates a line begun by an earlier read. */
  predicate CleanReads(chunks: seq<Bytes>)
  {
    forall i :: 0 <= i < |chunks| && EndsWithNewline(chunks[i]) ==>
                  Flatten(chunks[..i]) == [] || EndsWithNewline(Flatten(chunks[..i]))
  }

  lemma {:induction false} StaleBytesIff(chunks: seq<Bytes>)
    ensures CleanReads(chunks) <==> StaleBytes(chunks) == 0
    ensures CleanReads(chunks) ==> Effective(chunks) == Flatten(chunks)
  {
    if chunks == [] {
    } else {
      var n := |chunks| - 1;
      StaleBytesIff(chunks[..n]);
      ShippedReaderFollowsEffective(chunks[..n]);
      CleanReadsSnoc(chunks);
    }
  }

  lemma CleanReadsSnoc(chunks: seq<Bytes>)
    requires chunks != []
    ensures CleanReads(chunks) <==>
            var n := |chunks| - 1;
            CleanReads(chunks[..n]) &&
            (EndsWithNewline(chunks[n]) ==>
               Flatten(chunks[..n]) == [] || EndsWithNewline(Flatten(chunks[..n])))
  {
    var n := |chunks| - 1;
    assert forall i :: 0 <= i < n ==> chunks[..n][i] == chunks[i] && chunks[..n][..i] == chunks[..i];
  }

  function Size(lines: seq<Bytes>): nat
  {
    if lines == [] then 0 else Size(lines[..|lines| - 1]) + |lines[|lines| - 1]|
  }

  /** The number of bytes of `d` that are not newlines. */
  function Content(d: Bytes): nat
  {
    if d == [] then 0 else Content(d[..|d| - 1]) + if d[|d| - 1] == NL then 0 else 1
  }

  lemma {:induction false} ContentConcat(a: Bytes, b: Bytes)
    ensures Content(a + b) == Content(a) + Content(b)
  {
    if b == [] {
      assert a + b == a;
    } else {
      assert (a + b)[..|a + b| - 1] == a + b[..|b| - 1];
      ContentConcat(a, b[..|b| - 1]);
    }
  }

  lemma ContentOfTail(t: Bytes)
    requires NL !in t
    ensures Content(t) == |t|
  {
  }

  lemma {:induction false} SizeOfPieces(d: Bytes)
    ensures Size(NonEmpty(Lines(d))) + |Tail(d)| == Content(d)
    ensures Size(Pieces(d)) == Content(d)
  {
    if d == [] {
    } else {
      var e := d[..|d| - 1];
      SizeOfPieces(e);
      var l := Lines(e);
      assert (l + [Tail(e)])[..|l|] == l;
      assert NonEmpty(l + [Tail(e)]) == NonEmpty(l) + OneOrNone(Tail(e));
      SizeSnoc(NonEmpty(l), Tail(e));
    }
    SizeSnoc(NonEmpty(Lines(d)), Tail(d));
  }

  lemma SizeSnoc(lines: seq<Bytes>, line: Bytes)
    ensures Size(lines + OneOrNone(line)) == Size(lines) + |line|
  {
    if line == [] {
      assert lines + OneOrNone(line) == lines;
    } else {
      assert (lines + [line])[..|lines|] == lines;
    }
  }

  /** The stale carries are emitted on top of the stream's own bytes, and nothing else is. */
  lemma {:induction false} ShippedReaderExtraBytes(chunks: seq<Bytes>)
    ensures Size(Emitted(false, chunks)) == Content(Flatten(chunks)) + StaleBytes(chunks)
  {
    ShippedReaderFollowsEffective(chunks);
    SizeOfPieces(Effective(chunks));
    EffectiveContent(chunks);
  }

  lemma {:induction false} EffectiveContent(chunks: seq<Bytes>)
    ensures Content(Effective(chunks)) == Content(Flatten(chunks)) + StaleBytes(chunks)
  {
    if chunks == [] {
    } else {
      var n := |chunks| - 1;
      EffectiveContent(chunks[..n]);
      ShippedReaderFollowsEffective(chunks[..n]);
      LinesJoin(Effective(chunks[..n]));
      ContentConcat(Effective(chunks[..n]) + chunks[n], Stale(chunks));
      ContentConcat(Effective(chunks[..n]), chunks[n]);
      ContentConcat(Flatten(chunks[..n]), chunks[n]);
      ContentOfTail(Stale(chunks));
    }
  }

  /** The lines are right exactly when no read completes a line that an earlier read began. */
  lemma {:induction false} ShippedReaderCorrectIff(chunks: seq<Bytes>)
    ensures Emitted(false, chunks) == Pieces(Flatten(chunks)) <==> CleanReads(chunks)
  {
    StaleBytesIff(chunks);
    ShippedReaderFollowsEffective(chunks);
    ShippedReaderExtraBytes(chunks);
    SizeOfPieces(Flatten(chunks));
  }

  /** A two-read output for which a line comes out twice: "a" then "b\n". */
  lemma ShippedReaderRepeatsACarry()
    ensures Emitted(false, [[97], [98, 10]]) == [[97, 98], [97]]
    ensures Pieces(Flatten([[97], [98, 10]])) == [[97, 98]]
  {
    var chunks: seq<Bytes> := [[97], [98, NL]];
    assert chunks[..1] == [[97]];
    var d: Bytes := [97, 98, NL];
    assert d[..2] == [97, 98] && d[..2][..1] == [97];
    LinesOfTail([97]);
    LinesOfTail([97, 98]);
    assert chunks[..1][..0] == [];
    assert After(false, chunks[..1]) == Reader([], [97]);
    assert Lines(d) == [[97, 98]] && Tail(d) == [];
    assert Lines(d)[..0] == [];
    assert NonEmpty(Lines(d)) == [[97, 98]];
    assert [97] + [98, NL] == d;
    assert Flatten(chunks[..1]) == [97];
    assert Flatten(chunks) == d;
  }
}
