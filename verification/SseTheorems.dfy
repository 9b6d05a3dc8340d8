/** Round trip, truncation safety and agreement of the event-stream parsers. */
module SseTheorems {
  import opened Common
  import opened SseCodec

  /** Non-empty text without newline that TrimSpace leaves alone, as JSON and event names are. */
  predicate Printable(s: Bytes)
  {
    s != [] && NL !in s && SpaceAtStart(s) == 0 && SpaceAtEnd(s) == 0
  }

  predicate WellFormed(e: Event)
  {
    Printable(e.kind) && Printable(e.data)
  }

  /** Both lines of the event are short enough for the scanner. */
  predicate Fits(e: Event)
  {
    7 + |e.kind| <= 65535 && 6 + |e.data| <= 65535
  }

  /** How many of `events` lie completely within the first `n` bytes of their stream. */
  function Whole(events: seq<Event>, n: nat): (k: nat)
    ensures k <= |events|
  {
    if events == [] || n < |FormatSSE(events[0])| then 0
    else 1 + Whole(events[1..], n - |FormatSSE(events[0])|)
  }

  /** How many events the scanner reads before the first one with an oversized line. */
  function Readable(events: seq<Event>): (k: nat)
    ensures k <= |events|
  {
    if events == [] || !Fits(events[0]) then 0 else 1 + Readable(events[1..])
  }

  predicate Accepts(d: Dialect, decodes: Bytes -> bool, e: Event)
  {
    match d
    case Client => e.kind == DISPATCH && decodes(e.data)
    case Sdk => decodes(e.data)
    case Html => true
  }

  function Accepted1(d: Dialect, decodes: Bytes -> bool, e: Event): seq<Event>
  {
    if Accepts(d, decodes, e) then [e] else []
  }

  /** The events of a list that a parser of this dialect passes on. */
  function Accepted(d: Dialect, decodes: Bytes -> bool, events: seq<Event>): seq<Event>
  {
    if events == [] then []
    else Accepted1(d, decodes, events[0]) + Accepted(d, decodes, events[1..])
  }

  // ----- bytes -----

  /** The bytes of a text in ASCII. */
  function Ascii(s: string): (b: Bytes)
    requires forall i :: 0 <= i < |s| ==> s[i] as int < 128
    ensures |b| == |s| && forall i :: 0 <= i < |s| ==> b[i] as int == s[i] as int
  {
    seq(|s|, i requires 0 <= i < |s| && s[i] as int < 128 => s[i] as int as byte)
  }

  lemma AsciiWords()
    ensures Ascii("event: ") == EVENT_FIELD + [SP] && Ascii("\ndata: ") == [NL] + DATA_FIELD + [SP]
    ensures Ascii("\n\n") == [NL] + [NL]
    ensures DISPATCH == Ascii("command_dispatch") && MESSAGE == Ascii("message")
  {
  }

  lemma Ends(front: Bytes, name: Bytes, data: Bytes)
    requires name == [NL] + DATA_FIELD + [SP]
    ensures front + [NL] + (DATA_FIELD + [SP] + data) + [NL] + [NL] == front + name + data + ([NL] + [NL])
  {
  }

  /** What the server writes for an event. */
  lemma PrintedEvent(e: Event)
    ensures FormatSSE(e) == Ascii("event: ") + e.kind + Ascii("\ndata: ") + e.data + Ascii("\n\n")
    ensures DISPATCH == Ascii("command_dispatch") && MESSAGE == Ascii("message")
  {
    AsciiWords();
    Ends(EVENT_FIELD + [SP] + e.kind, [NL] + DATA_FIELD + [SP], e.data);
  }

  /** The encoding of a code point in UTF-8. */
  function Utf8(c: int): Bytes
    requires 0 <= c < 0x110000
  {
    if c < 0x80 then [c as byte]
    else if c < 0x800 then [(0xC0 + c / 64) as byte, (0x80 + c % 64) as byte]
    else if c < 0x10000 then [(0xE0 + c / 4096) as byte, (0x80 + c / 64 % 64) as byte, (0x80 + c % 64) as byte]
    else [(0xF0 + c / 262144) as byte, (0x80 + c / 4096 % 64) as byte, (0x80 + c / 64 % 64) as byte,
          (0x80 + c % 64) as byte]
  }

  /** unicode.IsSpace */
  predicate IsSpace(c: int)
  {
    || 9 <= c <= 13 || c == 32 || c == 0x85 || c == 0xA0 || c == 0x1680 || 0x2000 <= c <= 0x200A
    || c == 0x2028 || c == 0x2029 || c == 0x202F || c == 0x205F || c == 0x3000
  }

  lemma SpaceFirst(c: int, rest: Bytes)
    requires 0 <= c < 0x110000
    ensures SpaceAtStart(Utf8(c) + rest) == if IsSpace(c) then |Utf8(c)| else 0
  {
    var e, s := Utf8(c), Utf8(c) + rest;
    assert forall i :: 0 <= i < |e| ==> s[i] == e[i];
  }

  lemma SpaceLast(c: int, rest: Bytes)
    requires 0 <= c < 0x110000
    ensures SpaceAtEnd(rest + Utf8(c)) == if IsSpace(c) then |Utf8(c)| else 0
  {
    var e, s := Utf8(c), rest + Utf8(c);
    assert forall i :: 0 <= i < |e| ==> s[|rest| + i] == e[i];
  }

  /** TrimSpace finds just the white space of Unicode at either end of encoded text. */
  lemma SpacesOfUnicode(c: int, rest: Bytes)
    requires 0 <= c < 0x110000
    ensures SpaceAtStart(Utf8(c) + rest) == if IsSpace(c) then |Utf8(c)| else 0
    ensures SpaceAtEnd(rest + Utf8(c)) == if IsSpace(c) then |Utf8(c)| else 0
  {
    SpaceFirst(c, rest);
    SpaceLast(c, rest);
  }

  /** `part` is a stretch of `s`. */
  ghost predicate StretchOf(part: Bytes, s: Bytes)
  {
    exists i, j :: 0 <= i <= j <= |s| && part == s[i..j]
  }

  lemma StretchWithin(part: Bytes, s: Bytes, a: nat, b: nat)
    requires a <= b <= |s| && StretchOf(part, s[a..b])
    ensures StretchOf(part, s)
  {
    var i, j :| 0 <= i <= j <= b - a && part == s[a..b][i..j];
    var u, v := a + i, a + j;
    assert |s[u..v]| == |part|;
    assert forall k :: 0 <= k < |part| ==> part[k] == s[a..b][i + k] == s[u..v][k];
    assert part == s[u..v];
  }

  /** What TrimSpace leaves is a stretch of its argument that neither begins nor ends with white space. */
  lemma {:induction false} TrimLeaves(s: Bytes)
    ensures StretchOf(Trim(s), s)
    ensures SpaceAtStart(Trim(s)) == 0 && SpaceAtEnd(Trim(s)) == 0
    decreases |s|
  {
    var n, m := SpaceAtStart(s), SpaceAtEnd(s);
    if n > 0 {
      TrimLeaves(s[n..]);
      assert s[n..] == s[n..|s|];
      StretchWithin(Trim(s), s, n, |s|);
    } else if m > 0 {
      TrimLeaves(s[..|s| - m]);
      assert s[..|s| - m] == s[0..|s| - m];
      StretchWithin(Trim(s), s, 0, |s| - m);
    } else {
      assert s == s[0..|s|];
    }
  }

  /** A line that ends in CR LF is read without either. */
  lemma CarriageReturnIsDropped(a: Bytes, rest: Bytes)
    requires 10 !in a && |a| < 65535
    ensures ScanLines(a + [13, 10] + rest) == [a] + ScanLines(rest)
  {
    FirstLine(Sdk, a + [CR], rest);
    assert a + [13, 10] + rest == a + [CR] + [NL] + rest;
  }

  /** The standard's algorithm ends a line at LF, at CR LF and at CR alone, and skips a byte order mark. */
  lemma HtmlLineEnds(a: Bytes, rest: Bytes)
    requires 10 !in a && 13 !in a
    ensures HtmlLines(a + [10] + rest) == [a] + HtmlLines(rest)
    ensures HtmlLines(a + [13, 10] + rest) == [a] + HtmlLines(rest)
    ensures rest == [] || rest[0] != 10 ==> HtmlLines(a + [13] + rest) == [a] + HtmlLines(rest)
    ensures WithoutBom([0xEF, 0xBB, 0xBF] + rest) == rest
  {
    HtmlLineEnd(a, [NL], rest);
    HtmlLineEnd(a, [CR, NL], rest);
    if rest == [] || rest[0] != NL {
      HtmlLineEnd(a, [CR], rest);
    }
  }

  lemma HtmlLineEnd(a: Bytes, end: Bytes, rest: Bytes)
    requires NL !in a && CR !in a
    requires end == [NL] || end == [CR, NL] || (end == [CR] && (rest == [] || rest[0] != NL))
    ensures HtmlLines(a + end + rest) == [a] + HtmlLines(rest)
  {
    var s := a + end + rest;
    FirstOfAppend(a, end + rest, {NL, CR});
    assert s == a + (end + rest);
    assert s[|a|] == end[0] && s[..|a|] == a && s[|a| + |end|..] == rest;
    assert |end| == 1 && |a| + 1 < |s| ==> s[|a| + 1] == rest[0];
    assert |end| == 2 ==> s[|a| + 1] == NL;
  }

  /** A comment, or any line that names neither field, is passed over by all three parsers. */
  lemma CommentIsIgnored(d: Dialect, decodes: Bytes -> bool, p: Parser, text: Bytes)
    ensures Step(d, decodes, p, [58] + text) == p
  {
    assert ([58] + text)[0] == COLON;
  }

  // ----- one event -----

  lemma TrimField(s: Bytes)
    requires Printable(s)
    ensures Trim([SP] + s) == s
  {
    assert ([SP] + s)[1..] == s;
  }

  /** A line that the dialect can read to its newline. */
  predicate Legible(d: Dialect, a: Bytes)
  {
    NL !in a && if d == Html then CR !in a else |a| <= MAX_LINE
  }

  lemma FirstLine(d: Dialect, a: Bytes, rest: Bytes)
    requires Legible(d, a)
    ensures LinesFor(d, a + [NL] + rest) == [if d == Html then a else DropCR(a)] + LinesFor(d, rest)
  {
    var s := a + [NL] + rest;
    FirstOfAppend(a, [NL] + rest, if d == Html then {NL, CR} else {NL});
    assert s == a + ([NL] + rest);
    assert s[..|a|] == a && s[|a| + 1..] == rest;
  }

  /** Text without a line end is at most one line, and a blank one only if it is a lone CR. */
  lemma PartialLine(d: Dialect, a: Bytes)
    requires NL !in a && (d == Html ==> CR !in a)
    requires a != [] ==> a[0] != CR
    ensures [] !in LinesFor(d, a)
  {
    FirstOfAppend(a, [], if d == Html then {NL, CR} else {NL});
    assert a + [] == a;
  }

  lemma TooLongLine(a: Bytes, rest: Bytes)
    requires NL !in a && |a| > MAX_LINE && (rest == [] || rest[0] == NL)
    ensures ScanLines(a + rest) == []
  {
    FirstOfAppend(a, rest, {NL});
  }

  /** The event is well formed and, for the standard's parser, free of CR. */
  predicate Suitable(d: Dialect, e: Event)
  {
    WellFormed(e) && (d == Html ==> CR !in e.kind && CR !in e.data)
  }

  /** The lines of an event as they stand in the stream. */
  lemma LinesOfEvent(d: Dialect, e: Event, rest: Bytes)
    requires Suitable(d, e) && (d == Html || Fits(e))
    ensures LinesFor(d, FormatSSE(e) + rest) == [EventLine(e), DataLine(e), []] + LinesFor(d, rest)
  {
    var l1, l2 := EventLine(e), DataLine(e);
    var two := l2 + [NL] + ([NL] + rest);
    FormatInLines(e, rest);
    LegibleLine(d, e.kind, l1, EVENT_FIELD);
    LegibleLine(d, e.data, l2, DATA_FIELD);
    FirstLine(d, l1, two);
    FirstLine(d, l2, [NL] + rest);
    FirstLine(d, [], rest);
    ConsThree(l1, l2, [], LinesFor(d, rest));
  }

  lemma FormatInLines(e: Event, rest: Bytes)
    ensures FormatSSE(e) + rest == EventLine(e) + [NL] + (DataLine(e) + [NL] + ([NL] + rest))
    ensures [NL] + rest == [] + [NL] + rest
  {
  }

  /** A field line does not end in CR and can be read to its newline. */
  lemma LegibleLine(d: Dialect, value: Bytes, line: Bytes, field: Bytes)
    requires line == field + [SP] + value && NL !in field && CR !in field
    requires Printable(value) && if d == Html then CR !in value else |line| <= MAX_LINE
    ensures Legible(d, line) && DropCR(line) == line
  {
    assert line[|line| - 1] == value[|value| - 1];
  }

  lemma FieldLines(e: Event, p: Parser)
    requires WellFormed(e)
    ensures FieldStep(p, EventLine(e)) == p.(kind := e.kind)
    ensures FieldStep(p, DataLine(e)) == p.(data := p.data + e.data)
  {
    TrimField(e.kind);
    TrimField(e.data);
    assert EventLine(e)[|EVENT_FIELD|..] == [SP] + e.kind;
    assert DataLine(e)[|DATA_FIELD|..] == [SP] + e.data;
    assert EventLine(e)[..|EVENT_FIELD|] == EVENT_FIELD;
    assert DataLine(e)[..|DATA_FIELD|] == DATA_FIELD;
    assert DataLine(e)[0] != EVENT_FIELD[0];
  }

  lemma HtmlFieldLines(e: Event, p: Parser)
    ensures HtmlStep(p, EventLine(e)) == p.(kind := e.kind)
    ensures HtmlStep(p, DataLine(e)) == p.(data := p.data + e.data + [NL])
  {
    FirstOfAppend(EVENT_NAME, [COLON, SP] + e.kind, {COLON});
    FirstOfAppend(DATA_NAME, [COLON, SP] + e.data, {COLON});
    assert EventLine(e) == EVENT_NAME + ([COLON, SP] + e.kind);
    assert DataLine(e) == DATA_NAME + ([COLON, SP] + e.data);
    assert EventLine(e)[|EVENT_NAME|..] == [COLON, SP] + e.kind;
    assert EventLine(e)[|EVENT_NAME| + 1..] == [SP] + e.kind;
    assert DataLine(e)[|DATA_NAME| + 1..] == [SP] + e.data;
    assert ([SP] + e.kind)[1..] == e.kind && ([SP] + e.data)[1..] == e.data;
    assert EventLine(e)[..|EVENT_NAME|] == EVENT_NAME;
    assert DataLine(e)[..|DATA_NAME|] == DATA_NAME;
    assert |DATA_NAME| != |EVENT_NAME|;
  }

  lemma HtmlEventSteps(e: Event, out: seq<Event>)
    requires WellFormed(e)
    ensures HtmlStep(HtmlStep(HtmlStep(Parser([], [], out), EventLine(e)), DataLine(e)), [])
         == Parser([], [], out + [e])
  {
    HtmlFieldLines(e, Parser([], [], out));
    HtmlFieldLines(e, Parser(e.kind, [], out));
    var data := [] + e.data + [NL];
    assert data[..|data| - 1] == e.data;
    assert HtmlStep(Parser(e.kind, data, out), []) == Parser([], [], out + [e]);
  }

  lemma GoEventSteps(e: Event, out: seq<Event>)
    requires WellFormed(e)
    ensures FieldStep(FieldStep(Parser([], [], out), EventLine(e)), DataLine(e)) == Parser(e.kind, e.data, out)
    ensures EventLine(e) != [] && DataLine(e) != []
  {
    FieldLines(e, Parser([], [], out));
    FieldLines(e, Parser(e.kind, [], out));
    assert [] + e.data == e.data;
  }

  /** The three lines of an event take a parser from a clear state to a clear state. */
  lemma EventSteps(d: Dialect, decodes: Bytes -> bool, e: Event, out: seq<Event>)
    requires WellFormed(e)
    ensures Step(d, decodes, Step(d, decodes, Step(d, decodes, Parser([], [], out), EventLine(e)), DataLine(e)), [])
         == Parser([], [], out + Accepted1(d, decodes, e))
  {
    assert out + [] == out;
    if d == Html {
      HtmlEventSteps(e, out);
    } else {
      GoEventSteps(e, out);
    }
  }

  lemma FoldThree(d: Dialect, decodes: Bytes -> bool, p: Parser, a: Bytes, b: Bytes, c: Bytes, lines: seq<Bytes>)
    ensures Fold(d, decodes, p, [a, b, c] + lines)
         == Fold(d, decodes, Step(d, decodes, Step(d, decodes, Step(d, decodes, p, a), b), c), lines)
  {
    var all := [a, b, c] + lines;
    assert all[1..] == [b, c] + lines;
    assert ([b, c] + lines)[1..] == [c] + lines;
    assert ([c] + lines)[1..] == lines;
    assert Fold(d, decodes, p, all) == Fold(d, decodes, Step(d, decodes, p, a), [b, c] + lines);
  }

  lemma FoldEvent(d: Dialect, decodes: Bytes -> bool, e: Event, out: seq<Event>, lines: seq<Bytes>)
    requires WellFormed(e)
    ensures Fold(d, decodes, Parser([], [], out), [EventLine(e), DataLine(e), []] + lines)
         == Fold(d, decodes, Parser([], [], out + Accepted1(d, decodes, e)), lines)
  {
    FoldThree(d, decodes, Parser([], [], out), EventLine(e), DataLine(e), [], lines);
    EventSteps(d, decodes, e, out);
  }

  // ----- an event that does not arrive -----

  /** Without a blank line nothing is delivered. */
  lemma {:induction false} NoBlankNoEvent(d: Dialect, decodes: Bytes -> bool, p: Parser, lines: seq<Bytes>)
    requires [] !in lines
    ensures Fold(d, decodes, p, lines).out == p.out
    decreases |lines|
  {
    if lines == [] {
    } else {
      NoBlankNoEvent(d, decodes, Step(d, decodes, p, lines[0]), lines[1..]);
    }
  }

  /** A line that is not blank, read to its newline or not, followed by no blank line. */
  lemma NoBlankAfter(d: Dialect, a: Bytes, rest: Bytes)
    requires NL !in a && (d == Html ==> CR !in a) && |a| > 1
    requires [] !in LinesFor(d, rest)
    ensures [] !in LinesFor(d, a + [NL] + rest)
  {
    if d != Html && |a| > MAX_LINE {
      assert a + [NL] + rest == a + ([NL] + rest);
      TooLongLine(a, [NL] + rest);
    } else {
      FirstLine(d, a, rest);
    }
  }

  /** What precedes the blank line of an event contains no blank line, wherever it is cut. */
  lemma CutEvent(d: Dialect, e: Event, body: Bytes)
    requires Suitable(d, e) && body <= FormatSSE(e) && body != FormatSSE(e)
    ensures [] !in LinesFor(d, body)
  {
    assert FormatSSE(e) == EventLine(e) + ([NL] + (DataLine(e) + [NL] + [NL]));
    if |body| <= |EventLine(e)| {
      assert body == FormatSSE(e)[..|body|] == EventLine(e)[..|body|];
      CutKind(d, e, body);
    } else {
      TailOfPrefix(EventLine(e), DataLine(e) + [NL] + [NL], body);
      CutAfterKind(d, e, body[|EventLine(e)| + 1..]);
    }
  }

  lemma CutKind(d: Dialect, e: Event, body: Bytes)
    requires Suitable(d, e) && |body| <= |EventLine(e)| && body == EventLine(e)[..|body|]
    ensures [] !in LinesFor(d, body)
  {
    PartialLine(d, body);
  }

  lemma CutAfterKind(d: Dialect, e: Event, tail: Bytes)
    requires Suitable(d, e) && |tail| <= |DataLine(e)| + 1 && tail <= DataLine(e) + [NL] + [NL]
    ensures [] !in LinesFor(d, EventLine(e) + [NL] + tail)
  {
    CutData(d, e, tail);
    NoBlankAfter(d, EventLine(e), tail);
  }

  lemma TailOfPrefix(a: Bytes, b: Bytes, body: Bytes)
    requires body <= a + ([NL] + b) && |body| > |a|
    ensures body == a + [NL] + body[|a| + 1..]
    ensures body[|a| + 1..] <= b
  {
    var whole := a + ([NL] + b);
    assert body == whole[..|body|];
    assert whole[|a| + 1..] == b;
  }

  lemma CutData(d: Dialect, e: Event, tail: Bytes)
    requires Suitable(d, e) && |tail| <= |DataLine(e)| + 1
    requires tail <= DataLine(e) + [NL] + [NL]
    ensures [] !in LinesFor(d, tail)
  {
    var l2 := DataLine(e);
    assert tail == (l2 + [NL] + [NL])[..|tail|];
    if |tail| <= |l2| {
      assert tail == l2[..|tail|];
      PartialLine(d, tail);
    } else {
      assert tail == l2 + [NL] + [];
      PartialLine(d, []);
      NoBlankAfter(d, l2, []);
    }
  }

  /** The scanner gives up inside an oversized event, before its blank line. */
  lemma OversizedEvent(e: Event, rest: Bytes)
    requires WellFormed(e) && !Fits(e)
    ensures [] !in ScanLines(FormatSSE(e) + rest)
  {
    var l1, l2 := EventLine(e), DataLine(e);
    var two := l2 + ([NL, NL] + rest);
    if |l1| > MAX_LINE {
      assert FormatSSE(e) + rest == l1 + ([NL] + two);
      TooLongLine(l1, [NL] + two);
    } else {
      assert FormatSSE(e) + rest == l1 + [NL] + two;
      TooLongLine(l2, [NL, NL] + rest);
      FirstLine(Sdk, l1, two);
    }
  }

  // ----- whole streams -----

  predicate Sound(d: Dialect, events: seq<Event>)
  {
    forall e :: e in events ==> Suitable(d, e)
  }

  function Arrived(d: Dialect, events: seq<Event>, n: nat): (k: nat)
    ensures k <= |events|
  {
    if d == Html || Whole(events, n) <= Readable(events) then Whole(events, n) else Readable(events)
  }

  /** A prefix of a stream either cuts its first event or continues with a prefix of the rest. */
  lemma PrefixCases(events: seq<Event>, body: Bytes)
    requires events != [] && body <= Stream(events)
    ensures var first := FormatSSE(events[0]);
            if |body| < |first| then body <= first && body != first
            else body == first + body[|first|..] && body[|first|..] <= Stream(events[1..])
  {
    var first := FormatSSE(events[0]);
    var stream := Stream(events);
    assert body == stream[..|body|];
    if |body| < |first| {
      assert body == first[..|body|];
    } else {
      assert stream[|first|..] == Stream(events[1..]);
      assert body[|first|..] == Stream(events[1..])[..|body| - |first|];
      assert body[..|first|] == stream[..|first|] == first;
    }
  }

  /** Starting clear, a parser adds to `out` the accepted events that arrive with `body`. */
  predicate Delivers(d: Dialect, decodes: Bytes -> bool, events: seq<Event>, body: Bytes, out: seq<Event>)
  {
    Fold(d, decodes, Parser([], [], out), LinesFor(d, body)).out
    == out + Accepted(d, decodes, events[..Arrived(d, events, |body|)])
  }

  /** The first event lies completely within `body` and can be read. */
  predicate FirstArrives(d: Dialect, events: seq<Event>, body: Bytes)
    requires events != []
  {
    |FormatSSE(events[0])| <= |body| && (d == Html || Fits(events[0]))
  }

  lemma {:induction false} FoldPrefix(d: Dialect, decodes: Bytes -> bool, events: seq<Event>,
                                      body: Bytes, out: seq<Event>)
    requires Sound(d, events) && body <= Stream(events)
    ensures Delivers(d, decodes, events, body, out)
    decreases |events|
  {
    if events == [] {
      EmptyStream(d, decodes, out);
    } else if FirstArrives(d, events, body) {
      var rest := body[|FormatSSE(events[0])|..];
      PrefixCases(events, body);
      SoundRest(d, events);
      FoldPrefix(d, decodes, events[1..], rest, out + Accepted1(d, decodes, events[0]));
      FirstDelivered(d, decodes, events, body, out);
    } else {
      FirstMissing(d, decodes, events, body, out);
    }
  }

  lemma SoundRest(d: Dialect, events: seq<Event>)
    requires Sound(d, events) && events != []
    ensures Sound(d, events[1..]) && Suitable(d, events[0])
  {
  }

  lemma EmptyStream(d: Dialect, decodes: Bytes -> bool, out: seq<Event>)
    ensures Delivers(d, decodes, [], [], out)
  {
    PartialLine(d, []);
    assert LinesFor(d, []) == [];
  }

  lemma FirstMissing(d: Dialect, decodes: Bytes -> bool, events: seq<Event>, body: Bytes, out: seq<Event>)
    requires Sound(d, events) && events != [] && body <= Stream(events) && !FirstArrives(d, events, body)
    ensures Delivers(d, decodes, events, body, out)
  {
    SoundRest(d, events);
    PrefixCases(events, body);
    if |body| < |FormatSSE(events[0])| {
      CutEvent(d, events[0], body);
    } else {
      OversizedEvent(events[0], body[|FormatSSE(events[0])|..]);
    }
    NothingArrives(d, decodes, events, body, out);
  }

  lemma FirstDelivered(d: Dialect, decodes: Bytes -> bool, events: seq<Event>, body: Bytes, out: seq<Event>)
    requires Sound(d, events) && events != [] && body <= Stream(events) && FirstArrives(d, events, body)
    requires Delivers(d, decodes, events[1..], body[|FormatSSE(events[0])|..], out + Accepted1(d, decodes, events[0]))
    ensures Delivers(d, decodes, events, body, out)
  {
    SoundRest(d, events);
    PrefixCases(events, body);
    FoldFirstEvent(d, decodes, events[0], out, body);
    AcceptedArrived(d, decodes, events, |body|);
    OneMoreArrives(d, decodes, events, body, out, Accepted1(d, decodes, events[0]), body[|FormatSSE(events[0])|..]);
  }

  lemma NothingArrives(d: Dialect, decodes: Bytes -> bool, events: seq<Event>, body: Bytes, out: seq<Event>)
    requires [] !in LinesFor(d, body) && Arrived(d, events, |body|) == 0
    ensures Delivers(d, decodes, events, body, out)
  {
    NoBlankNoEvent(d, decodes, Parser([], [], out), LinesFor(d, body));
    assert out + [] == out;
  }

  lemma OneMoreArrives(d: Dialect, decodes: Bytes -> bool, events: seq<Event>, body: Bytes, out: seq<Event>,
                       first: seq<Event>, rest: Bytes)
    requires events != [] && Delivers(d, decodes, events[1..], rest, out + first)
    requires Fold(d, decodes, Parser([], [], out), LinesFor(d, body))
          == Fold(d, decodes, Parser([], [], out + first), LinesFor(d, rest))
    requires Accepted(d, decodes, events[..Arrived(d, events, |body|)])
          == first + Accepted(d, decodes, events[1..][..Arrived(d, events[1..], |rest|)])
    ensures Delivers(d, decodes, events, body, out)
  {
    ConcatAssociates(out, first, Accepted(d, decodes, events[1..][..Arrived(d, events[1..], |rest|)]));
  }

  lemma FoldFirstEvent(d: Dialect, decodes: Bytes -> bool, e: Event, out: seq<Event>, body: Bytes)
    requires Suitable(d, e) && (d == Html || Fits(e))
    requires |FormatSSE(e)| <= |body| && body == FormatSSE(e) + body[|FormatSSE(e)|..]
    ensures Fold(d, decodes, Parser([], [], out), LinesFor(d, body))
         == Fold(d, decodes, Parser([], [], out + Accepted1(d, decodes, e)),
                 LinesFor(d, body[|FormatSSE(e)|..]))
  {
    LinesOfEvent(d, e, body[|FormatSSE(e)|..]);
    FoldEvent(d, decodes, e, out, LinesFor(d, body[|FormatSSE(e)|..]));
  }

  lemma AcceptedArrived(d: Dialect, decodes: Bytes -> bool, events: seq<Event>, n: nat)
    requires events != [] && n >= |FormatSSE(events[0])| && (d == Html || Fits(events[0]))
    ensures Accepted(d, decodes, events[..Arrived(d, events, n)])
         == Accepted1(d, decodes, events[0])
          + Accepted(d, decodes, events[1..][..Arrived(d, events[1..], n - |FormatSSE(events[0])|)])
  {
    var k := Arrived(d, events[1..], n - |FormatSSE(events[0])|);
    assert Arrived(d, events, n) == k + 1;
    assert events[..k + 1][0] == events[0] && events[..k + 1][1..] == events[1..][..k];
  }

  /**
   Truncation safety and, for the whole stream, round trip. From any prefix of a printed
   stream a parser delivers exactly the accepted events that lie completely inside it; the
   two scanner-based parsers moreover stop at the first event with an oversized line.
   */
  lemma {:induction false} ParseOfPrefix(d: Dialect, decodes: Bytes -> bool, events: seq<Event>, body: Bytes)
    requires Sound(d, events) && body <= Stream(events)
    ensures Parse(d, decodes, body) == Accepted(d, decodes, events[..Arrived(d, events, |body|)])
  {
    FoldPrefix(d, decodes, events, body, []);
    assert events != [] ==> Stream(events)[0] == EVENT_NAME[0];
    assert WithoutBom(body) == body;
  }

  lemma {:induction false} FoldGrows(d: Dialect, decodes: Bytes -> bool, lines: seq<Bytes>, n: nat)
    requires n <= |lines|
    ensures Before(d, decodes, lines, n) <= Before(d, decodes, lines, |lines|)
    decreases |lines| - n
  {
    if n == |lines| {
    } else {
      FoldNext(d, decodes, lines, n);
      FoldGrows(d, decodes, lines, n + 1);
    }
  }

  /**
   A reader that gives up somewhere has delivered a beginning of the accepted events, and whole
   ones only.
   */
  lemma InterruptedPrefix(d: Dialect, decodes: Bytes -> bool, events: seq<Event>, body: Bytes, n: nat)
    requires d != Html && Sound(d, events) && body <= Stream(events) && n <= |ScanLines(body)|
    ensures Before(d, decodes, ScanLines(body), n) <= Accepted(d, decodes, events[..Arrived(d, events, |body|)])
  {
    FoldGrows(d, decodes, ScanLines(body), n);
    ParseIsBefore(d, decodes, body);
    ParseOfPrefix(d, decodes, events, body);
  }

  lemma {:induction false} WholeStream(events: seq<Event>)
    ensures Whole(events, |Stream(events)|) == |events|
  {
    if events == [] {
    } else {
      WholeStream(events[1..]);
    }
  }

  lemma {:induction false} ReadableAll(events: seq<Event>)
    ensures Readable(events) == |events| <==> forall e :: e in events ==> Fits(e)
  {
    if events == [] {
    } else {
      ReadableAll(events[1..]);
      assert forall e :: e in events <==> e == events[0] || e in events[1..];
    }
  }

  /** Printing then parsing gives back the events, for all lists of events that fit the scanner. */
  lemma {:induction false} RoundTrip(d: Dialect, decodes: Bytes -> bool, events: seq<Event>)
    requires Sound(d, events) && (d != Html ==> forall e :: e in events ==> Fits(e))
    ensures Parse(d, decodes, Stream(events)) == Accepted(d, decodes, events)
  {
    WholeStream(events);
    ReadableAll(events);
    ParseOfPrefix(d, decodes, events, Stream(events));
    assert events[..|events|] == events;
  }

  lemma {:induction false} AcceptsAll(d: Dialect, decodes: Bytes -> bool, events: seq<Event>)
    requires forall e :: e in events ==> Accepts(d, decodes, e)
    ensures Accepted(d, decodes, events) == events
  {
    if events == [] {
    } else {
      AcceptsAll(d, decodes, events[1..]);
      assert events == [events[0]] + events[1..];
    }
  }

  /** With every event accepted the SDK's round trip works exactly when every line fits the scanner. */
  lemma {:induction false} SdkRoundTripIff(decodes: Bytes -> bool, events: seq<Event>)
    requires Sound(Sdk, events) && forall e :: e in events ==> decodes(e.data)
    ensures Parse(Sdk, decodes, Stream(events)) == events <==> forall e :: e in events ==> Fits(e)
  {
    WholeStream(events);
    ReadableAll(events);
    ParseOfPrefix(Sdk, decodes, events, Stream(events));
    AcceptsAll(Sdk, decodes, events[..Readable(events)]);
    assert events[..|events|] == events;
  }

  /**
   Agreement, at every cut of every printed stream: the SDK delivers what the standard's
   algorithm delivers, and the runner's parser the command_dispatch events among them.
   */
  lemma {:induction false} ParsersAgree(decodes: Bytes -> bool, events: seq<Event>, body: Bytes)
    requires Sound(Html, events) && body <= Stream(events)
    requires forall e :: e in events ==> Fits(e) && decodes(e.data)
    ensures Parse(Sdk, decodes, body) == Parse(Html, decodes, body)
    ensures Parse(Client, decodes, body) == Accepted(Client, decodes, Parse(Html, decodes, body))
  {
    ReadableAll(events);
    ParseOfPrefix(Html, decodes, events, body);
    ParseOfPrefix(Sdk, decodes, events, body);
    ParseOfPrefix(Client, decodes, events, body);
    var some := events[..Arrived(Html, events, |body|)];
    AcceptsAll(Html, decodes, some);
    AcceptsAll(Sdk, decodes, some);
  }

  /**
   A stream that FormatSSE cannot produce shows the difference in clearing: an event without
   data followed by data without an event name. Both the standard and the runner's parser
   forget the name at the blank line, the SDK attaches it to the later data.
   */
  lemma SdkKeepsAnUnfinishedName(decodes: Bytes -> bool)
    requires decodes([120])
    ensures var lines: seq<Bytes> := [EVENT_FIELD + DISPATCH, [], DATA_FIELD + [120], []];
            var start := Parser([], [], []);
            && Fold(Sdk, decodes, start, lines).out == [Event(DISPATCH, [120])]
            && Fold(Client, decodes, start, lines).out == []
            && Fold(Html, decodes, start, lines).out == [Event(MESSAGE, [120])]
  {
    FieldsOfExample(Parser([], [], []));
    FieldsOfExample(Parser(DISPATCH, [], []));
    FoldFour(Sdk, decodes, EVENT_FIELD + DISPATCH, [], DATA_FIELD + [120], []);
    FoldFour(Client, decodes, EVENT_FIELD + DISPATCH, [], DATA_FIELD + [120], []);
    HtmlForgets(decodes);
  }

  lemma FieldsOfExample(p: Parser)
    requires p.data == []
    ensures FieldStep(p, EVENT_FIELD + DISPATCH) == p.(kind := DISPATCH)
    ensures FieldStep(p, DATA_FIELD + [120]) == p.(data := [120])
  {
    var x: Bytes := [120];
    FieldValues(EVENT_FIELD + DISPATCH, EVENT_FIELD, DISPATCH);
    FieldValues(DATA_FIELD + x, DATA_FIELD, x);
    assert Trim(DISPATCH) == DISPATCH && Trim(x) == x;
    assert (DATA_FIELD + x)[0] != EVENT_FIELD[0];
  }

  lemma HtmlForgets(decodes: Bytes -> bool)
    ensures Fold(Html, decodes, Parser([], [], []), [EVENT_FIELD + DISPATCH, [], DATA_FIELD + [120], []]).out
         == [Event(MESSAGE, [120])]
  {
    var x: Bytes := [120];
    FoldFour(Html, decodes, EVENT_FIELD + DISPATCH, [], DATA_FIELD + x, []);
    HtmlValues(Parser([], [], []));
    assert (x + [NL])[..1] == x;
    assert HtmlStep(Parser([], x + [NL], []), []) == Parser([], [], [Event(MESSAGE, x)]);
    assert HtmlStep(Parser(DISPATCH, [], []), []) == Parser([], [], []);
    assert [120, NL] == x + [NL];
  }

  lemma FieldValues(line: Bytes, field: Bytes, value: Bytes)
    requires line == field + value
    ensures field <= line && line[|field|..] == value
  {
  }

  lemma HtmlValues(p: Parser)
    requires p == Parser([], [], [])
    ensures HtmlStep(p, EVENT_FIELD + DISPATCH) == Parser(DISPATCH, [], [])
    ensures HtmlStep(p, DATA_FIELD + [120]) == Parser([], [120, NL], [])
  {
    var l1 := EVENT_FIELD + DISPATCH;
    var l3: Bytes := DATA_FIELD + [120];
    FirstOfAppend(EVENT_NAME, [COLON] + DISPATCH, {COLON});
    FirstOfAppend(DATA_NAME, [COLON, 120], {COLON});
    assert l1 == EVENT_NAME + ([COLON] + DISPATCH) && l3 == DATA_NAME + [COLON, 120];
    assert l1[|EVENT_NAME| + 1..] == DISPATCH && l3[|DATA_NAME| + 1..] == [120];
    assert l1[..|EVENT_NAME|] == EVENT_NAME && l3[..|DATA_NAME|] == DATA_NAME;
    assert |EVENT_NAME| != |DATA_NAME|;
  }

  lemma FoldFour(d: Dialect, decodes: Bytes -> bool, l1: Bytes, l2: Bytes, l3: Bytes, l4: Bytes)
    ensures Fold(d, decodes, Parser([], [], []), [l1, l2, l3, l4])
         == Step(d, decodes, Step(d, decodes,
                Step(d, decodes, Step(d, decodes, Parser([], [], []), l1), l2), l3), l4)
  {
    var lines := [l1, l2, l3, l4];
    var p1 := Step(d, decodes, Parser([], [], []), l1);
    var p2 := Step(d, decodes, p1, l2);
    assert lines[1..] == [l2, l3, l4] && lines[1..][1..] == [l3, l4];
    assert Fold(d, decodes, p1, [l2, l3, l4]) == Fold(d, decodes, p2, [l3, l4]);
    assert [l3, l4][1..] == [l4] && [l4][1..] == [];
    assert Fold(d, decodes, p2, [l3, l4]) == Fold(d, decodes, Step(d, decodes, p2, l3), [l4]);
  }
}
