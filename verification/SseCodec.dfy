/**
 The event stream: one printer (FormatSSE) and two line-driven parsers, compared with the
 algorithm of section 9.2.6 "Interpreting an event stream" of the WHATWG HTML Standard.

 `data` is the marshalled event; json.Unmarshal is the parameter `decodes`, which says for
 which data it succeeds.
 */
module SseCodec {
  import opened Common

  const CR: byte := 13
  const SP: byte := 32
  const COLON: byte := 58
  const EVENT_NAME: Bytes := [101, 118, 101, 110, 116]
  const DATA_NAME: Bytes := [100, 97, 116, 97]
  const EVENT_FIELD: Bytes := EVENT_NAME + [COLON]
  const DATA_FIELD: Bytes := DATA_NAME + [COLON]
  const MESSAGE: Bytes := [109, 101, 115, 115, 97, 103, 101]
  /** "command_dispatch" */
  const DISPATCH: Bytes := [99, 111, 109, 109, 97, 110, 100, 95, 100, 105, 115, 112, 97, 116, 99, 104]
  /** bufio.Scanner gives up on a line that does not fit its 64 KiB buffer with its newline. */
  const MAX_LINE := 65535

  datatype Event = Event(kind: Bytes, data: Bytes)

  // ----- printer -----

  function EventLine(e: Event): Bytes { EVENT_FIELD + [SP] + e.kind }

  function DataLine(e: Event): Bytes { DATA_FIELD + [SP] + e.data }

  function FormatSSE(e: Event): Bytes
  {
    EventLine(e) + [NL] + DataLine(e) + [NL] + [NL]
  }

  /** What a connection carries when `events` are written one after the other. */
  function Stream(events: seq<Event>): Bytes
  {
    if events == [] then [] else FormatSSE(events[0]) + Stream(events[1..])
  }

  // ----- library text functions -----

  /** The index of the first byte of `s` that is in `marks`, or |s|. */
  function FirstOf(s: Bytes, marks: set<byte>): (i: nat)
    ensures i <= |s| && (i < |s| ==> s[i] in marks)
  {
    if s == [] || s[0] in marks then 0 else 1 + FirstOf(s[1..], marks)
  }

  lemma {:induction false} FirstOfAppend(a: Bytes, rest: Bytes, marks: set<byte>)
    requires forall b :: b in a ==> b !in marks
    requires rest == [] || rest[0] in marks
    ensures FirstOf(a + rest, marks) == |a|
  {
    if a == [] {
      assert a + rest == rest;
    } else {
      FirstOfAppend(a[1..], rest, marks);
      assert (a + rest)[1..] == a[1..] + rest;
    }
  }

  /** The length of the white-space character (in UTF-8) that `s` begins with, or 0. */
  function SpaceAtStart(s: Bytes): nat
  {
    if |s| >= 1 && (9 <= s[0] <= 13 || s[0] == SP) then 1
    else if |s| >= 2 && IsSpace2(s[0], s[1]) then 2
    else if |s| >= 3 && IsSpace3(s[0], s[1], s[2]) then 3
    else 0
  }

  function SpaceAtEnd(s: Bytes): nat
  {
    var n := |s|;
    if n >= 1 && (9 <= s[n - 1] <= 13 || s[n - 1] == SP) then 1
    else if n >= 2 && IsSpace2(s[n - 2], s[n - 1]) then 2
    else if n >= 3 && IsSpace3(s[n - 3], s[n - 2], s[n - 1]) then 3
    else 0
  }

  /** U+0085 and U+00A0. */
  predicate IsSpace2(a: byte, b: byte)
  {
    a == 0xC2 && (b == 0x85 || b == 0xA0)
  }

  /** U+1680, U+2000..U+200A, U+2028, U+2029, U+202F, U+205F and U+3000. */
  predicate IsSpace3(a: byte, b: byte, c: byte)
  {
    || (a == 0xE1 && b == 0x9A && c == 0x80)
    || (a == 0xE2 && b == 0x80 && (0x80 <= c <= 0x8A || c == 0xA8 || c == 0xA9 || c == 0xAF))
    || (a == 0xE2 && b == 0x81 && c == 0x9F)
    || (a == 0xE3 && b == 0x80 && c == 0x80)
  }

  /** strings.TrimSpace */
  function Trim(s: Bytes): Bytes
    decreases |s|
  {
    if SpaceAtStart(s) > 0 then Trim(s[SpaceAtStart(s)..])
    else if SpaceAtEnd(s) > 0 then Trim(s[..|s| - SpaceAtEnd(s)])
    else s
  }

  function DropCR(line: Bytes): Bytes
  {
    if line != [] && line[|line| - 1] == CR then line[..|line| - 1] else line
  }

  /** The lines a bufio.Scanner yields before the end of `s` or the first line too long for it. */
  function ScanLines(s: Bytes): seq<Bytes>
    decreases |s|
  {
    var i := FirstOf(s, {NL});
    if i > MAX_LINE || s == [] then []
    else if i == |s| then [DropCR(s)]
    else [DropCR(s[..i])] + ScanLines(s[i + 1..])
  }

  // ----- the parsers, line by line -----

  datatype Dialect = Client | Sdk | Html

  /** The `eventType` and `eventData` variables and what has been delivered. */
  datatype Parser = Parser(kind: Bytes, data: Bytes, out: seq<Event>)

  function Step(d: Dialect, decodes: Bytes -> bool, p: Parser, line: Bytes): Parser
  {
    match d
    case Client => ClientStep(decodes, p, line)
    case Sdk => SdkStep(decodes, p, line)
    case Html => HtmlStep(p, line)
  }

  function FieldStep(p: Parser, line: Bytes): Parser
  {
    if EVENT_FIELD <= line then p.(kind := Trim(line[|EVENT_FIELD|..]))
    else if DATA_FIELD <= line then p.(data := p.data + Trim(line[|DATA_FIELD|..]))
    else p
  }

  function Delivered(decodes: Bytes -> bool, p: Parser): seq<Event>
  {
    if decodes(p.data) then p.out + [Event(p.kind, p.data)] else p.out
  }

  /** The runner's parser: only complete command_dispatch events, state cleared by every blank line. */
  function ClientStep(decodes: Bytes -> bool, p: Parser, line: Bytes): Parser
  {
    if line != [] then FieldStep(p, line)
    else Parser([], [], if p.kind == DISPATCH && p.data != [] then Delivered(decodes, p) else p.out)
  }

  /** The SDK's parser: every complete event, state cleared only by delivering one. */
  function SdkStep(decodes: Bytes -> bool, p: Parser, line: Bytes): Parser
  {
    if line != [] then FieldStep(p, line)
    else if p.kind != [] && p.data != [] then Parser([], [], Delivered(decodes, p))
    else p
  }

  /** The standard's algorithm; `id` and `retry` fields do not take part in dispatching. */
  function HtmlStep(p: Parser, line: Bytes): Parser
  {
    if line == [] then
      if p.data == [] then Parser([], [], p.out)
      else
        var last := |p.data| - 1;
        var data := if p.data[last] == NL then p.data[..last] else p.data;
        Parser([], [], p.out + [Event(if p.kind == [] then MESSAGE else p.kind, data)])
    else
      var i := FirstOf(line, {COLON});
      var name := line[..i];
      var value := if i == |line| then [] else AfterSpace(line[i + 1..]);
      if name == EVENT_NAME then p.(kind := value)
      else if name == DATA_NAME then p.(data := p.data + value + [NL])
      else p
  }

  function AfterSpace(value: Bytes): Bytes
  {
    if value != [] && value[0] == SP then value[1..] else value
  }

  function Fold(d: Dialect, decodes: Bytes -> bool, p: Parser, lines: seq<Bytes>): Parser
    decreases |lines|
  {
    if lines == [] then p else Fold(d, decodes, Step(d, decodes, p, lines[0]), lines[1..])
  }

  /** Lines end with CR, LF or CRLF; text after the last line end is discarded. */
  function HtmlLines(s: Bytes): seq<Bytes>
    decreases |s|
  {
    var i := FirstOf(s, {NL, CR});
    if i == |s| then []
    else
      var crlf := s[i] == CR && i + 1 < |s| && s[i + 1] == NL;
      [s[..i]] + HtmlLines(s[if crlf then i + 2 else i + 1..])
  }

  function WithoutBom(s: Bytes): Bytes
  {
    if [0xEF, 0xBB, 0xBF] <= s then s[3..] else s
  }

  function LinesFor(d: Dialect, s: Bytes): seq<Bytes>
  {
    if d == Html then HtmlLines(s) else ScanLines(s)
  }

  /** Everything a parser delivers from a connection that carried `body`. */
  function Parse(d: Dialect, decodes: Bytes -> bool, body: Bytes): seq<Event>
  {
    Fold(d, decodes, Parser([], [], []), LinesFor(d, if d == Html then WithoutBom(body) else body)).out
  }

  lemma {:induction false} FoldSnoc(d: Dialect, decodes: Bytes -> bool, p: Parser, lines: seq<Bytes>, line: Bytes)
    ensures Fold(d, decodes, p, lines + [line]) == Step(d, decodes, Fold(d, decodes, p, lines), line)
    decreases |lines|
  {
    if lines == [] {
      assert [] + [line] == [line] && [line][1..] == [];
    } else {
      FoldSnoc(d, decodes, Step(d, decodes, p, lines[0]), lines[1..], line);
      assert (lines + [line])[1..] == lines[1..] + [line];
    }
  }

  lemma FoldNext(d: Dialect, decodes: Bytes -> bool, lines: seq<Bytes>, i: nat)
    requires i < |lines|
    ensures Fold(d, decodes, Parser([], [], []), lines[..i + 1])
         == Step(d, decodes, Fold(d, decodes, Parser([], [], []), lines[..i]), lines[i])
  {
    assert lines[..i + 1] == lines[..i] + [lines[i]];
    FoldSnoc(d, decodes, Parser([], [], []), lines[..i], lines[i]);
  }

  /** What has been delivered when a reader gives up before the n-th line takes effect. */
  function Before(d: Dialect, decodes: Bytes -> bool, lines: seq<Bytes>, n: nat): seq<Event>
    requires n <= |lines|
  {
    Fold(d, decodes, Parser([], [], []), lines[..n]).out
  }

  lemma ParseIsBefore(d: Dialect, decodes: Bytes -> bool, body: Bytes)
    requires d != Html
    ensures Parse(d, decodes, body) == Before(d, decodes, ScanLines(body), |ScanLines(body)|)
  {
    assert ScanLines(body)[..|ScanLines(body)|] == ScanLines(body);
  }

  /** The reader took `n` lines into account; if there are more, it was stopped there. */
  ghost predicate GaveUp(d: Dialect, decodes: Bytes -> bool, lines: seq<Bytes>, stop: nat -> bool, n: nat,
                         events: seq<Event>)
  {
    n <= |lines| && (n < |lines| ==> stop(n)) && events == Before(d, decodes, lines, n)
  }

  /** The n-th line makes the reader deliver an event. */
  predicate DeliversAt(d: Dialect, decodes: Bytes -> bool, lines: seq<Bytes>, n: nat)
    requires n < |lines|
  {
    Before(d, decodes, lines, n + 1) != Before(d, decodes, lines, n)
  }

  /** The same for a reader that stops at deliveries only: it was stopped at the first possible one. */
  ghost predicate GaveUpDelivering(d: Dialect, decodes: Bytes -> bool, lines: seq<Bytes>, stop: nat -> bool, n: nat,
                                   events: seq<Event>)
  {
    && GaveUp(d, decodes, lines, stop, n, events)
    && (n < |lines| ==> DeliversAt(d, decodes, lines, n))
    && forall i: nat :: i < n && DeliversAt(d, decodes, lines, i) ==> !stop(i)
  }

  // ----- the parsers as written -----

  /**
   `stop(i)` says whether the context is cancelled, or a reconnect has been asked for, before the
   i-th line takes effect. The reader looks at every line and gives up at the first such one.
   */
  method ReadEvents(body: Bytes, decodes: Bytes -> bool, stop: nat -> bool) returns (events: seq<Event>)
    ensures exists n: nat :: GaveUp(Client, decodes, ScanLines(body), stop, n, events)
                             && forall i: nat :: i < n ==> !stop(i)
    ensures (forall i: nat :: !stop(i)) ==> events == Parse(Client, decodes, body)
  {
    events := [];
    var lines := ScanLines(body);
    var eventType: Bytes := [];
    var eventData: Bytes := [];
    var i := 0;
    while i < |lines|
      invariant 0 <= i <= |lines|
      invariant Fold(Client, decodes, Parser([], [], []), lines[..i]) == Parser(eventType, eventData, events)
      invariant forall k: nat :: k < i ==> !stop(k)
    {
      if stop(i) {
        assert GaveUp(Client, decodes, lines, stop, i, events);
        return;
      }
      var line := lines[i];
      FoldNext(Client, decodes, lines, i);
      if EVENT_FIELD <= line {
        eventType := Trim(line[|EVENT_FIELD|..]);
      } else if DATA_FIELD <= line {
        eventData := eventData + Trim(line[|DATA_FIELD|..]);
      } else if line == [] {
        if eventType == DISPATCH && |eventData| > 0 {
          if decodes(eventData) {
            events := events + [Event(eventType, eventData)];
          }
        }
        eventType := [];
        eventData := [];
      }
      i := i + 1;
    }
    assert GaveUp(Client, decodes, lines, stop, |lines|, events);
    ParseIsBefore(Client, decodes, body);
  }

  /**
   The SDK's reader looks at the context only when it has an event to deliver: it gives up at the
   first delivery at which the context is cancelled.
   */
  method StreamSSE(body: Bytes, decodes: Bytes -> bool, stop: nat -> bool) returns (events: seq<Event>)
    ensures exists n: nat :: GaveUpDelivering(Sdk, decodes, ScanLines(body), stop, n, events)
    ensures (forall i: nat :: !stop(i)) ==> events == Parse(Sdk, decodes, body)
  {
    events := [];
    var lines := ScanLines(body);
    var eventType: Bytes := [];
    var eventData: Bytes := [];
    var i := 0;
    while i < |lines|
      invariant 0 <= i <= |lines|
      invariant Fold(Sdk, decodes, Parser([], [], []), lines[..i]) == Parser(eventType, eventData, events)
      invariant forall k: nat :: k < i && DeliversAt(Sdk, decodes, lines, k) ==> !stop(k)
    {
      var line := lines[i];
      FoldNext(Sdk, decodes, lines, i);
      ghost var before := events;
      if EVENT_FIELD <= line {
        eventType := Trim(line[|EVENT_FIELD|..]);
      } else if DATA_FIELD <= line {
        eventData := eventData + Trim(line[|DATA_FIELD|..]);
      } else if line == [] {
        if eventType != [] && |eventData| > 0 {
          if decodes(eventData) {
            if stop(i) {
              assert GaveUpDelivering(Sdk, decodes, lines, stop, i, events);
              return;
            }
            events := events + [Event(eventType, eventData)];
          }
          eventType := [];
          eventData := [];
        }
      }
      assert Before(Sdk, decodes, lines, i + 1) == events && Before(Sdk, decodes, lines, i) == before;
      i := i + 1;
    }
    assert GaveUpDelivering(Sdk, decodes, lines, stop, |lines|, events);
    ParseIsBefore(Sdk, decodes, body);
  }
}
