/**
 From the shipper's buffer to the pages of GetLogs. Lines of all commands go through one
 buffer; batches taken from it are stored in any order by concurrent requests. The server
 returns pages of the rows of a command ordered by sequence number, where the order of equal
 numbers is left open and may differ from one query to the next.
 */
module LogPipeline {
  import opened Common
  import opened Shipper
  import S = SeqNumbering

  // ----- the table -----

  /** The entries of one command, in their order. */
  function Of(rows: seq<Entry>, c: Id): seq<Entry>
  {
    if rows == [] then []
    else Of(rows[..|rows| - 1], c) + if rows[|rows| - 1].command == c then [rows[|rows| - 1]] else []
  }

  predicate Sorted(s: seq<Entry>)
  {
    forall i, j :: 0 <= i < j < |s| ==> s[i].number <= s[j].number
  }

  /** An answer to `ORDER BY seq ASC` over `rows`. */
  ghost predicate IsOrder(rows: seq<Entry>, order: seq<Entry>)
  {
    multiset(order) == multiset(rows) && Sorted(order)
  }

  /** `LIMIT size OFFSET (page - 1) * size` */
  function Page(s: seq<Entry>, page: nat, size: nat): seq<Entry>
    requires page >= 1
  {
    var offset := (page - 1) * size;
    if offset >= |s| then [] else if offset + size >= |s| then s[offset..] else s[offset..offset + size]
  }

  /** `part` are the `size` entries after the first `offset`, or as many of them as there are. */
  predicate Window(s: seq<Entry>, offset: int, size: int, part: seq<Entry>)
  {
    && (forall i :: 0 <= i < |part| ==> i < size && 0 <= offset + i < |s| && part[i] == s[offset + i])
    && (|part| < size ==> offset + |part| >= |s|)
  }

  lemma PageIsWindow(s: seq<Entry>, page: nat, size: nat)
    requires page >= 1
    ensures Window(s, (page - 1) * size, size, Page(s, page, size))
  {
    assert (page - 1) * size >= 0;
  }

  function ClampPage(page: int): nat
  {
    if page < 1 then 1 else page
  }

  function ClampSize(size: int): nat
  {
    if size < 1 || size > 1000 then 100 else size
  }

  /** An answer of GetLogs: the clamped page of some order by number. */
  ghost predicate IsPage(rows: seq<Entry>, c: Id, page: int, size: int, logs: seq<Entry>)
  {
    exists order :: IsOrder(Of(rows, c), order) && logs == Page(order, ClampPage(page), ClampSize(size))
  }

  function Insert(s: seq<Entry>, e: Entry): seq<Entry>
  {
    if s == [] then [e]
    else if s[|s| - 1].number <= e.number then s + [e]
    else Insert(s[..|s| - 1], e) + [s[|s| - 1]]
  }

  lemma {:induction false} InsertAdds(s: seq<Entry>, e: Entry)
    ensures multiset(Insert(s, e)) == multiset(s) + multiset{e}
  {
    if s == [] {
    } else if s[|s| - 1].number <= e.number {
      assert Insert(s, e) == s + [e];
    } else {
      var front, last := s[..|s| - 1], s[|s| - 1];
      InsertAdds(front, e);
      assert s == front + [last];
    }
  }

  lemma {:induction false} InsertOrders(s: seq<Entry>, e: Entry)
    requires Sorted(s)
    ensures Sorted(Insert(s, e))
  {
    if s == [] || s[|s| - 1].number <= e.number {
    } else {
      var front, last := s[..|s| - 1], s[|s| - 1];
      InsertOrders(front, e);
      InsertAdds(front, e);
      InsertedBelow(front, e, Insert(front, e), last);
    }
  }

  lemma InsertedBelow(front: seq<Entry>, e: Entry, inserted: seq<Entry>, last: Entry)
    requires multiset(inserted) == multiset(front) + multiset{e} && Sorted(inserted)
    requires e.number <= last.number && forall x :: x in front ==> x.number <= last.number
    ensures Sorted(inserted + [last])
  {
    forall i | 0 <= i < |inserted| ensures inserted[i].number <= last.number {
      assert inserted[i] in multiset(inserted);
      assert inserted[i] in front || inserted[i] == e;
    }
  }

  class LogTable {
    var rows: seq<Entry>

    constructor (rows: seq<Entry>)
      ensures this.rows == rows
    {
      this.rows := rows;
    }

    method GetLogs(c: Id, page: int, pageSize: int) returns (logs: seq<Entry>)
      ensures IsPage(rows, c, page, pageSize, logs)
      ensures var size := if 1 <= pageSize <= 1000 then pageSize else 100;
              var offset := if page < 1 then 0 else (page - 1) * size;
              exists order :: IsOrder(Of(rows, c), order) && Window(order, offset, size, logs)
    {
      var order := OrderBySeq(Of(rows, c));
      var p := if page < 1 then 1 else page;
      var size := if pageSize < 1 || pageSize > 1000 then 100 else pageSize;
      logs := Page(order, p, size);
      assert ClampPage(page) == p && ClampSize(pageSize) == size;
      PageIsWindow(order, p, size);
    }
  }

  /** Some order of `rows` by number. */
  method OrderBySeq(rows: seq<Entry>) returns (order: seq<Entry>)
    ensures IsOrder(rows, order)
  {
    order := [];
    for i := 0 to |rows|
      invariant IsOrder(rows[..i], order)
    {
      InsertOrders(order, rows[i]);
      InsertAdds(order, rows[i]);
      assert rows[..i + 1] == rows[..i] + [rows[i]];
      order := Insert(order, rows[i]);
    }
    assert rows[..|rows|] == rows;
  }

  // ----- when an order is determined -----

  /** Numbers do not fall, and equal numbers belong to equal entries. */
  predicate Settled(lines: seq<Entry>)
  {
    Sorted(lines) && forall i, j :: 0 <= i < j < |lines| && lines[i].number == lines[j].number ==> lines[i] == lines[j]
  }

  lemma SameLast(lines: seq<Entry>, order: seq<Entry>)
    requires Settled(lines) && IsOrder(lines, order) && lines != []
    ensures |order| == |lines| && order[|order| - 1] == lines[|lines| - 1]
  {
    assert |order| == |multiset(order)| == |multiset(lines)|;
    var x, y := lines[|lines| - 1], order[|order| - 1];
    assert y in multiset(order) && x in multiset(lines);
    var i :| 0 <= i < |lines| && lines[i] == y;
    var j :| 0 <= j < |order| && order[j] == x;
  }

  lemma WithoutLast(s: seq<Entry>)
    requires s != []
    ensures multiset(s[..|s| - 1]) == multiset(s) - multiset{s[|s| - 1]}
  {
    assert s == s[..|s| - 1] + [s[|s| - 1]];
  }

  lemma FrontsInOrder(lines: seq<Entry>, order: seq<Entry>)
    requires Settled(lines) && IsOrder(lines, order) && lines != []
    ensures order != [] && Settled(lines[..|lines| - 1])
    ensures IsOrder(lines[..|lines| - 1], order[..|order| - 1])
  {
    SameLast(lines, order);
    WithoutLast(lines);
    WithoutLast(order);
  }

  lemma {:induction false} SettledOrderUnique(lines: seq<Entry>, order: seq<Entry>)
    requires Settled(lines) && IsOrder(lines, order)
    ensures order == lines
    decreases |lines|
  {
    if lines == [] {
      assert |order| == |multiset(order)|;
    } else {
      FrontsInOrder(lines, order);
      SettledOrderUnique(lines[..|lines| - 1], order[..|order| - 1]);
      SameLast(lines, order);
    }
  }

  lemma {:induction false} SomeOrder(rows: seq<Entry>) returns (order: seq<Entry>)
    ensures IsOrder(rows, order)
  {
    if rows == [] {
      order := [];
    } else {
      var n := |rows| - 1;
      var front := SomeOrder(rows[..n]);
      InsertOrders(front, rows[n]);
      InsertAdds(front, rows[n]);
      assert rows == rows[..n] + [rows[n]];
      order := Insert(front, rows[n]);
    }
  }

  /** Two entries with the same number can change places. */
  lemma SwapTied(lines: seq<Entry>, i: nat, j: nat)
    requires Sorted(lines) && i < j < |lines| && lines[i].number == lines[j].number && lines[i] != lines[j]
    ensures var order := lines[i := lines[j]][j := lines[i]];
            IsOrder(lines, order) && order != lines
  {
    var order := lines[i := lines[j]][j := lines[i]];
    assert multiset(order) == multiset(lines);
    assert forall k :: 0 <= k < |lines| ==> order[k].number == lines[k].number;
    assert order[i] != lines[i];
  }

  /** The answers to a query are all `lines` exactly if `lines` is settled. */
  lemma {:induction false} OrderDeterminedIff(lines: seq<Entry>)
    ensures (forall order :: IsOrder(lines, order) ==> order == lines) <==> Settled(lines)
  {
    if Settled(lines) {
      forall order | IsOrder(lines, order) ensures order == lines {
        SettledOrderUnique(lines, order);
      }
    } else if Sorted(lines) {
      var i, j :| 0 <= i < j < |lines| && lines[i].number == lines[j].number && lines[i] != lines[j];
      SwapTied(lines, i, j);
    } else {
      var order := SomeOrder(lines);
    }
  }

  // ----- pages -----

  /** The first `n` lines, or all if there are fewer. */
  function UpTo(lines: seq<Entry>, n: nat): seq<Entry>
  {
    if n < |lines| then lines[..n] else lines
  }

  lemma PageExtends(lines: seq<Entry>, offset: nat, page: nat, size: nat)
    requires page >= 1 && offset == (page - 1) * size
    ensures UpTo(lines, offset) + Page(lines, page, size) == UpTo(lines, offset + size)
  {
  }

  lemma TimesNext(n: nat, size: nat)
    ensures (n + 1) * size == n * size + size
  {
  }

  lemma {:induction false} PagesConcatenate(lines: seq<Entry>, pages: seq<seq<Entry>>, size: nat)
    requires size > 0
    requires forall i :: 0 <= i < |pages| ==> pages[i] == Page(lines, i + 1, size)
    ensures Flatten(pages) == UpTo(lines, |pages| * size)
  {
    if pages == [] {
      assert 0 * size == 0;
    } else {
      var n := |pages| - 1;
      PagesConcatenate(lines, pages[..n], size);
      TimesNext(n, size);
      PageExtends(lines, n * size, n + 1, size);
      assert Flatten(pages) == UpTo(lines, n * size) + Page(lines, n + 1, size);
    }
  }

  // ----- the pipeline -----

  ghost predicate Conserved(s: State)
  {
    forall e: Entry :: Accounted(s, e)
  }

  predicate Accounted(s: State, e: Entry)
  {
    multiset(s.added)[e]
    == multiset(s.buffer)[e] + Tally(s.flying, e) + multiset(s.stored)[e] + multiset(s.lost)[e]
  }

  lemma CountSnoc(s: seq<Entry>, x: Entry, e: Entry)
    ensures multiset(s + [x])[e] == multiset(s)[e] + if x == e then 1 else 0
  {
    assert multiset(s + [x]) == multiset(s) + multiset{x};
  }

  lemma CountConcat(a: seq<Entry>, b: seq<Entry>, e: Entry)
    ensures multiset(a + b)[e] == multiset(a)[e] + multiset(b)[e]
  {
    assert multiset(a + b) == multiset(a) + multiset(b);
  }

  lemma NextKeepsAccounted(s: State, a: Action, e: Entry)
    requires Accounted(s, e) && Enabled(s, a)
    ensures Accounted(Next(s, a), e)
  {
    match a
    case Add(x) =>
      CountSnoc(s.buffer, x, e);
      CountSnoc(s.added, x, e);
    case Take =>
      TallySnoc(s.flying, s.buffer, e);
    case StoreBatch(i) =>
      TallyRemove(s.flying, i, e);
      CountConcat(s.stored, s.flying[i], e);
    case LoseBatch(i) =>
      TallyRemove(s.flying, i, e);
      CountConcat(s.lost, s.flying[i], e);
  }

  /** A batch that is stored or lost leaves those under way, and is then in the table, or lost. */
  lemma BatchEnds(s: State, i: nat)
    requires i < |s.flying|
    ensures Enabled(s, StoreBatch(i)) && Enabled(s, LoseBatch(i)) && Enabled(s, Take)
    ensures Next(s, StoreBatch(i))
         == s.(flying := s.flying[..i] + s.flying[i + 1..], stored := s.stored + s.flying[i])
    ensures Next(s, LoseBatch(i)) == s.(flying := s.flying[..i] + s.flying[i + 1..], lost := s.lost + s.flying[i])
  {
  }

  predicate Legal(actions: seq<Action>)
    decreases |actions|, 0
  {
    actions == [] ||
    (Legal(actions[..|actions| - 1]) && Enabled(After(actions[..|actions| - 1]), actions[|actions| - 1]))
  }

  function After(actions: seq<Action>): State
    requires Legal(actions)
    decreases |actions|, 1
  {
    if actions == [] then State([], [], [], [], [])
    else Next(After(actions[..|actions| - 1]), actions[|actions| - 1])
  }

  lemma {:induction false} RunConserves(actions: seq<Action>)
    requires Legal(actions)
    ensures Conserved(After(actions))
  {
    if actions == [] {
    } else {
      RunConserves(actions[..|actions| - 1]);
      forall e: Entry ensures Accounted(After(actions), e) {
        assert Accounted(After(actions[..|actions| - 1]), e);
        NextKeepsAccounted(After(actions[..|actions| - 1]), actions[|actions| - 1], e);
      }
    }
  }

  /** Nothing is left in the buffer or under way, and no request failed. */
  predicate Drained(s: State)
  {
    s.buffer == [] && s.flying == [] && s.lost == []
  }

  lemma ConservedIsComplete(s: State)
    requires Conserved(s) && Drained(s)
    ensures multiset(s.stored) == multiset(s.added)
  {
    forall e: Entry ensures multiset(s.stored)[e] == multiset(s.added)[e] {
      assert Accounted(s, e);
    }
  }

  /** Whatever the interleaving and the order of arrival, the table holds what was added. */
  lemma {:induction false} DrainedTableIsComplete(actions: seq<Action>)
    requires Legal(actions) && Drained(After(actions))
    ensures multiset(After(actions).stored) == multiset(After(actions).added)
  {
    RunConserves(actions);
    ConservedIsComplete(After(actions));
  }

  lemma {:induction false} OfCounts(rows: seq<Entry>, c: Id, e: Entry)
    ensures multiset(Of(rows, c))[e] == if e.command == c then multiset(rows)[e] else 0
  {
    if rows == [] {
    } else {
      var n := |rows| - 1;
      OfCounts(rows[..n], c, e);
      assert rows == rows[..n] + [rows[n]];
      CountSnoc(rows[..n], rows[n], e);
      CountSnoc(Of(rows[..n], c), rows[n], e);
      assert Of(rows[..n], c) + [] == Of(rows[..n], c);
    }
  }

  lemma SameRowsOfCommand(a: seq<Entry>, b: seq<Entry>, c: Id)
    requires multiset(a) == multiset(b)
    ensures multiset(Of(a, c)) == multiset(Of(b, c))
  {
    forall e: Entry ensures multiset(Of(a, c))[e] == multiset(Of(b, c))[e] {
      OfCounts(a, c, e);
      OfCounts(b, c, e);
    }
  }

  /** Answers of GetLogs to queries for the pages from 1 on, all with the same size. */
  ghost predicate PagesOf(rows: seq<Entry>, c: Id, size: int, pages: seq<seq<Entry>>)
  {
    forall i :: 0 <= i < |pages| ==> IsPage(rows, c, i + 1, size, pages[i])
  }

  /** A state of the pipeline in which everything has been stored. */
  ghost predicate Settles(s: State)
  {
    Conserved(s) && Drained(s)
  }

  lemma StoredOrder(s: State, c: Id, order: seq<Entry>)
    requires Settles(s)
    ensures IsOrder(Of(s.stored, c), order) <==> IsOrder(Of(s.added, c), order)
  {
    ConservedIsComplete(s);
    SameRowsOfCommand(s.stored, s.added, c);
  }

  /** The answer to a query is the page of the lines, if these leave no choice of order. */
  lemma AnswerIsPage(s: State, c: Id, page: nat, size: int, logs: seq<Entry>)
    requires Settles(s) && Settled(Of(s.added, c)) && page >= 1
    requires IsPage(s.stored, c, page, size, logs)
    ensures logs == Page(Of(s.added, c), page, ClampSize(size))
  {
    var order :| IsOrder(Of(s.stored, c), order) && logs == Page(order, ClampPage(page), ClampSize(size));
    StoredOrder(s, c, order);
    SettledOrderUnique(Of(s.added, c), order);
  }

  /** Any number of pages, put together, is that many lines. */
  lemma PagesGiveBackSome(s: State, c: Id, size: int, pages: seq<seq<Entry>>)
    requires Settles(s) && Settled(Of(s.added, c)) && PagesOf(s.stored, c, size, pages)
    ensures Flatten(pages) == UpTo(Of(s.added, c), |pages| * ClampSize(size))
  {
    forall i | 0 <= i < |pages| ensures pages[i] == Page(Of(s.added, c), i + 1, ClampSize(size)) {
      AnswerIsPage(s, c, i + 1, size, pages[i]);
    }
    PagesConcatenate(Of(s.added, c), pages, ClampSize(size));
  }

  /** Enough pages are the lines. */
  lemma EnoughPagesGiveBack(s: State, c: Id, size: int, pages: seq<seq<Entry>>)
    requires Settles(s) && Settled(Of(s.added, c))
    requires PagesOf(s.stored, c, size, pages) && |pages| * ClampSize(size) >= |Of(s.added, c)|
    ensures Flatten(pages) == Of(s.added, c)
  {
    PagesGiveBackSome(s, c, size, pages);
  }

  // ----- a caller who counts pages by the size it asks for -----

  /** n / size, rounded up. */
  function PagesFor(n: nat, size: int): nat
    requires size > 0
  {
    (n + size - 1) / size
  }

  lemma Rounding(n: nat, size: int)
    requires size > 0
    ensures PagesFor(n, size) * size >= n && (n > 0 ==> (PagesFor(n, size) - 1) * size < n)
  {
    var q := PagesFor(n, size);
    assert n + size - 1 == q * size + (n + size - 1) % size;
    assert (q - 1) * size == q * size - size;
  }

  lemma TimesAtMost(k: nat, a: nat, b: nat)
    requires a <= b
    ensures k * a <= k * b
  {
  }

  /** Pages of 100 that are counted as if they held more than 1000. */
  lemma TooFewPages(n: nat, size: nat, pages: nat)
    requires size > 1000 && n > 100 && (pages == 0 || (pages - 1) * size < n)
    ensures pages * 100 < n
  {
    if pages > 1 {
      TimesAtMost(pages - 1, 1001, size);
    }
  }

  /** The lines that such a caller gets to. */
  function Reached(n: nat, size: int): nat
    requires size > 0
  {
    PagesFor(n, size) * ClampSize(size)
  }

  /** It gets to the last line exactly if its size is not replaced, or one page of 100 is enough. */
  lemma EnoughPagesIff(n: nat, size: int)
    requires size > 0
    ensures Reached(n, size) >= n <==> size <= 1000 || n <= 100
  {
    Rounding(n, size);
    if size > 1000 && n > 100 {
      TooFewPages(n, size, PagesFor(n, size));
    } else if size > 1000 && n > 0 {
      assert PagesFor(n, size) > 0;
    }
  }

  /** The pages that queries with the same order of equal numbers return. */
  function PagesFrom(order: seq<Entry>, size: nat, n: nat): (pages: seq<seq<Entry>>)
    ensures |pages| == n && forall i :: 0 <= i < n ==> pages[i] == Page(order, i + 1, size)
  {
    if n == 0 then [] else PagesFrom(order, size, n - 1) + [Page(order, n, size)]
  }

  /** Whatever the database answers, the pages counted by the size are `lines`. */
  ghost predicate AlwaysGiveBack(rows: seq<Entry>, c: Id, size: int, lines: seq<Entry>)
    requires size > 0
  {
    forall pages :: PagesOf(rows, c, size, pages) && |pages| == PagesFor(|lines|, size) ==> Flatten(pages) == lines
  }

  /** One order of the rows, and with it one answer to all the queries. */
  lemma AnswersOf(rows: seq<Entry>, c: Id, size: int, n: nat, order: seq<Entry>)
    requires IsOrder(Of(rows, c), order)
    ensures PagesOf(rows, c, size, PagesFrom(order, ClampSize(size), n))
    ensures Flatten(PagesFrom(order, ClampSize(size), n)) == UpTo(order, n * ClampSize(size))
  {
    var pages := PagesFrom(order, ClampSize(size), n);
    forall i | 0 <= i < n ensures IsPage(rows, c, i + 1, size, pages[i]) {
      assert pages[i] == Page(order, ClampPage(i + 1), ClampSize(size));
    }
    PagesConcatenate(order, pages, ClampSize(size));
  }

  lemma OtherOrderOtherPages(rows: seq<Entry>, c: Id, size: int, lines: seq<Entry>, order: seq<Entry>)
    requires size > 0 && IsOrder(Of(rows, c), order) && |order| == |lines|
    requires order != lines || Reached(|lines|, size) < |lines|
    ensures !AlwaysGiveBack(rows, c, size, lines)
  {
    var pages := PagesFrom(order, ClampSize(size), PagesFor(|lines|, size));
    AnswersOf(rows, c, size, PagesFor(|lines|, size), order);
    NotTheLines(order, lines, Reached(|lines|, size));
    assert PagesOf(rows, c, size, pages) && Flatten(pages) != lines;
  }

  lemma NotTheLines(order: seq<Entry>, lines: seq<Entry>, n: nat)
    requires |order| == |lines| && (order != lines || n < |lines|)
    ensures n < |lines| ==> UpTo(order, n) != lines
    ensures n >= |lines| ==> UpTo(order, n) == order
  {
  }

  lemma CountedPagesIff(s: State, c: Id, size: int)
    requires Settles(s) && size > 0
    ensures AlwaysGiveBack(s.stored, c, size, Of(s.added, c))
       <==> Settled(Of(s.added, c)) && (size <= 1000 || |Of(s.added, c)| <= 100)
  {
    var lines := Of(s.added, c);
    EnoughPagesIff(|lines|, size);
    if Settled(lines) && (size <= 1000 || |lines| <= 100) {
      forall pages | PagesOf(s.stored, c, size, pages) && |pages| == PagesFor(|lines|, size)
        ensures Flatten(pages) == lines
      {
        EnoughPagesGiveBack(s, c, size, pages);
      }
    } else {
      var order := BadOrder(s, c);
      OtherOrderOtherPages(s.stored, c, size, lines, order);
    }
  }

  /** Some order of the stored rows, and another one than the lines if there is a choice. */
  lemma BadOrder(s: State, c: Id) returns (order: seq<Entry>)
    requires Settles(s)
    ensures IsOrder(Of(s.stored, c), order) && |order| == |Of(s.added, c)|
    ensures !Settled(Of(s.added, c)) ==> order != Of(s.added, c)
  {
    var lines := Of(s.added, c);
    OrderDeterminedIff(lines);
    if Settled(lines) {
      order := SomeOrder(lines);
    } else {
      order :| IsOrder(lines, order) && order != lines;
    }
    StoredOrder(s, c, order);
    assert |order| == |multiset(order)| == |multiset(lines)|;
  }

  /**
   In every run: once everything is stored, enough pages of GetLogs put together are exactly the
   lines added for the command, in the order in which they were added, if these leave no choice of
   order.
   */
  lemma {:induction false} PagesGiveBackTheLines(actions: seq<Action>, c: Id, size: int, pages: seq<seq<Entry>>)
    requires Legal(actions) && Drained(After(actions)) && Settled(Of(After(actions).added, c))
    requires PagesOf(After(actions).stored, c, size, pages)
    requires |pages| * ClampSize(size) >= |Of(After(actions).added, c)|
    ensures Flatten(pages) == Of(After(actions).added, c)
  {
    RunConserves(actions);
    EnoughPagesGiveBack(After(actions), c, size, pages);
  }

  /**
   In every run: a caller who asks for as many pages as its size calls for is sure to get the lines
   exactly if they leave no choice of order and its size is one that GetLogs does not replace by
   100, or a hundred are enough.
   */
  lemma {:induction false} PagesGiveBackIff(actions: seq<Action>, c: Id, size: int)
    requires Legal(actions) && Drained(After(actions)) && size > 0
    ensures var lines := Of(After(actions).added, c);
            AlwaysGiveBack(After(actions).stored, c, size, lines)
            <==> Settled(lines) && (size <= 1000 || |lines| <= 100)
  {
    RunConserves(actions);
    CountedPagesIff(After(actions), c, size);
  }

  /** 101 lines and a size of 2000: the one page that this calls for holds 100 of them. */
  lemma OversizedPageLosesALine(lines: seq<Entry>)
    requires |lines| == 101
    ensures PagesFor(101, 2000) == 1 && |Page(lines, 1, ClampSize(2000))| == 100
  {
  }

  // ----- with the numbers that the runner gives -----

  /** The numbers are those that a history of the command gives. */
  predicate NumberedBy(lines: seq<Entry>, ops: seq<S.Op>)
  {
    |lines| == |S.Numbers(ops)| && forall i :: 0 <= i < |lines| ==> lines[i].number == S.Numbers(ops)[i]
  }

  /** For lines that can be told apart, being settled means that their numbers rise. */
  lemma SettledIff(lines: seq<Entry>, ops: seq<S.Op>)
    requires NumberedBy(lines, ops)
    ensures S.OneOccupied(S.Stretches(ops)) ==> Settled(lines)
    ensures (forall i, j :: 0 <= i < j < |lines| ==> lines[i] != lines[j]) ==>
              (Settled(lines) <==> S.OneOccupied(S.Stretches(ops)))
  {
    S.NumbersIncreaseIff(ops);
  }

  /**
   For every history of a command, with any number of dispatches and results: the database gives
   back the lines in order, whatever it does with equal numbers, if at most one stretch between
   dispatches and results has lines; and only then, if the lines can be told apart.
   */
  lemma ExecutionComesBackIff(lines: seq<Entry>, ops: seq<S.Op>)
    requires NumberedBy(lines, ops)
    ensures S.OneOccupied(S.Stretches(ops)) ==> forall order :: IsOrder(lines, order) ==> order == lines
    ensures (forall i, j :: 0 <= i < j < |lines| ==> lines[i] != lines[j]) ==>
              ((forall order :: IsOrder(lines, order) ==> order == lines) <==> S.OneOccupied(S.Stretches(ops)))
  {
    OrderDeterminedIff(lines);
    SettledIff(lines, ops);
  }
}
