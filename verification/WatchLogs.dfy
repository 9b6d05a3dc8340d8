/**
 The SDK's log follower: it polls the first page of 100 rows for ever and passes on the rows
 whose sequence number is greater than the last one delivered, starting from 0. A poll that
 fails is None.
 */
module WatchLogs {
  import opened Common
  import opened Shipper
  import P = LogPipeline

  const PAGE_SIZE: nat := 100

  /** `lastSeq` and the rows delivered so far. */
  datatype Cursor = Cursor(last: int, out: seq<Entry>)

  function ScanRows(c: Cursor, rows: seq<Entry>): Cursor
  {
    if rows == [] then c
    else
      var d := ScanRows(c, rows[..|rows| - 1]);
      var row := rows[|rows| - 1];
      if row.number > d.last then Cursor(row.number, d.out + [row]) else d
  }

  function Follow(polls: seq<Option<seq<Entry>>>): Cursor
  {
    if polls == [] then Cursor(0, [])
    else
      var before := Follow(polls[..|polls| - 1]);
      if polls[|polls| - 1].None? then before else ScanRows(before, polls[|polls| - 1].value)
  }

  method Watch(polls: seq<Option<seq<Entry>>>) returns (delivered: seq<Entry>)
    ensures delivered == Follow(polls).out
  {
    delivered := [];
    var lastSeq := 0;
    for i := 0 to |polls|
      invariant Follow(polls[..i]) == Cursor(lastSeq, delivered)
    {
      assert polls[..i + 1][..i] == polls[..i];
      if polls[i].Some? {
        var logs := polls[i].value;
        ghost var start := Cursor(lastSeq, delivered);
        for k := 0 to |logs|
          invariant ScanRows(start, logs[..k]) == Cursor(lastSeq, delivered)
        {
          assert logs[..k + 1][..k] == logs[..k];
          if logs[k].number > lastSeq {
            delivered := delivered + [logs[k]];
            lastSeq := logs[k].number;
          }
        }
        assert logs[..|logs|] == logs;
      }
    }
    assert polls[..|polls|] == polls;
  }

  // ----- for any polls -----

  /** Delivered numbers rise from above 0 to the cursor. */
  predicate Rising(c: Cursor)
  {
    && (forall i, j :: 0 <= i < j < |c.out| ==> c.out[i].number < c.out[j].number)
    && (forall i :: 0 <= i < |c.out| ==> 0 < c.out[i].number <= c.last)
    && c.last == if c.out == [] then 0 else c.out[|c.out| - 1].number
  }

  /** What `d` has delivered beyond `c` lies above the cursor of `c`. */
  predicate Continues(c: Cursor, d: Cursor)
  {
    && c.out <= d.out && c.last <= d.last
    && forall i :: |c.out| <= i < |d.out| ==> d.out[i].number > c.last
  }

  lemma {:induction false} ScanRises(c: Cursor, rows: seq<Entry>)
    requires Rising(c)
    ensures Rising(ScanRows(c, rows)) && Continues(c, ScanRows(c, rows))
  {
    if rows == [] {
    } else {
      ScanRises(c, rows[..|rows| - 1]);
    }
  }

  /** No row twice and never out of order, whatever the polls return. */
  lemma {:induction false} FollowRises(polls: seq<Option<seq<Entry>>>)
    ensures Rising(Follow(polls))
  {
    if polls == [] {
    } else {
      FollowRises(polls[..|polls| - 1]);
      if polls[|polls| - 1].Some? {
        ScanRises(Follow(polls[..|polls| - 1]), polls[|polls| - 1].value);
      }
    }
  }

  /** A row that shows up behind the cursor is never delivered, however often it is polled. */
  lemma {:induction false} NeverCatchesUp(polls: seq<Option<seq<Entry>>>, more: seq<Option<seq<Entry>>>)
    ensures Continues(Follow(polls), Follow(polls + more))
  {
    FollowRises(polls);
    if more == [] {
      assert polls + more == polls;
    } else {
      var front := polls + more[..|more| - 1];
      assert polls + more == front + [more[|more| - 1]];
      assert (polls + more)[..|front|] == front;
      NeverCatchesUp(polls, more[..|more| - 1]);
      FollowRises(front);
      if more[|more| - 1].Some? {
        ScanRises(Follow(front), more[|more| - 1].value);
      }
    }
  }

  // ----- the numbers of what is delivered -----

  function Nums(rows: seq<Entry>): (ns: seq<int>)
    ensures |ns| == |rows| && forall i :: 0 <= i < |rows| ==> ns[i] == rows[i].number
  {
    seq(|rows|, i requires 0 <= i < |rows| => rows[i].number)
  }

  function Last(ns: seq<int>): int
  {
    if ns == [] then 0 else ns[|ns| - 1]
  }

  /** The numbers that a scan of rows numbered `ns` leaves delivered after `seen`. */
  function Rise(seen: seq<int>, ns: seq<int>): seq<int>
  {
    if ns == [] then seen
    else
      var d := Rise(seen, ns[..|ns| - 1]);
      if ns[|ns| - 1] > Last(d) then d + [ns[|ns| - 1]] else d
  }

  lemma {:induction false} ScanNums(c: Cursor, rows: seq<Entry>)
    requires c.last == Last(Nums(c.out))
    ensures Nums(ScanRows(c, rows).out) == Rise(Nums(c.out), Nums(rows))
    ensures ScanRows(c, rows).last == Last(Nums(ScanRows(c, rows).out))
  {
    if rows == [] {
    } else {
      var front := rows[..|rows| - 1];
      ScanNums(c, front);
      assert Nums(rows)[..|rows| - 1] == Nums(front);
      var d := ScanRows(c, front);
      assert Nums(d.out + [rows[|rows| - 1]]) == Nums(d.out) + [rows[|rows| - 1].number];
    }
  }

  predicate Increasing(ns: seq<int>)
  {
    (forall i, j :: 0 <= i < j < |ns| ==> ns[i] < ns[j]) && forall i :: 0 <= i < |ns| ==> ns[i] > 0
  }

  lemma IncreasingSnoc(d: seq<int>, n: int)
    requires Increasing(d) && n > Last(d)
    ensures Increasing(d + [n])
  {
    var more := d + [n];
    forall i, j | 0 <= i < j < |more| ensures more[i] < more[j] {
      if j == |d| {
        assert d[i] <= Last(d);
      }
    }
    assert Last(d) >= 0;
  }

  lemma {:induction false} RiseIncreases(seen: seq<int>, ns: seq<int>)
    requires Increasing(seen)
    ensures Increasing(Rise(seen, ns))
  {
    if ns == [] {
    } else {
      var front, n := ns[..|ns| - 1], ns[|ns| - 1];
      RiseIncreases(seen, front);
      if n > Last(Rise(seen, front)) {
        IncreasingSnoc(Rise(seen, front), n);
      }
    }
  }

  predicate Comparable(a: seq<int>, b: seq<int>)
  {
    a <= b || b <= a
  }

  /** A scan that begins somewhere on the way of another one ends where that one ends. */
  lemma {:induction false} RiseFrom(seen: seq<int>, ns: seq<int>)
    requires Increasing(seen) && Comparable(seen, Rise([], ns))
    ensures Rise(seen, ns) == if |Rise([], ns)| >= |seen| then Rise([], ns) else seen
  {
    if ns == [] {
    } else {
      var front := Rise([], ns[..|ns| - 1]);
      var whole := Rise([], ns);
      assert front <= whole && |whole| <= |front| + 1;
      RiseIncreases([], ns);
      FrontCompares(seen, front, whole);
      RiseFrom(seen, ns[..|ns| - 1]);
      if |front| < |seen| {
        LastOfLonger(front, seen);
      }
    }
  }

  lemma FrontCompares(seen: seq<int>, front: seq<int>, whole: seq<int>)
    requires Comparable(seen, whole) && front <= whole && |whole| <= |front| + 1
    ensures Comparable(seen, front)
    ensures |seen| > |front| ==> front <= seen && (|whole| > |front| ==> whole <= seen)
  {
  }

  lemma LastOfLonger(a: seq<int>, b: seq<int>)
    requires a <= b && Increasing(b)
    ensures Last(a) <= Last(b)
    ensures |a| < |b| ==> b[|a|] <= Last(b)
  {
  }

  // ----- polls of a table -----

  function FirstPage(rows: seq<Entry>): (page: seq<Entry>)
    ensures page <= rows && |page| == if |rows| < PAGE_SIZE then |rows| else PAGE_SIZE
  {
    P.Page(rows, 1, PAGE_SIZE)
  }

  function FirstPages(snapshots: seq<Option<seq<Entry>>>): (pages: seq<Option<seq<Entry>>>)
    ensures |pages| == |snapshots|
    ensures forall i :: 0 <= i < |pages| ==>
              pages[i] == if snapshots[i].None? then None else Some(FirstPage(snapshots[i].value))
  {
    if snapshots == [] then []
    else
      var last := snapshots[|snapshots| - 1];
      FirstPages(snapshots[..|snapshots| - 1]) + [if last.None? then None else Some(FirstPage(last.value))]
  }

  /** What the last successful poll saw. */
  function LastSeen(snapshots: seq<Option<seq<Entry>>>): seq<Entry>
  {
    if snapshots == [] then []
    else if snapshots[|snapshots| - 1].Some? then snapshots[|snapshots| - 1].value
    else LastSeen(snapshots[..|snapshots| - 1])
  }

  /** The numbers that a single poll of `rows` would show: each positive one of its first page once. */
  function Shown(rows: seq<Entry>): seq<int>
  {
    Rise([], Nums(FirstPage(rows)))
  }

  /** What the follower has shown after polling the table at each of the snapshots. */
  function Delivered(snapshots: seq<Option<seq<Entry>>>): seq<Entry>
  {
    Follow(FirstPages(snapshots)).out
  }

  /** Every successful poll could have shown a beginning of `all` and nothing else. */
  predicate SeesParts(snapshots: seq<Option<seq<Entry>>>, all: seq<int>)
  {
    forall i :: 0 <= i < |snapshots| && snapshots[i].Some? ==> Shown(snapshots[i].value) <= all
  }

  lemma PrefixesCompare(a: seq<int>, b: seq<int>, all: seq<int>)
    requires a <= all && b <= all
    ensures Comparable(a, b)
  {
  }

  lemma PrefixIncreases(a: seq<int>, b: seq<int>)
    requires a <= b && Increasing(b)
    ensures Increasing(a)
  {
  }

  /** One more poll that could have shown a beginning of `all`. */
  lemma PartAdds(c: Cursor, page: seq<Entry>, all: seq<int>)
    requires Rising(c) && Increasing(all) && Nums(c.out) <= all && Rise([], Nums(page)) <= all
    ensures var d := Nums(ScanRows(c, page).out);
            d <= all && Nums(c.out) <= d && Rise([], Nums(page)) <= d
  {
    var seen, part := Nums(c.out), Rise([], Nums(page));
    ScanNums(c, page);
    PrefixIncreases(seen, all);
    PrefixesCompare(seen, part, all);
    RiseFrom(seen, Nums(page));
  }

  lemma {:induction false} PartsAddUp(snapshots: seq<Option<seq<Entry>>>, all: seq<int>)
    requires Increasing(all) && SeesParts(snapshots, all)
    ensures Nums(Delivered(snapshots)) <= all && SeesParts(snapshots, Nums(Delivered(snapshots)))
  {
    if snapshots == [] {
    } else {
      var n := |snapshots| - 1;
      var pages := FirstPages(snapshots);
      assert pages[..n] == FirstPages(snapshots[..n]);
      PartsAddUp(snapshots[..n], all);
      FollowRises(pages[..n]);
      if snapshots[n].Some? {
        PartAdds(Follow(pages[..n]), pages[n].value, all);
      }
      PartsSnoc(snapshots, Nums(Delivered(snapshots[..n])), Nums(Delivered(snapshots)));
    }
  }

  lemma PartsSnoc(snapshots: seq<Option<seq<Entry>>>, before: seq<int>, after: seq<int>)
    requires snapshots != [] && SeesParts(snapshots[..|snapshots| - 1], before) && before <= after
    requires snapshots[|snapshots| - 1].Some? ==> Shown(snapshots[|snapshots| - 1].value) <= after
    ensures SeesParts(snapshots, after)
  {
    forall i | 0 <= i < |snapshots| && snapshots[i].Some? ensures Shown(snapshots[i].value) <= after {
      if i < |snapshots| - 1 {
        assert snapshots[..|snapshots| - 1][i] == snapshots[i];
      }
    }
  }

  lemma {:induction false} LastSeenAt(snapshots: seq<Option<seq<Entry>>>, i: nat) returns (k: nat)
    requires i < |snapshots| && snapshots[i].Some?
    ensures i <= k < |snapshots| && snapshots[k] == Some(LastSeen(snapshots))
  {
    var n := |snapshots| - 1;
    if snapshots[n].Some? {
      k := n;
    } else {
      k := LastSeenAt(snapshots[..n], i);
    }
  }

  lemma {:induction false} NeverSeen(snapshots: seq<Option<seq<Entry>>>)
    requires forall i :: 0 <= i < |snapshots| ==> snapshots[i].None?
    ensures LastSeen(snapshots) == [] && Delivered(snapshots) == []
  {
    if snapshots == [] {
    } else {
      var n := |snapshots| - 1;
      NeverSeen(snapshots[..n]);
      assert FirstPages(snapshots)[..n] == FirstPages(snapshots[..n]);
    }
  }

  lemma ShownIncreases(rows: seq<Entry>)
    ensures Increasing(Shown(rows))
  {
    RiseIncreases([], Nums(FirstPage(rows)));
  }

  /**
   Whatever the snapshots: if every poll could have shown a beginning of what the last one can
   show, then just that has been shown.
   */
  lemma FollowerShowsIf(snapshots: seq<Option<seq<Entry>>>)
    requires SeesParts(snapshots, Shown(LastSeen(snapshots)))
    ensures Nums(Delivered(snapshots)) == Shown(LastSeen(snapshots))
  {
    if i :| 0 <= i < |snapshots| && snapshots[i].Some? {
      var k := LastSeenAt(snapshots, i);
      ShownIncreases(LastSeen(snapshots));
      PartsAddUp(snapshots, Shown(LastSeen(snapshots)));
      assert Shown(snapshots[k].value) <= Nums(Delivered(snapshots));
    } else {
      NeverSeen(snapshots);
    }
  }

  // ----- tables that rows are added to -----

  predicate Within(a: seq<Entry>, b: seq<Entry>)
  {
    forall r :: r in a ==> r in b
  }

  /**
   Every successful poll sees the rows in some order of their numbers, which may repeat, and with
   the rows of the earlier polls, to which others may have been added at any place.
   */
  predicate Accumulating(snapshots: seq<Option<seq<Entry>>>)
  {
    && (forall i :: 0 <= i < |snapshots| && snapshots[i].Some? ==> P.Sorted(snapshots[i].value))
    && (forall i, j :: 0 <= i < j < |snapshots| && snapshots[i].Some? && snapshots[j].Some? ==>
          multiset(snapshots[i].value) <= multiset(snapshots[j].value))
  }

  lemma MultisetWithin(a: seq<Entry>, b: seq<Entry>)
    requires multiset(a) <= multiset(b)
    ensures Within(a, b)
  {
    forall r | r in a ensures r in b {
      assert r in multiset(a) && r in multiset(b);
    }
  }

  lemma LastSeenHolds(snapshots: seq<Option<seq<Entry>>>, i: nat)
    requires Accumulating(snapshots) && i < |snapshots| && snapshots[i].Some?
    ensures P.Sorted(LastSeen(snapshots)) && multiset(snapshots[i].value) <= multiset(LastSeen(snapshots))
    ensures Within(snapshots[i].value, LastSeen(snapshots))
  {
    var k := LastSeenAt(snapshots, i);
    MultisetWithin(snapshots[i].value, LastSeen(snapshots));
  }

  /** A scan delivers rows it sees, and its cursor is then at or above all of them. */
  lemma {:induction false} ScanCovers(c: Cursor, rows: seq<Entry>)
    ensures c.last <= ScanRows(c, rows).last
    ensures forall r :: r in rows ==> r.number <= ScanRows(c, rows).last
    ensures forall r :: r in ScanRows(c, rows).out ==> r in c.out || r in rows
  {
    if rows == [] {
    } else {
      var front, last := rows[..|rows| - 1], rows[|rows| - 1];
      ScanCovers(c, front);
      assert rows == front + [last];
    }
  }

  /** What has been delivered was on the page of some poll. */
  lemma {:induction false} DeliveredFrom(polls: seq<Option<seq<Entry>>>, r: Entry) returns (i: nat)
    requires r in Follow(polls).out
    ensures i < |polls| && polls[i].Some? && r in polls[i].value
  {
    var n := |polls| - 1;
    if polls[n].Some? {
      ScanCovers(Follow(polls[..n]), polls[n].value);
      if r in polls[n].value {
        return n;
      }
    }
    i := DeliveredFrom(polls[..n], r);
  }

  lemma FollowStep(polls: seq<Option<seq<Entry>>>, i: nat)
    requires i < |polls| && polls[i].Some?
    ensures Follow(polls[..i + 1]) == ScanRows(Follow(polls[..i]), polls[i].value)
    ensures Continues(Follow(polls[..i + 1]), Follow(polls))
  {
    assert polls[..i + 1][..i] == polls[..i];
    assert polls[..i + 1] + polls[i + 1..] == polls;
    NeverCatchesUp(polls[..i + 1], polls[i + 1..]);
  }

  lemma DeliveredEarlier(snapshots: seq<Option<seq<Entry>>>, i: nat, r: Entry)
    requires Accumulating(snapshots) && i < |snapshots| && snapshots[i].Some?
    requires r in Follow(FirstPages(snapshots)[..i]).out
    ensures r in snapshots[i].value
  {
    var j := DeliveredFrom(FirstPages(snapshots)[..i], r);
    assert r in FirstPage(snapshots[j].value);
    MultisetWithin(snapshots[j].value, snapshots[i].value);
  }

  /** A row that a poll did not see, although it had one with that number or a larger one, is never delivered. */
  lemma MissedForGood(snapshots: seq<Option<seq<Entry>>>, i: nat, q: Entry, r: Entry)
    requires Accumulating(snapshots) && i < |snapshots| && snapshots[i].Some?
    requires q in FirstPage(snapshots[i].value) && r !in snapshots[i].value && r.number <= q.number
    ensures r !in Delivered(snapshots)
  {
    var pages := FirstPages(snapshots);
    var before, after := Follow(pages[..i]), Follow(pages[..i + 1]);
    FollowStep(pages, i);
    ScanCovers(before, pages[i].value);
    if r in before.out {
      DeliveredEarlier(snapshots, i, r);
    }
    assert r !in after.out && r.number <= after.last;
  }

  /** The cursor ends at or above every row that a poll had on its page. */
  lemma CursorPasses(snapshots: seq<Option<seq<Entry>>>, i: nat, q: Entry)
    requires i < |snapshots| && snapshots[i].Some? && q in FirstPage(snapshots[i].value)
    ensures q.number <= Follow(FirstPages(snapshots)).last
  {
    var pages := FirstPages(snapshots);
    FollowStep(pages, i);
    ScanCovers(Follow(pages[..i]), pages[i].value);
  }

  // ----- what can be shown of a table -----

  lemma {:induction false} RiseIn(ns: seq<int>)
    requires forall i, j :: 0 <= i < j < |ns| ==> ns[i] <= ns[j]
    ensures forall n :: n in Rise([], ns) <==> n in ns && n > 0
  {
    if ns == [] {
    } else {
      var front, last := ns[..|ns| - 1], ns[|ns| - 1];
      RiseIn(front);
      RiseIncreases([], front);
      assert ns == front + [last];
      TopIsDelivered(Rise([], front), front, last);
    }
  }

  /** A number that is at least all others but not above those delivered is one of these, or not positive. */
  lemma TopIsDelivered(d: seq<int>, front: seq<int>, last: int)
    requires forall i :: 0 <= i < |front| ==> front[i] <= last
    requires forall n :: n in d ==> n in front
    ensures last <= Last(d) ==> last in d || last <= 0
  {
    if d != [] {
      assert d[|d| - 1] in d;
    }
  }

  /** Shown are exactly the positive numbers of the first page, in order and each one once. */
  lemma ShownIn(rows: seq<Entry>)
    requires P.Sorted(rows)
    ensures Increasing(Shown(rows))
    ensures forall n :: n in Shown(rows) <==> n > 0 && exists r :: r in FirstPage(rows) && r.number == n
  {
    var page := FirstPage(rows);
    ShownIncreases(rows);
    RiseIn(Nums(page));
    forall n ensures n in Nums(page) <==> exists r :: r in page && r.number == n {
      NumsIn(page, n);
    }
  }

  lemma NumsIn(rows: seq<Entry>, n: int)
    ensures n in Nums(rows) <==> exists r :: r in rows && r.number == n
  {
    if n in Nums(rows) {
      var i :| 0 <= i < |rows| && Nums(rows)[i] == n;
      assert rows[i] in rows;
    }
    if r :| r in rows && r.number == n {
      var i :| 0 <= i < |rows| && rows[i] == r;
      assert Nums(rows)[i] == n;
    }
  }

  lemma OnPageBelow(rows: seq<Entry>, q: Entry, r: Entry)
    requires P.Sorted(rows) && q in FirstPage(rows) && r in rows && r.number < q.number
    ensures r in FirstPage(rows)
  {
    var i :| 0 <= i < |FirstPage(rows)| && FirstPage(rows)[i] == q;
    var j :| 0 <= j < |rows| && rows[j] == r;
    assert rows[i] == q;
    assert j <= i && FirstPage(rows)[j] == r;
  }

  /** Everything in `x` below a member of `p` is in `p` as well. */
  predicate LowerSet(p: seq<int>, x: seq<int>)
  {
    (forall n :: n in p ==> n in x) && forall n, m :: n in p && m in x && m < n ==> m in p
  }

  lemma NotLower(p: seq<int>, x: seq<int>, k: nat)
    requires Increasing(p) && Increasing(x) && LowerSet(p, x) && k < |p| && k < |x|
    requires forall j :: 0 <= j < k ==> p[j] == x[j]
    ensures x[k] >= p[k]
  {
    assert p[k] in p && x[k] in x;
  }

  lemma SameAt(p: seq<int>, x: seq<int>, k: nat)
    requires Increasing(p) && Increasing(x) && LowerSet(p, x)
    requires k < |p| && forall j :: 0 <= j < k ==> j < |x| && p[j] == x[j]
    ensures k < |x| && p[k] == x[k]
  {
    assert p[k] in p && p[k] in x;
    var m :| 0 <= m < |x| && x[m] == p[k];
    assert m >= k;
    NotLower(p, x, k);
  }

  lemma {:induction false} LowerPart(p: seq<int>, x: seq<int>, n: nat)
    requires Increasing(p) && Increasing(x) && LowerSet(p, x) && n <= |p|
    ensures n <= |x| && forall j :: 0 <= j < n ==> p[j] == x[j]
  {
    if n == 0 {
    } else {
      LowerPart(p, x, n - 1);
      SameAt(p, x, n - 1);
    }
  }

  lemma PassedBy(c: Cursor, n: int) returns (z: Entry)
    requires Rising(c) && 0 < n <= c.last
    ensures z in c.out && n <= z.number
  {
    z := c.out[|c.out| - 1];
  }

  /** If the follower ends with the numbers that `rows` can show, every poll saw some of those. */
  lemma ShownEarlier(snapshots: seq<Option<seq<Entry>>>, i: nat, rows: seq<Entry>, q: Entry)
    requires P.Sorted(rows) && i < |snapshots| && snapshots[i].Some? && Within(snapshots[i].value, rows)
    requires Nums(Delivered(snapshots)) == Shown(rows)
    requires q in FirstPage(snapshots[i].value) && q.number > 0
    ensures q.number in Shown(rows)
  {
    FollowRises(FirstPages(snapshots));
    CursorPasses(snapshots, i, q);
    var z := PassedBy(Follow(FirstPages(snapshots)), q.number);
    NumsIn(Delivered(snapshots), z.number);
    ShownIn(rows);
    var top :| top in FirstPage(rows) && top.number == z.number;
    if q.number < top.number {
      OnPageBelow(rows, top, q);
    }
  }

  lemma NothingBelowMissed(snapshots: seq<Option<seq<Entry>>>, i: nat, q: Entry, m: int)
    requires Accumulating(snapshots) && i < |snapshots| && snapshots[i].Some?
    requires q in FirstPage(snapshots[i].value) && m in Nums(Delivered(snapshots)) && 0 < m < q.number
    ensures m in Shown(snapshots[i].value)
  {
    var seen := snapshots[i].value;
    NumsIn(Delivered(snapshots), m);
    var r :| r in Delivered(snapshots) && r.number == m;
    if r in seen {
      OnPageBelow(seen, q, r);
      ShownIn(seen);
    } else {
      MissedForGood(snapshots, i, q, r);
    }
  }

  /** If the follower has shown what can be shown at the end, every poll could show a beginning of it. */
  lemma ShownThenPart(snapshots: seq<Option<seq<Entry>>>, i: nat)
    requires Accumulating(snapshots) && i < |snapshots| && snapshots[i].Some?
    requires Nums(Delivered(snapshots)) == Shown(LastSeen(snapshots))
    ensures Shown(snapshots[i].value) <= Shown(LastSeen(snapshots))
  {
    var seen, rows := snapshots[i].value, LastSeen(snapshots);
    var p, all := Shown(seen), Shown(rows);
    LastSeenHolds(snapshots, i);
    ShownIn(seen);
    ShownIncreases(rows);
    forall n | n in p ensures n in all {
      var q :| q in FirstPage(seen) && q.number == n;
      ShownEarlier(snapshots, i, rows, q);
    }
    forall n, m | n in p && m in all && m < n ensures m in p {
      var q :| q in FirstPage(seen) && q.number == n;
      var k :| 0 <= k < |all| && all[k] == m;
      NothingBelowMissed(snapshots, i, q, m);
    }
    LowerPart(p, all, |p|);
  }

  /**
   Whenever the polls happen and wherever rows are added in between, with numbers that may repeat:
   shown is one row for each positive number on the first page of what the last poll saw, exactly
   if every poll could have shown a beginning of those.
   */
  lemma FollowerShowsIff(snapshots: seq<Option<seq<Entry>>>)
    requires Accumulating(snapshots)
    ensures Nums(Delivered(snapshots)) == Shown(LastSeen(snapshots))
       <==> SeesParts(snapshots, Shown(LastSeen(snapshots)))
  {
    if SeesParts(snapshots, Shown(LastSeen(snapshots))) {
      FollowerShowsIf(snapshots);
    }
    if Nums(Delivered(snapshots)) == Shown(LastSeen(snapshots)) {
      forall i | 0 <= i < |snapshots| && snapshots[i].Some?
        ensures Shown(snapshots[i].value) <= Shown(LastSeen(snapshots))
      {
        ShownThenPart(snapshots, i);
      }
    }
  }

  // ----- tables that grow at the end -----

  /** Every successful poll sees a beginning of what the last one sees. */
  predicate Growing(snapshots: seq<Option<seq<Entry>>>)
  {
    forall i :: 0 <= i < |snapshots| && snapshots[i].Some? ==> snapshots[i].value <= LastSeen(snapshots)
  }

  lemma {:induction false} RisePrefix(a: seq<int>, b: seq<int>)
    requires a <= b
    ensures Rise([], a) <= Rise([], b)
  {
    if |a| == |b| {
      assert a == b;
    } else {
      RisePrefix(a, b[..|b| - 1]);
    }
  }

  /** If rows are only added at the end, the polls cannot be observed. */
  lemma FollowerShowsFirstPage(snapshots: seq<Option<seq<Entry>>>)
    requires Growing(snapshots)
    ensures Nums(Delivered(snapshots)) == Shown(LastSeen(snapshots))
  {
    forall i | 0 <= i < |snapshots| && snapshots[i].Some?
      ensures Shown(snapshots[i].value) <= Shown(LastSeen(snapshots))
    {
      RisePrefix(Nums(FirstPage(snapshots[i].value)), Nums(FirstPage(LastSeen(snapshots))));
    }
    FollowerShowsIf(snapshots);
  }

  // ----- when everything is shown -----

  /** No number stands twice. */
  predicate Numbered(rows: seq<Entry>)
  {
    forall i, j :: 0 <= i < j < |rows| ==> rows[i].number < rows[j].number
  }

  predicate AllPositive(rows: seq<Entry>)
  {
    forall i :: 0 <= i < |rows| ==> rows[i].number > 0
  }

  lemma {:induction false} Once(rows: seq<Entry>, r: Entry)
    requires Numbered(rows)
    ensures multiset(rows)[r] <= 1
  {
    if rows == [] {
    } else {
      var front, last := rows[..|rows| - 1], rows[|rows| - 1];
      Once(front, r);
      assert rows == front + [last];
      assert last !in front;
    }
  }

  lemma Twice(rows: seq<Entry>, i: nat, j: nat)
    requires i < j < |rows| && rows[i] == rows[j]
    ensures multiset(rows)[rows[i]] >= 2
  {
    assert rows == rows[..j] + [rows[j]] + rows[j + 1..];
    assert rows[..j][i] == rows[i];
  }

  /** The rows of an earlier poll have no number twice if those of a later one have none. */
  lemma NumberedBefore(seen: seq<Entry>, rows: seq<Entry>)
    requires P.Sorted(seen) && Numbered(rows) && multiset(seen) <= multiset(rows)
    ensures Numbered(seen)
  {
    MultisetWithin(seen, rows);
    forall i, j | 0 <= i < j < |seen| ensures seen[i].number < seen[j].number {
      if seen[i].number == seen[j].number {
        assert seen[i] in rows && seen[j] in rows;
        assert seen[i] == seen[j];
        Twice(seen, i, j);
        Once(rows, seen[i]);
      }
    }
  }

  lemma RiseSnoc(seen: seq<int>, ns: seq<int>, d: seq<int>, n: int)
    requires Rise(seen, ns) == d && n > Last(d)
    ensures Rise(seen, ns + [n]) == d + [n]
  {
    assert (ns + [n])[..|ns|] == ns;
  }

  lemma {:induction false} RiseAll(ns: seq<int>, m: nat)
    requires Increasing(ns) && m <= |ns|
    ensures Rise([], ns[..m]) == ns[..m]
  {
    if m == 0 {
    } else {
      RiseAll(ns, m - 1);
      assert ns[..m] == ns[..m - 1] + [ns[m - 1]];
      assert ns[m - 1] > Last(ns[..m - 1]);
      RiseSnoc([], ns[..m - 1], ns[..m - 1], ns[m - 1]);
    }
  }

  lemma WholeIsShown(rows: seq<Entry>)
    requires |rows| <= PAGE_SIZE && AllPositive(rows) && Numbered(rows)
    ensures Shown(rows) == Nums(rows)
  {
    assert FirstPage(rows) == rows;
    RiseAll(Nums(rows), |rows|);
    assert Nums(rows)[..|rows|] == Nums(rows);
  }

  lemma {:induction false} NoMoreThan(a: seq<Entry>, b: seq<Entry>)
    requires Numbered(a) && Numbered(b) && Within(a, b)
    ensures |a| <= |b|
  {
    if a == [] {
    } else {
      var n := |a| - 1;
      assert a[n] in a && a[n] in b;
      var m :| 0 <= m < |b| && b[m] == a[n];
      forall r | r in a[..n] ensures r in b[..m] {
        assert r in a && r in b;
        var k :| 0 <= k < |b| && b[k] == r;
        assert k < m && b[..m][k] == r;
      }
      NoMoreThan(a[..n], b[..m]);
    }
  }

  /** With the row at PAGE_SIZE on its page, a poll has not seen all the smaller ones. */
  lemma SomeMissing(rows: seq<Entry>, seen: seq<Entry>) returns (m: nat)
    requires Numbered(rows) && |rows| > PAGE_SIZE && Numbered(seen) && rows[PAGE_SIZE] in FirstPage(seen)
    ensures m < PAGE_SIZE && rows[m] !in seen
  {
    var t :| 0 <= t < |FirstPage(seen)| && FirstPage(seen)[t] == rows[PAGE_SIZE];
    assert seen[t] == rows[PAGE_SIZE] && t < PAGE_SIZE;
    if k: nat :| k < PAGE_SIZE && rows[k] !in seen {
      m := k;
    } else {
      forall r | r in rows[..PAGE_SIZE] ensures r in seen[..t] {
        var k :| 0 <= k < PAGE_SIZE && rows[k] == r;
        var j :| 0 <= j < |seen| && seen[j] == r;
        assert j < t && seen[..t][j] == r;
      }
      NoMoreThan(rows[..PAGE_SIZE], seen[..t]);
      assert false;
    }
  }

  /** The hundred-and-first row cannot be on a page before all smaller ones are in the table. */
  lemma TooManyRows(snapshots: seq<Option<seq<Entry>>>)
    requires Accumulating(snapshots) && Numbered(LastSeen(snapshots)) && |LastSeen(snapshots)| > PAGE_SIZE
    ensures Delivered(snapshots) != LastSeen(snapshots)
  {
    var rows := LastSeen(snapshots);
    var q := rows[PAGE_SIZE];
    if q in Delivered(snapshots) {
      var i := DeliveredFrom(FirstPages(snapshots), q);
      LastSeenHolds(snapshots, i);
      NumberedBefore(snapshots[i].value, rows);
      var m := SomeMissing(rows, snapshots[i].value);
      MissedForGood(snapshots, i, q, rows[m]);
    }
  }

  /** Rows are known by their numbers where no number stands twice. */
  lemma SameRows(a: seq<Entry>, rows: seq<Entry>)
    requires Numbered(rows) && Within(a, rows) && Nums(a) <= Nums(rows)
    ensures a <= rows
  {
    forall k | 0 <= k < |a| ensures a[k] == rows[k] {
      assert a[k] in a && a[k] in rows;
      assert Nums(a)[k] == Nums(rows)[k];
    }
  }

  lemma DeliveredWithin(snapshots: seq<Option<seq<Entry>>>)
    requires Accumulating(snapshots)
    ensures Within(Delivered(snapshots), LastSeen(snapshots))
  {
    forall r | r in Delivered(snapshots) ensures r in LastSeen(snapshots) {
      var i := DeliveredFrom(FirstPages(snapshots), r);
      LastSeenHolds(snapshots, i);
    }
  }

  /** At most 100 rows, each with a number of its own above 0. */
  predicate Simple(rows: seq<Entry>)
  {
    |rows| <= PAGE_SIZE && AllPositive(rows) && Numbered(rows)
  }

  lemma SimpleBefore(snapshots: seq<Option<seq<Entry>>>, i: nat)
    requires Accumulating(snapshots) && i < |snapshots| && snapshots[i].Some? && Simple(LastSeen(snapshots))
    ensures Simple(snapshots[i].value) && Shown(snapshots[i].value) == Nums(snapshots[i].value)
    ensures Within(snapshots[i].value, LastSeen(snapshots))
  {
    var seen, rows := snapshots[i].value, LastSeen(snapshots);
    LastSeenHolds(snapshots, i);
    NumberedBefore(seen, rows);
    NoMoreThan(seen, rows);
    assert forall k :: 0 <= k < |seen| ==> seen[k] in seen && seen[k] in rows;
    WholeIsShown(seen);
  }

  lemma PartsOfSimple(snapshots: seq<Option<seq<Entry>>>)
    requires Accumulating(snapshots) && Simple(LastSeen(snapshots))
    ensures SeesParts(snapshots, Nums(LastSeen(snapshots))) <==> Growing(snapshots)
  {
    var rows := LastSeen(snapshots);
    forall i | 0 <= i < |snapshots| && snapshots[i].Some?
      ensures Shown(snapshots[i].value) <= Nums(rows) <==> snapshots[i].value <= rows
    {
      var seen := snapshots[i].value;
      SimpleBefore(snapshots, i);
      if Nums(seen) <= Nums(rows) {
        SameRows(seen, rows);
      }
    }
  }

  lemma ShownAll(snapshots: seq<Option<seq<Entry>>>)
    requires Accumulating(snapshots) && Simple(LastSeen(snapshots))
    ensures Delivered(snapshots) == LastSeen(snapshots) <==> Growing(snapshots)
  {
    var rows := LastSeen(snapshots);
    WholeIsShown(rows);
    FollowerShowsIff(snapshots);
    PartsOfSimple(snapshots);
    DeliveredWithin(snapshots);
    if Nums(Delivered(snapshots)) == Nums(rows) {
      SameRows(Delivered(snapshots), rows);
    }
  }

  /**
   All rows arrive exactly if there are at most 100, the first is numbered above 0, no number
   stands twice, and no poll found a later row while an earlier one was still missing.
   */
  lemma FollowerCompleteIff(snapshots: seq<Option<seq<Entry>>>)
    requires Accumulating(snapshots)
    ensures var rows := LastSeen(snapshots);
            Delivered(snapshots) == rows <==>
            |rows| <= 100 && (rows != [] ==> rows[0].number > 0) && Numbered(rows) && Growing(snapshots)
  {
    var rows := LastSeen(snapshots);
    FollowRises(FirstPages(snapshots));
    if Simple(rows) {
      ShownAll(snapshots);
    } else if Numbered(rows) && |rows| > PAGE_SIZE {
      TooManyRows(snapshots);
    }
  }
}
