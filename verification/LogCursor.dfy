/** The batched cursor of the log stream (web/api/logs_stream.py): a first sync
    sends the newest rows, then each poll sends the next rows by id. The log is
    append-only and rows become visible in id order. */
module LogCursor {
  import opened Common

  const SYNC_ROWS: nat := 50
  const POLL_ROWS: nat := 200

  datatype Entry = Entry(id: int, category: string, level: string)

  /** The optional query filters; the level is already in upper case. */
  datatype Filter = Filter(category: Option<string>, level: Option<string>)

  predicate Matches(e: Entry, f: Filter) {
    && (f.category.Some? ==> e.category == f.category.value)
    && (f.level.Some? ==> e.level == f.level.value)
  }

  // ----- the queries -----

  /** The rows a condition selects, in order. */
  function Where(rows: seq<Entry>, p: Entry -> bool): seq<Entry> {
    if rows == [] then []
    else Where(rows[..|rows| - 1], p) + (if p(rows[|rows| - 1]) then [rows[|rows| - 1]] else [])
  }

  function Wanted(f: Filter): Entry -> bool {
    (e: Entry) => Matches(e, f)
  }

  function Past(lo: int): Entry -> bool {
    (e: Entry) => lo < e.id
  }

  function Within(lo: int, hi: int): Entry -> bool {
    (e: Entry) => lo < e.id <= hi
  }

  function Matching(log: seq<Entry>, f: Filter): seq<Entry> {
    Where(log, Wanted(f))
  }

  /** Rows the cursor has not reached. */
  function Above(rows: seq<Entry>, lo: int): seq<Entry> {
    Where(rows, Past(lo))
  }

  function Between(rows: seq<Entry>, lo: int, hi: int): seq<Entry> {
    Where(rows, Within(lo, hi))
  }

  function Newest(rows: seq<Entry>, n: nat): seq<Entry> {
    if |rows| <= n then rows else rows[|rows| - n..]
  }

  function First(rows: seq<Entry>, n: nat): seq<Entry> {
    if |rows| <= n then rows else rows[..n]
  }

  // ----- the cursor -----

  datatype Cursor = Cursor(lastId: int, sent: seq<Entry>)

  /** What one query sees: the log at that moment, whether the database answers,
      and whether the fetched rows can still be read once their session block
      has closed. The first row read without that raises, and nothing is sent. */
  datatype View = View(log: seq<Entry>, up: bool, readable: bool)

  predicate Answers(v: View) {
    v.up && v.readable
  }

  function Max(a: int, b: int): int {
    if a >= b then a else b
  }

  function Sync(sinceId: int, rows: seq<Entry>): Cursor {
    var newest := Newest(rows, SYNC_ROWS);
    Cursor(if newest == [] then sinceId else Max(sinceId, newest[|newest| - 1].id), newest)
  }

  function Poll(c: Cursor, rows: seq<Entry>): Cursor {
    var batch := First(Above(rows, c.lastId), POLL_ROWS);
    Cursor(if batch == [] then c.lastId else batch[|batch| - 1].id, c.sent + batch)
  }

  function Started(f: Filter, sinceId: int, v: View): Cursor {
    if Answers(v) then Sync(sinceId, Matching(v.log, f)) else Cursor(sinceId, [])
  }

  function Polled(f: Filter, c: Cursor, v: View): Cursor {
    if Answers(v) then Poll(c, Matching(v.log, f)) else c
  }

  /** The stream after the sync and the polls that saw the given views. */
  function Run(f: Filter, sinceId: int, views: seq<View>): Cursor
    requires views != []
  {
    if |views| == 1 then Started(f, sinceId, views[0])
    else Polled(f, Run(f, sinceId, views[..|views| - 1]), views[|views| - 1])
  }

  ghost predicate Sorted(rows: seq<Entry>) {
    forall i, j :: 0 <= i < j < |rows| ==> rows[i].id < rows[j].id
  }

  ghost predicate Growing(views: seq<View>) {
    && (forall i :: 0 <= i < |views| ==> Sorted(views[i].log))
    && (forall i, j :: 0 <= i < j < |views| ==> views[i].log <= views[j].log)
  }

  // ----- sorted rows as slices -----

  /** How many rows have an id up to the given one. */
  function UpTo(rows: seq<Entry>, id: int): (n: nat)
    ensures n <= |rows|
  {
    if rows == [] then 0
    else if rows[|rows| - 1].id <= id then |rows|
    else UpTo(rows[..|rows| - 1], id)
  }

  lemma {:induction false} UpToMeaning(rows: seq<Entry>, id: int, i: nat)
    requires Sorted(rows) && i < |rows|
    ensures i < UpTo(rows, id) <==> rows[i].id <= id
  {
    if rows[|rows| - 1].id > id && i < |rows| - 1 {
      UpToMeaning(rows[..|rows| - 1], id, i);
    }
  }

  lemma UpToIs(rows: seq<Entry>, id: int, n: nat)
    requires Sorted(rows) && n <= |rows|
    requires n > 0 ==> rows[n - 1].id <= id
    requires n < |rows| ==> id < rows[n].id
    ensures UpTo(rows, id) == n
  {
    if n > 0 { UpToMeaning(rows, id, n - 1); }
    if n < |rows| { UpToMeaning(rows, id, n); }
  }

  lemma UpToMonotone(rows: seq<Entry>, lo: int, hi: int)
    requires Sorted(rows) && lo <= hi
    ensures UpTo(rows, lo) <= UpTo(rows, hi)
  {
    var n := UpTo(rows, lo);
    if n > 0 {
      UpToMeaning(rows, lo, n - 1);
      UpToMeaning(rows, hi, n - 1);
    }
  }

  lemma {:induction false} WhereAppend(a: seq<Entry>, b: seq<Entry>, p: Entry -> bool)
    ensures Where(a + b, p) == Where(a, p) + Where(b, p)
  {
    if b == [] {
      assert a + b == a;
    } else {
      WhereAppend(a, b[..|b| - 1], p);
      assert (a + b)[..|a + b| - 1] == a + b[..|b| - 1];
    }
  }

  lemma {:induction false} WhereAll(rows: seq<Entry>, p: Entry -> bool)
    requires forall e :: e in rows ==> p(e)
    ensures Where(rows, p) == rows
  {
    if rows != [] {
      var init, last := rows[..|rows| - 1], rows[|rows| - 1];
      assert rows == init + [last];
      assert last in rows && forall e :: e in init ==> e in rows;
      WhereAll(init, p);
    }
  }

  lemma {:induction false} WhereNone(rows: seq<Entry>, p: Entry -> bool)
    requires forall e :: e in rows ==> !p(e)
    ensures Where(rows, p) == []
  {
    if rows != [] {
      var init, last := rows[..|rows| - 1], rows[|rows| - 1];
      assert rows == init + [last];
      assert last in rows && forall e :: e in init ==> e in rows;
      WhereNone(init, p);
    }
  }

  lemma {:induction false} WhereMembers(rows: seq<Entry>, p: Entry -> bool)
    ensures forall e :: e in Where(rows, p) <==> e in rows && p(e)
  {
    if rows != [] {
      var init := rows[..|rows| - 1];
      WhereMembers(init, p);
      assert rows == init + [rows[|rows| - 1]];
    }
  }

  lemma SortedAppend(rows: seq<Entry>, e: Entry)
    requires Sorted(rows) && forall u :: u in rows ==> u.id < e.id
    ensures Sorted(rows + [e])
  {
  }

  lemma {:induction false} WhereSorted(rows: seq<Entry>, p: Entry -> bool)
    requires Sorted(rows)
    ensures Sorted(Where(rows, p))
  {
    if rows != [] {
      var init, last := rows[..|rows| - 1], rows[|rows| - 1];
      WhereSorted(init, p);
      WhereMembers(init, p);
      if p(last) {
        SortedAppend(Where(init, p), last);
      } else {
        assert Where(rows, p) == Where(init, p);
      }
    }
  }

  lemma UpToParts(rows: seq<Entry>, id: int)
    requires Sorted(rows)
    ensures forall e :: e in rows[..UpTo(rows, id)] ==> e.id <= id
    ensures forall e :: e in rows[UpTo(rows, id)..] ==> id < e.id
  {
    forall i: nat | i < |rows| ensures i < UpTo(rows, id) <==> rows[i].id <= id {
      UpToMeaning(rows, id, i);
    }
  }

  lemma AboveIsSlice(rows: seq<Entry>, lo: int)
    requires Sorted(rows)
    ensures Above(rows, lo) == rows[UpTo(rows, lo)..]
  {
    var n := UpTo(rows, lo);
    UpToParts(rows, lo);
    assert rows == rows[..n] + rows[n..];
    WhereAppend(rows[..n], rows[n..], Past(lo));
    WhereNone(rows[..n], Past(lo));
    WhereAll(rows[n..], Past(lo));
  }

  lemma BetweenIsSlice(rows: seq<Entry>, lo: int, hi: int)
    requires Sorted(rows) && lo <= hi
    ensures UpTo(rows, lo) <= UpTo(rows, hi)
    ensures Between(rows, lo, hi) == rows[UpTo(rows, lo)..UpTo(rows, hi)]
  {
    UpToMonotone(rows, lo, hi);
    UpToParts(rows, lo);
    UpToParts(rows, hi);
    var a, b := UpTo(rows, lo), UpTo(rows, hi);
    SliceWithin(rows, lo, hi, a, b);
  }

  lemma SliceWithin(rows: seq<Entry>, lo: int, hi: int, a: nat, b: nat)
    requires a <= b <= |rows|
    requires forall e :: e in rows[..a] ==> e.id <= lo
    requires forall e :: e in rows[a..] ==> lo < e.id
    requires forall e :: e in rows[..b] ==> e.id <= hi
    requires forall e :: e in rows[b..] ==> hi < e.id
    ensures Between(rows, lo, hi) == rows[a..b]
  {
    assert rows == rows[..b] + rows[b..] && rows[..b] == rows[..a] + rows[a..b];
    WhereAppend(rows[..b], rows[b..], Within(lo, hi));
    WhereAppend(rows[..a], rows[a..b], Within(lo, hi));
    WhereNone(rows[..a], Within(lo, hi));
    forall e | e in rows[a..b] ensures Within(lo, hi)(e) {
      assert e in rows[a..] && e in rows[..b];
    }
    WhereAll(rows[a..b], Within(lo, hi));
    WhereNone(rows[b..], Within(lo, hi));
  }

  /** A later view has the same rows and maybe some newer ones. */
  lemma LaterRows(log: seq<Entry>, later: seq<Entry>, f: Filter)
    requires log <= later && Sorted(later)
    ensures Sorted(Matching(later, f)) && Matching(log, f) <= Matching(later, f)
  {
    assert later == log + later[|log|..];
    WhereAppend(log, later[|log|..], Wanted(f));
    WhereSorted(later, Wanted(f));
  }

  // ----- what every stream keeps -----

  /** The polls have sent exactly the rows between where the sync left the cursor and where it is now. */
  ghost predicate Segment(first: Cursor, c: Cursor, rows: seq<Entry>) {
    && first.lastId <= c.lastId
    && c.sent == first.sent + Between(rows, first.lastId, c.lastId)
    && (c.lastId == first.lastId || exists i :: 0 <= i < |rows| && rows[i].id == c.lastId)
  }

  lemma SegmentLater(first: Cursor, c: Cursor, rows: seq<Entry>, later: seq<Entry>)
    requires Segment(first, c, rows) && Sorted(later) && rows <= later
    ensures Segment(first, c, later)
  {
    var newer := later[|rows|..];
    assert later == rows + newer;
    WhereAppend(rows, newer, Within(first.lastId, c.lastId));
    if c.lastId != first.lastId {
      var i :| 0 <= i < |rows| && rows[i].id == c.lastId;
      assert later[i].id == c.lastId;
    }
    WhereNone(newer, Within(first.lastId, c.lastId));
  }

  /** A poll moves the cursor over at most 200 further rows. */
  lemma PollMoves(c: Cursor, rows: seq<Entry>) returns (n: nat, n': nat)
    requires Sorted(rows)
    ensures n == UpTo(rows, c.lastId) <= n' <= |rows|
    ensures n' == if |rows| - n <= 200 then |rows| else n + 200
    ensures n' == UpTo(rows, Poll(c, rows).lastId)
    ensures Poll(c, rows).sent == c.sent + rows[n..n']
    ensures if n == n' then Poll(c, rows).lastId == c.lastId
            else c.lastId < Poll(c, rows).lastId == rows[n' - 1].id
  {
    AboveIsSlice(rows, c.lastId);
    n := UpTo(rows, c.lastId);
    n' := if |rows| - n <= POLL_ROWS then |rows| else n + POLL_ROWS;
    assert First(Above(rows, c.lastId), POLL_ROWS) == rows[n..n'];
    if n < n' {
      UpToMeaning(rows, c.lastId, n' - 1);
      UpToIs(rows, rows[n' - 1].id, n');
    }
  }

  lemma SegmentPoll(first: Cursor, c: Cursor, rows: seq<Entry>)
    requires Segment(first, c, rows) && Sorted(rows)
    ensures Segment(first, Poll(c, rows), rows)
  {
    var c' := Poll(c, rows);
    var b, d := PollMoves(c, rows);
    BetweenIsSlice(rows, first.lastId, c.lastId);
    BetweenIsSlice(rows, first.lastId, c'.lastId);
    var a := UpTo(rows, first.lastId);
    JoinSlices(rows, a, b, d);
    if b < d { assert rows[d - 1].id == c'.lastId; }
    assert c'.sent == first.sent + Between(rows, first.lastId, c'.lastId);
  }

  lemma JoinSlices(rows: seq<Entry>, a: nat, b: nat, d: nat)
    requires a <= b <= d <= |rows|
    ensures rows[a..b] + rows[b..d] == rows[a..d]
  {
  }

  lemma {:induction false} RunIsSegment(f: Filter, sinceId: int, views: seq<View>)
    requires views != [] && Growing(views)
    ensures Segment(Started(f, sinceId, views[0]), Run(f, sinceId, views), Matching(views[|views| - 1].log, f))
  {
    var first, view := Started(f, sinceId, views[0]), views[|views| - 1];
    var rows := Matching(view.log, f);
    LaterRows(view.log, view.log, f);
    if |views| == 1 {
      BetweenIsSlice(rows, first.lastId, first.lastId);
    } else {
      var init := views[..|views| - 1];
      RunIsSegment(f, sinceId, init);
      var before := init[|init| - 1].log;
      assert before == views[|views| - 2].log;
      LaterRows(before, view.log, f);
      SegmentLater(first, Run(f, sinceId, init), Matching(before, f), rows);
      SegmentPoll(first, Run(f, sinceId, init), rows);
    }
  }

  /** Where the sync leaves the cursor, seen from any later moment. */
  lemma StartedMeaning(f: Filter, sinceId: int, v: View, rows: seq<Entry>) returns (n: nat, j: nat)
    requires Sorted(rows) && Sorted(v.log) && Matching(v.log, f) <= rows
    ensures Answers(v) ==> n == |Matching(v.log, f)| && n <= UpTo(rows, Started(f, sinceId, v).lastId)
    ensures Answers(v) ==> j == (if n <= 50 then 0 else n - 50)
    ensures !Answers(v) ==> n == j == 0
    ensures j <= n <= |rows| && Started(f, sinceId, v).sent == rows[j..n]
    ensures n > 0 ==> Started(f, sinceId, v).lastId == Max(sinceId, rows[n - 1].id)
    ensures n == 0 ==> Started(f, sinceId, v).lastId == sinceId
  {
    if Answers(v) {
      var now := Matching(v.log, f);
      n := |now|;
      j := if n <= SYNC_ROWS then 0 else n - SYNC_ROWS;
      assert Newest(now, SYNC_ROWS) == now[j..] == rows[j..n];
      if n > 0 {
        UpToMeaning(rows, Started(f, sinceId, v).lastId, n - 1);
      }
    } else {
      n, j := 0, 0;
    }
  }

  /** No row is sent twice and none out of order. */
  lemma SentInOrder(f: Filter, sinceId: int, views: seq<View>)
    requires views != [] && Growing(views)
    ensures Sorted(Run(f, sinceId, views).sent)
  {
    RunIsSegment(f, sinceId, views);
    var rows := Matching(views[|views| - 1].log, f);
    LaterRows(views[0].log, views[|views| - 1].log, f);
    var first, c := Started(f, sinceId, views[0]), Run(f, sinceId, views);
    var n, j := StartedMeaning(f, sinceId, views[0], rows);
    BetweenIsSlice(rows, first.lastId, c.lastId);
    var a, b := UpTo(rows, first.lastId), UpTo(rows, c.lastId);
    assert c.sent == rows[j..n] + rows[a..b];
    if n > 0 { UpToMeaning(rows, first.lastId, n - 1); }
    SlicesSorted(rows, j, n, a, b);
  }

  lemma SlicesSorted(rows: seq<Entry>, j: nat, n: nat, a: nat, b: nat)
    requires Sorted(rows) && j <= n <= a <= b <= |rows|
    ensures Sorted(rows[j..n] + rows[a..b])
  {
    var s := rows[j..n] + rows[a..b];
    forall p, q | 0 <= p < q < |s| ensures s[p].id < s[q].id {
      var x := if p < n - j then j + p else a + (p - (n - j));
      var y := if q < n - j then j + q else a + (q - (n - j));
      assert s[p] == rows[x] && s[q] == rows[y];
    }
  }

  /** Nothing but matching rows, and none beyond the cursor. */
  lemma SentMatches(f: Filter, sinceId: int, views: seq<View>)
    requires views != [] && Growing(views)
    ensures var c := Run(f, sinceId, views);
      forall e :: e in c.sent ==> e in views[|views| - 1].log && Matches(e, f) && e.id <= c.lastId
  {
    RunIsSegment(f, sinceId, views);
    LaterRows(views[0].log, views[|views| - 1].log, f);
    SegmentMatches(f, sinceId, views[0], Run(f, sinceId, views), views[|views| - 1].log);
  }

  lemma SegmentMatches(f: Filter, sinceId: int, v: View, c: Cursor, log: seq<Entry>)
    requires Sorted(log) && Sorted(v.log) && v.log <= log
    requires Matching(v.log, f) <= Matching(log, f) && Segment(Started(f, sinceId, v), c, Matching(log, f))
    ensures forall e :: e in c.sent ==> e in log && Matches(e, f) && e.id <= c.lastId
  {
    var rows, first := Matching(log, f), Started(f, sinceId, v);
    WhereSorted(log, Wanted(f));
    WhereMembers(log, Wanted(f));
    WhereMembers(rows, Within(first.lastId, c.lastId));
    var n, j := StartedMeaning(f, sinceId, v, rows);
    forall e | e in c.sent ensures e in rows && e.id <= c.lastId {
      if e in first.sent {
        SliceMember(rows, j, n, e);
      } else {
        assert e in Between(rows, first.lastId, c.lastId);
      }
    }
  }

  lemma SliceMember(rows: seq<Entry>, j: nat, n: nat, e: Entry)
    requires Sorted(rows) && j <= n <= |rows| && e in rows[j..n]
    ensures e in rows && e.id <= rows[n - 1].id
  {
    var i :| 0 <= i < n - j && rows[j..n][i] == e;
    assert rows[j + i] == e;
  }

  /** The matching rows are the rows of the log, in its order, that pass both
      filters; a filter that is not given lets everything pass. */
  lemma MatchingMeaning(log: seq<Entry>, f: Filter)
    requires Sorted(log)
    ensures Sorted(Matching(log, f))
    ensures forall e :: e in Matching(log, f) <==>
      && e in log
      && (f.category == None || f.category == Some(e.category))
      && (f.level == None || f.level == Some(e.level))
    ensures f == Filter(None, None) ==> Matching(log, f) == log
  {
    WhereSorted(log, Wanted(f));
    WhereMembers(log, Wanted(f));
    if f == Filter(None, None) { WhereAll(log, Wanted(f)); }
  }

  /** The answering sync sends the newest 50 matching rows, or all if there are
      no more, and leaves the cursor at the newest of them or at `since_id`. */
  lemma SyncSends(f: Filter, sinceId: int, v: View)
    requires Sorted(v.log) && v.up && v.readable
    ensures var rows, first := Matching(v.log, f), Run(f, sinceId, [v]);
      && first.sent == rows[if |rows| <= 50 then 0 else |rows| - 50..]
      && first.lastId >= sinceId
      && (forall e :: e in rows ==> e.id <= first.lastId)
      && (first.lastId == sinceId || exists e :: e in rows && e.id == first.lastId)
  {
    var rows := Matching(v.log, f);
    LaterRows(v.log, v.log, f);
    var n, j := StartedMeaning(f, sinceId, v, rows);
    if n > 0 { assert rows[n - 1] in rows; }
  }

  /** Of the rows between the sync's cursor and the current one, a stream without
      filters has sent all, one with a category those of that category, one with
      a level those of that level, and one with both those that have both. */
  lemma DeliveredIff(f: Filter, sinceId: int, views: seq<View>, e: Entry)
    requires views != [] && Growing(views) && e in views[|views| - 1].log
    requires Run(f, sinceId, views[..1]).lastId < e.id <= Run(f, sinceId, views).lastId
    ensures e in Run(f, sinceId, views).sent <==>
      match f
      case Filter(None, None) => true
      case Filter(Some(category), None) => e.category == category
      case Filter(None, Some(level)) => e.level == level
      case Filter(Some(category), Some(level)) => e.category == category && e.level == level
  {
    var first, c, log := Started(f, sinceId, views[0]), Run(f, sinceId, views), views[|views| - 1].log;
    SentMatches(f, sinceId, views);
    RunIsSegment(f, sinceId, views);
    WhereMembers(log, Wanted(f));
    WhereMembers(Matching(log, f), Within(first.lastId, c.lastId));
    assert views[..1][0] == views[0];
    assert Matches(e, f) ==> e in Between(Matching(log, f), first.lastId, c.lastId);
  }

  /** From its first row on, the stream has sent every matching row up to the cursor. */
  ghost predicate NoGap(c: Cursor, rows: seq<Entry>) {
    c.sent != [] ==> c.sent == Between(rows, c.sent[0].id - 1, c.lastId)
  }

  /** The stream has no gap exactly when no matching row appeared after the sync
      with an id that `since_id` had already claimed. */
  lemma NoGapIff(f: Filter, sinceId: int, views: seq<View>)
    requires views != [] && Growing(views)
    ensures var first, rows := Started(f, sinceId, views[0]).sent, Matching(views[|views| - 1].log, f);
      NoGap(Run(f, sinceId, views), rows) <==>
        (first == [] || forall e :: e in rows && first[|first| - 1].id < e.id ==> sinceId < e.id)
  {
    RunIsSegment(f, sinceId, views);
    var rows := Matching(views[|views| - 1].log, f);
    LaterRows(views[0].log, views[|views| - 1].log, f);
    var first, c := Started(f, sinceId, views[0]), Run(f, sinceId, views);
    var n, j := StartedMeaning(f, sinceId, views[0], rows);
    assert first.sent == [] <==> j == n;
    assert j < n ==> first.sent[|first.sent| - 1] == rows[n - 1];
    NoGapSlices(first, c, rows, sinceId, j, n);
  }

  lemma NoGapSlices(first: Cursor, c: Cursor, rows: seq<Entry>, sinceId: int, j: nat, n: nat)
    requires Sorted(rows) && Segment(first, c, rows) && j <= n <= |rows| && first.sent == rows[j..n]
    requires j < n ==> first.lastId == Max(sinceId, rows[n - 1].id)
    ensures NoGap(c, rows) <==>
      (j == n || forall e :: e in rows && rows[n - 1].id < e.id ==> sinceId < e.id)
  {
    BetweenIsSlice(rows, first.lastId, c.lastId);
    var a, b := UpTo(rows, first.lastId), UpTo(rows, c.lastId);
    if j < n {
      NoGapAfterSync(c, rows, sinceId, first.lastId, j, n, a, b);
    } else {
      assert c.sent == rows[a..b];
      NoGapWithoutSync(c, rows, a, b);
    }
  }

  lemma NoGapAfterSync(c: Cursor, rows: seq<Entry>, sinceId: int, start: int, j: nat, n: nat, a: nat, b: nat)
    requires Sorted(rows) && j < n <= |rows| && start == Max(sinceId, rows[n - 1].id)
    requires a == UpTo(rows, start) <= b == UpTo(rows, c.lastId) && c.sent == rows[j..n] + rows[a..b]
    ensures NoGap(c, rows) <==> forall e :: e in rows && rows[n - 1].id < e.id ==> sinceId < e.id
  {
    UpToMeaning(rows, start, n - 1);
    FromFirst(c, rows, j, b);
    NoGapJoined(c, rows, j, n, a, b);
    NothingClaimed(rows, start, sinceId, n);
  }

  lemma NoGapWithoutSync(c: Cursor, rows: seq<Entry>, a: nat, b: nat)
    requires Sorted(rows) && a <= b == UpTo(rows, c.lastId) && c.sent == rows[a..b]
    ensures NoGap(c, rows)
  {
    if a < b { FromFirst(c, rows, a, b); }
  }

  lemma NoGapJoined(c: Cursor, rows: seq<Entry>, j: nat, n: nat, a: nat, b: nat)
    requires j < n <= a <= b <= |rows| && c.sent == rows[j..n] + rows[a..b]
    requires Between(rows, rows[j].id - 1, c.lastId) == rows[j..b]
    ensures NoGap(c, rows) <==> n == a
  {
    assert c.sent[0] == rows[j];
    JoinedSlices(rows, j, n, a, b);
  }

  lemma FromFirst(c: Cursor, rows: seq<Entry>, j: nat, b: nat)
    requires Sorted(rows) && j < b <= |rows| && b == UpTo(rows, c.lastId)
    requires c.sent != [] && c.sent[0] == rows[j]
    ensures Between(rows, c.sent[0].id - 1, c.lastId) == rows[j..b]
  {
    var lo := rows[j].id - 1;
    UpToIs(rows, lo, j);
    UpToMeaning(rows, c.lastId, j);
    assert lo <= c.lastId;
    BetweenIsSlice(rows, lo, c.lastId);
  }

  lemma JoinedSlices(rows: seq<Entry>, j: nat, n: nat, a: nat, b: nat)
    requires j <= n <= a <= b <= |rows|
    ensures rows[j..n] + rows[a..b] == rows[j..b] <==> n == a
  {
    if n < a {
      assert |rows[j..n] + rows[a..b]| < |rows[j..b]|;
    }
  }

  lemma NothingClaimed(rows: seq<Entry>, lastId: int, sinceId: int, n: nat)
    requires Sorted(rows) && 0 < n <= |rows| && lastId == Max(sinceId, rows[n - 1].id)
    ensures n == UpTo(rows, lastId) <==> forall e :: e in rows && rows[n - 1].id < e.id ==> sinceId < e.id
  {
    UpToMeaning(rows, lastId, n - 1);
    UpToParts(rows, lastId);
    if n < UpTo(rows, lastId) {
      UpToMeaning(rows, lastId, n);
      assert rows[n] in rows && rows[n - 1].id < rows[n].id;
    } else {
      forall e | e in rows && rows[n - 1].id < e.id ensures sinceId < e.id {
        var i :| 0 <= i < |rows| && rows[i] == e;
        assert rows[i] in rows[n..];
      }
    }
  }

  /** A client that claims no more than the log holds never gets a gap; in
      particular `since_id` 0, as ids are positive. */
  lemma NoGapUnlessAhead(f: Filter, sinceId: int, views: seq<View>)
    requires views != [] && Growing(views)
    requires forall e :: e in views[|views| - 1].log && e !in views[0].log ==> sinceId < e.id
    ensures NoGap(Run(f, sinceId, views), Matching(views[|views| - 1].log, f))
  {
    NoGapIff(f, sinceId, views);
    var first, log := Started(f, sinceId, views[0]).sent, views[|views| - 1].log;
    if first != [] {
      forall e | e in Matching(log, f) && first[|first| - 1].id < e.id ensures sinceId < e.id {
        WhereMembers(log, Wanted(f));
        if e in views[0].log {
          NewestIsLast(f, views[0].log, e);
        }
      }
    }
  }

  lemma NewestIsLast(f: Filter, log: seq<Entry>, e: Entry)
    requires Sorted(log) && e in log && Matches(e, f)
    ensures var newest := Newest(Matching(log, f), SYNC_ROWS); newest != [] && e.id <= newest[|newest| - 1].id
  {
    var rows := Matching(log, f);
    WhereMembers(log, Wanted(f));
    WhereSorted(log, Wanted(f));
    var i :| 0 <= i < |rows| && rows[i] == e;
  }

  /** A resumed stream brings every matching row after `since_id` exactly when
      the sync failed, so that the polls bring them, or at most 50 of them were
      waiting at it: older ones are then never sent. */
  lemma ResumeIff(f: Filter, sinceId: int, views: seq<View>)
    requires views != [] && Growing(views)
    ensures var c, rows := Run(f, sinceId, views), Matching(views[|views| - 1].log, f);
      (forall e :: e in rows && sinceId < e.id <= c.lastId ==> e in c.sent) <==>
        !Answers(views[0]) || |Above(Matching(views[0].log, f), sinceId)| <= 50
  {
    if Answers(views[0]) {
      ResumeAfterSync(f, sinceId, views);
    } else {
      RunIsSegment(f, sinceId, views);
      WhereMembers(Matching(views[|views| - 1].log, f), Within(sinceId, Run(f, sinceId, views).lastId));
    }
  }

  lemma ResumeAfterSync(f: Filter, sinceId: int, views: seq<View>)
    requires views != [] && Growing(views) && Answers(views[0])
    ensures var c, rows := Run(f, sinceId, views), Matching(views[|views| - 1].log, f);
      (forall e :: e in rows && sinceId < e.id <= c.lastId ==> e in c.sent) <==>
        |Above(Matching(views[0].log, f), sinceId)| <= 50
  {
    RunIsSegment(f, sinceId, views);
    var rows, before := Matching(views[|views| - 1].log, f), Matching(views[0].log, f);
    LaterRows(views[0].log, views[|views| - 1].log, f);
    WhereSorted(views[0].log, Wanted(f));
    var first, c := Started(f, sinceId, views[0]), Run(f, sinceId, views);
    var n, j := StartedMeaning(f, sinceId, views[0], rows);
    AboveIsSlice(before, sinceId);
    ResumeSlices(first, c, rows, sinceId, j, n, UpTo(before, sinceId), before);
  }

  lemma ResumeSlices(first: Cursor, c: Cursor, rows: seq<Entry>, sinceId: int, j: nat, n: nat,
      s: nat, before: seq<Entry>)
    requires Sorted(rows) && Segment(first, c, rows) && j <= n <= |rows| && first.sent == rows[j..n]
    requires before == rows[..n] && s == UpTo(before, sinceId) && n <= UpTo(rows, first.lastId)
    requires first.lastId == if n > 0 then Max(sinceId, rows[n - 1].id) else sinceId
    ensures (forall e :: e in rows && sinceId < e.id <= c.lastId ==> e in c.sent) <==> j <= s
  {
    BetweenIsSlice(rows, first.lastId, c.lastId);
    var a, b := UpTo(rows, first.lastId), UpTo(rows, c.lastId);
    if s < j {
      UpToMeaning(before, sinceId, s);
      UpToMeaning(rows, c.lastId, s);
      SlicesMiss(rows, j, n, a, b, s);
      assert rows[s] in rows;
    } else {
      forall e | e in rows && sinceId < e.id <= c.lastId ensures e in c.sent {
        var i :| 0 <= i < |rows| && rows[i] == e;
        UpToMeaning(rows, c.lastId, i);
        if i < n {
          UpToMeaning(before, sinceId, i);
        } else {
          UpToMeaning(rows, first.lastId, i);
        }
        SlicesHold(rows, j, n, a, b, i);
      }
    }
  }

  lemma SlicesMiss(rows: seq<Entry>, j: nat, n: nat, a: nat, b: nat, s: nat)
    requires Sorted(rows) && s < j <= n <= a <= b <= |rows|
    ensures rows[s] !in rows[j..n] + rows[a..b]
  {
  }

  lemma SlicesHold(rows: seq<Entry>, j: nat, n: nat, a: nat, b: nat, i: nat)
    requires j <= n <= a <= b <= |rows| && (j <= i < n || a <= i < b)
    ensures rows[i] in rows[j..n] + rows[a..b]
  {
    if i < n {
      assert rows[j..n][i - j] == rows[i];
    } else {
      assert rows[a..b][i - a] == rows[i];
    }
  }

  function Numbered(n: nat): seq<Entry> {
    seq(n, i => Entry(i + 1, "trade", "INFO"))
  }

  lemma SyncOf52(f: Filter)
    requires f == Filter(None, None)
    ensures Sync(1, Matching(Numbered(52), f)) == Cursor(52, Numbered(52)[2..])
  {
    WhereAll(Numbered(52), Wanted(f));
  }

  /** For example, a client that has seen row 1 and reconnects when the log has
      52 rows gets rows 3 to 52 and never row 2. */
  lemma ResumeSkipsARow(f: Filter, views: seq<View>, e: Entry)
    requires f == Filter(None, None) && views != [] && Growing(views)
    requires views[0] == View(Numbered(52), true, true) && e in Run(f, 1, views).sent
    ensures e.id > 2
  {
    SyncOf52(f);
    RunIsSegment(f, 1, views);
    var c, rows := Run(f, 1, views), Matching(views[|views| - 1].log, f);
    WhereMembers(rows, Within(52, c.lastId));
    if e in Numbered(52)[2..] {
    } else {
      assert e in Between(rows, 52, c.lastId);
    }
  }

  // ----- draining a backlog -----

  /** The cursor after further polls. */
  function Drained(f: Filter, c: Cursor, polls: seq<View>): Cursor {
    if polls == [] then c
    else Polled(f, Drained(f, c, polls[..|polls| - 1]), polls[|polls| - 1])
  }

  function Answering(polls: seq<View>): nat {
    if polls == [] then 0
    else Answering(polls[..|polls| - 1]) + (if Answers(polls[|polls| - 1]) then 1 else 0)
  }

  function Backlog(f: Filter, c: Cursor, log: seq<Entry>): nat {
    |Above(Matching(log, f), c.lastId)|
  }

  /** While the log rests, each answering poll takes 200 rows off the backlog, so
      a backlog of m rows is gone exactly after m / 200 of them, rounded up, and
      never if no poll can read its rows. */
  lemma {:induction false} BacklogDrains(f: Filter, c: Cursor, log: seq<Entry>, polls: seq<View>)
    requires Sorted(log) && forall v :: v in polls ==> v.log == log
    ensures var m, left, n := Backlog(f, c, log), Backlog(f, Drained(f, c, polls), log), Answering(polls);
      && left == (if m <= n * 200 then 0 else m - n * 200)
      && (left == 0 <==> n >= (m + 199) / 200)
  {
    if polls != [] {
      var init := polls[..|polls| - 1];
      BacklogDrains(f, c, log, init);
      assert polls[|polls| - 1].log == log;
      OnePollDrains(f, Drained(f, c, init), log);
    }
  }

  lemma OnePollDrains(f: Filter, c: Cursor, log: seq<Entry>)
    requires Sorted(log)
    ensures var m := Backlog(f, c, log);
      Backlog(f, Poll(c, Matching(log, f)), log) == if m <= 200 then 0 else m - 200
  {
    var rows := Matching(log, f);
    WhereSorted(log, Wanted(f));
    AboveIsSlice(rows, c.lastId);
    AboveIsSlice(rows, Poll(c, rows).lastId);
    var n, n' := PollMoves(c, rows);
  }

  /** A stream that can never read its rows after the session block sends nothing. */
  lemma {:induction false} UnreadableRowsAreNeverSent(f: Filter, sinceId: int, views: seq<View>)
    requires views != [] && forall v :: v in views ==> !v.readable
    ensures Run(f, sinceId, views) == Cursor(sinceId, [])
  {
    assert views[|views| - 1] in views;
    if |views| > 1 {
      UnreadableRowsAreNeverSent(f, sinceId, views[..|views| - 1]);
    }
  }

  // ----- the generator -----

  class Stream {
    const filter: Filter
    const sinceId: int
    var lastId: int
    /** The events yielded so far. */
    var sent: seq<Entry>
    ghost var views: seq<View>

    ghost predicate Valid()
      reads this
    {
      && Growing(views)
      && Cursor(lastId, sent) == (if views == [] then Cursor(sinceId, []) else Run(filter, sinceId, views))
    }

    constructor (filter: Filter, sinceId: int)
      ensures Valid() && views == [] && this.filter == filter && this.sinceId == sinceId
    {
      this.filter, this.sinceId := filter, sinceId;
      lastId, sent, views := sinceId, [], [];
    }

    method InitialSync(v: View)
      requires Valid() && views == [] && Sorted(v.log)
      modifies this
      ensures Valid() && views == [v]
    {
      if v.up {
        var rows := Newest(Matching(v.log, filter), SYNC_ROWS);
        WhereSorted(v.log, Wanted(filter));
        for i := 0 to |rows|
          invariant views == [] && sent == rows[..i] && (i > 0 ==> v.readable)
          invariant lastId == if i == 0 then sinceId else Max(sinceId, rows[i - 1].id)
        {
          if !v.readable { break; }
          lastId := Max(lastId, rows[i].id);
          sent := sent + [rows[i]];
        }
        assert rows[..|rows|] == rows && rows[..0] == [];
      }
      assert Cursor(lastId, sent) == Started(filter, sinceId, v);
      views := [v];
    }

    /** One round of the polling loop. */
    method PollOnce(v: View)
      requires Valid() && views != [] && Growing(views + [v])
      modifies this
      ensures Valid() && views == old(views) + [v]
    {
      ghost var before := Cursor(lastId, sent);
      if v.up {
        var rows := First(Above(Matching(v.log, filter), lastId), POLL_ROWS);
        for i := 0 to |rows|
          invariant views == old(views) && sent == before.sent + rows[..i] && (i > 0 ==> v.readable)
          invariant lastId == if i == 0 then before.lastId else rows[i - 1].id
        {
          if !v.readable { break; }
          lastId := rows[i].id;
          sent := sent + [rows[i]];
        }
        assert rows[..|rows|] == rows && before.sent + rows[..0] == before.sent;
      }
      assert Cursor(lastId, sent) == Polled(filter, before, v);
      views := views + [v];
      assert views[..|views| - 1] == old(views);
    }
  }
}
