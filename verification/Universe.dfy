/** The daily universe selection: the selector's choice (bot/universe/selector.py),
    the row the engine writes on each scan (bot/core/engine.py) and the user's
    decision on it (web/api/universe.py). Every session block is one atomic step. */
module Universe {
  import opened Common

  // ----- text -----

  /** Upper case of an ASCII letter; other characters stay. */
  function UpperChar(c: char): char {
    if 'a' <= c <= 'z' then c - 'a' + 'A' else c
  }

  function Upper(s: string): (u: string)
    ensures |u| == |s| && forall i :: 0 <= i < |s| ==> u[i] == UpperChar(s[i])
  {
    if s == "" then "" else [UpperChar(s[0])] + Upper(s[1..])
  }

  predicate Blank(c: char) {
    c == ' ' || c == '\t' || c == '\n' || c == '\r'
  }

  function Strip(s: string): string {
    if s != "" && Blank(s[0]) then Strip(s[1..])
    else if s != "" && Blank(s[|s| - 1]) then Strip(s[..|s| - 1])
    else s
  }

  /** Only the letters a to z change, each to its capital. */
  lemma UpperMeaning(s: string)
    ensures |Upper(s)| == |s|
    ensures forall i :: 0 <= i < |s| ==>
      Upper(s)[i] as int == if 'a' <= s[i] <= 'z' then s[i] as int - 32 else s[i] as int
    ensures Upper("aapl") == "AAPL"
  {
  }

  /** What is left is the text between the blanks at both ends. */
  lemma {:induction false} StripMeaning(s: string) returns (i: nat, j: nat)
    ensures i <= j <= |s| && Strip(s) == s[i..j]
    ensures forall k :: 0 <= k < i || j <= k < |s| ==> s[k] in [' ', '\t', '\n', '\r']
    ensures i < j ==> s[i] !in [' ', '\t', '\n', '\r'] && s[j - 1] !in [' ', '\t', '\n', '\r']
  {
    if s != "" && Blank(s[0]) {
      i, j := StripMeaning(s[1..]);
      assert forall k :: 1 <= k < |s| ==> s[k] == s[1..][k - 1];
      i, j := i + 1, j + 1;
    } else if s != "" && Blank(s[|s| - 1]) {
      i, j := StripMeaning(s[..|s| - 1]);
    } else {
      i, j := 0, |s|;
    }
  }

  // ----- the selector -----

  /** Python's `candidates[:n]`, where a negative n counts from the end. */
  function Top(candidates: seq<string>, n: int): seq<string> {
    if n >= |candidates| then candidates
    else if n >= 0 then candidates[..n]
    else if -n >= |candidates| then []
    else candidates[..|candidates| + n]
  }

  /** The symbols of a reply that are among the candidates, in the reply's order. */
  function Valid(reply: seq<string>, candidates: seq<string>): seq<string> {
    if reply == [] then []
    else (if Upper(reply[0]) in candidates then [Upper(reply[0])] else []) + Valid(reply[1..], candidates)
  }

  function Fallback(candidates: seq<string>, mode: string): seq<string> {
    if mode == "autonomous" then Top(candidates, 1) else candidates
  }

  function ParseResponse(reply: seq<string>, candidates: seq<string>, mode: string): seq<string> {
    if Valid(reply, candidates) == [] then Fallback(candidates, mode) else Valid(reply, candidates)
  }

  /** The chosen symbols. The candidates come best first; there is no answer
      when the model is not configured, fails, or returns no readable list. */
  function Select(candidates: seq<string>, n: int, mode: string, answer: Option<seq<string>>): seq<string> {
    if candidates == [] then []
    else if answer.None? then Fallback(Top(candidates, n), mode)
    else ParseResponse(answer.value, Top(candidates, n), mode)
  }

  lemma {:induction false} ValidMembers(reply: seq<string>, candidates: seq<string>)
    ensures forall s :: s in Valid(reply, candidates) ==> s in candidates
    ensures forall s :: s in reply && Upper(s) in candidates ==> Upper(s) in Valid(reply, candidates)
  {
    if reply != [] {
      ValidMembers(reply[1..], candidates);
    }
  }

  /** Whatever the model answers, only ranked candidates are chosen, and
      something is chosen whenever the ranking shows anything. */
  lemma SelectedAreCandidates(candidates: seq<string>, n: int, mode: string, answer: Option<seq<string>>)
    ensures var chosen := Select(candidates, n, mode, answer);
      && (forall s :: s in chosen ==> s in Top(candidates, n) && s in candidates)
      && (chosen == [] <==> candidates == [] || n == 0 || -n >= |candidates|)
  {
    if answer.Some? {
      var valid := Valid(answer.value, Top(candidates, n));
      ValidMembers(answer.value, Top(candidates, n));
      assert valid != [] ==> valid[0] in Top(candidates, n);
    }
  }

  /** The first choice is the reply's first candidate, else the best ranked one. */
  lemma {:induction false} FirstChoice(candidates: seq<string>, n: int, mode: string, reply: seq<string>, k: nat)
    requires Top(candidates, n) != [] && k <= |reply|
    requires forall i :: 0 <= i < k ==> Upper(reply[i]) !in Top(candidates, n)
    requires k < |reply| ==> Upper(reply[k]) in Top(candidates, n)
    ensures var chosen := Select(candidates, n, mode, Some(reply));
      chosen != [] && chosen[0] == if k < |reply| then Upper(reply[k]) else candidates[0]
  {
    SkipInvalid(reply, Top(candidates, n), k);
    if k < |reply| {
      assert Valid(reply[k..], Top(candidates, n))[0] == Upper(reply[k]);
    } else {
      assert reply[k..] == [];
    }
  }

  lemma {:induction false} SkipInvalid(reply: seq<string>, candidates: seq<string>, k: nat)
    requires k <= |reply| && forall i :: 0 <= i < k ==> Upper(reply[i]) !in candidates
    ensures Valid(reply, candidates) == Valid(reply[k..], candidates)
  {
    if k == 0 {
      assert reply[0..] == reply;
    } else {
      SkipInvalid(reply[1..], candidates, k - 1);
      assert reply[1..][k - 1..] == reply[k..];
    }
  }

  /** The ranking is cut to its first n, or loses its last -n for a negative n. */
  lemma TopMeaning(candidates: seq<string>, n: int)
    ensures var shown := if n >= 0 then (if n < |candidates| then n else |candidates|)
                         else (if -n < |candidates| then |candidates| + n else 0);
      Top(candidates, n) == candidates[..shown]
  {
  }

  /** No symbol of the reply, if there is one, is among the shown candidates. */
  ghost predicate NothingValid(candidates: seq<string>, n: int, answer: Option<seq<string>>) {
    answer.Some? ==> forall i :: 0 <= i < |answer.value| ==> Upper(answer.value[i]) !in Top(candidates, n)
  }

  /** Without a valid symbol, with or without an answer, the autonomous choice is
      the best ranked candidate alone, and any other mode gets all that are shown. */
  lemma ScoreDecides(candidates: seq<string>, n: int, mode: string, answer: Option<seq<string>>)
    requires NothingValid(candidates, n, answer)
    ensures Select(candidates, n, mode, answer) ==
      if Top(candidates, n) != [] && mode == "autonomous" then [candidates[0]] else Top(candidates, n)
  {
    if answer.Some? {
      SkipInvalid(answer.value, Top(candidates, n), |answer.value|);
      assert answer.value[|answer.value|..] == [];
    }
  }

  /** `at` lists, in order, the places of the reply that name a shown candidate. */
  ghost predicate PlacesOf(at: seq<nat>, reply: seq<string>, shown: seq<string>) {
    && (forall j :: 0 <= j < |at| ==> at[j] < |reply| && Upper(reply[at[j]]) in shown)
    && (forall j, k :: 0 <= j < k < |at| ==> at[j] < at[k])
    && (forall i: nat :: i < |reply| && Upper(reply[i]) in shown ==> i in at)
  }

  lemma {:induction false} ValidPlaces(reply: seq<string>, shown: seq<string>) returns (at: seq<nat>)
    ensures PlacesOf(at, reply, shown) && |Valid(reply, shown)| == |at|
    ensures forall j :: 0 <= j < |at| ==> Valid(reply, shown)[j] == Upper(reply[at[j]])
  {
    at := [];
    if reply != [] {
      var init, last := reply[..|reply| - 1], reply[|reply| - 1];
      at := ValidPlaces(init, shown);
      assert reply == init + [last];
      ValidPush(init, last, shown);
      if Upper(last) in shown { at := at + [|init|]; }
    }
  }

  lemma {:induction false} ValidPush(reply: seq<string>, s: string, shown: seq<string>)
    ensures Valid(reply + [s], shown) == Valid(reply, shown) + (if Upper(s) in shown then [Upper(s)] else [])
  {
    if reply != [] {
      assert (reply + [s])[1..] == reply[1..] + [s];
      ValidPush(reply[1..], s, shown);
    }
  }

  /** Otherwise the choice is the reply itself, upper-cased and in its own order,
      without the symbols that are not shown. */
  lemma ReplyDecides(candidates: seq<string>, n: int, mode: string, reply: seq<string>) returns (at: seq<nat>)
    requires !NothingValid(candidates, n, Some(reply))
    ensures PlacesOf(at, reply, Top(candidates, n))
    ensures var chosen := Select(candidates, n, mode, Some(reply));
      |chosen| == |at| && forall j :: 0 <= j < |at| ==> chosen[j] == Upper(reply[at[j]])
  {
    at := ValidPlaces(reply, Top(candidates, n));
  }

  // ----- the stored row -----

  datatype Status = PendingApproval | Autonomous | Approved | Rejected

  /** One scan; a candidate without a readable symbol is None. */
  datatype Row = Row(
    scanDate: int,
    candidates: seq<Option<string>>,
    selected: Option<string>,
    status: Status,
    reasoning: string,
    createdAt: real,
    decidedAt: Option<real>,
    decidedBy: Option<string>)

  predicate Decided(row: Row) {
    row.status.Approved? || row.status.Rejected?
  }

  function Symbols(candidates: seq<Option<string>>): set<string> {
    set c | c in candidates && c.Some? :: Upper(c.value)
  }

  function Serialised(candidates: seq<string>): (r: seq<Option<string>>)
    ensures |r| == |candidates| && forall i :: 0 <= i < |r| ==> r[i] == Some(candidates[i])
  {
    seq(|candidates|, i requires 0 <= i < |candidates| => Some(candidates[i]))
  }

  datatype Reply = Ok | NotFound | AlreadyDecided | NotACandidate

  datatype Action =
    | Scan(today: int, mode: string, candidates: seq<string>, n: int, answer: Option<seq<string>>,
           reasoning: string, now: real, up: bool)
    | Approve(id: int, symbol: string, ip: string, now: real)
    | Reject(id: int, reason: string, ip: string, now: real)

  /** Position of the row of a date. */
  function RowOf(rows: seq<Row>, date: int): (i: nat)
    ensures i <= |rows|
    ensures i < |rows| ==> rows[i].scanDate == date
    ensures forall j :: 0 <= j < i ==> rows[j].scanDate != date
  {
    if rows == [] then 0
    else if rows[0].scanDate == date then 0
    else 1 + RowOf(rows[1..], date)
  }

  /** The status a scan writes, and the symbol it chooses itself. */
  function ScanStatus(a: Action): Status
    requires a.Scan?
  {
    if a.mode == "approval" then PendingApproval else Autonomous
  }

  function ScanChoice(a: Action): Option<string>
    requires a.Scan?
  {
    var selected := Select(a.candidates, a.n, a.mode, a.answer);
    if ScanStatus(a).Autonomous? && selected != [] then Some(selected[0]) else None
  }

  function ScannedRow(a: Action): Row
    requires a.Scan?
  {
    Row(a.today, Serialised(a.candidates), ScanChoice(a), ScanStatus(a), a.reasoning, a.now, None, None)
  }

  function Persisted(rows: seq<Row>, a: Action): seq<Row>
    requires a.Scan?
  {
    var i, row := RowOf(rows, a.today), ScannedRow(a);
    if !a.up then rows
    else if i == |rows| then rows + [row]
    else if Decided(rows[i]) then rows
    else rows[i := row.(decidedAt := rows[i].decidedAt, decidedBy := rows[i].decidedBy)]
  }

  /** Row ids count from 1 in insertion order. */
  predicate Exists(rows: seq<Row>, id: int) {
    1 <= id <= |rows|
  }

  function Answer(rows: seq<Row>, a: Action): Reply
    requires !a.Scan?
  {
    if !Exists(rows, a.id) then NotFound
    else if !rows[a.id - 1].status.PendingApproval? then AlreadyDecided
    else if a.Approve? && Strip(Upper(a.symbol)) !in Symbols(rows[a.id - 1].candidates) then NotACandidate
    else Reply.Ok
  }

  function Decision(row: Row, a: Action): Row
    requires !a.Scan?
  {
    if a.Approve? then
      row.(selected := Some(Strip(Upper(a.symbol))), status := Approved,
           decidedAt := Some(a.now), decidedBy := Some(a.ip))
    else
      var reasoning := if a.reason == "" then row.reasoning
                       else Strip(row.reasoning + "\n\nRejection reason: " + a.reason);
      row.(status := Rejected, decidedAt := Some(a.now), decidedBy := Some(a.ip), reasoning := reasoning)
  }

  function After(rows: seq<Row>, a: Action): seq<Row> {
    if a.Scan? then Persisted(rows, a)
    else if Answer(rows, a).Ok? then rows[a.id - 1 := Decision(rows[a.id - 1], a)]
    else rows
  }

  /** The table after any interleaving of scans and decisions. */
  function Run(actions: seq<Action>): seq<Row> {
    if actions == [] then [] else After(Run(actions[..|actions| - 1]), actions[|actions| - 1])
  }

  // ----- what every interleaving keeps -----

  ghost predicate WellFormed(row: Row) {
    && (row.decidedAt.Some? <==> Decided(row))
    && (row.decidedBy.Some? <==> Decided(row))
    && (row.status.Approved? ==> row.selected.Some? && row.selected.value in Symbols(row.candidates))
    && (row.status.Autonomous? && row.selected.Some? ==> row.selected in row.candidates)
    && (row.status.PendingApproval? || row.status.Rejected? ==> row.selected.None?)
  }

  ghost predicate Sound(rows: seq<Row>) {
    && (forall i :: 0 <= i < |rows| ==> WellFormed(rows[i]))
    && (forall i, j :: 0 <= i < j < |rows| ==> rows[i].scanDate != rows[j].scanDate)
  }

  /** A row keeps its place and its date, and never changes once decided. */
  ghost predicate Continues(before: seq<Row>, after: seq<Row>) {
    && |before| <= |after|
    && (forall i :: 0 <= i < |before| ==> after[i].scanDate == before[i].scanDate)
    && (forall i :: 0 <= i < |before| && Decided(before[i]) ==> after[i] == before[i])
  }

  lemma ScannedRowIsWellFormed(a: Action)
    requires a.Scan?
    ensures WellFormed(ScannedRow(a))
    ensures ScanStatus(a).Autonomous? ==>
      (ScanChoice(a).None? <==> a.candidates == [] || a.n == 0 || -a.n >= |a.candidates|)
  {
    SelectedAreCandidates(a.candidates, a.n, a.mode, a.answer);
    if ScanChoice(a).Some? {
      var selected := Select(a.candidates, a.n, a.mode, a.answer);
      assert selected[0] in a.candidates;
      var k :| 0 <= k < |a.candidates| && a.candidates[k] == ScanChoice(a).value;
      assert Serialised(a.candidates)[k] == ScanChoice(a);
    }
  }

  /** What a scan that finds no decided row leaves in it: the ranking, the mode's
      status, no decision, and a symbol in autonomous mode alone, which without a
      valid answer is the best ranked one. Any mode but approval is autonomous. */
  lemma ScanStores(rows: seq<Row>, a: Action)
    requires Sound(rows) && a.Scan? && a.up
    requires forall i :: 0 <= i < |rows| && rows[i].scanDate == a.today ==>
      !rows[i].status.Approved? && !rows[i].status.Rejected?
    ensures var i := RowOf(rows, a.today); var after := After(rows, a);
      && i < |after| && after[i].scanDate == a.today && |after[i].candidates| == |a.candidates|
      && (forall k :: 0 <= k < |a.candidates| ==> after[i].candidates[k] == Some(a.candidates[k]))
      && after[i].reasoning == a.reasoning && after[i].createdAt == a.now
      && after[i].decidedAt.None? && after[i].decidedBy.None?
      && (if a.mode == "approval" then after[i].status.PendingApproval? && after[i].selected.None?
          else after[i].status.Autonomous?)
      && (a.mode == "autonomous" && Top(a.candidates, a.n) != [] && NothingValid(a.candidates, a.n, a.answer) ==>
            after[i].selected == Some(a.candidates[0]))
  {
    var i := RowOf(rows, a.today);
    if i < |rows| { assert WellFormed(rows[i]); }
    if NothingValid(a.candidates, a.n, a.answer) { ScoreDecides(a.candidates, a.n, a.mode, a.answer); }
  }

  /** Which reply a decision gets: the row must exist, still be pending, and an
      approved symbol must be one of its candidates; then and only then it is taken. */
  lemma AnswerIff(rows: seq<Row>, a: Action)
    requires !a.Scan?
    ensures var reply := Answer(rows, a);
      && (reply == NotFound <==> a.id < 1 || a.id > |rows|)
      && (reply == AlreadyDecided <==> 1 <= a.id <= |rows| && rows[a.id - 1].status != PendingApproval)
      && (reply == NotACandidate <==>
            && 1 <= a.id <= |rows| && rows[a.id - 1].status == PendingApproval && a.Approve?
            && forall c :: c in rows[a.id - 1].candidates && c.Some? ==> Upper(c.value) != Strip(Upper(a.symbol)))
      && (reply != Reply.Ok ==> After(rows, a) == rows)
  {
  }

  /** What a taken decision writes: the status, the symbol of an approval, the
      moment and the address, with the candidates and every other row kept. */
  lemma DecisionRecords(rows: seq<Row>, a: Action)
    requires !a.Scan? && Answer(rows, a) == Reply.Ok
    ensures var after := After(rows, a); var row := rows[a.id - 1];
      && |after| == |rows|
      && (forall j :: 0 <= j < |rows| && j != a.id - 1 ==> after[j] == rows[j])
      && after[a.id - 1].status == (if a.Approve? then Approved else Rejected)
      && after[a.id - 1].selected == (if a.Approve? then Some(Strip(Upper(a.symbol))) else row.selected)
      && after[a.id - 1].decidedAt == Some(a.now) && after[a.id - 1].decidedBy == Some(a.ip)
      && after[a.id - 1].candidates == row.candidates && after[a.id - 1].scanDate == row.scanDate
      && after[a.id - 1].createdAt == row.createdAt
      && (a.Approve? || a.reason == "" ==> after[a.id - 1].reasoning == row.reasoning)
      && (a.Reject? && a.reason != "" ==>
            after[a.id - 1].reasoning == Strip(row.reasoning + "\n\nRejection reason: " + a.reason))
  {
  }

  lemma ReplacedRow(rows: seq<Row>, i: nat, row: Row)
    requires Sound(rows) && i < |rows| && !Decided(rows[i])
    requires WellFormed(row) && row.scanDate == rows[i].scanDate
    ensures Sound(rows[i := row]) && Continues(rows, rows[i := row])
  {
  }

  lemma AddedRow(rows: seq<Row>, row: Row)
    requires Sound(rows) && WellFormed(row)
    requires forall i :: 0 <= i < |rows| ==> rows[i].scanDate != row.scanDate
    ensures Sound(rows + [row]) && Continues(rows, rows + [row])
  {
  }

  lemma StepKeeps(rows: seq<Row>, a: Action)
    requires Sound(rows)
    ensures Sound(After(rows, a)) && Continues(rows, After(rows, a))
  {
    if a.Scan? {
      ScannedRowIsWellFormed(a);
      var i := RowOf(rows, a.today);
      if a.up && i == |rows| {
        AddedRow(rows, ScannedRow(a));
      } else if a.up && !Decided(rows[i]) {
        assert WellFormed(rows[i]);
        ReplacedRow(rows, i, ScannedRow(a));
      }
    } else if Answer(rows, a).Ok? {
      assert WellFormed(rows[a.id - 1]);
      ReplacedRow(rows, a.id - 1, Decision(rows[a.id - 1], a));
    }
  }

  /** Over every interleaving there is one row a date, an approved symbol is one
      of the row's candidates, an autonomous choice too, a rejected or pending
      row has no symbol, and a row carries a decision exactly when it is decided. */
  lemma {:induction false} RunIsSound(actions: seq<Action>)
    ensures Sound(Run(actions))
  {
    if actions != [] {
      RunIsSound(actions[..|actions| - 1]);
      StepKeeps(Run(actions[..|actions| - 1]), actions[|actions| - 1]);
    }
  }

  /** Decided rows are frozen, with their candidate list, whatever follows. */
  lemma {:induction false} DecidedStays(actions: seq<Action>, k: nat)
    requires k <= |actions|
    ensures Continues(Run(actions[..k]), Run(actions))
  {
    if k == |actions| {
      assert actions[..k] == actions;
    } else {
      var init := actions[..|actions| - 1];
      assert init[..k] == actions[..k];
      DecidedStays(init, k);
      RunIsSound(init);
      StepKeeps(Run(init), actions[|actions| - 1]);
    }
  }

  /** Of all the decisions on one row at most one succeeds; every later one is
      told that the row is already decided. */
  lemma DecidedOnce(actions: seq<Action>, i: nat, j: nat)
    requires i < j < |actions| && !actions[i].Scan? && !actions[j].Scan? && actions[i].id == actions[j].id
    requires Answer(Run(actions[..i]), actions[i]).Ok?
    ensures Answer(Run(actions[..j]), actions[j]).AlreadyDecided?
  {
    var first := actions[..i + 1];
    assert first[..i] == actions[..i];
    assert actions[..j][..i + 1] == first;
    assert Decided(Run(first)[actions[i].id - 1]);
    DecidedStays(actions[..j], i + 1);
  }

  // ----- leaving the pending status -----

  /** The action is a scan of that date that reaches the database. */
  predicate Rescans(a: Action, date: int) {
    a.Scan? && a.up && a.today == date
  }

  /** A row that is not pending stays as it is exactly when it is decided, or its
      date is not rescanned, or the rescan brings the very same row; and it
      turns pending again exactly by a rescan in approval mode. */
  lemma StaysOutOfPendingIff(rows: seq<Row>, a: Action, i: nat)
    requires Sound(rows) && i < |rows| && !rows[i].status.PendingApproval?
    ensures var row := rows[i]; var after := After(rows, a);
      && i < |after|
      && (after[i] == row <==> Decided(row) || !Rescans(a, row.scanDate) || ScannedRow(a) == row)
      && (after[i].status.PendingApproval? <==>
            !Decided(row) && Rescans(a, row.scanDate) && a.mode == "approval")
  {
    StepKeeps(rows, a);
    assert WellFormed(rows[i]);
    if a.Scan? {
      var at := RowOf(rows, a.today);
      if at < |rows| && rows[i].scanDate == a.today { OnlyRowOf(rows, i); }
      if at < |rows| { assert WellFormed(rows[at]); }
    }
  }

  lemma OneScan(rows: seq<Row>, a: Action, today: int)
    requires |rows| <= 1 && Rescans(a, today)
    requires rows != [] ==> rows[0].scanDate == today && !Decided(rows[0])
    ensures var after := After(rows, a);
      |after| == 1 && after[0].scanDate == today && after[0].status == ScanStatus(a) && !Decided(after[0])
  {
  }

  /** A date scanned in approval mode, then in autonomous mode, then in approval
      mode again: its row is pending, is not, and is pending again. */
  lemma PendingComesBack(a: Action, b: Action, today: int)
    requires Rescans(a, today) && Rescans(b, today) && a.mode == "approval" && b.mode == "autonomous"
    ensures |Run([a])| == |Run([a, b])| == |Run([a, b, a])| == 1
    ensures Run([a])[0].status.PendingApproval?
    ensures Run([a, b])[0].status.Autonomous?
    ensures Run([a, b, a])[0].status.PendingApproval?
  {
    assert [] + [a] == [a] && [a] + [b] == [a, b] && [a, b] + [a] == [a, b, a];
    RunNext([], a);
    RunNext([a], b);
    RunNext([a, b], a);
    OneScan([], a, today);
    OneScan(Run([a]), b, today);
    OneScan(Run([a, b]), a, today);
  }

  /** Such scans exist. */
  lemma PendingComesBackForOneCandidate()
    ensures var a := Scan(1, "approval", ["AAPL"], 1, None, "", 0.0, true);
      var b := Scan(1, "autonomous", ["AAPL"], 1, None, "", 1.0, true);
      |Run([a, b, a])| == 1 && Run([a, b])[0].status.Autonomous? && Run([a, b, a])[0].status.PendingApproval?
  {
    var a := Scan(1, "approval", ["AAPL"], 1, None, "", 0.0, true);
    var b := Scan(1, "autonomous", ["AAPL"], 1, None, "", 1.0, true);
    PendingComesBack(a, b, 1);
  }

  lemma RunNext(actions: seq<Action>, a: Action)
    ensures Run(actions + [a]) == After(Run(actions), a)
  {
    assert (actions + [a])[..|actions|] == actions;
  }

  // ----- what the engine trades in approval mode -----

  /** `readable` tells whether the loaded row can still be read once its session
      block has closed; otherwise the read raises and counts as no approval. */
  function LoadApproved(rows: seq<Row>, today: int, readable: bool): Option<string> {
    var i := RowOf(rows, today);
    if readable && i < |rows| && rows[i].status.Approved? && rows[i].selected.Some? && rows[i].selected.value != ""
    then rows[i].selected
    else None
  }

  lemma OnlyRowOf(rows: seq<Row>, i: nat)
    requires Sound(rows) && i < |rows|
    ensures RowOf(rows, rows[i].scanDate) == i
  {
  }

  /** The symbol the engine may trade on a date is fixed by the first approval:
      whatever the run brings, a later read gives the same symbol or none. */
  lemma ApprovedSymbolIsFinal(actions: seq<Action>, k: nat, today: int, readable: bool)
    requires k <= |actions| && LoadApproved(Run(actions[..k]), today, true).Some?
    ensures LoadApproved(Run(actions), today, readable) ==
      if readable then LoadApproved(Run(actions[..k]), today, true) else None
  {
    DecidedStays(actions, k);
    RunIsSound(actions);
    OnlyRowOf(Run(actions), RowOf(Run(actions[..k]), today));
  }

  /** A scan that reaches the database replaces the date's row by its own
      result unless a user decided it, and touches no other row. */
  lemma ScanWrites(rows: seq<Row>, a: Action)
    requires Sound(rows) && a.Scan? && a.up
    ensures var after := After(rows, a); var i := RowOf(after, a.today);
      && i < |after| && i == RowOf(rows, a.today)
      && after[i] == (if i < |rows| && Decided(rows[i]) then rows[i] else ScannedRow(a))
      && forall j :: 0 <= j < |rows| && j != i ==> after[j] == rows[j]
  {
    var i := RowOf(rows, a.today);
    StepKeeps(rows, a);
    OnlyRowOf(After(rows, a), i);
    if i < |rows| { assert WellFormed(rows[i]); }
  }

  /** The engine reads back the symbol a user approved for the row's date exactly
      if the row can still be read after its session block, and nothing after
      a rejection. */
  lemma DecisionIsRead(rows: seq<Row>, a: Action, readable: bool)
    requires Sound(rows) && !a.Scan? && Answer(rows, a).Ok?
    ensures LoadApproved(After(rows, a), rows[a.id - 1].scanDate, readable) ==
      if readable && a.Approve? && Strip(Upper(a.symbol)) != "" then Some(Strip(Upper(a.symbol))) else None
  {
    StepKeeps(rows, a);
    OnlyRowOf(After(rows, a), a.id - 1);
  }

  ghost predicate ApprovedBy(actions: seq<Action>, k: nat, symbol: string, today: int) {
    && k < |actions| && actions[k].Approve?
    && Strip(Upper(actions[k].symbol)) == symbol
    && Answer(Run(actions[..k]), actions[k]).Ok?
    && Run(actions[..k])[actions[k].id - 1].scanDate == today
  }

  lemma ApprovedBySooner(actions: seq<Action>, n: nat, k: nat, symbol: string, today: int)
    requires n <= |actions| && ApprovedBy(actions[..n], k, symbol, today)
    ensures ApprovedBy(actions, k, symbol, today)
  {
    assert actions[..n][..k] == actions[..k];
  }

  /** And the engine trades a symbol in approval mode only if some user action
      approved exactly that symbol for that date. */
  lemma {:induction false} TradesOnlyApproved(actions: seq<Action>, today: int, symbol: string) returns (k: nat)
    requires LoadApproved(Run(actions), today, true) == Some(symbol)
    ensures ApprovedBy(actions, k, symbol, today)
  {
    var init, a := actions[..|actions| - 1], actions[|actions| - 1];
    if LoadApproved(Run(init), today, true) == Some(symbol) {
      k := TradesOnlyApproved(init, today, symbol);
      ApprovedBySooner(actions, |init|, k, symbol, today);
    } else {
      k := |init|;
      RunIsSound(init);
      LastApproved(Run(init), a, today, symbol);
    }
  }

  lemma LastApproved(rows: seq<Row>, a: Action, today: int, symbol: string)
    requires Sound(rows) && LoadApproved(rows, today, true) != Some(symbol)
    requires LoadApproved(After(rows, a), today, true) == Some(symbol)
    ensures a.Approve? && Answer(rows, a).Ok?
    ensures Strip(Upper(a.symbol)) == symbol && rows[a.id - 1].scanDate == today
  {
    StepKeeps(rows, a);
    var after := After(rows, a);
    var i := RowOf(after, today);
    if i < |rows| {
      OnlyRowOf(rows, i);
    }
  }

  // ----- the table -----

  class SelectionTable {
    var rows: seq<Row>
    ghost var actions: seq<Action>

    ghost predicate InStep()
      reads this
    {
      rows == Run(actions)
    }

    constructor ()
      ensures InStep() && actions == []
    {
      rows, actions := [], [];
    }

    /** Upper-cased symbols of a row. */
    static method CandidateSymbols(row: Row) returns (symbols: set<string>)
      ensures symbols == Symbols(row.candidates)
    {
      symbols := {};
      for i := 0 to |row.candidates|
        invariant symbols == Symbols(row.candidates[..i])
      {
        assert row.candidates[..i + 1] == row.candidates[..i] + [row.candidates[i]];
        if row.candidates[i].Some? {
          symbols := symbols + {Upper(row.candidates[i].value)};
        }
      }
      assert row.candidates[..|row.candidates|] == row.candidates;
    }

    /** Insert today's row, or overwrite it field by field unless a user decided it. */
    method PersistSelection(a: Action)
      requires InStep() && a.Scan?
      modifies this
      ensures InStep() && actions == old(actions) + [a]
      ensures rows == Persisted(old(rows), a)
    {
      RunIsSound(actions);
      var selected := if ScanStatus(a).Autonomous? then Select(a.candidates, a.n, a.mode, a.answer) else [];
      var choice := if selected != [] then Some(selected[0]) else None;
      if a.up {
        var i := RowOf(rows, a.today);
        if i == |rows| {
          var row := Row(a.today, Serialised(a.candidates), choice, ScanStatus(a), a.reasoning, a.now, None, None);
          rows := rows + [row];
        } else if rows[i].status.PendingApproval? || rows[i].status.Autonomous? {
          rows := rows[i := rows[i].(candidates := Serialised(a.candidates), selected := choice)];
          rows := rows[i := rows[i].(status := ScanStatus(a), reasoning := a.reasoning, createdAt := a.now)];
        }
      }
      actions := actions + [a];
      assert actions[..|actions| - 1] == old(actions);
    }

    method ApproveSelection(id: int, symbol: string, ip: string, now: real) returns (reply: Reply)
      requires InStep()
      modifies this
      ensures InStep() && actions == old(actions) + [Approve(id, symbol, ip, now)]
      ensures reply == Answer(old(rows), Approve(id, symbol, ip, now))
    {
      var upper := Strip(Upper(symbol));
      actions := actions + [Approve(id, symbol, ip, now)];
      assert actions[..|actions| - 1] == old(actions);
      if !Exists(rows, id) { return NotFound; }
      var row := rows[id - 1];
      if !row.status.PendingApproval? { return AlreadyDecided; }
      var symbols := CandidateSymbols(row);
      if upper !in symbols { return NotACandidate; }
      row := row.(selected := Some(upper));
      row := row.(status := Approved);
      row := row.(decidedAt := Some(now));
      row := row.(decidedBy := Some(ip));
      rows := rows[id - 1 := row];
      return Reply.Ok;
    }

    method RejectSelection(id: int, reason: string, ip: string, now: real) returns (reply: Reply)
      requires InStep()
      modifies this
      ensures InStep() && actions == old(actions) + [Reject(id, reason, ip, now)]
      ensures reply == Answer(old(rows), Reject(id, reason, ip, now))
    {
      actions := actions + [Reject(id, reason, ip, now)];
      assert actions[..|actions| - 1] == old(actions);
      if !Exists(rows, id) { return NotFound; }
      var row := rows[id - 1];
      if !row.status.PendingApproval? { return AlreadyDecided; }
      row := row.(status := Rejected);
      row := row.(decidedAt := Some(now));
      row := row.(decidedBy := Some(ip));
      if reason != "" {
        row := row.(reasoning := Strip(row.reasoning + "\n\nRejection reason: " + reason));
      }
      rows := rows[id - 1 := row];
      return Reply.Ok;
    }
  }
}
