/** The replay loop generates exactly the declaratively specified trades,
    conserves money and never looks ahead. */
module BacktestLaws {
  import opened Common
  import opened Backtest

  // ----- sequence bookkeeping -----

  lemma PrefixOfAppend(ts: seq<Trade>, t: Trade)
    ensures forall k :: 0 <= k <= |ts| ==> (ts + [t])[..k] == ts[..k]
    ensures (ts + [t])[..|ts|] == ts
  {
  }

  lemma TouchTradeAppend(p: Params, feed: Feed, ts: seq<Trade>, t: Trade, k: nat)
    requires k < |ts| && TouchTrade(p, feed, ts, k)
    ensures TouchTrade(p, feed, ts + [t], k)
  {
    PrefixOfAppend(ts, t);
  }

  lemma {:induction false} PnlByAll(ts: seq<Trade>, j: int)
    requires forall k :: 0 <= k < |ts| ==> ts[k].exitBar <= j
    ensures PnlBy(ts, j) == TotalPnl(ts)
  {
    if ts != [] { PnlByAll(ts[..|ts| - 1], j); }
  }

  // ----- the invariant of the loop -----

  /** The trades so far are as specified and all closed by touch before bar i. */
  ghost predicate ClosedWell(p: Params, feed: Feed, ts: seq<Trade>, i: nat) {
    forall k :: 0 <= k < |ts| ==>
      TouchTrade(p, feed, ts, k) && ts[k].exitBar < i && ts[k].reason != Eod
  }

  /** The day counters count the closed trades and the open position. */
  ghost predicate CountsAgree(feed: Feed, ts: seq<Trade>, held: Option<Position>, counts: map<string, nat>) {
    forall day :: CountOf(counts, day) ==
      DayCount(feed, ts, day) + (if held.Some? && DayOf(feed, held.value.entryBar) == day then 1 else 0)
  }

  /** The position was entered as specified after ts and is untouched before bar i. */
  ghost predicate HeldWell(p: Params, feed: Feed, ts: seq<Trade>, pos: Position, i: nat) {
    && pos.entryBar < i
    && EntersAt(p, feed, ts, pos.entryBar)
    && pos == Opened(p, feed, pos.entryBar, EquityAfter(p, ts))
    && Untouched(feed, pos, pos.entryBar, i)
  }

  /** What the loop state says about the trades made and the position held
      after i bars; `flat` is the bar before which a flat book found no entry. */
  ghost predicate Tracks(p: Params, feed: Feed, i: nat, flat: nat, s: State) {
    && s.equity == EquityAfter(p, s.trades)
    && ClosedWell(p, feed, s.trades, i)
    && CountsAgree(feed, s.trades, s.position, s.counts)
    && LastExit(s.trades) <= flat
    && (s.position.None? ==> NoneEligible(p, feed, s.trades, LastExit(s.trades), flat))
    && (s.position.Some? ==> HeldWell(p, feed, s.trades, s.position.value, i))
  }

  lemma AppendTouch(p: Params, feed: Feed, ts: seq<Trade>, pos: Position, t: Trade, i: nat)
    requires ClosedWell(p, feed, ts, i) && HeldWell(p, feed, ts, pos, i)
    requires TouchExit(feed, pos, t) && t.exitBar == i
    ensures ClosedWell(p, feed, ts + [t], i + 1)
  {
    var us := ts + [t];
    PrefixOfAppend(ts, t);
    forall k | 0 <= k < |us|
      ensures TouchTrade(p, feed, us, k) && us[k].exitBar < i + 1 && us[k].reason != Eod
    {
      if k < |ts| {
        assert TouchTrade(p, feed, ts, k);
        TouchTradeAppend(p, feed, ts, t, k);
      } else {
        assert us[..k] == ts;
      }
    }
  }

  lemma AppendCounts(feed: Feed, ts: seq<Trade>, pos: Position, t: Trade, counts: map<string, nat>)
    requires CountsAgree(feed, ts, Some(pos), counts) && t.entryBar == pos.entryBar
    ensures CountsAgree(feed, ts + [t], None, counts)
  {
    PrefixOfAppend(ts, t);
    forall day ensures CountOf(counts, day) == DayCount(feed, ts + [t], day) {
      assert CountOf(counts, day) == DayCount(feed, ts, day) + (if DayOf(feed, pos.entryBar) == day then 1 else 0);
      assert (ts + [t])[..|ts + [t]| - 1] == ts;
    }
  }

  lemma ClosedWellLater(p: Params, feed: Feed, ts: seq<Trade>, i: nat)
    requires ClosedWell(p, feed, ts, i)
    ensures ClosedWell(p, feed, ts, i + 1)
  {
    forall k | 0 <= k < |ts| ensures TouchTrade(p, feed, ts, k) && ts[k].exitBar < i + 1 && ts[k].reason != Eod {
      assert TouchTrade(p, feed, ts, k);
    }
  }

  /** The exit check, decided by the two level tests. */
  lemma CheckExitMeaning(pos: Position, bar: Bar)
    ensures CheckExit(pos, bar) ==
      if HitsStop(pos, bar) then Some(Exit(pos.stop, Stop))
      else if HitsTarget(pos, bar) then Some(Exit(pos.target, Target))
      else None
  {
  }

  lemma HeldLater(p: Params, feed: Feed, ts: seq<Trade>, pos: Position, i: nat)
    requires i < |feed.bars| && HeldWell(p, feed, ts, pos, i)
    requires CheckExit(pos, feed.bars[i]).None?
    ensures HeldWell(p, feed, ts, pos, i + 1)
  {
    CheckExitMeaning(pos, feed.bars[i]);
  }

  lemma HeldCloses(p: Params, feed: Feed, ts: seq<Trade>, pos: Position, i: nat)
    requires i < |feed.bars| && HeldWell(p, feed, ts, pos, i)
    requires CheckExit(pos, feed.bars[i]).Some?
    ensures TouchExit(feed, pos, Close(pos, i, CheckExit(pos, feed.bars[i]).value))
  {
    CheckExitMeaning(pos, feed.bars[i]);
  }

  lemma SumAppend(ts: seq<Trade>, t: Trade)
    ensures TotalPnl(ts + [t]) == TotalPnl(ts) + t.pnl && LastExit(ts + [t]) == t.exitBar
  {
    PrefixOfAppend(ts, t);
  }

  lemma FlatTracks(p: Params, feed: Feed, i: nat, s: State)
    requires s.position.None? && s.equity == EquityAfter(p, s.trades) && LastExit(s.trades) == i
    requires ClosedWell(p, feed, s.trades, i + 1) && CountsAgree(feed, s.trades, None, s.counts)
    ensures Tracks(p, feed, i + 1, i, s)
  {
  }

  lemma CloseTracks(p: Params, feed: Feed, i: nat, s: State, pos: Position, t: Trade, s': State)
    requires Tracks(p, feed, i, i, s) && s.position == Some(pos)
    requires TouchExit(feed, pos, t) && t.exitBar == i && t.entryBar == pos.entryBar
    requires s'.trades == s.trades + [t] && s'.position.None?
    requires s'.counts == s.counts && s'.equity == s.equity + t.pnl
    ensures Tracks(p, feed, i + 1, i, s')
  {
    AppendTouch(p, feed, s.trades, pos, t, i);
    AppendCounts(feed, s.trades, pos, t, s.counts);
    SumAppend(s.trades, t);
    FlatTracks(p, feed, i, s');
  }

  lemma ExitCloses(p: Params, feed: Feed, i: nat, s: State)
    requires i < |feed.bars| && Tracks(p, feed, i, i, s) && s.position.Some?
    requires CheckExit(s.position.value, feed.bars[i]).Some?
    ensures Tracks(p, feed, i + 1, i, ExitStep(feed, i, s))
  {
    var pos := s.position.value;
    HeldCloses(p, feed, s.trades, pos, i);
    CloseTracks(p, feed, i, s, pos, Close(pos, i, CheckExit(pos, feed.bars[i]).value), ExitStep(feed, i, s));
  }

  lemma ExitStepTracks(p: Params, feed: Feed, i: nat, s: State)
    requires i < |feed.bars| && Tracks(p, feed, i, i, s)
    ensures Tracks(p, feed, i + 1, i, ExitStep(feed, i, s))
  {
    if s.position.Some? && CheckExit(s.position.value, feed.bars[i]).Some? {
      ExitCloses(p, feed, i, s);
    } else {
      ClosedWellLater(p, feed, s.trades, i);
      if s.position.Some? { HeldLater(p, feed, s.trades, s.position.value, i); }
    }
  }

  lemma EntryCounts(feed: Feed, i: nat, ts: seq<Trade>, pos: Position, counts: map<string, nat>)
    requires i < |feed.bars| && pos.entryBar == i && CountsAgree(feed, ts, None, counts)
    ensures var day := feed.bars[i].day; CountsAgree(feed, ts, Some(pos), counts[day := CountOf(counts, day) + 1])
  {
    var counts' := counts[feed.bars[i].day := CountOf(counts, feed.bars[i].day) + 1];
    forall day ensures CountOf(counts', day) == DayCount(feed, ts, day) + (if DayOf(feed, i) == day then 1 else 0) {
      assert CountOf(counts, day) == DayCount(feed, ts, day);
    }
  }

  lemma OpenTracks(p: Params, feed: Feed, i: nat, s: State, s': State)
    requires i < |feed.bars| && Tracks(p, feed, i + 1, i, s) && s.position.None? && Eligible(p, feed, s.trades, i)
    requires s'.equity == s.equity && s'.trades == s.trades
    requires s'.position == Some(Opened(p, feed, i, EquityAfter(p, s.trades)))
    requires CountsAgree(feed, s.trades, s'.position, s'.counts)
    ensures Tracks(p, feed, i + 1, i + 1, s')
  {
    assert EntersAt(p, feed, s.trades, i);
    assert s'.position.value.entryBar == i;
  }

  lemma IdleTracks(p: Params, feed: Feed, i: nat, s: State)
    requires i < |feed.bars| && Tracks(p, feed, i + 1, i, s)
    requires s.position.None? ==> !Eligible(p, feed, s.trades, i)
    ensures Tracks(p, feed, i + 1, i + 1, s)
  {
  }

  lemma EntryStepTracks(p: Params, feed: Feed, i: nat, s: State)
    requires i < |feed.bars| && Tracks(p, feed, i + 1, i, s)
    ensures Tracks(p, feed, i + 1, i + 1, EntryStep(p, feed, i, s))
  {
    assert CountOf(s.counts, DayOf(feed, i)) >= DayCount(feed, s.trades, DayOf(feed, i));
    if s.position.None? && Eligible(p, feed, s.trades, i) {
      var s' := EntryStep(p, feed, i, s);
      assert s'.position == Some(Opened(p, feed, i, s.equity));
      EntryCounts(feed, i, s.trades, s'.position.value, s.counts);
      OpenTracks(p, feed, i, s, s');
    } else {
      assert EntryStep(p, feed, i, s) == s;
      IdleTracks(p, feed, i, s);
    }
  }

  lemma StepTracks(p: Params, feed: Feed, i: nat, s: State)
    requires i < |feed.bars| && Tracks(p, feed, i, i, s)
    ensures Tracks(p, feed, i + 1, i + 1, Step(p, feed, i, s))
  {
    ExitStepTracks(p, feed, i, s);
    EntryStepTracks(p, feed, i, ExitStep(feed, i, s));
  }

  lemma StartTracks(p: Params, feed: Feed)
    ensures Tracks(p, feed, 0, 0, Start(p))
  {
    assert CountsAgree(feed, [], None, map[]);
    assert ClosedWell(p, feed, [], 0);
  }

  /** Induction over the bars, for any property of bar position and state. */
  lemma {:induction false} ReplayInduction(p: Params, feed: Feed, inv: (nat, State) -> bool, i: nat)
    requires i <= |feed.bars|
    requires inv(0, Start(p))
    requires forall j: nat, s :: j < |feed.bars| && inv(j, s) ==> inv(j + 1, Step(p, feed, j, s))
    ensures inv(i, Replay(p, feed, i))
  {
    if i > 0 {
      ReplayInduction(p, feed, inv, i - 1);
      var s := Replay(p, feed, i - 1);
      assert inv(i - 1 + 1, Step(p, feed, i - 1, s));
    }
  }

  lemma ReplayTracks(p: Params, feed: Feed, i: nat)
    requires i <= |feed.bars|
    ensures Tracks(p, feed, i, i, Replay(p, feed, i))
  {
    ghost var inv := (j: nat, s: State) => Tracks(p, feed, j, j, s);
    StartTracks(p, feed);
    forall j: nat, s | j < |feed.bars| && inv(j, s) ensures inv(j + 1, Step(p, feed, j, s)) {
      StepTracks(p, feed, j, s);
    }
    ReplayInduction(p, feed, inv, i);
    assert inv(i, Replay(p, feed, i));
  }

  // ----- the loop refines the specification -----

  /** The trades of a run satisfy the specification. */
  lemma RunIsReplay(p: Params, feed: Feed)
    ensures IsReplay(p, feed, Outcome(p, feed).trades)
  {
    var n := |feed.bars|;
    var s := Replay(p, feed, n);
    ReplayTracks(p, feed, n);
    CurveLength(p, feed, n);
    var ts := Outcome(p, feed).trades;
    if s.position.Some? {
      var t := ts[|s.trades|];
      PrefixOfAppend(s.trades, t);
      assert EodTrade(p, feed, ts, |s.trades|);
      forall k | 0 <= k < |s.trades| ensures TouchTrade(p, feed, ts, k) {
        TouchTradeAppend(p, feed, s.trades, t, k);
      }
    } else {
      assert ts == [] || ts[|ts| - 1].reason != Eod;
    }
  }

  lemma SameTrade(p: Params, feed: Feed, ts: seq<Trade>, us: seq<Trade>, k: nat)
    requires IsReplay(p, feed, ts) && IsReplay(p, feed, us)
    requires k < |ts| && k < |us| && ts[..k] == us[..k]
    ensures ts[k] == us[k]
  {
    var prior := ts[..k];
    var a, b := ts[k].entryBar, us[k].entryBar;
    assert TouchTrade(p, feed, ts, k) || EodTrade(p, feed, ts, k);
    assert TouchTrade(p, feed, us, k) || EodTrade(p, feed, us, k);
    assert EntersAt(p, feed, prior, a) && EntersAt(p, feed, prior, b);
    assert a == b;
    var pos := Opened(p, feed, a, EquityAfter(p, prior));
    var x, y := ts[k].exitBar, us[k].exitBar;
    if TouchTrade(p, feed, ts, k) && TouchTrade(p, feed, us, k) {
      assert TouchExit(feed, pos, ts[k]) && TouchExit(feed, pos, us[k]);
      assert x == y;
    }
  }

  lemma {:induction false} SamePrefix(p: Params, feed: Feed, ts: seq<Trade>, us: seq<Trade>, k: nat)
    requires IsReplay(p, feed, ts) && IsReplay(p, feed, us) && k <= |ts| && k <= |us|
    ensures ts[..k] == us[..k]
  {
    if k > 0 {
      SamePrefix(p, feed, ts, us, k - 1);
      SameTrade(p, feed, ts, us, k - 1);
      assert ts[..k] == ts[..k - 1] + [ts[k - 1]];
      assert us[..k] == us[..k - 1] + [us[k - 1]];
    }
  }

  lemma NextEntry(p: Params, feed: Feed, us: seq<Trade>, m: nat)
    requires IsReplay(p, feed, us) && m < |us|
    ensures EntersAt(p, feed, us[..m], us[m].entryBar)
    ensures us[m].entryBar < |feed.bars|
    ensures m > 0 ==> us[m - 1].reason != Eod
  {
    assert TouchTrade(p, feed, us, m) || EodTrade(p, feed, us, m);
    if m > 0 { assert TouchTrade(p, feed, us, m - 1); }
  }

  lemma NoLonger(p: Params, feed: Feed, ts: seq<Trade>, us: seq<Trade>)
    requires IsReplay(p, feed, ts) && IsReplay(p, feed, us)
    ensures |us| <= |ts|
  {
    var m := |ts|;
    if m < |us| {
      NextEntry(p, feed, us, m);
      assert ts[..m] == ts;
      SamePrefix(p, feed, ts, us, m);
      // Nothing is eligible after ts, yet us enters once more.
      assert false;
    }
  }

  /** A trade list meets the specification exactly when it is the one the run
      produces: the specification determines every trade. */
  lemma ReplayIffRun(p: Params, feed: Feed, ts: seq<Trade>)
    ensures IsReplay(p, feed, ts) <==> ts == Outcome(p, feed).trades
  {
    RunIsReplay(p, feed);
    if IsReplay(p, feed, ts) {
      var us := Outcome(p, feed).trades;
      NoLonger(p, feed, ts, us);
      NoLonger(p, feed, us, ts);
      SamePrefix(p, feed, ts, us, |ts|);
      assert ts[..|ts|] == ts && us[..|us|] == us;
    }
  }

  // ----- equity conservation -----

  /** One entry per bar so far, each the initial capital plus the P&L exited by then. */
  ghost predicate CurveAgrees(p: Params, ts: seq<Trade>, curve: seq<real>) {
    forall j :: 0 <= j < |curve| ==> curve[j] == p.initialCapital + PnlBy(ts, j)
  }

  ghost predicate ExitedBefore(ts: seq<Trade>, i: nat) {
    forall k :: 0 <= k < |ts| ==> ts[k].exitBar < i
  }

  /** A trade exited at bar i or later leaves the earlier entries as they were. */
  lemma CurveAfterTrade(p: Params, ts: seq<Trade>, t: Trade, curve: seq<real>)
    requires CurveAgrees(p, ts, curve) && t.exitBar >= |curve|
    ensures CurveAgrees(p, ts + [t], curve)
  {
    PrefixOfAppend(ts, t);
  }

  lemma CurveAppend(p: Params, ts: seq<Trade>, curve: seq<real>)
    requires CurveAgrees(p, ts, curve) && ExitedBefore(ts, |curve| + 1)
    ensures CurveAgrees(p, ts, curve + [EquityAfter(p, ts)])
  {
    PnlByAll(ts, |curve|);
  }

  /** A bar adds at most one trade, exited at that bar, and one curve entry. */
  lemma StepTrades(p: Params, feed: Feed, i: nat, s: State)
    requires i < |feed.bars|
    ensures var s' := Step(p, feed, i, s);
      && s'.curve == s.curve + [s'.equity]
      && (s'.trades == s.trades || exists t: Trade :: t.exitBar == i && s'.trades == s.trades + [t])
  {
    var s1 := ExitStep(feed, i, s);
    if s1 != s { assert s1.trades == s.trades + [s1.trades[|s.trades|]]; }
  }

  lemma TracksExits(p: Params, feed: Feed, i: nat, s: State)
    requires Tracks(p, feed, i, i, s)
    ensures ExitedBefore(s.trades, i)
    ensures forall k :: 0 <= k < |s.trades| ==> s.trades[k].reason != Eod
    ensures s.equity == EquityAfter(p, s.trades)
  {
    forall k | 0 <= k < |s.trades| ensures s.trades[k].exitBar < i && s.trades[k].reason != Eod {
      assert ClosedWell(p, feed, s.trades, i);
      assert TouchTrade(p, feed, s.trades, k);
    }
  }

  lemma NextCurve(p: Params, ts: seq<Trade>, curve: seq<real>, ts': seq<Trade>, i: nat)
    requires |curve| == i && CurveAgrees(p, ts, curve) && ExitedBefore(ts', i + 1)
    requires ts' == ts || exists t: Trade :: t.exitBar == i && ts' == ts + [t]
    ensures CurveAgrees(p, ts', curve + [EquityAfter(p, ts')])
  {
    if ts' != ts {
      var t: Trade :| t.exitBar == i && ts' == ts + [t];
      CurveAfterTrade(p, ts, t, curve);
    }
    CurveAppend(p, ts', curve);
  }

  ghost predicate CurveWell(p: Params, feed: Feed, i: nat, s: State) {
    Tracks(p, feed, i, i, s) && |s.curve| == i && CurveAgrees(p, s.trades, s.curve)
  }

  lemma StepCurve(p: Params, feed: Feed, i: nat, s: State)
    requires i < |feed.bars| && CurveWell(p, feed, i, s)
    ensures CurveWell(p, feed, i + 1, Step(p, feed, i, s))
  {
    var s' := Step(p, feed, i, s);
    StepTracks(p, feed, i, s);
    TracksExits(p, feed, i + 1, s');
    StepTrades(p, feed, i, s);
    NextCurve(p, s.trades, s.curve, s'.trades, i);
  }

  lemma StartCurve(p: Params, feed: Feed)
    ensures CurveWell(p, feed, 0, Start(p))
  {
    StartTracks(p, feed);
  }

  lemma StepsCurve(p: Params, feed: Feed, inv: (nat, State) -> bool)
    requires forall j: nat, s :: inv(j, s) <==> CurveWell(p, feed, j, s)
    ensures forall j: nat, s :: j < |feed.bars| && inv(j, s) ==> inv(j + 1, Step(p, feed, j, s))
  {
    forall j: nat, s | j < |feed.bars| && inv(j, s) ensures inv(j + 1, Step(p, feed, j, s)) {
      StepCurve(p, feed, j, s);
    }
  }

  lemma ReplayCurve(p: Params, feed: Feed, i: nat)
    requires i <= |feed.bars|
    ensures CurveWell(p, feed, i, Replay(p, feed, i))
  {
    ghost var inv := (j: nat, s: State) => CurveWell(p, feed, j, s);
    StartCurve(p, feed);
    StepsCurve(p, feed, inv);
    ReplayInduction(p, feed, inv, i);
    assert inv(i, Replay(p, feed, i));
  }

  /** The closing books of a run: the equity is the initial capital plus the
      P&L of the trades, the curve has an entry per bar, entry j is the initial
      capital plus the P&L exited by bar j, and the last entry is the equity. */
  ghost predicate Conserved(p: Params, n: nat, out: State) {
    && |out.curve| == n
    && out.equity == p.initialCapital + TotalPnl(out.trades)
    && CurveAgrees(p, out.trades, out.curve)
    && (n > 0 ==> out.curve[n - 1] == out.equity)
  }

  lemma ForcedCloseConserves(p: Params, ts: seq<Trade>, t: Trade, curve: seq<real>, out: State)
    requires |curve| > 0 && CurveAgrees(p, ts, curve)
    requires ExitedBefore(ts, |curve|) && t.exitBar == |curve| - 1
    requires out.trades == ts + [t] && out.equity == EquityAfter(p, ts) + t.pnl
    requires out.curve == curve[|curve| - 1 := out.equity]
    ensures Conserved(p, |curve|, out)
  {
    var n := |curve|;
    SumAppend(ts, t);
    NextCurve(p, ts, curve[..n - 1], out.trades, n - 1);
    assert out.curve == curve[..n - 1] + [out.equity];
  }

  lemma FlatConserves(p: Params, s: State)
    requires CurveAgrees(p, s.trades, s.curve) && ExitedBefore(s.trades, |s.curve|)
    requires s.equity == EquityAfter(p, s.trades)
    ensures Conserved(p, |s.curve|, s)
  {
    if s.curve != [] { PnlByAll(s.trades, |s.curve| - 1); }
  }

  lemma FinishConserves(p: Params, feed: Feed, s: State)
    requires CurveWell(p, feed, |feed.bars|, s)
    requires s.position.Some? ==> |feed.bars| > 0
    ensures Conserved(p, |feed.bars|, Finish(feed, s))
  {
    TracksExits(p, feed, |feed.bars|, s);
    if s.position.Some? {
      var out := Finish(feed, s);
      ForcedCloseConserves(p, s.trades, out.trades[|s.trades|], s.curve, out);
    } else {
      FlatConserves(p, s);
    }
  }

  /** Every run conserves money. */
  lemma EquityConservation(p: Params, feed: Feed)
    ensures Conserved(p, |feed.bars|, Outcome(p, feed))
  {
    var s := Replay(p, feed, |feed.bars|);
    ReplayCurve(p, feed, |feed.bars|);
    CurveLength(p, feed, |feed.bars|);
    FinishConserves(p, feed, s);
    assert Outcome(p, feed) == Finish(feed, s);
  }

  // ----- no look-ahead -----

  /** The same run fed only the first k bars and their signals. */
  function Take(feed: Feed, k: nat): Feed
    requires k <= |feed.bars|
  {
    Feed(feed.bars[..k],
         if k <= |feed.enriched| then feed.enriched[..k] else feed.enriched,
         if k <= |feed.predictions| then feed.predictions[..k] else feed.predictions)
  }

  /** The trades closed by touch before bar k, leaving out a forced close. */
  function ClosedBefore(ts: seq<Trade>, k: nat): seq<Trade> {
    if ts == [] then []
    else
      var t := ts[|ts| - 1];
      ClosedBefore(ts[..|ts| - 1], k) + (if t.exitBar < k && t.reason != Eod then [t] else [])
  }

  lemma {:induction false} ClosedBeforeAll(ts: seq<Trade>, k: nat)
    requires forall i :: 0 <= i < |ts| ==> ts[i].exitBar < k && ts[i].reason != Eod
    ensures ClosedBefore(ts, k) == ts
  {
    if ts != [] {
      ClosedBeforeAll(ts[..|ts| - 1], k);
      assert ts[|ts| - 1].exitBar < k && ts == ts[..|ts| - 1] + [ts[|ts| - 1]];
    }
  }

  lemma StepOfPrefix(p: Params, feed: Feed, k: nat, i: nat, s: State)
    requires i < k <= |feed.bars|
    ensures Step(p, Take(feed, k), i, s) == Step(p, feed, i, s)
  {
    var part := Take(feed, k);
    assert part.bars[i] == feed.bars[i];
    assert PredictionAt(part, i) == PredictionAt(feed, i);
    assert i < |feed.enriched| ==> i < |part.enriched| && part.enriched[i] == feed.enriched[i];
    assert Atr(part, i) == Atr(feed, i);
    assert Confirmed(part, i, Long) == Confirmed(feed, i, Long);
    assert Confirmed(part, i, Short) == Confirmed(feed, i, Short);
    assert Accepts(p, part, i) == Accepts(p, feed, i);
  }

  lemma {:induction false} SameReplay(p: Params, feed: Feed, part: Feed, i: nat)
    requires i <= |feed.bars| && i <= |part.bars|
    requires forall j: nat, s :: j < i ==> Step(p, part, j, s) == Step(p, feed, j, s)
    ensures Replay(p, part, i) == Replay(p, feed, i)
  {
    if i > 0 { SameReplay(p, feed, part, i - 1); }
  }

  lemma ReplayOfPrefix(p: Params, feed: Feed, k: nat, i: nat)
    requires i <= k <= |feed.bars|
    ensures Replay(p, Take(feed, k), i) == Replay(p, feed, i)
  {
    forall j: nat, s | j < i ensures Step(p, Take(feed, k), j, s) == Step(p, feed, j, s) {
      StepOfPrefix(p, feed, k, j, s);
    }
    SameReplay(p, feed, Take(feed, k), i);
  }

  lemma StepClosed(p: Params, feed: Feed, k: nat, i: nat, s: State)
    requires k <= i < |feed.bars| && k <= |s.curve|
    ensures ClosedBefore(Step(p, feed, i, s).trades, k) == ClosedBefore(s.trades, k)
    ensures |Step(p, feed, i, s).curve| == |s.curve| + 1
    ensures Step(p, feed, i, s).curve[..k] == s.curve[..k]
  {
    StepTrades(p, feed, i, s);
    var ts := Step(p, feed, i, s).trades;
    if ts != s.trades {
      var t: Trade :| t.exitBar == i && ts == s.trades + [t];
      PrefixOfAppend(s.trades, t);
    }
  }

  lemma AllClosed(p: Params, feed: Feed, k: nat)
    requires k <= |feed.bars|
    ensures ClosedBefore(Replay(p, feed, k).trades, k) == Replay(p, feed, k).trades
  {
    ReplayTracks(p, feed, k);
    TracksExits(p, feed, k, Replay(p, feed, k));
    ClosedBeforeAll(Replay(p, feed, k).trades, k);
  }

  lemma {:induction false} ClosedStable(p: Params, feed: Feed, k: nat, i: nat)
    requires k <= i <= |feed.bars|
    ensures ClosedBefore(Replay(p, feed, i).trades, k) == Replay(p, feed, k).trades
    ensures |Replay(p, feed, k).curve| == k && |Replay(p, feed, i).curve| == i
    ensures Replay(p, feed, i).curve[..k] == Replay(p, feed, k).curve
  {
    CurveLength(p, feed, i);
    CurveLength(p, feed, k);
    if i == k {
      AllClosed(p, feed, k);
    } else {
      var s := Replay(p, feed, i - 1);
      ClosedStable(p, feed, k, i - 1);
      StepClosed(p, feed, k, i - 1, s);
      assert Replay(p, feed, i) == Step(p, feed, i - 1, s);
    }
  }

  lemma FinishClosed(p: Params, feed: Feed, k: nat)
    requires k <= |feed.bars|
    ensures var s := Replay(p, feed, |feed.bars|); var out := Outcome(p, feed);
      && ClosedBefore(out.trades, k) == ClosedBefore(s.trades, k)
      && |out.curve| == |s.curve| == |feed.bars|
      && (forall j :: 0 <= j < |feed.bars| - 1 ==> out.curve[j] == s.curve[j])
  {
    CurveLength(p, feed, |feed.bars|);
    var s := Replay(p, feed, |feed.bars|);
    if s.position.Some? { PrefixOfAppend(s.trades, Outcome(p, feed).trades[|s.trades|]); }
  }

  /** The forced close of a position still held after the given bars. */
  function ForcedClose(feed: Feed, held: Option<Position>, n: nat): seq<Trade> {
    if held.Some? && 0 < n <= |feed.bars|
    then [Close(held.value, n - 1, Exit(feed.bars[n - 1].close, Eod))]
    else []
  }

  lemma FinishForces(feed: Feed, s: State)
    requires s.position.Some? ==> |feed.bars| > 0 && |s.curve| > 0
    ensures Finish(feed, s).trades == s.trades + ForcedClose(feed, s.position, |feed.bars|)
    ensures s.position.None? ==> Finish(feed, s) == s
  {
  }

  /** What closing the book of the first k bars leaves, given its state there. */
  lemma ClosedBook(feed: Feed, s: State, k: nat)
    requires k <= |feed.bars| && |s.curve| == k && (s.position.Some? ==> k > 0)
    ensures var out := Finish(Take(feed, k), s);
      && out.trades == s.trades + ForcedClose(feed, s.position, k)
      && |out.curve| == k
      && (forall j :: 0 <= j < k && (j < k - 1 || s.position.None?) ==> out.curve[j] == s.curve[j])
  {
    FinishForces(Take(feed, k), s);
  }

  lemma OutcomeOfPrefix(p: Params, feed: Feed, k: nat)
    requires k <= |feed.bars|
    ensures Outcome(p, Take(feed, k)) == Finish(Take(feed, k), Replay(p, feed, k))
  {
    ReplayOfPrefix(p, feed, k, k);
    CurveLength(p, feed, k);
  }

  /** The full run keeps the curve it had after k bars, but for a forced close at the very end. */
  lemma OutcomeCurve(p: Params, feed: Feed, k: nat)
    requires k <= |feed.bars|
    ensures var full, mid := Outcome(p, feed), Replay(p, feed, k);
      && |mid.curve| == k <= |full.curve|
      && (forall j :: 0 <= j < k && (j < k - 1 || mid.position.None?) ==> full.curve[j] == mid.curve[j])
  {
    var n := |feed.bars|;
    var whole := Replay(p, feed, n);
    ClosedStable(p, feed, k, n);
    FinishClosed(p, feed, k);
    assert forall j :: 0 <= j < k ==> whole.curve[j] == whole.curve[..k][j];
    if k == n && whole.position.None? {
      FinishForces(feed, whole);
    }
  }

  /** Given the per-bar signals, a run over the first k bars makes the trades
      that the run over all bars closed by touch before bar k, plus the forced
      close of the position the full run holds at k. The equity curves agree
      before the last entry, and in it too unless there was a forced close. */
  lemma NoLookAhead(p: Params, feed: Feed, k: nat)
    requires k <= |feed.bars|
    ensures var full, part, held := Outcome(p, feed), Outcome(p, Take(feed, k)), Replay(p, feed, k).position;
      && part.trades == ClosedBefore(full.trades, k) + ForcedClose(feed, held, k)
      && |part.curve| == k <= |full.curve|
      && (forall j :: 0 <= j < k && (j < k - 1 || held.None?) ==> part.curve[j] == full.curve[j])
  {
    CurveLength(p, feed, k);
    OutcomeOfPrefix(p, feed, k);
    ClosedBook(feed, Replay(p, feed, k), k);
    ClosedStable(p, feed, k, |feed.bars|);
    FinishClosed(p, feed, k);
    OutcomeCurve(p, feed, k);
  }

  lemma {:induction false} TradesExtend(p: Params, feed: Feed, k: nat, i: nat)
    requires k <= i <= |feed.bars|
    ensures Replay(p, feed, k).trades <= Replay(p, feed, i).trades
  {
    if k < i {
      TradesExtend(p, feed, k, i - 1);
      StepTrades(p, feed, i - 1, Replay(p, feed, i - 1));
    }
  }

  lemma OutcomeExtends(p: Params, feed: Feed, k: nat)
    requires k <= |feed.bars|
    ensures Replay(p, feed, k).trades <= Outcome(p, feed).trades
  {
    var whole := Replay(p, feed, |feed.bars|);
    TradesExtend(p, feed, k, |feed.bars|);
    CurveLength(p, feed, |feed.bars|);
    FinishForces(feed, whole);
    assert Outcome(p, feed) == Finish(feed, whole);
  }

  /** The position held after k bars is the next trade of the full run, closed
      at bar k or later unless the data ends. */
  lemma HeldPositionCloses(p: Params, feed: Feed, k: nat)
    requires k <= |feed.bars| && Replay(p, feed, k).position.Some?
    ensures var pos, m, ts := Replay(p, feed, k).position.value, |Replay(p, feed, k).trades|, Outcome(p, feed).trades;
      && m < |ts| && ts[m] == Close(pos, ts[m].exitBar, Exit(ts[m].exitPrice, ts[m].reason))
      && (ts[m].exitBar >= k || ts[m].reason == Eod)
  {
    var s, ts := Replay(p, feed, k), Outcome(p, feed).trades;
    ReplayTracks(p, feed, k);
    TracksExits(p, feed, k, s);
    OutcomeExtends(p, feed, k);
    RunIsReplay(p, feed);
    HeldIsNext(p, feed, ts, s.trades, s.position.value, k);
  }

  /** A list that leaves a position held is not a whole run's. */
  lemma StillHeld(p: Params, feed: Feed, prior: seq<Trade>, pos: Position, k: nat)
    requires k <= |feed.bars| && HeldWell(p, feed, prior, pos, k)
    requires prior != [] ==> prior[|prior| - 1].reason != Eod
    ensures !IsReplay(p, feed, prior)
  {
    assert Eligible(p, feed, prior, pos.entryBar) && LastExit(prior) <= pos.entryBar < |feed.bars|;
  }

  lemma HeldIsNext(p: Params, feed: Feed, ts: seq<Trade>, prior: seq<Trade>, pos: Position, k: nat)
    requires IsReplay(p, feed, ts) && prior <= ts && k <= |feed.bars| && HeldWell(p, feed, prior, pos, k)
    requires prior != [] ==> prior[|prior| - 1].reason != Eod
    ensures var m := |prior|;
      && m < |ts| && ts[m] == Close(pos, ts[m].exitBar, Exit(ts[m].exitPrice, ts[m].reason))
      && (ts[m].exitBar >= k || ts[m].reason == Eod)
  {
    var m := |prior|;
    assert ts[..m] == prior;
    StillHeld(p, feed, prior, pos, k);
    assert ts[..|ts|] == ts;
    assert m < |ts|;
    NextIsHeld(p, feed, ts, prior, pos, k);
  }

  lemma NextIsHeld(p: Params, feed: Feed, ts: seq<Trade>, prior: seq<Trade>, pos: Position, k: nat)
    requires IsReplay(p, feed, ts) && HeldWell(p, feed, prior, pos, k)
    requires |prior| < |ts| && ts[..|prior|] == prior
    ensures var t := ts[|prior|];
      t == Close(pos, t.exitBar, Exit(t.exitPrice, t.reason)) && (t.exitBar >= k || t.reason == Eod)
  {
    var t := ts[|prior|];
    assert TouchTrade(p, feed, ts, |prior|) || EodTrade(p, feed, ts, |prior|);
    assert EntersAt(p, feed, prior, t.entryBar) && EntersAt(p, feed, prior, pos.entryBar);
    assert t.entryBar == pos.entryBar;
  }
}
