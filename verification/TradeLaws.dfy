/** What every trade list of a backtest obeys: one position at a time, exact
    P&L of stops and targets, and the mirror symmetry of long and short. */
module TradeLaws {
  import opened Common
  import opened Backtest
  import opened BacktestLaws

  // ----- structure -----

  lemma TradeShape(p: Params, feed: Feed, ts: seq<Trade>, k: nat)
    requires IsReplay(p, feed, ts) && k < |ts|
    ensures WARMUP_BARS <= ts[k].entryBar <= ts[k].exitBar < |feed.bars|
    ensures k + 1 < |ts| ==> ts[k].entryBar < ts[k].exitBar
    ensures k > 0 ==> ts[k - 1].exitBar <= ts[k].entryBar
    ensures DayCount(feed, ts[..k], DayOf(feed, ts[k].entryBar)) < p.maxTradesPerDay
    ensures Atr(feed, ts[k].entryBar) > 0.0
  {
    assert TouchTrade(p, feed, ts, k) || EodTrade(p, feed, ts, k);
    assert EntersAt(p, feed, ts[..k], ts[k].entryBar);
  }

  lemma {:induction false} EntriesIncrease(p: Params, feed: Feed, ts: seq<Trade>, k: nat, m: nat)
    requires IsReplay(p, feed, ts) && k < m < |ts|
    ensures ts[k].exitBar <= ts[m].entryBar && ts[k].entryBar < ts[m].entryBar
  {
    TradeShape(p, feed, ts, m);
    TradeShape(p, feed, ts, m - 1);
    TradeShape(p, feed, ts, k);
    if k < m - 1 { EntriesIncrease(p, feed, ts, k, m - 1); }
  }

  lemma {:induction false} DayCapUpTo(p: Params, feed: Feed, ts: seq<Trade>, k: nat, day: string)
    requires IsReplay(p, feed, ts) && k <= |ts|
    ensures DayCount(feed, ts[..k], day) == 0 || DayCount(feed, ts[..k], day) <= p.maxTradesPerDay
  {
    if k > 0 {
      DayCapUpTo(p, feed, ts, k - 1, day);
      TradeShape(p, feed, ts, k - 1);
      assert ts[..k][..k - 1] == ts[..k - 1];
    }
  }

  /** At most one position is open at a time, no entry precedes the warm-up,
      and no date has more entries than the daily limit, whether or not its
      bars are adjacent. */
  lemma OnePositionAtATime(p: Params, feed: Feed, ts: seq<Trade>)
    requires IsReplay(p, feed, ts)
    ensures forall k :: 0 <= k < |ts| ==> WARMUP_BARS <= ts[k].entryBar <= ts[k].exitBar < |feed.bars|
    ensures forall k, m :: 0 <= k < m < |ts| ==>
      ts[k].exitBar <= ts[m].entryBar && ts[k].entryBar < ts[m].entryBar
    ensures forall day :: DayCount(feed, ts, day) == 0 || DayCount(feed, ts, day) <= p.maxTradesPerDay
  {
    forall k | 0 <= k < |ts| ensures WARMUP_BARS <= ts[k].entryBar <= ts[k].exitBar < |feed.bars| {
      TradeShape(p, feed, ts, k);
    }
    forall k, m | 0 <= k < m < |ts|
      ensures ts[k].exitBar <= ts[m].entryBar && ts[k].entryBar < ts[m].entryBar
    {
      EntriesIncrease(p, feed, ts, k, m);
    }
    forall day ensures DayCount(feed, ts, day) == 0 || DayCount(feed, ts, day) <= p.maxTradesPerDay {
      DayCapUpTo(p, feed, ts, |ts|, day);
      assert ts[..|ts|] == ts;
    }
  }

  // ----- entries and exits in plain numbers -----

  /** What bar i must show for an entry on the given side. */
  ghost predicate Licence(p: Params, feed: Feed, i: nat, side: Side) {
    && i < |feed.bars| && i < |feed.predictions| && i < |feed.enriched|
    && feed.predictions[i].Some? && feed.predictions[i].value.side == Some(side)
    && feed.predictions[i].value.probability >= p.minProbability
    && feed.bars[i].close > 0.0
    && var row := feed.enriched[i];
       && row.atr.Some? && row.atr.value > 0.0
       && (row.emaCross.None? || row.macdHist.None? ||
           (if side.Long? then row.emaCross.value == 1.0 && row.macdHist.value > 0.0
            else row.emaCross.value == 0.0 && row.macdHist.value < 0.0))
  }

  lemma AcceptsIffLicensed(p: Params, feed: Feed, i: nat)
    ensures Accepts(p, feed, i) <==> Licence(p, feed, i, Long) || Licence(p, feed, i, Short)
  {
    var pred := PredictionAt(feed, i);
    match pred.side
    case None =>
    case Some(side) =>
      match side
      case Long => assert Confirmed(feed, i, pred.side.value) == Confirmed(feed, i, Long);
      case Short => assert Confirmed(feed, i, pred.side.value) == Confirmed(feed, i, Short);
  }

  /** The share count a budget buys: whole shares, at least one. */
  ghost predicate Sized(shares: nat, budget: real, price: real) {
    shares >= 1 && budget < (shares as real + 1.0) * price && (shares > 1 ==> shares as real * price <= budget)
  }

  lemma FloorBuys(x: real, budget: real, price: real, n: int)
    requires price > 0.0 && x == budget / price && n == Truncate(x)
    ensures Sized(if n > 1 then n else 1, budget, price)
  {
    assert x * price == budget;
    var shares := if n > 1 then n else 1;
    var above := shares as real + 1.0 - x;
    assert above > 0.0;
    assert above * price > 0.0;
    assert above * price == (shares as real + 1.0) * price - x * price;
    if n > 1 {
      var rest := x - n as real;
      assert rest >= 0.0;
      assert rest * price >= 0.0;
      assert rest * price == x * price - n as real * price;
    }
  }

  lemma SharesAreSized(budget: real, price: real)
    requires price > 0.0
    ensures Sized(SharesFor(budget, price), budget, price)
  {
    FloorBuys(budget / price, budget, price, Truncate(budget / price));
  }

  lemma OpenedSize(p: Params, feed: Feed, i: nat, equity: real)
    requires Accepts(p, feed, i)
    ensures var pos := Opened(p, feed, i, equity);
      && Sized(pos.shares, Budget(p, equity), feed.bars[i].close) && pos.entryPrice == feed.bars[i].close
  {
    SharesAreSized(Budget(p, equity), feed.bars[i].close);
    match PredictionAt(feed, i).side.value
    case Long =>
    case Short =>
  }

  lemma Origin(p: Params, feed: Feed, ts: seq<Trade>, k: nat)
    requires IsReplay(p, feed, ts) && k < |ts|
    ensures ts[k].entryBar >= WARMUP_BARS && Accepts(p, feed, ts[k].entryBar)
    ensures var pos := Opened(p, feed, ts[k].entryBar, EquityAfter(p, ts[..k]));
      && (TouchExit(feed, pos, ts[k]) || EodExit(feed, pos, ts[k]))
      && (ts[k].reason == Eod ==> EodExit(feed, pos, ts[k]) && k == |ts| - 1)
      && (ts[k].reason != Eod ==> TouchExit(feed, pos, ts[k]))
  {
    assert TouchTrade(p, feed, ts, k) || (k == |ts| - 1 && EodTrade(p, feed, ts, k));
    assert EntersAt(p, feed, ts[..k], ts[k].entryBar);
  }

  /** Every trade of a run enters at bar 60 or later, on the side its bar's raw
      signals license, at that bar's close, with the whole shares that its
      percentage of the equity at that time buys. */
  lemma EveryEntryIsLicensed(p: Params, feed: Feed, k: nat)
    requires k < |Outcome(p, feed).trades|
    ensures var ts := Outcome(p, feed).trades; var t := ts[k];
      && 60 <= t.entryBar && Licence(p, feed, t.entryBar, t.side)
      && t.probability == feed.predictions[t.entryBar].value.probability
      && t.entryPrice == feed.bars[t.entryBar].close
      && var budget := (p.initialCapital + TotalPnl(ts[..k])) * p.positionSizePct / 100.0;
         Sized(t.shares, budget, t.entryPrice)
  {
    var ts := Outcome(p, feed).trades;
    RunIsReplay(p, feed);
    Origin(p, feed, ts, k);
    OpenedSize(p, feed, ts[k].entryBar, EquityAfter(p, ts[..k]));
    AcceptsIffLicensed(p, feed, ts[k].entryBar);
  }

  /** And a licensed bar from 60 on, with no trade open and fewer entries on its
      date than the limit, is the entry bar of the next trade. */
  lemma EveryLicensedBarEnters(p: Params, feed: Feed, i: nat, side: Side, m: nat)
    requires 60 <= i && Licence(p, feed, i, side) && m <= |Outcome(p, feed).trades|
    requires var ts := Outcome(p, feed).trades;
      && (forall k :: 0 <= k < m ==> ts[k].entryBar < i)
      && (forall k :: m <= k < |ts| ==> ts[k].entryBar >= i)
      && (forall k :: 0 <= k < |ts| && ts[k].entryBar < i ==> ts[k].exitBar <= i && ts[k].reason != Eod)
      && DayCount(feed, ts[..m], feed.bars[i].day) < p.maxTradesPerDay
    ensures var ts := Outcome(p, feed).trades; m < |ts| && ts[m].entryBar == i && ts[m].side == side
  {
    var ts := Outcome(p, feed).trades;
    RunIsReplay(p, feed);
    AcceptsIffLicensed(p, feed, i);
    NextLicensed(p, feed, ts, i, m);
    EveryEntryIsLicensed(p, feed, m);
  }

  lemma NextLicensed(p: Params, feed: Feed, ts: seq<Trade>, i: nat, m: nat)
    requires IsReplay(p, feed, ts) && m <= |ts| && Eligible(p, feed, ts[..m], i)
    requires m > 0 ==> ts[m - 1].exitBar <= i && ts[m - 1].reason != Eod
    requires m < |ts| ==> ts[m].entryBar >= i
    ensures m < |ts| && ts[m].entryBar == i
  {
    assert LastExit(ts[..m]) <= i;
    assert ts[..|ts|] == ts;
    if m < |ts| { NextEntry(p, feed, ts, m); }
  }

  function StopLevel(p: Params, feed: Feed, t: Trade): real {
    if t.side.Long? then t.entryPrice - p.stopAtr * Atr(feed, t.entryBar)
    else t.entryPrice + p.stopAtr * Atr(feed, t.entryBar)
  }

  function TargetLevel(p: Params, feed: Feed, t: Trade): real {
    if t.side.Long? then t.entryPrice + p.targetAtr * Atr(feed, t.entryBar)
    else t.entryPrice - p.targetAtr * Atr(feed, t.entryBar)
  }

  /** The bar's range reaches a level on the losing side of the trade. */
  predicate ReachesStop(t: Trade, bar: Bar, level: real) {
    if t.side.Long? then bar.low <= level else bar.high >= level
  }

  predicate ReachesTarget(t: Trade, bar: Bar, level: real) {
    if t.side.Long? then bar.high >= level else bar.low <= level
  }

  lemma OpenedStops(p: Params, feed: Feed, i: nat, equity: real, t: Trade)
    requires Accepts(p, feed, i) && t.entryBar == i
    requires var pos := Opened(p, feed, i, equity); t.side == pos.side && t.entryPrice == pos.entryPrice
    ensures var pos := Opened(p, feed, i, equity);
      pos.stop == StopLevel(p, feed, t) && pos.target == TargetLevel(p, feed, t)
  {
  }

  /** Every trade of a run leaves at the first later bar that reaches its stop or
      target level, at the stop if that bar reaches it and else at the target;
      one that never does is the last and leaves at the last close. */
  lemma EveryExitIsFirstTouch(p: Params, feed: Feed, k: nat)
    requires k < |Outcome(p, feed).trades|
    ensures var ts := Outcome(p, feed).trades; var t := ts[k];
      var stop, target := StopLevel(p, feed, t), TargetLevel(p, feed, t); var n := |feed.bars|;
      && t.exitBar < n
      && (forall j :: t.entryBar < j < (if t.reason == Eod then n else t.exitBar) ==>
            !ReachesStop(t, feed.bars[j], stop) && !ReachesTarget(t, feed.bars[j], target))
      && match t.reason
         case Stop => t.entryBar < t.exitBar && t.exitPrice == stop && ReachesStop(t, feed.bars[t.exitBar], stop)
         case Target => t.entryBar < t.exitBar && t.exitPrice == target &&
                        ReachesTarget(t, feed.bars[t.exitBar], target) &&
                        !ReachesStop(t, feed.bars[t.exitBar], stop)
         case Eod => k == |ts| - 1 && t.exitBar == n - 1 && t.exitPrice == feed.bars[n - 1].close
  {
    var ts := Outcome(p, feed).trades;
    RunIsReplay(p, feed);
    Origin(p, feed, ts, k);
    OpenedStops(p, feed, ts[k].entryBar, EquityAfter(p, ts[..k]), ts[k]);
  }

  // ----- P&L bounds -----

  ghost predicate SaneBars(feed: Feed) {
    forall j :: 0 <= j < |feed.bars| ==> feed.bars[j].low <= feed.bars[j].close <= feed.bars[j].high
  }

  lemma ScaleLe(a: real, b: real, n: nat)
    requires a <= b
    ensures a * n as real <= b * n as real
  {
  }

  /** The move in the position's favour between entry and an exit price. */
  function Gain(side: Side, entry: real, exit: real): real {
    if side.Long? then exit - entry else entry - exit
  }

  lemma PnlIsGain(pos: Position, price: real)
    ensures CalcPnl(pos, price) == Gain(pos.side, pos.entryPrice, price) * pos.shares as real
  {
  }

  /** The position loses `down` per share at its stop and gains `up` at its target. */
  ghost predicate HasLevels(pos: Position, down: real, up: real) {
    && pos.shares >= 1
    && Gain(pos.side, pos.entryPrice, pos.stop) == -down
    && Gain(pos.side, pos.entryPrice, pos.target) == up
  }

  lemma OpenedLevels(p: Params, feed: Feed, i: nat, equity: real)
    requires Accepts(p, feed, i)
    ensures var pos := Opened(p, feed, i, equity);
      && HasLevels(pos, p.stopAtr * Atr(feed, i), p.targetAtr * Atr(feed, i))
      && pos.entryBar == i && pos.entryPrice == feed.bars[i].close
  {
  }

  /** What a trade made from the position gains per share. */
  ghost predicate GainFits(t: Trade, down: real, up: real) {
    var gain := Gain(t.side, t.entryPrice, t.exitPrice);
    && t.shares >= 1 && t.pnl == gain * t.shares as real
    && (t.reason == Stop ==> gain == -down)
    && (t.reason == Target ==> gain == up)
    && -down <= gain <= up
  }

  lemma TouchGain(feed: Feed, pos: Position, t: Trade, down: real, up: real)
    requires HasLevels(pos, down, up) && TouchExit(feed, pos, t) && down >= 0.0 && up >= 0.0
    ensures GainFits(t, down, up)
  {
    PnlIsGain(pos, t.exitPrice);
  }

  lemma EodGain(feed: Feed, pos: Position, t: Trade, down: real, up: real)
    requires HasLevels(pos, down, up) && EodExit(feed, pos, t) && down >= 0.0 && up >= 0.0
    requires SaneBars(feed) && pos.entryPrice == feed.bars[pos.entryBar].close
    ensures GainFits(t, down, up)
  {
    PnlIsGain(pos, t.exitPrice);
    var last := feed.bars[|feed.bars| - 1];
    assert last.low <= last.close <= last.high;
    if pos.entryBar < |feed.bars| - 1 {
      assert !HitsStop(pos, last) && !HitsTarget(pos, last);
    }
  }

  /** The position behind trade k. */
  lemma TradeOrigin(p: Params, feed: Feed, ts: seq<Trade>, k: nat, down: real, up: real) returns (pos: Position)
    requires IsReplay(p, feed, ts) && k < |ts|
    requires down == p.stopAtr * Atr(feed, ts[k].entryBar)
    requires up == p.targetAtr * Atr(feed, ts[k].entryBar)
    ensures Atr(feed, ts[k].entryBar) > 0.0
    ensures HasLevels(pos, down, up)
    ensures pos.entryBar < |feed.bars| && pos.entryPrice == feed.bars[pos.entryBar].close
    ensures TouchExit(feed, pos, ts[k]) || EodExit(feed, pos, ts[k])
  {
    var equity := EquityAfter(p, ts[..k]);
    assert TouchTrade(p, feed, ts, k) || EodTrade(p, feed, ts, k);
    pos := Opened(p, feed, ts[k].entryBar, equity);
    OpenedLevels(p, feed, ts[k].entryBar, equity);
  }

  lemma GainAtExit(p: Params, feed: Feed, ts: seq<Trade>, k: nat, down: real, up: real)
    requires IsReplay(p, feed, ts) && k < |ts| && SaneBars(feed)
    requires down == p.stopAtr * Atr(feed, ts[k].entryBar) >= 0.0
    requires up == p.targetAtr * Atr(feed, ts[k].entryBar) >= 0.0
    ensures GainFits(ts[k], down, up)
  {
    var pos := TradeOrigin(p, feed, ts, k, down, up);
    if TouchExit(feed, pos, ts[k]) {
      TouchGain(feed, pos, ts[k], down, up);
    } else {
      EodGain(feed, pos, ts[k], down, up);
    }
  }

  lemma ProductNonNegative(a: real, b: real)
    requires a >= 0.0 && b >= 0.0
    ensures a * b >= 0.0
  {
  }

  /** A stop loses exactly the stop distance per share, a target wins exactly
      the target distance, and a forced close lies between the two. */
  lemma PnlBounds(p: Params, feed: Feed, ts: seq<Trade>, k: nat)
    requires IsReplay(p, feed, ts) && k < |ts| && SaneBars(feed)
    requires p.stopAtr >= 0.0 && p.targetAtr >= 0.0
    ensures var t := ts[k]; var atr := Atr(feed, t.entryBar); var n := t.shares as real;
      && -(p.stopAtr * atr) * n <= t.pnl <= p.targetAtr * atr * n
      && (t.reason == Stop ==> t.pnl == -(p.stopAtr * atr) * n)
      && (t.reason == Target ==> t.pnl == p.targetAtr * atr * n)
  {
    var t := ts[k];
    var atr := Atr(feed, t.entryBar);
    var gain := Gain(t.side, t.entryPrice, t.exitPrice);
    TradeShape(p, feed, ts, k);
    ProductNonNegative(p.stopAtr, atr);
    ProductNonNegative(p.targetAtr, atr);
    GainAtExit(p, feed, ts, k, p.stopAtr * atr, p.targetAtr * atr);
    ScaleLe(-(p.stopAtr * atr), gain, t.shares);
    ScaleLe(gain, p.targetAtr * atr, t.shares);
  }

  // ----- mirror law -----

  function Flip(side: Side): Side {
    if side.Long? then Short else Long
  }

  function MirrorBar(c: real, bar: Bar): Bar {
    Bar(bar.day, c - bar.low, c - bar.high, c - bar.close)
  }

  function MirrorIndicators(row: Indicators): Indicators {
    Indicators(
      if row.emaCross.Some? then Some(1.0 - row.emaCross.value) else None,
      if row.macdHist.Some? then Some(-row.macdHist.value) else None,
      row.atr)
  }

  function MirrorPrediction(pred: Option<Prediction>): Option<Prediction> {
    if pred.None? then None
    else Some(Prediction(if pred.value.side.Some? then Some(Flip(pred.value.side.value)) else None,
                         pred.value.probability))
  }

  /** Prices reflected about a constant, long and short exchanged. */
  function Mirror(c: real, feed: Feed): Feed {
    Feed(seq(|feed.bars|, i requires 0 <= i < |feed.bars| => MirrorBar(c, feed.bars[i])),
         seq(|feed.enriched|, i requires 0 <= i < |feed.enriched| => MirrorIndicators(feed.enriched[i])),
         seq(|feed.predictions|, i requires 0 <= i < |feed.predictions| => MirrorPrediction(feed.predictions[i])))
  }

  /** Same bars and levels after reflection; the share counts may differ. */
  ghost predicate PositionsMirror(c: real, a: Position, b: Position) {
    && b.entryBar == a.entryBar && b.side == Flip(a.side) && b.probability == a.probability
    && b.entryPrice == c - a.entryPrice && b.target == c - a.target && b.stop == c - a.stop
  }

  ghost predicate TradesMirror(c: real, t: Trade, u: Trade) {
    && u.entryBar == t.entryBar && u.exitBar == t.exitBar && u.side == Flip(t.side)
    && u.reason == t.reason && u.probability == t.probability
    && u.entryPrice == c - t.entryPrice && u.exitPrice == c - t.exitPrice
    && t.pnl == Gain(t.side, t.entryPrice, t.exitPrice) * t.shares as real
    && u.pnl == Gain(t.side, t.entryPrice, t.exitPrice) * u.shares as real
  }

  ghost predicate ListsMirror(c: real, ts: seq<Trade>, us: seq<Trade>) {
    |us| == |ts| && forall k :: 0 <= k < |ts| ==> TradesMirror(c, ts[k], us[k])
  }

  ghost predicate StatesMirror(c: real, s: State, s': State) {
    && ListsMirror(c, s.trades, s'.trades)
    && s'.counts == s.counts
    && s'.position.Some? == s.position.Some?
    && (s.position.Some? ==> PositionsMirror(c, s.position.value, s'.position.value))
  }

  lemma ExitMirrors(c: real, a: Position, b: Position, bar: Bar)
    requires PositionsMirror(c, a, b)
    ensures var x, y := CheckExit(a, bar), CheckExit(b, MirrorBar(c, bar));
      && y.Some? == x.Some?
      && (x.Some? ==> y.value == Exit(c - x.value.price, x.value.reason))
  {
  }

  lemma CloseMirrors(c: real, a: Position, b: Position, j: nat, exit: Exit)
    requires PositionsMirror(c, a, b)
    ensures TradesMirror(c, Close(a, j, exit), Close(b, j, Exit(c - exit.price, exit.reason)))
  {
    PnlIsGain(a, exit.price);
    PnlIsGain(b, c - exit.price);
    assert Gain(b.side, b.entryPrice, c - exit.price) == Gain(a.side, a.entryPrice, exit.price);
  }

  lemma AcceptMirrors(p: Params, c: real, feed: Feed, i: nat)
    requires forall j :: 0 <= j < |feed.bars| ==> 0.0 < feed.bars[j].close < c
    ensures Accepts(p, Mirror(c, feed), i) <==> Accepts(p, feed, i)
  {
    var image := Mirror(c, feed);
    assert Atr(image, i) == Atr(feed, i);
    var pred := PredictionAt(feed, i);
    assert PredictionAt(image, i).probability == pred.probability;
    if pred.side.Some? {
      assert PredictionAt(image, i).side == Some(Flip(pred.side.value));
      assert Confirmed(image, i, Flip(pred.side.value)) == Confirmed(feed, i, pred.side.value);
    }
  }

  lemma OpenMirrors(p: Params, c: real, feed: Feed, i: nat, e: real, e': real)
    requires forall j :: 0 <= j < |feed.bars| ==> 0.0 < feed.bars[j].close < c
    requires Accepts(p, feed, i) && Accepts(p, Mirror(c, feed), i)
    ensures PositionsMirror(c, Opened(p, feed, i, e), Opened(p, Mirror(c, feed), i, e'))
  {
  }

  lemma ExitStepMirrors(c: real, feed: Feed, i: nat, s: State, s': State)
    requires i < |feed.bars| && StatesMirror(c, s, s')
    ensures StatesMirror(c, ExitStep(feed, i, s), ExitStep(Mirror(c, feed), i, s'))
  {
    if s.position.Some? {
      var a, b := s.position.value, s'.position.value;
      assert Mirror(c, feed).bars[i] == MirrorBar(c, feed.bars[i]);
      ExitMirrors(c, a, b, feed.bars[i]);
      if CheckExit(a, feed.bars[i]).Some? {
        CloseMirrors(c, a, b, i, CheckExit(a, feed.bars[i]).value);
      }
    }
  }

  lemma EntryStepMirrors(p: Params, c: real, feed: Feed, i: nat, s: State, s': State)
    requires i < |feed.bars| && StatesMirror(c, s, s')
    requires forall j :: 0 <= j < |feed.bars| ==> 0.0 < feed.bars[j].close < c
    ensures StatesMirror(c, EntryStep(p, feed, i, s), EntryStep(p, Mirror(c, feed), i, s'))
  {
    AcceptMirrors(p, c, feed, i);
    if Accepts(p, feed, i) { OpenMirrors(p, c, feed, i, s.equity, s'.equity); }
  }

  lemma StepMirrors(p: Params, c: real, feed: Feed, i: nat, s: State, s': State)
    requires i < |feed.bars| && StatesMirror(c, s, s')
    requires forall j :: 0 <= j < |feed.bars| ==> 0.0 < feed.bars[j].close < c
    ensures StatesMirror(c, Step(p, feed, i, s), Step(p, Mirror(c, feed), i, s'))
  {
    ExitStepMirrors(c, feed, i, s, s');
    EntryStepMirrors(p, c, feed, i, ExitStep(feed, i, s), ExitStep(Mirror(c, feed), i, s'));
  }

  /** Induction over the bars of two runs in step. */
  lemma {:induction false} LockstepInduction(p: Params, feed: Feed, image: Feed, rel: (State, State) -> bool, i: nat)
    requires i <= |feed.bars| == |image.bars|
    requires rel(Start(p), Start(p))
    requires forall j: nat, s, s' :: j < |feed.bars| && rel(s, s') ==> rel(Step(p, feed, j, s), Step(p, image, j, s'))
    ensures rel(Replay(p, feed, i), Replay(p, image, i))
  {
    if i > 0 { LockstepInduction(p, feed, image, rel, i - 1); }
  }

  lemma ReplayMirrors(p: Params, c: real, feed: Feed, i: nat)
    requires i <= |feed.bars|
    requires forall j :: 0 <= j < |feed.bars| ==> 0.0 < feed.bars[j].close < c
    ensures StatesMirror(c, Replay(p, feed, i), Replay(p, Mirror(c, feed), i))
  {
    var image := Mirror(c, feed);
    ghost var rel := (s: State, s': State) => StatesMirror(c, s, s');
    forall j: nat, s, s' | j < |feed.bars| && rel(s, s')
      ensures rel(Step(p, feed, j, s), Step(p, image, j, s'))
    {
      StepMirrors(p, c, feed, j, s, s');
    }
    LockstepInduction(p, feed, image, rel, i);
    assert rel(Replay(p, feed, i), Replay(p, image, i));
  }

  lemma FinishMirrors(c: real, feed: Feed, s: State, s': State)
    requires StatesMirror(c, s, s')
    requires s.position.Some? ==> |feed.bars| > 0 && |s.curve| > 0 && |s'.curve| > 0
    ensures ListsMirror(c, Finish(feed, s).trades, Finish(Mirror(c, feed), s').trades)
  {
    if s.position.Some? {
      var n := |feed.bars|;
      assert Mirror(c, feed).bars[n - 1] == MirrorBar(c, feed.bars[n - 1]);
      CloseMirrors(c, s.position.value, s'.position.value, n - 1, Exit(feed.bars[n - 1].close, Eod));
    }
  }

  /** Reflecting all prices about a constant and exchanging long and short
      gives the same trades reflected: same bars, same reasons, same P&L per share. */
  lemma MirrorLaw(p: Params, c: real, feed: Feed)
    requires forall j :: 0 <= j < |feed.bars| ==> 0.0 < feed.bars[j].close < c
    ensures ListsMirror(c, Outcome(p, feed).trades, Outcome(p, Mirror(c, feed)).trades)
  {
    var n := |feed.bars|;
    var image := Mirror(c, feed);
    var s, s' := Replay(p, feed, n), Replay(p, image, n);
    ReplayMirrors(p, c, feed, n);
    CurveLength(p, feed, n);
    CurveLength(p, image, n);
    FinishMirrors(c, feed, s, s');
    assert Outcome(p, feed) == Finish(feed, s);
    assert Outcome(p, image) == Finish(image, s');
  }
}
