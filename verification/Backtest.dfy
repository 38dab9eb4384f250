/** Historical bar replay with one simulated position at a time
    (bot/backtesting/engine.py). Indicators, features and model predictions
    are inputs; prices and equity are reals. */
module Backtest {
  import opened Common

  // ----- inputs -----

  datatype Side = Long | Short

  /** `side` is None for the label "no_trade". */
  datatype Prediction = Prediction(side: Option<Side>, probability: real)

  datatype Bar = Bar(day: string, high: real, low: real, close: real)

  /** One row of the enriched frame; None stands for NaN or a missing column. */
  datatype Indicators = Indicators(emaCross: Option<real>, macdHist: Option<real>, atr: Option<real>)

  /** The enriched frame and the feature frame may be shorter than the bars.
      A prediction is None when a feature is NaN or the model raised. */
  datatype Feed = Feed(bars: seq<Bar>, enriched: seq<Indicators>, predictions: seq<Option<Prediction>>)

  datatype Params = Params(
    initialCapital: real,
    positionSizePct: real,
    stopAtr: real,
    targetAtr: real,
    minProbability: real,
    maxTradesPerDay: int)

  const WARMUP_BARS: nat := 60

  // ----- positions and trades -----

  datatype Position = Position(
    entryBar: nat, side: Side, entryPrice: real, target: real, stop: real,
    shares: nat, probability: real)

  datatype Reason = Stop | Target | Eod

  /** Entry and exit times are bar labels in the program; here they are bar positions. */
  datatype Trade = Trade(
    entryBar: nat, exitBar: nat, side: Side, entryPrice: real, exitPrice: real,
    shares: nat, pnl: real, reason: Reason, probability: real)

  datatype Exit = Exit(price: real, reason: Reason)

  function CheckExit(pos: Position, bar: Bar): Option<Exit> {
    match pos.side
    case Long =>
      if bar.low <= pos.stop then Some(Exit(pos.stop, Stop))
      else if bar.high >= pos.target then Some(Exit(pos.target, Target))
      else None
    case Short =>
      if bar.high >= pos.stop then Some(Exit(pos.stop, Stop))
      else if bar.low <= pos.target then Some(Exit(pos.target, Target))
      else None
  }

  function CalcPnl(pos: Position, exitPrice: real): real {
    match pos.side
    case Long => (exitPrice - pos.entryPrice) * pos.shares as real
    case Short => (pos.entryPrice - exitPrice) * pos.shares as real
  }

  function Close(pos: Position, j: nat, exit: Exit): Trade {
    Trade(pos.entryBar, j, pos.side, pos.entryPrice, exit.price, pos.shares,
          CalcPnl(pos, exit.price), exit.reason, pos.probability)
  }

  function Atr(feed: Feed, i: nat): real {
    if i < |feed.enriched| && feed.enriched[i].atr.Some? then feed.enriched[i].atr.value else 0.0
  }

  /** The 15-minute confirmation, approximated on the 5-minute indicators. */
  predicate Confirmed(feed: Feed, i: nat, side: Side) {
    i < |feed.enriched| &&
    var row := feed.enriched[i];
    (row.emaCross.None? || row.macdHist.None? ||
     match side
     case Long => row.emaCross.value == 1.0 && row.macdHist.value > 0.0
     case Short => row.emaCross.value == 0.0 && row.macdHist.value < 0.0)
  }

  function PredictionAt(feed: Feed, i: nat): Prediction {
    if i < |feed.predictions| && feed.predictions[i].Some? then feed.predictions[i].value
    else Prediction(None, 0.0)
  }

  /** Everything the entry rule asks of bar i except the daily limit. */
  predicate Accepts(p: Params, feed: Feed, i: nat) {
    i < |feed.bars| &&
    var pred := PredictionAt(feed, i);
    pred.side.Some? && pred.probability >= p.minProbability &&
    Confirmed(feed, i, pred.side.value) &&
    Atr(feed, i) > 0.0 && feed.bars[i].close > 0.0
  }

  function Budget(p: Params, equity: real): real {
    equity * p.positionSizePct / 100.0
  }

  function SharesFor(amount: real, close: real): nat
    requires close > 0.0
  {
    var whole := Truncate(amount / close);
    if whole > 1 then whole else 1
  }

  function OpenPosition(p: Params, i: nat, side: Side, probability: real,
                        close: real, atr: real, equity: real): Position
    requires close > 0.0
  {
    var shares := SharesFor(Budget(p, equity), close);
    match side
    case Long =>
      Position(i, side, close, close + p.targetAtr * atr, close - p.stopAtr * atr, shares, probability)
    case Short =>
      Position(i, side, close, close - p.targetAtr * atr, close + p.stopAtr * atr, shares, probability)
  }

  function Opened(p: Params, feed: Feed, i: nat, equity: real): Position
    requires Accepts(p, feed, i)
  {
    var pred := PredictionAt(feed, i);
    OpenPosition(p, i, pred.side.value, pred.probability, feed.bars[i].close, Atr(feed, i), equity)
  }

  // ----- the loop as a fold -----

  datatype State = State(
    equity: real, curve: seq<real>, trades: seq<Trade>,
    position: Option<Position>, counts: map<string, nat>)

  function CountOf(counts: map<string, nat>, day: string): nat {
    if day in counts then counts[day] else 0
  }

  function Start(p: Params): State {
    State(p.initialCapital, [], [], None, map[])
  }

  function ExitStep(feed: Feed, i: nat, s: State): State
    requires i < |feed.bars|
  {
    if s.position.None? then s
    else
      var exit := CheckExit(s.position.value, feed.bars[i]);
      if exit.None? then s
      else
        var t := Close(s.position.value, i, exit.value);
        s.(equity := s.equity + t.pnl, trades := s.trades + [t], position := None)
  }

  function EntryStep(p: Params, feed: Feed, i: nat, s: State): State
    requires i < |feed.bars|
  {
    var day := feed.bars[i].day;
    if s.position.None? && i >= WARMUP_BARS &&
       CountOf(s.counts, day) < p.maxTradesPerDay && Accepts(p, feed, i)
    then s.(position := Some(Opened(p, feed, i, s.equity)),
            counts := s.counts[day := CountOf(s.counts, day) + 1])
    else s
  }

  function Step(p: Params, feed: Feed, i: nat, s: State): State
    requires i < |feed.bars|
  {
    var s' := EntryStep(p, feed, i, ExitStep(feed, i, s));
    s'.(curve := s'.curve + [s'.equity])
  }

  /** The loop state after the first i bars. */
  function Replay(p: Params, feed: Feed, i: nat): State
    requires i <= |feed.bars|
  {
    if i == 0 then Start(p) else Step(p, feed, i - 1, Replay(p, feed, i - 1))
  }

  /** The forced close at the last bar. */
  function Finish(feed: Feed, s: State): State
    requires s.position.Some? ==> |feed.bars| > 0 && |s.curve| > 0
  {
    if s.position.None? then s
    else
      var n := |feed.bars|;
      var t := Close(s.position.value, n - 1, Exit(feed.bars[n - 1].close, Eod));
      var equity := s.equity + t.pnl;
      State(equity, s.curve[|s.curve| - 1 := equity], s.trades + [t], None, s.counts)
  }

  lemma {:induction false} CurveLength(p: Params, feed: Feed, i: nat)
    requires i <= |feed.bars|
    ensures |Replay(p, feed, i).curve| == i
    ensures i == 0 ==> Replay(p, feed, i).position.None?
  {
    if i > 0 { CurveLength(p, feed, i - 1); }
  }

  /** The whole run: fold over all bars, then the forced close. */
  function Outcome(p: Params, feed: Feed): State {
    CurveLength(p, feed, |feed.bars|);
    Finish(feed, Replay(p, feed, |feed.bars|))
  }

  // ----- declarative specification -----

  predicate HitsStop(pos: Position, bar: Bar) {
    if pos.side.Long? then bar.low <= pos.stop else bar.high >= pos.stop
  }

  predicate HitsTarget(pos: Position, bar: Bar) {
    if pos.side.Long? then bar.high >= pos.target else bar.low <= pos.target
  }

  ghost predicate Untouched(feed: Feed, pos: Position, from: nat, to: nat) {
    forall j :: from < j < to && j < |feed.bars| ==>
      !HitsStop(pos, feed.bars[j]) && !HitsTarget(pos, feed.bars[j])
  }

  /** t is pos closed at the first later bar whose range touches a level, at
      that level, the stop winning when both are touched. */
  ghost predicate TouchExit(feed: Feed, pos: Position, t: Trade) {
    && pos.entryBar < t.exitBar < |feed.bars|
    && Untouched(feed, pos, pos.entryBar, t.exitBar)
    && var bar := feed.bars[t.exitBar];
       if HitsStop(pos, bar) then t == Close(pos, t.exitBar, Exit(pos.stop, Stop))
       else HitsTarget(pos, bar) && t == Close(pos, t.exitBar, Exit(pos.target, Target))
  }

  /** t is pos, never touched, closed at the last close. */
  ghost predicate EodExit(feed: Feed, pos: Position, t: Trade) {
    && pos.entryBar < |feed.bars|
    && Untouched(feed, pos, pos.entryBar, |feed.bars|)
    && t == Close(pos, |feed.bars| - 1, Exit(feed.bars[|feed.bars| - 1].close, Eod))
  }

  function TotalPnl(ts: seq<Trade>): real {
    if ts == [] then 0.0 else TotalPnl(ts[..|ts| - 1]) + ts[|ts| - 1].pnl
  }

  function DayOf(feed: Feed, i: nat): string {
    if i < |feed.bars| then feed.bars[i].day else ""
  }

  /** How many of ts were entered on the given day. */
  function DayCount(feed: Feed, ts: seq<Trade>, day: string): nat {
    if ts == [] then 0
    else DayCount(feed, ts[..|ts| - 1], day) + (if DayOf(feed, ts[|ts| - 1].entryBar) == day then 1 else 0)
  }

  /** A flat book that has made the trades ts so far enters at bar i. */
  predicate Eligible(p: Params, feed: Feed, ts: seq<Trade>, i: nat) {
    i >= WARMUP_BARS && Accepts(p, feed, i) && DayCount(feed, ts, DayOf(feed, i)) < p.maxTradesPerDay
  }

  ghost predicate NoneEligible(p: Params, feed: Feed, ts: seq<Trade>, from: nat, to: nat) {
    forall i :: from <= i < to ==> !Eligible(p, feed, ts, i)
  }

  function LastExit(ts: seq<Trade>): nat {
    if ts == [] then 0 else ts[|ts| - 1].exitBar
  }

  ghost predicate EntersAt(p: Params, feed: Feed, ts: seq<Trade>, i: nat) {
    LastExit(ts) <= i && Eligible(p, feed, ts, i) && NoneEligible(p, feed, ts, LastExit(ts), i)
  }

  function EquityAfter(p: Params, ts: seq<Trade>): real {
    p.initialCapital + TotalPnl(ts)
  }

  /** Trade k of ts enters at the first eligible bar after its predecessors,
      sized from the equity they left, and closes at its first touch. */
  ghost predicate TouchTrade(p: Params, feed: Feed, ts: seq<Trade>, k: nat)
    requires k < |ts|
  {
    && EntersAt(p, feed, ts[..k], ts[k].entryBar)
    && TouchExit(feed, Opened(p, feed, ts[k].entryBar, EquityAfter(p, ts[..k])), ts[k])
  }

  ghost predicate EodTrade(p: Params, feed: Feed, ts: seq<Trade>, k: nat)
    requires k < |ts|
  {
    && EntersAt(p, feed, ts[..k], ts[k].entryBar)
    && EodExit(feed, Opened(p, feed, ts[k].entryBar, EquityAfter(p, ts[..k])), ts[k])
  }

  /** The declarative specification of a backtest's trade list. */
  ghost predicate IsReplay(p: Params, feed: Feed, ts: seq<Trade>) {
    && (forall k :: 0 <= k < |ts| ==>
          TouchTrade(p, feed, ts, k) || (k == |ts| - 1 && EodTrade(p, feed, ts, k)))
    && (ts == [] || ts[|ts| - 1].reason != Eod ==>
          NoneEligible(p, feed, ts, LastExit(ts), |feed.bars|))
  }

  /** P&L of the trades exited by bar j. */
  function PnlBy(ts: seq<Trade>, j: int): real {
    if ts == [] then 0.0
    else PnlBy(ts[..|ts| - 1], j) + (if ts[|ts| - 1].exitBar <= j then ts[|ts| - 1].pnl else 0.0)
  }
}
