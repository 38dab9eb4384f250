/** The backtest run itself: the bar loop, the forced close and the report,
    proved against the fold of module Backtest. */
module BacktestEngine {
  import opened Common
  import opened Backtest
  import opened BacktestLaws
  import M = Metrics

  datatype Result = Result(
    initialCapital: real, finalEquity: real, trades: seq<Trade>, curve: seq<real>, report: M.Report)

  function Pnls(ts: seq<Trade>): seq<Option<real>> {
    seq(|ts|, i requires 0 <= i < |ts| => Some(ts[i].pnl))
  }

  /** The report of a run; None when the program divides by a zero capital. */
  function ReportOf(p: Params, out: State): Option<M.Report> {
    M.Compute(Pnls(out.trades), out.curve, p.initialCapital)
  }

  /** The bar loop. */
  method ReplayBars(p: Params, feed: Feed) returns (s: State)
    ensures s == Replay(p, feed, |feed.bars|)
  {
    var equity, curve, trades := p.initialCapital, [], [];
    var position: Option<Position> := None;
    var counts: map<string, nat> := map[];
    for i := 0 to |feed.bars|
      invariant State(equity, curve, trades, position, counts) == Replay(p, feed, i)
    {
      var bar := feed.bars[i];
      ghost var before := Replay(p, feed, i);
      if position.Some? {
        var exit := CheckExit(position.value, bar);
        if exit.Some? {
          var pnl := CalcPnl(position.value, exit.value.price);
          equity := equity + pnl;
          trades := trades + [Close(position.value, i, exit.value)];
          position := None;
        }
      }
      ghost var middle := ExitStep(feed, i, before);
      assert State(equity, curve, trades, position, counts) == middle;
      if position.None? && i >= WARMUP_BARS {
        var count := CountOf(counts, bar.day);
        if count >= p.maxTradesPerDay {
          assert EntryStep(p, feed, i, middle) == middle;
          curve := curve + [equity];
          continue;
        }
        var pred := PredictionAt(feed, i);
        if pred.side.Some? && pred.probability >= p.minProbability {
          if Confirmed(feed, i, pred.side.value) {
            var atr := Atr(feed, i);
            if atr > 0.0 && bar.close > 0.0 {
              position := Some(OpenPosition(p, i, pred.side.value, pred.probability, bar.close, atr, equity));
              counts := counts[bar.day := count + 1];
            }
          }
        }
      }
      assert State(equity, curve, trades, position, counts) == EntryStep(p, feed, i, middle);
      curve := curve + [equity];
    }
    s := State(equity, curve, trades, position, counts);
  }

  /** Replay all bars, close what is left at the last close, and report.
      `computed` is false when the indicators or features could not be
      computed; the result is None when the report divides by zero. */
  method Run(p: Params, feed: Feed, computed: bool) returns (result: Option<Result>)
    ensures !computed ==>
      result == Some(Result(p.initialCapital, p.initialCapital, [], [p.initialCapital], M.EmptyReport))
    ensures computed ==>
      var out := Outcome(p, feed);
      && result.Some? == ReportOf(p, out).Some?
      && (result.Some? ==>
            result.value == Result(p.initialCapital, out.equity, out.trades, out.curve, ReportOf(p, out).value))
    ensures computed && result.Some? ==> IsReplay(p, feed, result.value.trades)
  {
    if !computed {
      return Some(Result(p.initialCapital, p.initialCapital, [], [p.initialCapital], M.EmptyReport));
    }
    var s := ReplayBars(p, feed);
    var n := |feed.bars|;
    var equity, curve, trades := s.equity, s.curve, s.trades;
    CurveLength(p, feed, n);
    if s.position.Some? {
      var last := feed.bars[n - 1].close;
      equity := equity + CalcPnl(s.position.value, last);
      trades := trades + [Close(s.position.value, n - 1, Exit(last, Eod))];
      curve := curve[|curve| - 1 := equity];
    }
    RunIsReplay(p, feed);
    var report := M.Compute(Pnls(trades), curve, p.initialCapital);
    if report.None? { return None; }
    return Some(Result(p.initialCapital, equity, trades, curve, report.value));
  }

  lemma {:induction false} RealisedPnl(ts: seq<Trade>)
    ensures |M.Realised(Pnls(ts))| == |ts|
    ensures M.Sum(M.Realised(Pnls(ts))) == TotalPnl(ts)
  {
    if ts != [] {
      var init := ts[..|ts| - 1];
      RealisedPnl(init);
      assert Pnls(ts)[..|ts| - 1] == Pnls(init);
      var rs := M.Realised(Pnls(ts));
      assert rs[..|rs| - 1] == M.Realised(Pnls(init));
    }
  }

  /** The report agrees with the books it describes: it exists unless the capital
      is zero and there were trades, it counts every trade, and its total P&L,
      its total return and the change in equity are the same amount. */
  ghost predicate Agrees(p: Params, out: State) {
    && (ReportOf(p, out).Some? <==> p.initialCapital != 0.0 || out.trades == [])
    && (ReportOf(p, out).Some? ==>
          var r := ReportOf(p, out).value;
          && r.tradeCount == |out.trades|
          && r.totalPnl == out.equity - p.initialCapital
          && M.AmountOf(r.totalReturnPct, p.initialCapital) == r.totalPnl)
  }

  lemma BooksAgree(p: Params, n: nat, out: State)
    requires Conserved(p, n, out) && (out.trades != [] ==> n > 0)
    ensures Agrees(p, out)
  {
    RealisedPnl(out.trades);
    if out.trades != [] && p.initialCapital != 0.0 {
      var r := ReportOf(p, out).value;
      assert out.curve[|out.curve| - 1] == out.equity;
      assert r.totalReturnPct == M.TotalReturnPct(out.equity, p.initialCapital);
      M.ReturnBack(out.equity, p.initialCapital);
    }
  }

  /** Every run's report agrees with its books. */
  lemma ReportAgrees(p: Params, feed: Feed)
    ensures Agrees(p, Outcome(p, feed))
  {
    var out := Outcome(p, feed);
    EquityConservation(p, feed);
    RunIsReplay(p, feed);
    if out.trades != [] { NextEntry(p, feed, out.trades, 0); }
    BooksAgree(p, |feed.bars|, out);
  }

  function Amounts(ts: seq<Trade>): seq<real> {
    seq(|ts|, i requires 0 <= i < |ts| => ts[i].pnl)
  }

  lemma {:induction false} RealisedAmounts(ts: seq<Trade>)
    ensures M.Realised(Pnls(ts)) == Amounts(ts)
  {
    if ts != [] {
      RealisedAmounts(ts[..|ts| - 1]);
      assert Pnls(ts)[..|ts| - 1] == Pnls(ts[..|ts| - 1]);
      assert Amounts(ts) == Amounts(ts[..|ts| - 1]) + [ts[|ts| - 1].pnl];
    }
  }

  /** Every run's report describes the P&L of the run's own trades in counts, win
      rate, averages, profit factor and extremes, and the drawdown of its own
      curve; without trades all of it is zero, whatever the capital. */
  lemma ReportDetails(p: Params, feed: Feed)
    requires p.initialCapital != 0.0 || Outcome(p, feed).trades == []
    ensures var out := Outcome(p, feed); var r, amounts := ReportOf(p, out), Amounts(out.trades);
      && r.Some?
      && (out.trades == [] ==>
            r.value == M.Report(0.0, 0.0, 0, 0, 0, 0.0, 0.0, 0.0, Some(0.0), 0.0, 0.0, 0.0, 0.0))
      && (out.trades != [] ==>
            && M.CountsTrades(r.value, amounts)
            && M.SumsTrades(r.value, amounts)
            && M.BoundsTrades(r.value, amounts)
            && r.value.maxDrawdownPct == M.MaxDrawdown(out.curve))
  {
    var out := Outcome(p, feed);
    RealisedAmounts(out.trades);
    if out.trades != [] {
      M.CountsHold(Pnls(out.trades), out.curve, p.initialCapital);
      M.SumsHold(Pnls(out.trades), out.curve, p.initialCapital);
      M.BoundsHold(Pnls(out.trades), out.curve, p.initialCapital);
    }
  }
}
