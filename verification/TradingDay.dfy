/** Whole runs of the trading loop as the risk manager sees them: guarded
    entries, risk checks and closes over the trades table (bot/core/engine.py,
    bot/risk/manager.py, bot/orders/eod_close.py). */
module TradingDay {
  import opened Common
  import L = Ledger
  import R = Risk

  /** The trades table, and its closed trades in the order the query returns
      them: by closing time, newest first. */
  datatype State = State(rows: seq<L.Row>, closings: seq<R.Closing>)

  /** One step in paper or live mode. A tick proposes an entry; `readable` is
      false when the statistics query fails, and `outcome` is the row the
      executor leaves if it gets that far (None when the insert fails). A close
      marks the newest open row of a symbol. */
  datatype Input =
    | Tick(symbol: string, proposal: R.Proposal, portfolio: real, readable: bool, outcome: Option<L.Row>)
    | CloseSymbol(symbol: string, exit: Option<real>)

  function StatsOf(s: State, today: int): R.Stats {
    R.Stats(R.TodayPnl(s.closings, today), R.Streak(s.closings, today))
  }

  function Verdict(cfg: R.Config, today: int, s: State, input: Input): R.Verdict
    requires input.Tick?
  {
    R.Check(cfg, input.proposal, input.portfolio, false,
            if input.readable then Some(StatsOf(s, today)) else None)
  }

  predicate Free(rows: seq<L.Row>, symbol: string, today: int) {
    forall i :: 0 <= i < |rows| ==> !L.Blocks(rows[i], symbol, today)
  }

  function Step(cfg: R.Config, today: int, s: State, input: Input): State {
    match input
    case Tick(symbol, _, _, _, outcome) =>
      if Free(s.rows, symbol, today) && Verdict(cfg, today, s, input).Approved? && outcome.Some?
      then s.(rows := s.rows + [outcome.value.(symbol := symbol, day := today)])
      else s
    case CloseSymbol(symbol, exit) =>
      L.LastOpenMeaning(s.rows, symbol);
      var k := L.LastOpen(s.rows, symbol);
      if k.None? then s
      else State(L.CloseTable(s.rows, symbol, exit),
                 [R.Closing(L.ClosePnl(s.rows[k.value], exit), Some(today))] + s.closings)
  }

  /** A tick adds one row, today's for its symbol, exactly when no row of the
      symbol from today on is pending, open, filled or dryrun, the proposal can be
      traded and pays for a share, the breaker can read all it needs and is
      silent, and the insert succeeds; otherwise it changes nothing. */
  lemma TickEntersIff(cfg: R.Config, today: int, s: State, input: Input)
    requires input.Tick?
    ensures var s', p := Step(cfg, today, s, input), input.proposal;
      var enters :=
        && (forall i :: 0 <= i < |s.rows| && s.rows[i].symbol == input.symbol && s.rows[i].day >= today ==>
              s.rows[i].status !in {L.Pending, L.Status.Open, L.Status.Filled, L.Dryrun})
        && p.tradable && input.portfolio > 0.0 && p.entryPrice > 0.0 && input.readable && input.outcome.Some?
        && R.Breaker(cfg.limits, Some(StatsOf(s, today)), input.portfolio).None?
        && R.Amount(cfg.sizing, p.probability, input.portfolio) >= p.entryPrice
        && input.portfolio * cfg.maxPct / 100.0 >= p.entryPrice;
      s' == if enters then s.(rows := s.rows + [input.outcome.value.(symbol := input.symbol, day := today)]) else s
  {
    var stats := if input.readable then Some(StatsOf(s, today)) else None;
    R.VerdictIff(cfg, input.proposal, input.portfolio, false, stats);
    assert Free(s.rows, input.symbol, today) <==>
      forall i :: 0 <= i < |s.rows| && s.rows[i].symbol == input.symbol && s.rows[i].day >= today ==>
        s.rows[i].status !in {L.Pending, L.Status.Open, L.Status.Filled, L.Dryrun} by {
      forall i | 0 <= i < |s.rows|
        ensures L.Blocks(s.rows[i], input.symbol, today) <==>
          && s.rows[i].symbol == input.symbol && s.rows[i].day >= today
          && s.rows[i].status in {L.Pending, L.Status.Open, L.Status.Filled, L.Dryrun}
      {
      }
    }
  }

  /** The state after a day's inputs. */
  function RunDay(cfg: R.Config, today: int, s: State, inputs: seq<Input>): State {
    if inputs == [] then s
    else Step(cfg, today, RunDay(cfg, today, s, inputs[..|inputs| - 1]), inputs[|inputs| - 1])
  }

  ghost predicate NoneAlive(rows: seq<L.Row>) {
    forall i :: 0 <= i < |rows| ==> !L.Alive(rows[i].status)
  }

  ghost predicate PortfoliosAtMost(inputs: seq<Input>, portfolio: real) {
    forall i :: 0 <= i < |inputs| && inputs[i].Tick? ==> inputs[i].portfolio <= portfolio
  }

  lemma TrippedTickRejects(cfg: R.Config, today: int, s: State, input: Input, portfolio: real)
    requires input.Tick? && input.portfolio <= portfolio && portfolio > 0.0
    requires R.Breaker(cfg.limits, Some(StatsOf(s, today)), portfolio).Some?
    ensures !Verdict(cfg, today, s, input).Approved?
    ensures input.proposal.tradable && input.portfolio > 0.0 ==> Verdict(cfg, today, s, input).Halted?
  {
    if input.portfolio > 0.0 && input.readable {
      R.BreakerMonotone(cfg.limits, Some(StatsOf(s, today)), input.portfolio, portfolio);
    }
  }

  lemma NothingToClose(rows: seq<L.Row>, symbol: string)
    requires NoneAlive(rows)
    ensures L.LastOpen(rows, symbol).None?
  {
    L.LastOpenMeaning(rows, symbol);
  }

  // ----- what lifts a halt -----

  function Loss(pnl: real): real {
    if pnl < 0.0 then -pnl else 0.0
  }

  /** In amounts of money: the streak is below its limit and the day's loss
      below the limit share of the portfolio. */
  predicate Lifts(limits: Option<R.Limits>, stats: R.Stats, portfolio: real) {
    && limits.Some? && portfolio > 0.0
    && stats.streak < limits.value.maxConsecutive
    && Loss(stats.pnl) * 100.0 < limits.value.dailyLossPct * portfolio
  }

  lemma LiftsIff(limits: Option<R.Limits>, stats: R.Stats, portfolio: real)
    requires portfolio > 0.0
    ensures R.Breaker(limits, Some(stats), portfolio).None? <==> Lifts(limits, stats, portfolio)
  {
    if limits.Some? { R.BreakerMeaning(limits.value, stats, portfolio); }
  }

  /** A close lifts the halt at a portfolio value exactly when, with its P&L
      counted, the streak and the loss are below their limits; a close without
      P&L changes nothing. */
  lemma CloseLiftsIff(cfg: R.Config, today: int, s: State, symbol: string, exit: Option<real>, k: nat, portfolio: real)
    requires portfolio > 0.0 && L.LastOpen(s.rows, symbol) == Some(k) && k < |s.rows|
    ensures var after := StatsOf(Step(cfg, today, s, CloseSymbol(symbol, exit)), today);
      var pnl := L.ClosePnl(s.rows[k], exit);
      R.Breaker(cfg.limits, Some(after), portfolio).None? <==>
        var before := StatsOf(s, today);
        if pnl.None? then Lifts(cfg.limits, before, portfolio)
        else Lifts(cfg.limits,
                   R.Stats(before.pnl + pnl.value, if pnl.value < 0.0 then before.streak + 1 else 0), portfolio)
  {
    var s', pnl := Step(cfg, today, s, CloseSymbol(symbol, exit)), L.ClosePnl(s.rows[k], exit);
    assert s'.closings == [R.Closing(pnl, Some(today))] + s.closings;
    assert s'.closings[1..] == s.closings;
    LiftsIff(cfg.limits, StatsOf(s', today), portfolio);
  }

  /** The breaker lets the tick through. */
  predicate Passes(cfg: R.Config, today: int, s: State, input: Input)
    requires input.Tick?
  {
    && input.portfolio > 0.0 && input.readable
    && R.Breaker(cfg.limits, Some(StatsOf(s, today)), input.portfolio).None?
  }

  lemma StoppedStep(cfg: R.Config, today: int, s: State, input: Input)
    requires NoneAlive(s.rows) && (input.Tick? ==> !Passes(cfg, today, s, input))
    ensures Step(cfg, today, s, input) == s
    ensures input.Tick? ==> !Verdict(cfg, today, s, input).Approved?
  {
    if input.CloseSymbol? { NothingToClose(s.rows, input.symbol); }
  }

  /** The tick at position i would be let through with the statistics of s. */
  ghost predicate LiftsAt(cfg: R.Config, stats: R.Stats, inputs: seq<Input>, i: nat) {
    i < |inputs| && inputs[i].Tick? && inputs[i].readable && Lifts(cfg.limits, stats, inputs[i].portfolio)
  }

  lemma {:induction false} StoppedDay(cfg: R.Config, today: int, s: State, inputs: seq<Input>)
    requires NoneAlive(s.rows) && forall i :: 0 <= i < |inputs| ==> !LiftsAt(cfg, StatsOf(s, today), inputs, i)
    ensures RunDay(cfg, today, s, inputs) == s
  {
    if inputs != [] {
      var n := |inputs| - 1;
      forall i | 0 <= i < n ensures !LiftsAt(cfg, StatsOf(s, today), inputs[..n], i) {
        assert !LiftsAt(cfg, StatsOf(s, today), inputs, i);
      }
      StoppedDay(cfg, today, s, inputs[..n]);
      assert !LiftsAt(cfg, StatsOf(s, today), inputs, n);
      if inputs[n].Tick? && inputs[n].portfolio > 0.0 {
        LiftsIff(cfg.limits, StatsOf(s, today), inputs[n].portfolio);
      }
      StoppedStep(cfg, today, s, inputs[n]);
    }
  }

  /** With no live trade the breaker stops every tick of a run if and only if no
      tick brings a portfolio value at which the starting statistics no longer
      trip it. */
  lemma BreakerHoldsIff(cfg: R.Config, today: int, s: State, inputs: seq<Input>)
    requires NoneAlive(s.rows)
    ensures (forall i :: 0 <= i < |inputs| && inputs[i].Tick? ==>
               !Passes(cfg, today, RunDay(cfg, today, s, inputs[..i]), inputs[i]))
      <==> (forall i :: 0 <= i < |inputs| ==> !LiftsAt(cfg, StatsOf(s, today), inputs, i))
  {
    var stats := StatsOf(s, today);
    if i :| 0 <= i < |inputs| && LiftsAt(cfg, stats, inputs, i) {
      var first := FirstLift(cfg, stats, inputs);
      StoppedPrefix(cfg, today, s, inputs, first);
      LiftsIff(cfg.limits, stats, inputs[first].portfolio);
      assert Passes(cfg, today, RunDay(cfg, today, s, inputs[..first]), inputs[first]);
    } else {
      forall i | 0 <= i < |inputs| && inputs[i].Tick?
        ensures !Passes(cfg, today, RunDay(cfg, today, s, inputs[..i]), inputs[i])
      {
        StoppedPrefix(cfg, today, s, inputs, i);
        assert !LiftsAt(cfg, stats, inputs, i);
        if inputs[i].portfolio > 0.0 { LiftsIff(cfg.limits, stats, inputs[i].portfolio); }
      }
    }
  }

  lemma FirstLift(cfg: R.Config, stats: R.Stats, inputs: seq<Input>) returns (first: nat)
    requires exists i :: 0 <= i < |inputs| && LiftsAt(cfg, stats, inputs, i)
    ensures LiftsAt(cfg, stats, inputs, first)
    ensures forall i :: 0 <= i < first ==> !LiftsAt(cfg, stats, inputs, i)
  {
    first := 0;
    while !LiftsAt(cfg, stats, inputs, first)
      invariant first <= |inputs| && forall i :: 0 <= i < first ==> !LiftsAt(cfg, stats, inputs, i)
      decreases |inputs| - first
    {
      first := first + 1;
    }
  }

  lemma StoppedPrefix(cfg: R.Config, today: int, s: State, inputs: seq<Input>, n: nat)
    requires NoneAlive(s.rows) && n <= |inputs|
    requires forall i :: 0 <= i < n ==> !LiftsAt(cfg, StatsOf(s, today), inputs, i)
    ensures RunDay(cfg, today, s, inputs[..n]) == s
  {
    forall i | 0 <= i < n ensures !LiftsAt(cfg, StatsOf(s, today), inputs[..n], i) {
      assert !LiftsAt(cfg, StatsOf(s, today), inputs, i);
    }
    StoppedDay(cfg, today, s, inputs[..n]);
  }

  // ----- a sufficient condition -----

  /** No live trade, and the breaker trips at this portfolio value. */
  ghost predicate Halted(cfg: R.Config, today: int, s: State, portfolio: real) {
    && NoneAlive(s.rows) && portfolio > 0.0
    && R.Breaker(cfg.limits, Some(StatsOf(s, today)), portfolio).Some?
  }

  lemma HaltedStep(cfg: R.Config, today: int, s: State, input: Input, portfolio: real)
    requires Halted(cfg, today, s, portfolio)
    requires input.Tick? ==> input.portfolio <= portfolio
    ensures Step(cfg, today, s, input) == s
    ensures input.Tick? ==> !Verdict(cfg, today, s, input).Approved?
  {
    if input.Tick? {
      TrippedTickRejects(cfg, today, s, input, portfolio);
    } else {
      NothingToClose(s.rows, input.symbol);
    }
  }

  lemma {:induction false} HaltedDay(cfg: R.Config, today: int, s: State, inputs: seq<Input>, portfolio: real)
    requires Halted(cfg, today, s, portfolio) && PortfoliosAtMost(inputs, portfolio)
    ensures RunDay(cfg, today, s, inputs) == s
  {
    if inputs != [] {
      HaltedDay(cfg, today, s, inputs[..|inputs| - 1], portfolio);
      HaltedStep(cfg, today, s, inputs[|inputs| - 1], portfolio);
    }
  }

  /** A tripped breaker is absorbing: with no live trade, unchanged settings and
      a portfolio value that does not rise above the value it tripped at,
      whatever else the day brings, every check rejects, no row is added and
      nothing is closed, so the reason stays. */
  lemma BreakerAbsorbs(cfg: R.Config, today: int, s: State, inputs: seq<Input>, portfolio: real)
    requires Halted(cfg, today, s, portfolio) && PortfoliosAtMost(inputs, portfolio)
    ensures RunDay(cfg, today, s, inputs) == s
    ensures forall i :: 0 <= i < |inputs| && inputs[i].Tick? ==>
      !Verdict(cfg, today, RunDay(cfg, today, s, inputs[..i]), inputs[i]).Approved?
  {
    HaltedDay(cfg, today, s, inputs, portfolio);
    forall i | 0 <= i < |inputs| && inputs[i].Tick?
      ensures !Verdict(cfg, today, RunDay(cfg, today, s, inputs[..i]), inputs[i]).Approved?
    {
      HaltedDay(cfg, today, s, inputs[..i], portfolio);
      HaltedStep(cfg, today, s, inputs[i], portfolio);
    }
  }

  // ----- the closings are the closed rows -----

  /** The P&L of the closed rows. */
  function ClosedPnls(rows: seq<L.Row>): multiset<Option<real>> {
    if rows == [] then multiset{}
    else
      var r := rows[|rows| - 1];
      ClosedPnls(rows[..|rows| - 1]) + (if r.status.Closed? then multiset{r.pnl} else multiset{})
  }

  function ListedPnls(closings: seq<R.Closing>): multiset<Option<real>> {
    if closings == [] then multiset{} else multiset{closings[0].pnl} + ListedPnls(closings[1..])
  }

  lemma {:induction false} ClosingOneRow(rows: seq<L.Row>, k: nat, row: L.Row)
    requires k < |rows| && !rows[k].status.Closed? && row.status.Closed?
    ensures ClosedPnls(rows[k := row]) == ClosedPnls(rows) + multiset{row.pnl}
  {
    var n := |rows| - 1;
    if k == n {
      assert rows[k := row][..n] == rows[..n];
    } else {
      ClosingOneRow(rows[..n], k, row);
      assert rows[k := row][..n] == rows[..n][k := row];
    }
  }

  /** The executor never leaves a closed row. */
  predicate FromExecutor(input: Input) {
    input.Tick? && input.outcome.Some? ==> !input.outcome.value.status.Closed?
  }

  lemma StepRecords(cfg: R.Config, today: int, s: State, input: Input)
    requires ListedPnls(s.closings) == ClosedPnls(s.rows) && FromExecutor(input)
    ensures var s' := Step(cfg, today, s, input); ListedPnls(s'.closings) == ClosedPnls(s'.rows)
  {
    var s' := Step(cfg, today, s, input);
    if s' != s {
      if input.Tick? {
        assert s'.rows[..|s.rows|] == s.rows;
      } else {
        L.LastOpenMeaning(s.rows, input.symbol);
        var k := L.LastOpen(s.rows, input.symbol).value;
        ClosingOneRow(s.rows, k, L.ClosedRow(s.rows[k], input.exit));
        assert s'.closings[1..] == s.closings;
      }
    }
  }

  /** What the statistics query lists is, over every day, exactly the P&L of the
      closed rows of the trades table. */
  lemma {:induction false} ClosingsAreTheClosedRows(cfg: R.Config, today: int, s: State, inputs: seq<Input>)
    requires ListedPnls(s.closings) == ClosedPnls(s.rows)
    requires forall input :: input in inputs ==> FromExecutor(input)
    ensures var end := RunDay(cfg, today, s, inputs); ListedPnls(end.closings) == ClosedPnls(end.rows)
  {
    if inputs != [] {
      var init, last := inputs[..|inputs| - 1], inputs[|inputs| - 1];
      ClosingsAreTheClosedRows(cfg, today, s, init);
      StepRecords(cfg, today, RunDay(cfg, today, s, init), last);
    }
  }

  lemma StepClosings(cfg: R.Config, today: int, s: State, input: Input)
    requires R.NewestFirst(s.closings, today)
    ensures R.NewestFirst(Step(cfg, today, s, input).closings, today)
  {
  }

  /** In every state a day can reach, the statistics the breaker reads are the
      ones of a counter that is bumped at each close. */
  lemma {:induction false} DayStatsAreCounted(cfg: R.Config, today: int, s: State, inputs: seq<Input>)
    requires R.NewestFirst(s.closings, today)
    ensures var end := RunDay(cfg, today, s, inputs);
      R.NewestFirst(end.closings, today) && StatsOf(end, today) == R.ReadAt(R.Counted(end.closings), today)
  {
    if inputs != [] {
      var init := inputs[..|inputs| - 1];
      DayStatsAreCounted(cfg, today, s, init);
      StepClosings(cfg, today, RunDay(cfg, today, s, init), inputs[|inputs| - 1]);
    }
    R.QueryEqualsCounter(RunDay(cfg, today, s, inputs).closings, today);
  }

  /** The halt needs the no-live-trade condition: a winning close of a live
      trade ends a losing streak and lifts it. */
  lemma OpenWinnerLiftsTheBreaker()
    ensures var cfg := R.Config(Some(R.Limits(50.0, 1)), R.FixedPct(2.0), 5.0);
      var row := L.Row("AAPL", L.Long, L.Paper, L.Filled, 1, 100.0, Some(100.0), None, None, Some(7), 0);
      var s := State([row], [R.Closing(Some(-1.0), Some(0))]);
      && R.Breaker(cfg.limits, Some(StatsOf(s, 0)), 1000.0) == Some(R.LosingStreak)
      && R.Breaker(cfg.limits, Some(StatsOf(Step(cfg, 0, s, CloseSymbol("AAPL", Some(110.0))), 0)), 1000.0) == None
  {
    var cfg := R.Config(Some(R.Limits(50.0, 1)), R.FixedPct(2.0), 5.0);
    var row := L.Row("AAPL", L.Long, L.Paper, L.Filled, 1, 100.0, Some(100.0), None, None, Some(7), 0);
    var closings := [R.Closing(Some(-1.0), Some(0))];
    var s := State([row], closings);
    assert closings[1..] == [];
    assert StatsOf(s, 0) == R.Stats(-1.0, 1);
    assert R.LossPct(-1.0, 1000.0) == 0.1;
    var s' := Step(cfg, 0, s, CloseSymbol("AAPL", Some(110.0)));
    assert L.LastOpen([row], "AAPL") == Some(0);
    assert L.ClosePnl(row, Some(110.0)) == Some(10.0);
    assert s'.closings == [R.Closing(Some(10.0), Some(0))] + closings;
    assert s'.closings[1..] == closings;
    assert StatsOf(s', 0) == R.Stats(9.0, 0);
  }
}
