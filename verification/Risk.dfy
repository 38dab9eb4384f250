/** Circuit breaker, position sizing and order approval (bot/risk/manager.py). */
module Risk {
  import opened Common

  // ----- today's statistics -----

  /** A closed trade as the query returns it; `day` is the closing date. */
  datatype Closing = Closing(pnl: Option<real>, day: Option<int>)

  datatype Stats = Stats(pnl: real, streak: nat)

  /** P&L of the trades closed today. */
  function TodayPnl(rows: seq<Closing>, today: int): real {
    if rows == [] then 0.0
    else
      (if rows[0].pnl.Some? && rows[0].day == Some(today) then rows[0].pnl.value else 0.0) +
      TodayPnl(rows[1..], today)
  }

  /** The unbroken run of today's losses at the newest end. */
  function Streak(rows: seq<Closing>, today: int): nat {
    if rows == [] then 0
    else if rows[0].pnl.None? then Streak(rows[1..], today)
    else if rows[0].day == Some(today) && rows[0].pnl.value < 0.0 then 1 + Streak(rows[1..], today)
    else 0
  }

  /** One pass over the rows, newest first. */
  method QueryTodayStats(rows: seq<Closing>, today: int) returns (stats: Stats)
    ensures stats == Stats(TodayPnl(rows, today), Streak(rows, today))
  {
    var todayPnl, consecutive, streakActive := 0.0, 0, true;
    var i := 0;
    while i < |rows|
      invariant 0 <= i <= |rows|
      invariant todayPnl + TodayPnl(rows[i..], today) == TodayPnl(rows, today)
      invariant consecutive + (if streakActive then Streak(rows[i..], today) else 0) == Streak(rows, today)
    {
      var row := rows[i];
      assert rows[i..][1..] == rows[i + 1..];
      i := i + 1;
      if row.pnl.None? { continue; }
      var isToday := row.day == Some(today);
      if isToday { todayPnl := todayPnl + row.pnl.value; }
      if streakActive {
        if !isToday {
          streakActive := false;
        } else if row.pnl.value < 0.0 {
          consecutive := consecutive + 1;
        } else {
          streakActive := false;
        }
      }
    }
    stats := Stats(todayPnl, consecutive);
  }

  /** A counter kept while trades close. */
  datatype Counter = Counter(day: Option<int>, stats: Stats)

  /** A close without P&L is ignored; a new day starts over; a loss extends the
      streak and anything else ends it. */
  function Count(c: Counter, row: Closing): Counter {
    if row.pnl.None? then c
    else
      var base := if row.day == c.day then c.stats else Stats(0.0, 0);
      Counter(row.day, Stats(base.pnl + row.pnl.value, if row.pnl.value < 0.0 then base.streak + 1 else 0))
  }

  /** The counter after the whole history, fed oldest first. */
  function Counted(rows: seq<Closing>): Counter {
    if rows == [] then Counter(None, Stats(0.0, 0)) else Count(Counted(rows[1..]), rows[0])
  }

  function ReadAt(c: Counter, today: int): Stats {
    if c.day == Some(today) then c.stats else Stats(0.0, 0)
  }

  /** Newest first, with rows without a date last, and none from the future. */
  ghost predicate NewestFirst(rows: seq<Closing>, today: int) {
    && (forall i :: 0 <= i < |rows| && rows[i].day.Some? ==> rows[i].day.value <= today)
    && (forall i, j :: 0 <= i < j < |rows| && rows[j].day.Some? ==>
          rows[i].day.Some? && rows[j].day.value <= rows[i].day.value)
  }

  lemma {:induction false} NoneToday(rows: seq<Closing>, today: int)
    requires forall i :: 0 <= i < |rows| ==> rows[i].day != Some(today)
    ensures TodayPnl(rows, today) == 0.0 && Streak(rows, today) == 0
  {
    if rows != [] { NoneToday(rows[1..], today); }
  }

  /** The newest-first query gives what an online counter fed in closing order
      reads today. */
  lemma {:induction false} QueryEqualsCounter(rows: seq<Closing>, today: int)
    requires NewestFirst(rows, today)
    ensures ReadAt(Counted(rows), today) == Stats(TodayPnl(rows, today), Streak(rows, today))
  {
    if rows != [] {
      var tail := rows[1..];
      assert NewestFirst(tail, today);
      QueryEqualsCounter(tail, today);
      if rows[0].pnl.Some? && rows[0].day != Some(today) {
        forall i | 0 <= i < |tail| ensures tail[i].day != Some(today) {
          assert tail[i] == rows[i + 1];
        }
        NoneToday(tail, today);
      }
    }
  }

  /** The P&L of today is a sum over the rows, to which a row gives its P&L if it
      has one and closed today: on any split it is the sum of the parts. */
  lemma {:induction false} TodayPnlAdds(rows: seq<Closing>, more: seq<Closing>, today: int)
    ensures TodayPnl(rows + more, today) == TodayPnl(rows, today) + TodayPnl(more, today)
    ensures forall row: Closing :: row.pnl.Some? && row.day == Some(today) ==> TodayPnl([row], today) == row.pnl.value
    ensures forall row: Closing :: row.pnl.None? || row.day != Some(today) ==> TodayPnl([row], today) == 0.0
  {
    if rows == [] {
      assert rows + more == more;
    } else {
      assert (rows + more)[1..] == rows[1..] + more;
      TodayPnlAdds(rows[1..], more, today);
    }
  }

  /** The rows that have a P&L. */
  function Priced(rows: seq<Closing>): seq<Closing> {
    if rows == [] then [] else (if rows[0].pnl.Some? then [rows[0]] else []) + Priced(rows[1..])
  }

  predicate LostToday(row: Closing, today: int) {
    row.day == Some(today) && row.pnl.Some? && row.pnl.value < 0.0
  }

  /** The streak counts, from the newest row on, the rows with a P&L before the
      first of them that is no loss of today; rows without one do not matter. */
  lemma {:induction false} StreakMeaning(rows: seq<Closing>, today: int) returns (end: nat)
    ensures end <= |rows| && Streak(rows, today) == |Priced(rows[..end])|
    ensures forall i :: 0 <= i < end && rows[i].pnl.Some? ==> LostToday(rows[i], today)
    ensures end < |rows| ==> rows[end].pnl.Some? && !LostToday(rows[end], today)
  {
    if rows == [] || (rows[0].pnl.Some? && !LostToday(rows[0], today)) {
      end := 0;
    } else {
      var rest := StreakMeaning(rows[1..], today);
      end := rest + 1;
      assert rows[..end][1..] == rows[1..][..rest];
    }
  }

  // ----- products and quotients -----

  lemma SignOfProduct(d: real, v: real)
    requires v > 0.0
    ensures d >= 0.0 <==> d * v >= 0.0
    ensures d > 0.0 <==> d * v > 0.0
  {
    if d < 0.0 { assert (-d) * v > 0.0; }
  }

  lemma ProductMonotone(v: real, v': real, pct: real)
    requires v <= v' && pct >= 0.0
    ensures v * pct <= v' * pct && pct * v <= pct * v'
  {
    var d := v' - v;
    assert d * pct >= 0.0;
    assert d * pct == v' * pct - v * pct;
  }

  lemma ProductsMonotone(v: real, v': real, k: real, k': real)
    requires 0.0 <= v <= v' && 0.0 <= k <= k'
    ensures v * k <= v' * k'
  {
    ProductMonotone(v, v', k);
    ProductMonotone(k, k', v');
  }

  // ----- circuit breaker -----

  /** Breaker settings; None when they cannot be read. */
  datatype Limits = Limits(dailyLossPct: real, maxConsecutive: int)

  datatype Trip = SettingsUnreadable | StatsUnreadable | DailyLoss | LosingStreak

  function LossPct(pnl: real, portfolio: real): real
    requires portfolio > 0.0
  {
    if pnl < 0.0 then -pnl / portfolio * 100.0 else 0.0
  }

  /** The reason trading is halted, if any; unreadable inputs halt it. */
  function Breaker(limits: Option<Limits>, stats: Option<Stats>, portfolio: real): Option<Trip> {
    if limits.None? then Some(SettingsUnreadable)
    else if stats.None? then Some(StatsUnreadable)
    else if portfolio > 0.0 && LossPct(stats.value.pnl, portfolio) >= limits.value.dailyLossPct then Some(DailyLoss)
    else if stats.value.streak >= limits.value.maxConsecutive then Some(LosingStreak)
    else None
  }

  /** What each reason means. Settings are read before the statistics, and the
      day's loss is looked at before the streak. */
  lemma TripMeaning(limits: Option<Limits>, stats: Option<Stats>, portfolio: real)
    requires portfolio > 0.0
    ensures var trip := Breaker(limits, stats, portfolio);
      && (trip == Some(SettingsUnreadable) <==> limits == None)
      && (trip == Some(StatsUnreadable) <==> limits != None && stats == None)
      && (limits.Some? && stats.Some? ==>
            var lost := if stats.value.pnl < 0.0 then -stats.value.pnl else 0.0;
            && (trip == Some(DailyLoss) <==> lost * 100.0 >= limits.value.dailyLossPct * portfolio)
            && (trip == Some(LosingStreak) <==>
                  && lost * 100.0 < limits.value.dailyLossPct * portfolio
                  && stats.value.streak >= limits.value.maxConsecutive))
  {
    if limits.Some? && stats.Some? {
      LossPctThreshold(stats.value.pnl, portfolio, limits.value.dailyLossPct);
    }
  }

  lemma LossPctThreshold(pnl: real, portfolio: real, pct: real)
    requires portfolio > 0.0
    ensures LossPct(pnl, portfolio) >= pct <==> (if pnl < 0.0 then -pnl else 0.0) * 100.0 >= pct * portfolio
  {
    var loss := if pnl < 0.0 then -pnl else 0.0;
    var q := loss / portfolio;
    assert q * portfolio == loss;
    var d := q * 100.0 - pct;
    assert d * portfolio == loss * 100.0 - pct * portfolio;
    SignOfProduct(d, portfolio);
  }

  /** When the breaker trips, in amounts of money: on a streak, or when the
      day's loss in percent of the portfolio reaches the limit. */
  lemma BreakerMeaning(limits: Limits, stats: Stats, portfolio: real)
    requires portfolio > 0.0
    ensures Breaker(Some(limits), Some(stats), portfolio).Some? <==>
      stats.streak >= limits.maxConsecutive ||
      (if stats.pnl < 0.0 then -stats.pnl else 0.0) * 100.0 >= limits.dailyLossPct * portfolio
  {
    LossPctThreshold(stats.pnl, portfolio, limits.dailyLossPct);
  }

  /** A breaker that trips at one portfolio value trips at every lower positive one. */
  lemma BreakerMonotone(limits: Option<Limits>, stats: Option<Stats>, lower: real, portfolio: real)
    requires 0.0 < lower <= portfolio && Breaker(limits, stats, portfolio).Some?
    ensures Breaker(limits, stats, lower).Some?
  {
    if limits.Some? && stats.Some? {
      BreakerMeaning(limits.value, stats.value, lower);
      BreakerMeaning(limits.value, stats.value, portfolio);
      var pct := limits.value.dailyLossPct;
      if pct >= 0.0 { ProductMonotone(lower, portfolio, pct); } else { SignOfProduct(pct, lower); }
    }
  }

  /** A rising portfolio can lift a daily-loss halt: 3% of 1000 lost, and the
      value recovers to 2000. */
  lemma RiseLiftsTheBreaker()
    ensures Breaker(Some(Limits(3.0, 5)), Some(Stats(-30.0, 1)), 1000.0) == Some(DailyLoss)
    ensures Breaker(Some(Limits(3.0, 5)), Some(Stats(-30.0, 1)), 2000.0) == None
  {
    assert LossPct(-30.0, 1000.0) == 3.0;
    assert LossPct(-30.0, 2000.0) == 1.5;
  }

  // ----- sizing -----

  datatype Sizing = FixedPct(pct: real) | FixedAmount(amount: real) | Kelly

  function HalfKelly(probability: real): real {
    var p := MaxReal(0.0, MinReal(1.0, probability));
    var q := 1.0 - p;
    var kelly := p - q / 2.0;
    MaxReal(0.0, kelly / 2.0)
  }

  function Amount(sizing: Sizing, probability: real, portfolio: real): real {
    match sizing
    case FixedPct(pct) => portfolio * pct / 100.0
    case FixedAmount(amount) => amount
    case Kelly => portfolio * HalfKelly(probability)
  }

  function Capped(sizing: Sizing, maxPct: real, probability: real, portfolio: real): real {
    MinReal(Amount(sizing, probability, portfolio), portfolio * maxPct / 100.0)
  }

  function Shares(sizing: Sizing, maxPct: real, probability: real, portfolio: real, entry: real): int
    requires entry > 0.0
  {
    Truncate(Capped(sizing, maxPct, probability, portfolio) / entry)
  }

  /** The half-Kelly fraction is zero exactly up to probability one third,
      never exceeds one half, and grows with the probability. */
  lemma HalfKellyMeaning(p: real, p': real)
    ensures 0.0 <= HalfKelly(p) <= 0.5
    ensures HalfKelly(p) == 0.0 <==> p <= 1.0 / 3.0
    ensures p <= p' ==> HalfKelly(p) <= HalfKelly(p')
  {
  }

  /** The half-Kelly fraction for a reward of twice the risk: (3p - 1) / 4
      between one third and one, so 0.2 at 0.6 and one half from one on. */
  lemma HalfKellyValue(p: real)
    ensures HalfKelly(p) == if p <= 1.0 / 3.0 then 0.0 else if p >= 1.0 then 0.5 else (3.0 * p - 1.0) / 4.0
    ensures HalfKelly(0.6) == 0.2
  {
  }

  /** The amount each method puts in: a percentage of the portfolio, a fixed sum,
      or the half-Kelly fraction of the portfolio. */
  lemma AmountValue(sizing: Sizing, p: real, portfolio: real)
    ensures match sizing
      case FixedPct(pct) => Amount(sizing, p, portfolio) * 100.0 == portfolio * pct
      case FixedAmount(amount) => Amount(sizing, p, portfolio) == amount
      case Kelly => 1.0 / 3.0 < p < 1.0 ==> Amount(sizing, p, portfolio) == portfolio * ((3.0 * p - 1.0) / 4.0)
    ensures sizing.Kelly? && p <= 1.0 / 3.0 ==> Amount(sizing, p, portfolio) == 0.0
    ensures sizing.Kelly? && p >= 1.0 ==> Amount(sizing, p, portfolio) == portfolio * 0.5
  {
    HalfKellyValue(p);
  }

  lemma QuotientCompare(x: real, entry: real, bound: real)
    requires entry > 0.0
    ensures x / entry < bound <==> x < bound * entry
  {
    var q := x / entry;
    assert q * entry == x;
    var d := bound - q;
    assert d * entry == bound * entry - q * entry;
    SignOfProduct(d, entry);
  }

  lemma QuotientMonotone(x: real, y: real, entry: real)
    requires entry > 0.0 && x <= y
    ensures x / entry <= y / entry
  {
    var d := y / entry - x / entry;
    assert d * entry == y / entry * entry - x / entry * entry == y - x;
    SignOfProduct(d, entry);
  }

  lemma TruncateMonotone(x: real, y: real)
    requires x <= y
    ensures Truncate(x) <= Truncate(y)
  {
  }

  lemma AmountMonotone(sizing: Sizing, p: real, p': real, v: real, v': real)
    requires 0.0 <= v <= v' && p <= p'
    requires sizing.FixedPct? ==> sizing.pct >= 0.0
    ensures Amount(sizing, p, v) <= Amount(sizing, p', v')
  {
    match sizing {
      case FixedPct(pct) => ProductMonotone(v, v', pct);
      case FixedAmount(_) =>
      case Kelly =>
        HalfKellyMeaning(p, p');
        ProductsMonotone(v, v', HalfKelly(p), HalfKelly(p'));
    }
  }

  lemma MinMonotone(a: real, b: real, a': real, b': real)
    requires a <= a' && b <= b'
    ensures MinReal(a, b / 100.0) <= MinReal(a', b' / 100.0)
  {
  }

  lemma CappedMonotone(sizing: Sizing, maxPct: real, p: real, p': real, v: real, v': real)
    requires 0.0 <= v <= v' && p <= p' && maxPct >= 0.0
    requires sizing.FixedPct? ==> sizing.pct >= 0.0
    ensures Capped(sizing, maxPct, p, v) <= Capped(sizing, maxPct, p', v')
  {
    AmountMonotone(sizing, p, p', v, v');
    ProductMonotone(v, v', maxPct);
    MinMonotone(Amount(sizing, p, v), v * maxPct, Amount(sizing, p', v'), v' * maxPct);
  }

  /** A larger portfolio never buys fewer shares, nor does a higher probability. */
  lemma SharesMonotone(sizing: Sizing, maxPct: real, p: real, p': real, v: real, v': real, entry: real)
    requires entry > 0.0 && 0.0 <= v <= v' && p <= p' && maxPct >= 0.0
    requires sizing.FixedPct? ==> sizing.pct >= 0.0
    ensures Shares(sizing, maxPct, p, v, entry) <= Shares(sizing, maxPct, p', v', entry)
  {
    CappedMonotone(sizing, maxPct, p, p', v, v');
    var x, y := Capped(sizing, maxPct, p, v), Capped(sizing, maxPct, p', v');
    QuotientMonotone(x, y, entry);
    TruncateMonotone(x / entry, y / entry);
  }

  // ----- the decision -----

  datatype Config = Config(limits: Option<Limits>, sizing: Sizing, maxPct: real)

  /** `tradable` is false for the action "no_trade". */
  datatype Proposal = Proposal(tradable: bool, entryPrice: real, probability: real)

  datatype Verdict =
    | Approved(shares: int)
    | NoTrade | NoPortfolio | Halted(trip: Trip) | BadEntry | TooSmall

  function Check(cfg: Config, proposal: Proposal, portfolio: real, dryrun: bool, stats: Option<Stats>): Verdict {
    if !proposal.tradable then NoTrade
    else if portfolio <= 0.0 then NoPortfolio
    else
      var trip := if dryrun then None else Breaker(cfg.limits, stats, portfolio);
      if trip.Some? then Halted(trip.value)
      else if proposal.entryPrice <= 0.0 then BadEntry
      else
        var shares := Shares(cfg.sizing, cfg.maxPct, proposal.probability, portfolio, proposal.entryPrice);
        if shares <= 0 then TooSmall else Approved(shares)
  }

  /** An approved size is the largest whole number of shares that both the
      sizing rule and the cap can pay for, and at least one. */
  lemma ApprovedSize(cfg: Config, proposal: Proposal, portfolio: real, dryrun: bool, stats: Option<Stats>)
    requires Check(cfg, proposal, portfolio, dryrun, stats).Approved?
    ensures var n := Check(cfg, proposal, portfolio, dryrun, stats).shares;
      var limit := MinReal(Amount(cfg.sizing, proposal.probability, portfolio), portfolio * cfg.maxPct / 100.0);
      && n >= 1
      && n as real * proposal.entryPrice <= limit < (n as real + 1.0) * proposal.entryPrice
  {
    var limit := Capped(cfg.sizing, cfg.maxPct, proposal.probability, portfolio);
    var n := Check(cfg, proposal, portfolio, dryrun, stats).shares;
    QuotientCompare(limit, proposal.entryPrice, n as real);
    QuotientCompare(limit, proposal.entryPrice, n as real + 1.0);
  }

  /** Which verdict a proposal gets. It must be tradable, the portfolio positive,
      the breaker silent unless it is a dry run, the entry price positive, and
      the limit must pay for one share; the first of these that fails decides. */
  lemma VerdictIff(cfg: Config, proposal: Proposal, portfolio: real, dryrun: bool, stats: Option<Stats>)
    ensures var verdict := Check(cfg, proposal, portfolio, dryrun, stats);
      var halts := !dryrun && Breaker(cfg.limits, stats, portfolio).Some?;
      && (verdict == NoTrade <==> !proposal.tradable)
      && (verdict == NoPortfolio <==> proposal.tradable && portfolio <= 0.0)
      && (verdict.Halted? <==> proposal.tradable && portfolio > 0.0 && halts)
      && (verdict.Halted? ==> Breaker(cfg.limits, stats, portfolio) == Some(verdict.trip))
      && (verdict == BadEntry <==> proposal.tradable && portfolio > 0.0 && !halts && proposal.entryPrice <= 0.0)
      && (verdict.Approved? <==>
            && proposal.tradable && portfolio > 0.0 && !halts && proposal.entryPrice > 0.0
            && Amount(cfg.sizing, proposal.probability, portfolio) >= proposal.entryPrice
            && portfolio * cfg.maxPct / 100.0 >= proposal.entryPrice)
  {
    var limit, entry := Capped(cfg.sizing, cfg.maxPct, proposal.probability, portfolio), proposal.entryPrice;
    if entry > 0.0 { QuotientCompare(limit, entry, 1.0); }
  }

  /** Exactly when an order is refused for size: the limit does not pay for one share. */
  lemma TooSmallIff(cfg: Config, proposal: Proposal, portfolio: real, dryrun: bool, stats: Option<Stats>)
    requires proposal.tradable && portfolio > 0.0 && proposal.entryPrice > 0.0
    requires dryrun || Breaker(cfg.limits, stats, portfolio).None?
    ensures Check(cfg, proposal, portfolio, dryrun, stats).TooSmall? <==>
      Capped(cfg.sizing, cfg.maxPct, proposal.probability, portfolio) < proposal.entryPrice
  {
    var limit, entry := Capped(cfg.sizing, cfg.maxPct, proposal.probability, portfolio), proposal.entryPrice;
    QuotientCompare(limit, entry, 1.0);
  }
}
