/** Performance metrics of a completed backtest (bot/backtesting/metrics.py),
    without the Sharpe ratio. */
module Metrics {
  import opened Common

  // ----- drawdown -----

  function DropPct(peak: real, equity: real): real {
    if peak > 0.0 then (peak - equity) / peak * 100.0 else 0.0
  }

  datatype Fall = Fall(peak: real, deepest: real)

  /** Running peak and deepest fall, after one more entry. */
  function Next(run: Fall, equity: real): Fall {
    var peak := MaxReal(run.peak, equity);
    Fall(peak, MaxReal(run.deepest, DropPct(peak, equity)))
  }

  /** Running peak and deepest fall over the first i entries, in percent. */
  function Running(curve: seq<real>, i: nat): Fall
    requires 0 < |curve| && i <= |curve|
  {
    if i == 0 then Fall(curve[0], 0.0) else Next(Running(curve, i - 1), curve[i - 1])
  }

  function MaxDrawdown(curve: seq<real>): real {
    if |curve| < 2 then 0.0 else Running(curve, |curve|).deepest
  }

  method ComputeMaxDrawdown(curve: seq<real>) returns (maxDd: real)
    ensures maxDd == MaxDrawdown(curve)
    ensures maxDd >= 0.0
  {
    if |curve| < 2 { return 0.0; }
    var peak := curve[0];
    maxDd := 0.0;
    for i := 0 to |curve|
      invariant Fall(peak, maxDd) == Running(curve, i)
      invariant maxDd >= 0.0
    {
      var equity := curve[i];
      if equity > peak { peak := equity; }
      var dd := if peak > 0.0 then (peak - equity) / peak * 100.0 else 0.0;
      if dd > maxDd { maxDd := dd; }
    }
  }

  lemma QuotientUnique(x: real, y: real, q: real)
    requires y > 0.0 && q * y == x
    ensures x / y == q
  {
    var d := x / y;
    assert d * y == x;
    assert (d - q) * y == d * y - q * y == 0.0;
  }

  /** A drop in terms of the quotient left over. */
  lemma DropAsQuotient(peak: real, equity: real)
    requires peak > 0.0
    ensures equity / peak * peak == equity
    ensures DropPct(peak, equity) == 100.0 - equity / peak * 100.0
  {
    var x := equity / peak;
    assert x * peak == equity;
    assert (1.0 - x) * peak == peak - x * peak;
    QuotientUnique(peak - equity, peak, 1.0 - x);
  }

  lemma QuotientAntitone(lower: real, peak: real, equity: real)
    requires 0.0 < lower <= peak && 0.0 <= equity
    ensures equity / peak <= equity / lower
  {
    var x, y := equity / lower, equity / peak;
    assert x * lower == equity && y * peak == equity;
    assert y >= 0.0;
    assert y * peak >= y * lower by { assert y * (peak - lower) >= 0.0; }
    assert (x - y) * lower >= 0.0;
  }

  lemma DropMonotone(lower: real, peak: real, equity: real)
    requires 0.0 < lower <= peak && 0.0 <= equity
    ensures DropPct(lower, equity) <= DropPct(peak, equity)
  {
    DropAsQuotient(lower, equity);
    DropAsQuotient(peak, equity);
    QuotientAntitone(lower, peak, equity);
  }

  lemma DropRange(peak: real, equity: real)
    requires 0.0 < peak && equity <= peak
    ensures 0.0 <= DropPct(peak, equity)
    ensures DropPct(peak, equity) <= 100.0 <==> 0.0 <= equity
  {
    DropAsQuotient(peak, equity);
    var x := equity / peak;
    assert (1.0 - x) * peak >= 0.0;
    if x >= 0.0 { assert x * peak >= 0.0; } else { assert x * peak < 0.0; }
  }

  /** The running peak is the largest entry so far. */
  lemma {:induction false} PeakMeaning(curve: seq<real>, i: nat)
    requires 0 < |curve| && curve[0] > 0.0 && i <= |curve|
    ensures Running(curve, i).peak > 0.0
    ensures forall k :: 0 <= k < i ==> curve[k] <= Running(curve, i).peak
    ensures exists k :: 0 <= k < |curve| && (k == 0 || k < i) && curve[k] == Running(curve, i).peak
  {
    if i > 0 {
      PeakMeaning(curve, i - 1);
      var peak := Running(curve, i).peak;
      if peak != Running(curve, i - 1).peak { assert curve[i - 1] == peak; }
    }
  }

  /** The drop of entry j below the peak of its time. */
  function DropAt(curve: seq<real>, j: nat): real
    requires j < |curve|
  {
    DropPct(Running(curve, j + 1).peak, curve[j])
  }

  /** The deepest fall is the largest drop of an entry below the peak of its time. */
  lemma {:induction false} FallMeaning(curve: seq<real>, i: nat)
    requires 0 < |curve| && curve[0] > 0.0 && i <= |curve|
    ensures 0.0 <= Running(curve, i).deepest
    ensures forall j :: 0 <= j < i ==> DropAt(curve, j) <= Running(curve, i).deepest
    ensures i > 0 ==> exists j :: 0 <= j < i && DropAt(curve, j) == Running(curve, i).deepest
  {
    if i > 0 {
      FallMeaning(curve, i - 1);
      PeakMeaning(curve, i);
      DropRange(Running(curve, i).peak, curve[i - 1]);
      assert Running(curve, i).deepest == MaxReal(Running(curve, i - 1).deepest, DropAt(curve, i - 1));
    }
  }

  /** The largest pairwise fall of the curve, as a reference definition. */
  ghost predicate IsLargestFall(curve: seq<real>, d: real) {
    && (forall i, j :: 0 <= i <= j < |curve| && curve[i] > 0.0 ==> DropPct(curve[i], curve[j]) <= d)
    && (exists i, j :: 0 <= i <= j < |curve| && curve[i] > 0.0 && DropPct(curve[i], curve[j]) == d)
  }

  /** The least positive entry so far, for a curve that starts positive. */
  function Low(curve: seq<real>, i: nat): real
    requires 0 < |curve| && i <= |curve|
  {
    if i == 0 then curve[0]
    else if 0.0 < curve[i - 1] < Low(curve, i - 1) then curve[i - 1]
    else Low(curve, i - 1)
  }

  lemma {:induction false} LowMeaning(curve: seq<real>, i: nat)
    requires 0 < |curve| && curve[0] > 0.0 && i <= |curve|
    ensures Low(curve, i) > 0.0
    ensures forall k :: 0 <= k < i && curve[k] > 0.0 ==> Low(curve, i) <= curve[k]
    ensures exists k :: 0 <= k < |curve| && (k == 0 || k < i) && curve[k] == Low(curve, i)
  {
    if i > 0 {
      LowMeaning(curve, i - 1);
      if Low(curve, i) != Low(curve, i - 1) { assert curve[i - 1] == Low(curve, i); }
    }
  }

  /** The largest entry so far. */
  function Peak(curve: seq<real>, i: nat): real
    requires 0 < |curve| && i <= |curve|
  {
    if i == 0 then curve[0] else MaxReal(Peak(curve, i - 1), curve[i - 1])
  }

  lemma {:induction false} PeakIsRunning(curve: seq<real>, i: nat)
    requires 0 < |curve| && i <= |curve|
    ensures Peak(curve, i) == Running(curve, i).peak
  {
    if i > 0 { PeakIsRunning(curve, i - 1); }
  }

  /** Compared without division: b falls from the peak as deep as a from the low. */
  predicate AsDeep(peak: real, b: real, low: real, a: real) {
    a * peak >= b * low
  }

  /** The negative entry k falls as deep below its peak as the negative entry j
      below the least positive entry before it. */
  ghost predicate Outfalls(curve: seq<real>, k: nat, j: nat)
    requires k < |curve| && j < |curve|
  {
    curve[k] < 0.0 && AsDeep(Peak(curve, k + 1), curve[k], Low(curve, j + 1), curve[j])
  }

  /** Every negative entry is outfallen by some negative entry; so for every
      curve that has none. */
  ghost predicate PeaksDecide(curve: seq<real>) {
    forall j :: 0 <= j < |curve| && curve[j] < 0.0 ==> exists k :: 0 <= k < |curve| && Outfalls(curve, k, j)
  }

  lemma PositiveFactor(d: real, v: real)
    requires v > 0.0
    ensures d >= 0.0 <==> d * v >= 0.0
  {
    if d < 0.0 { assert (-d) * v > 0.0; }
  }

  lemma QuotientsDiffer(a: real, low: real, b: real, peak: real)
    requires low > 0.0 && peak > 0.0
    ensures (a / low - b / peak) * (low * peak) == a * peak - b * low
  {
    var x, y := a / low, b / peak;
    assert x * low == a && y * peak == b;
    assert x * (low * peak) == x * low * peak == a * peak;
    assert y * (low * peak) == y * peak * low == b * low;
  }

  /** Two falls below zero, compared without division. */
  lemma CompareFalls(low: real, a: real, peak: real, b: real)
    requires low > 0.0 && peak > 0.0
    ensures DropPct(low, a) <= DropPct(peak, b) <==> AsDeep(peak, b, low, a)
  {
    DropAsQuotient(low, a);
    DropAsQuotient(peak, b);
    QuotientsDiffer(a, low, b, peak);
    assert low * peak > 0.0;
    PositiveFactor(a / low - b / peak, low * peak);
  }

  lemma DeepestEntry(curve: seq<real>) returns (k: nat)
    requires |curve| >= 2 && curve[0] > 0.0
    ensures k < |curve| && DropAt(curve, k) == MaxDrawdown(curve)
    ensures exists i :: 0 <= i <= k && curve[i] > 0.0 && DropPct(curve[i], curve[k]) == MaxDrawdown(curve)
  {
    FallMeaning(curve, |curve|);
    k :| 0 <= k < |curve| && DropAt(curve, k) == MaxDrawdown(curve);
    PeakMeaning(curve, k + 1);
    var i :| 0 <= i < |curve| && (i == 0 || i < k + 1) && curve[i] == Running(curve, k + 1).peak;
    assert DropPct(curve[i], curve[k]) == MaxDrawdown(curve);
  }

  lemma Positives(curve: seq<real>, j: nat)
    requires 0 < |curve| && curve[0] > 0.0 && j < |curve|
    ensures Low(curve, j + 1) > 0.0 && Peak(curve, j + 1) > 0.0
    ensures curve[j] <= Peak(curve, j + 1)
  {
    LowMeaning(curve, j + 1);
    PeakMeaning(curve, j + 1);
    PeakIsRunning(curve, j + 1);
  }

  lemma DropAtPeak(curve: seq<real>, k: nat)
    requires k < |curve|
    ensures DropAt(curve, k) == DropPct(Peak(curve, k + 1), curve[k])
  {
    PeakIsRunning(curve, k + 1);
  }

  lemma OutfallMeans(curve: seq<real>, k: nat, j: nat)
    requires 0 < |curve| && curve[0] > 0.0 && k < |curve| && j < |curve| && curve[k] < 0.0 && curve[j] < 0.0
    ensures Outfalls(curve, k, j) <==>
      DropPct(Low(curve, j + 1), curve[j]) <= DropPct(Peak(curve, k + 1), curve[k])
  {
    Positives(curve, k);
    Positives(curve, j);
    CompareFalls(Low(curve, j + 1), curve[j], Peak(curve, k + 1), curve[k]);
  }

  /** A drop of more than 100 percent ends below zero, and the other way round. */
  lemma BelowZero(peak: real, equity: real)
    requires peak > 0.0 && equity <= peak
    ensures equity < 0.0 <==> DropPct(peak, equity) > 100.0
  {
    DropRange(peak, equity);
  }

  lemma LowIsAnEntry(curve: seq<real>, j: nat) returns (i: nat)
    requires 0 < |curve| && curve[0] > 0.0 && j < |curve|
    ensures i <= j && curve[i] == Low(curve, j + 1)
  {
    LowMeaning(curve, j + 1);
    i :| 0 <= i < |curve| && (i == 0 || i < j + 1) && curve[i] == Low(curve, j + 1);
  }

  lemma NegativeIsOutfallen(curve: seq<real>, j: nat)
    requires |curve| >= 2 && curve[0] > 0.0 && j < |curve| && curve[j] < 0.0
    requires IsLargestFall(curve, MaxDrawdown(curve))
    ensures exists k :: 0 <= k < |curve| && Outfalls(curve, k, j)
  {
    var i := LowIsAnEntry(curve, j);
    var k := DeepestEntry(curve);
    Positives(curve, j);
    Positives(curve, k);
    assert DropPct(curve[i], curve[j]) <= DropAt(curve, k);
    BelowZero(curve[i], curve[j]);
    DropAtPeak(curve, k);
    BelowZero(Peak(curve, k + 1), curve[k]);
    OutfallMeans(curve, k, j);
  }

  lemma DropAtBounded(curve: seq<real>, k: nat)
    requires |curve| >= 2 && curve[0] > 0.0 && k < |curve|
    ensures DropPct(Peak(curve, k + 1), curve[k]) <= MaxDrawdown(curve)
  {
    FallMeaning(curve, |curve|);
    DropAtPeak(curve, k);
  }

  lemma EntryBetween(curve: seq<real>, i: nat, j: nat)
    requires 0 < |curve| && curve[0] > 0.0 && i <= j < |curve| && curve[i] > 0.0
    ensures Low(curve, j + 1) <= curve[i] <= Peak(curve, j + 1)
  {
    LowMeaning(curve, j + 1);
    PeakMeaning(curve, j + 1);
    PeakIsRunning(curve, j + 1);
  }

  lemma FallAboveZero(curve: seq<real>, i: nat, j: nat)
    requires |curve| >= 2 && curve[0] > 0.0 && i <= j < |curve| && curve[i] > 0.0 && curve[j] >= 0.0
    ensures DropPct(curve[i], curve[j]) <= MaxDrawdown(curve)
  {
    EntryBetween(curve, i, j);
    DropMonotone(curve[i], Peak(curve, j + 1), curve[j]);
    DropAtBounded(curve, j);
  }

  lemma FallBelowZero(curve: seq<real>, i: nat, j: nat, k: nat)
    requires |curve| >= 2 && curve[0] > 0.0 && i <= j < |curve| && curve[i] > 0.0 && curve[j] < 0.0
    requires k < |curve| && Outfalls(curve, k, j)
    ensures DropPct(curve[i], curve[j]) <= MaxDrawdown(curve)
  {
    LowestStart(curve, i, j);
    OutfallMeans(curve, k, j);
    DropAtBounded(curve, k);
  }

  lemma LowestStart(curve: seq<real>, i: nat, j: nat)
    requires 0 < |curve| && curve[0] > 0.0 && i <= j < |curve| && curve[i] > 0.0 && curve[j] < 0.0
    ensures DropPct(curve[i], curve[j]) <= DropPct(Low(curve, j + 1), curve[j])
  {
    EntryBetween(curve, i, j);
    Positives(curve, j);
    LowerStart(Low(curve, j + 1), curve[i], curve[j]);
  }

  /** A fall below zero is deeper from a lower start. */
  lemma LowerStart(lower: real, start: real, equity: real)
    requires 0.0 < lower <= start && equity < 0.0
    ensures DropPct(start, equity) <= DropPct(lower, equity)
  {
    CompareFalls(start, equity, lower, equity);
    PositiveFactor(start - lower, -equity);
    assert (start - lower) * -equity == equity * lower - equity * start;
  }

  /** The one-pass drawdown of a curve that starts positive is the largest fall
      over all pairs of entries if and only if no negative entry falls deeper
      below an early low than some negative entry falls below its peak. */
  lemma LargestFallIff(curve: seq<real>)
    requires |curve| >= 2 && curve[0] > 0.0
    ensures IsLargestFall(curve, MaxDrawdown(curve)) <==> PeaksDecide(curve)
  {
    if PeaksDecide(curve) {
      forall i, j | 0 <= i <= j < |curve| && curve[i] > 0.0
        ensures DropPct(curve[i], curve[j]) <= MaxDrawdown(curve)
      {
        if curve[j] >= 0.0 {
          FallAboveZero(curve, i, j);
        } else {
          var k :| 0 <= k < |curve| && Outfalls(curve, k, j);
          FallBelowZero(curve, i, j, k);
        }
      }
      var k := DeepestEntry(curve);
    }
    if IsLargestFall(curve, MaxDrawdown(curve)) {
      forall j | 0 <= j < |curve| && curve[j] < 0.0 ensures exists k :: 0 <= k < |curve| && Outfalls(curve, k, j) {
        NegativeIsOutfallen(curve, j);
      }
    }
  }

  /** In particular on every curve that never goes negative. */
  lemma DrawdownIsLargestFall(curve: seq<real>)
    requires |curve| >= 2 && curve[0] > 0.0
    requires forall k :: 0 <= k < |curve| ==> curve[k] >= 0.0
    ensures IsLargestFall(curve, MaxDrawdown(curve))
  {
    LargestFallIff(curve);
  }

  /** With a positive start the drawdown lies in [0, 100] exactly when the
      equity never goes negative. */
  lemma DrawdownRange(curve: seq<real>)
    requires |curve| >= 2 && curve[0] > 0.0
    ensures 0.0 <= MaxDrawdown(curve)
    ensures MaxDrawdown(curve) <= 100.0 <==> forall k :: 0 <= k < |curve| ==> curve[k] >= 0.0
  {
    FallMeaning(curve, |curve|);
    forall j | 0 <= j < |curve| ensures DropAt(curve, j) <= 100.0 <==> curve[j] >= 0.0 {
      PeakMeaning(curve, j + 1);
      DropRange(Running(curve, j + 1).peak, curve[j]);
    }
    var j :| 0 <= j < |curve| && DropAt(curve, j) == MaxDrawdown(curve);
  }

  /** Once the equity is negative the pairwise reading fails: the peak gives a
      smaller percentage than an earlier, lower entry. */
  lemma NegativeEquityBreaksLargestFall()
    ensures var curve := [1.0, 2.0, -1.0]; MaxDrawdown(curve) == 150.0 && !IsLargestFall(curve, 150.0)
  {
    var curve := [1.0, 2.0, -1.0];
    assert Running(curve, 0) == Fall(1.0, 0.0);
    assert Running(curve, 1) == Fall(1.0, 0.0);
    assert Running(curve, 2) == Fall(2.0, 0.0);
    assert Running(curve, 3) == Fall(2.0, 150.0);
    assert DropPct(curve[0], curve[2]) == 200.0;
  }

  function Scale(a: real, curve: seq<real>): seq<real> {
    seq(|curve|, i requires 0 <= i < |curve| => a * curve[i])
  }

  lemma DropScale(a: real, peak: real, equity: real)
    requires a > 0.0
    ensures DropPct(a * peak, a * equity) == DropPct(peak, equity)
  {
    if peak > 0.0 {
      var x := (peak - equity) / peak;
      assert x * peak == peak - equity;
      assert a * peak > 0.0;
      assert x * (a * peak) == a * (x * peak) == a * peak - a * equity;
      QuotientUnique(a * peak - a * equity, a * peak, x);
    } else {
      assert a * peak <= 0.0;
    }
  }

  lemma MaxScale(a: real, x: real, y: real)
    requires a > 0.0
    ensures MaxReal(a * x, a * y) == a * MaxReal(x, y)
  {
    if x >= y { assert a * (x - y) >= 0.0; } else { assert a * (y - x) > 0.0; }
  }

  ghost predicate ScaledFall(a: real, f: Fall, g: Fall) {
    g.peak == a * f.peak && g.deepest == f.deepest
  }

  lemma NextScale(a: real, f: Fall, g: Fall, e: real)
    requires a > 0.0 && ScaledFall(a, f, g)
    ensures ScaledFall(a, Next(f, e), Next(g, a * e))
  {
    MaxScale(a, f.peak, e);
    DropScale(a, MaxReal(f.peak, e), e);
  }

  /** A relation that one entry keeps is kept by the whole pass. */
  lemma {:induction false} RunningRelated(curve: seq<real>, image: seq<real>, rel: (Fall, Fall) -> bool, i: nat)
    requires |image| == |curve| > 0 && i <= |curve|
    requires rel(Running(curve, 0), Running(image, 0))
    requires forall j, f, g :: 0 <= j < |curve| && rel(f, g) ==> rel(Next(f, curve[j]), Next(g, image[j]))
    ensures rel(Running(curve, i), Running(image, i))
  {
    if i > 0 { RunningRelated(curve, image, rel, i - 1); }
  }

  lemma ScaledRuns(a: real, curve: seq<real>, rel: (Fall, Fall) -> bool)
    requires a > 0.0 && 0 < |curve|
    requires forall f, g :: rel(f, g) <==> ScaledFall(a, f, g)
    ensures rel(Running(curve, |curve|), Running(Scale(a, curve), |curve|))
  {
    var image := Scale(a, curve);
    assert rel(Fall(curve[0], 0.0), Fall(image[0], 0.0));
    forall j, f, g | 0 <= j < |curve| && rel(f, g) ensures rel(Next(f, curve[j]), Next(g, image[j])) {
      NextScale(a, f, g, curve[j]);
    }
    RunningRelated(curve, image, rel, |curve|);
  }

  /** The drawdown does not depend on the currency unit. */
  lemma DrawdownScaleFree(a: real, curve: seq<real>)
    requires a > 0.0
    ensures MaxDrawdown(Scale(a, curve)) == MaxDrawdown(curve)
  {
    if |curve| >= 2 {
      ghost var rel := (f: Fall, g: Fall) => ScaledFall(a, f, g);
      ScaledRuns(a, curve, rel);
      SameDeepest(a, curve, rel);
    }
  }

  lemma SameDeepest(a: real, curve: seq<real>, rel: (Fall, Fall) -> bool)
    requires |curve| >= 2
    requires forall f, g :: rel(f, g) ==> f.deepest == g.deepest
    requires rel(Running(curve, |curve|), Running(Scale(a, curve), |curve|))
    ensures MaxDrawdown(Scale(a, curve)) == MaxDrawdown(curve)
  {
  }

  // ----- trade statistics -----

  /** `profitFactor` is None for the infinite value. */
  datatype Report = Report(
    totalReturnPct: real, totalPnl: real,
    tradeCount: nat, winCount: nat, lossCount: nat, winRate: real,
    avgWin: real, avgLoss: real, profitFactor: Option<real>,
    maxDrawdownPct: real, avgTradePnl: real, largestWin: real, largestLoss: real)

  function Sum(ps: seq<real>): real {
    if ps == [] then 0.0 else Sum(ps[..|ps| - 1]) + ps[|ps| - 1]
  }

  /** The trades that have a P&L. */
  function Realised(pnls: seq<Option<real>>): seq<real> {
    if pnls == [] then []
    else
      var last := pnls[|pnls| - 1];
      Realised(pnls[..|pnls| - 1]) + (if last.Some? then [last.value] else [])
  }

  function Wins(ps: seq<real>): seq<real> {
    if ps == [] then []
    else Wins(ps[..|ps| - 1]) + (if ps[|ps| - 1] > 0.0 then [ps[|ps| - 1]] else [])
  }

  function Losses(ps: seq<real>): seq<real> {
    if ps == [] then []
    else Losses(ps[..|ps| - 1]) + (if ps[|ps| - 1] <= 0.0 then [ps[|ps| - 1]] else [])
  }

  function Largest(ps: seq<real>): real
    requires ps != []
  {
    if |ps| == 1 then ps[0] else MaxReal(ps[0], Largest(ps[1..]))
  }

  function Smallest(ps: seq<real>): real
    requires ps != []
  {
    if |ps| == 1 then ps[0] else MinReal(ps[0], Smallest(ps[1..]))
  }

  const EmptyReport: Report :=
    Report(0.0, 0.0, 0, 0, 0, 0.0, 0.0, 0.0, Some(0.0), 0.0, 0.0, 0.0, 0.0)

  /** The sum of the losing trades, as a magnitude. */
  function GrossLoss(ps: seq<real>): real {
    var lossSum := Sum(Losses(ps));
    if lossSum < 0.0 then -lossSum else lossSum
  }

  function Average(total: real, n: nat): real {
    if n == 0 then 0.0 else total / n as real
  }

  function AvgWin(ps: seq<real>): real {
    Average(Sum(Wins(ps)), |Wins(ps)|)
  }

  function AvgLoss(ps: seq<real>): real {
    Average(-GrossLoss(ps), |Losses(ps)|)
  }

  function WinRate(ps: seq<real>): real
    requires ps != []
  {
    |Wins(ps)| as real / |ps| as real * 100.0
  }

  function ProfitFactor(ps: seq<real>): Option<real> {
    if GrossLoss(ps) > 0.0 then Some(Sum(Wins(ps)) / GrossLoss(ps)) else None
  }

  function TotalReturnPct(final: real, initial: real): real
    requires initial != 0.0
  {
    (final - initial) / initial * 100.0
  }

  /** None when the initial capital is zero and there are closed trades: the
      program divides by it. */
  function Compute(pnls: seq<Option<real>>, curve: seq<real>, initial: real): Option<Report> {
    var ps := Realised(pnls);
    if ps == [] then Some(EmptyReport)
    else if initial == 0.0 then None
    else
      Some(Report(
        TotalReturnPct(if curve == [] then initial else curve[|curve| - 1], initial),
        Sum(ps),
        |ps|, |Wins(ps)|, |Losses(ps)|,
        WinRate(ps), AvgWin(ps), AvgLoss(ps), ProfitFactor(ps),
        MaxDrawdown(curve),
        Average(Sum(ps), |ps|),
        if Wins(ps) == [] then 0.0 else Largest(Wins(ps)),
        if Losses(ps) == [] then 0.0 else Smallest(Losses(ps))))
  }

  lemma SumPush(ps: seq<real>, x: real)
    ensures Sum(ps + [x]) == Sum(ps) + x
  {
    assert (ps + [x])[..|ps|] == ps;
  }

  /** Wins and losses split the trades and their P&L. */
  lemma {:induction false} SplitSums(ps: seq<real>)
    ensures Sum(Wins(ps)) + Sum(Losses(ps)) == Sum(ps)
    ensures |Wins(ps)| + |Losses(ps)| == |ps|
    ensures Sum(Losses(ps)) <= 0.0 <= Sum(Wins(ps))
    ensures Wins(ps) != [] <==> Sum(Wins(ps)) > 0.0
  {
    if ps != [] {
      var init, last := ps[..|ps| - 1], ps[|ps| - 1];
      SplitSums(init);
      if last > 0.0 {
        SumPush(Wins(init), last);
        assert Losses(ps) == Losses(init);
      } else {
        SumPush(Losses(init), last);
        assert Wins(ps) == Wins(init);
      }
    }
  }

  lemma QuotientTimes(x: real, n: real)
    requires n != 0.0
    ensures x / n * n == x
  {
  }

  lemma QuotientAboveOne(x: real, n: real)
    requires n > 0.0
    ensures x / n > 1.0 <==> x > n
  {
    var q := x / n;
    QuotientTimes(x, n);
    assert (q - 1.0) * n == x - n;
    if q > 1.0 { Positive(q - 1.0, n); } else { Positive(1.0 - q, n); assert (1.0 - q) * n == n - x; }
  }

  lemma QuotientUnitInterval(x: real, n: real)
    requires n > 0.0 && 0.0 <= x <= n
    ensures 0.0 <= x / n <= 1.0
    ensures x / n == 1.0 <==> x == n
  {
    var q := x / n;
    QuotientTimes(x, n);
    assert (1.0 - q) * n == n - x;
  }

  lemma Positive(x: real, n: real)
    requires n > 0.0
    ensures x > 0.0 ==> x * n > 0.0
    ensures x >= 0.0 ==> x * n >= 0.0
  {
  }

  /** The win rate lies in [0, 100] and is 100 exactly without a losing trade. */
  lemma WinRateRange(ps: seq<real>)
    requires ps != []
    ensures 0.0 <= WinRate(ps) <= 100.0
    ensures WinRate(ps) == 100.0 <==> Losses(ps) == []
  {
    SplitSums(ps);
    QuotientUnitInterval(|Wins(ps)| as real, |ps| as real);
  }

  /** The profit factor is infinite exactly when nothing was lost, and above
      one exactly for a net gain. */
  lemma ProfitFactorMeaning(ps: seq<real>)
    ensures ProfitFactor(ps).None? <==> Sum(Losses(ps)) == 0.0
    ensures ProfitFactor(ps).Some? ==> (ProfitFactor(ps).value > 1.0 <==> Sum(ps) > 0.0)
  {
    SplitSums(ps);
    if GrossLoss(ps) > 0.0 { QuotientAboveOne(Sum(Wins(ps)), GrossLoss(ps)); }
  }

  // ----- what the fields of a report say -----

  /** Wins are the positive amounts and losses the others, and together they are all. */
  lemma SplitMeaning(ps: seq<real>)
    ensures multiset(Wins(ps)) + multiset(Losses(ps)) == multiset(ps)
    ensures forall x :: x in Wins(ps) <==> x in ps && x > 0.0
    ensures forall x :: x in Losses(ps) <==> x in ps && x <= 0.0
  {
    Parts(ps);
    WinsOf(ps);
    LossesOf(ps);
  }

  lemma {:induction false} WinsOf(ps: seq<real>)
    ensures forall x :: x in Wins(ps) <==> x in ps && x > 0.0
  {
    if ps != [] {
      WinsOf(ps[..|ps| - 1]);
      assert ps == ps[..|ps| - 1] + [ps[|ps| - 1]];
    }
  }

  lemma {:induction false} LossesOf(ps: seq<real>)
    ensures forall x :: x in Losses(ps) <==> x in ps && x <= 0.0
  {
    if ps != [] {
      LossesOf(ps[..|ps| - 1]);
      assert ps == ps[..|ps| - 1] + [ps[|ps| - 1]];
    }
  }

  lemma {:induction false} Parts(ps: seq<real>)
    ensures multiset(Wins(ps)) + multiset(Losses(ps)) == multiset(ps)
  {
    if ps != [] {
      Parts(ps[..|ps| - 1]);
      assert ps == ps[..|ps| - 1] + [ps[|ps| - 1]];
    }
  }

  ghost function WinPlaces(ps: seq<real>): set<nat> {
    set i: nat | i < |ps| && ps[i] > 0.0
  }

  lemma {:induction false} CountWins(ps: seq<real>)
    ensures |WinPlaces(ps)| == |Wins(ps)|
  {
    if ps != [] {
      var init, n := ps[..|ps| - 1], |ps| - 1;
      CountWins(init);
      assert WinPlaces(ps) == WinPlaces(init) + if ps[n] > 0.0 then {n} else {};
    }
  }

  lemma {:induction false} LargestMeaning(ps: seq<real>)
    requires ps != []
    ensures Largest(ps) in ps && forall x :: x in ps ==> x <= Largest(ps)
  {
    if |ps| > 1 {
      LargestMeaning(ps[1..]);
      assert ps == [ps[0]] + ps[1..];
    }
  }

  lemma {:induction false} SmallestMeaning(ps: seq<real>)
    requires ps != []
    ensures Smallest(ps) in ps && forall x :: x in ps ==> Smallest(ps) <= x
  {
    if |ps| > 1 {
      SmallestMeaning(ps[1..]);
      assert ps == [ps[0]] + ps[1..];
    }
  }

  /** What n trades of the same amount come to. */
  function Times(x: real, n: nat): real {
    x * n as real
  }

  lemma AverageTimes(total: real, n: nat)
    requires n == 0 ==> total == 0.0
    ensures Times(Average(total, n), n) == total
  {
    if n > 0 { QuotientTimes(total, n as real); }
  }

  lemma PercentTimes(k: real, n: real)
    requires n > 0.0
    ensures k / n * 100.0 * n == 100.0 * k
  {
    var q := k / n;
    QuotientTimes(k, n);
    assert q * 100.0 * n == 100.0 * (q * n);
  }

  lemma WinRateTimes(ps: seq<real>)
    requires ps != []
    ensures Times(WinRate(ps), |ps|) == 100.0 * |Wins(ps)| as real
  {
    PercentTimes(|Wins(ps)| as real, |ps| as real);
  }

  lemma NetLoss(ps: seq<real>)
    ensures -GrossLoss(ps) == Sum(Losses(ps))
  {
    SplitSums(ps);
  }

  lemma AvgWinTimes(ps: seq<real>)
    ensures Times(AvgWin(ps), |Wins(ps)|) == Sum(Wins(ps))
  {
    AverageTimes(Sum(Wins(ps)), |Wins(ps)|);
  }

  lemma AvgLossTimes(ps: seq<real>)
    ensures Times(AvgLoss(ps), |Losses(ps)|) == Sum(Losses(ps))
  {
    NetLoss(ps);
    AverageTimes(-GrossLoss(ps), |Losses(ps)|);
  }

  /** Gross gain over gross loss, without division. */
  predicate IsFactor(factor: Option<real>, gain: real, loss: real) {
    match factor
    case None => loss == 0.0
    case Some(f) => f * loss == -gain
  }

  lemma FactorTimes(ps: seq<real>)
    ensures IsFactor(ProfitFactor(ps), Sum(Wins(ps)), Sum(Losses(ps)))
  {
    NetLoss(ps);
    SplitSums(ps);
    if GrossLoss(ps) > 0.0 { NegativeQuotient(Sum(Wins(ps)), GrossLoss(ps)); }
  }

  lemma NegativeQuotient(gain: real, loss: real)
    requires loss > 0.0
    ensures gain / loss * -loss == -gain
  {
    QuotientTimes(gain, loss);
  }

  /** The counts and rates of a report on the given amounts. */
  ghost predicate CountsTrades(r: Report, ps: seq<real>) {
    && r.tradeCount == |ps|
    && r.winCount == |set i: nat | i < |ps| && ps[i] > 0.0|
    && r.winCount + r.lossCount == |ps|
    && Times(r.winRate, r.tradeCount) == 100.0 * r.winCount as real
  }

  /** Its amounts: the averages add up to the total, the gross gain is that of
      the positive amounts, and the profit factor is gross gain over gross loss,
      infinite exactly without a loss of money. */
  ghost predicate SumsTrades(r: Report, ps: seq<real>) {
    && r.totalPnl == Sum(ps)
    && Times(r.avgTradePnl, r.tradeCount) == r.totalPnl
    && Times(r.avgWin, r.winCount) == Sum(Wins(ps))
    && Times(r.avgWin, r.winCount) + Times(r.avgLoss, r.lossCount) == r.totalPnl
    && IsFactor(r.profitFactor, Times(r.avgWin, r.winCount), Times(r.avgLoss, r.lossCount))
    && (r.winCount == 0 ==> r.avgWin == 0.0)
    && (r.lossCount == 0 ==> r.avgLoss == 0.0)
  }

  /** Its extremes: the largest amount if any is positive, the least if any is
      not; otherwise zero. */
  ghost predicate BoundsTrades(r: Report, ps: seq<real>) {
    && (if exists x :: x in ps && x > 0.0
        then r.largestWin in ps && forall x :: x in ps ==> x <= r.largestWin
        else r.largestWin == 0.0)
    && (if exists x :: x in ps && x <= 0.0
        then r.largestLoss in ps && forall x :: x in ps ==> r.largestLoss <= x
        else r.largestLoss == 0.0)
  }

  lemma CountsHold(pnls: seq<Option<real>>, curve: seq<real>, initial: real)
    requires Realised(pnls) != [] && initial != 0.0
    ensures CountsTrades(Compute(pnls, curve, initial).value, Realised(pnls))
  {
    var ps := Realised(pnls);
    CountWins(ps);
    SplitSums(ps);
    WinRateTimes(ps);
  }

  lemma SumsHold(pnls: seq<Option<real>>, curve: seq<real>, initial: real)
    requires Realised(pnls) != [] && initial != 0.0
    ensures SumsTrades(Compute(pnls, curve, initial).value, Realised(pnls))
  {
    var ps := Realised(pnls);
    SplitSums(ps);
    AvgWinTimes(ps);
    AvgLossTimes(ps);
    FactorTimes(ps);
    AverageTimes(Sum(ps), |ps|);
  }

  lemma BoundsHold(pnls: seq<Option<real>>, curve: seq<real>, initial: real)
    requires Realised(pnls) != [] && initial != 0.0
    ensures BoundsTrades(Compute(pnls, curve, initial).value, Realised(pnls))
  {
    var ps := Realised(pnls);
    SplitMeaning(ps);
    if Wins(ps) != [] { LargestMeaning(Wins(ps)); assert Wins(ps)[0] in Wins(ps); }
    if Losses(ps) != [] { SmallestMeaning(Losses(ps)); assert Losses(ps)[0] in Losses(ps); }
  }

  /** What a percentage of the capital comes to. */
  function AmountOf(pct: real, capital: real): real {
    pct / 100.0 * capital
  }

  /** A return in percent is the gain relative to the initial capital. */
  lemma ReturnBack(final: real, initial: real)
    requires initial != 0.0
    ensures AmountOf(TotalReturnPct(final, initial), initial) == final - initial
  {
    var q := (final - initial) / initial;
    assert q * initial == final - initial;
  }
}
