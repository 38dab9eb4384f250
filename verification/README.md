# Verified model of an intraday trading bot

This project models the parts of the trading bot that keep state over a whole
run, and proves laws of those runs in Dafny: the backtest replay and its
metrics, order execution and the end-of-day close against an unreliable broker
and database, the risk manager, the login limiter, the stream-token store, the
log cursor, the daily universe selection, and the retrain jobs with their
version manifest. `dafny verify dfyconfig.toml` checks everything.

Prices, equity and clocks are reals, share counts and ids are integers, NaN and
None are the option type of module `Common`. What the outside world decides is
an input or a nondeterministic choice: model predictions and indicators, the
broker's replies and fills, whether a database or file operation succeeds, and
the clock, which never goes back.

| module | models | how |
|---|---|---|
| Backtest, BacktestLaws, TradeLaws | bot/backtesting/engine.py | the bar loop as a fold, a declarative trade-list specification, and the laws of both |
| BacktestEngine, Metrics | bot/backtesting/engine.py, metrics.py | the imperative loops, proved against the fold and the metric functions |
| Ledger | db/models.py, executor and close semantics | rows, orders, positions, cash and when they agree |
| Desk | bot/orders/executor.py, eod_close.py, entry guard of bot/core/engine.py | one class holding trades table, order book and clock, with a nondeterministic broker and a database whose failing calls are an input |
| Risk, TradingDay | bot/risk/manager.py, entry path of bot/core/engine.py | breaker, sizing and the one-pass query; a state machine over a day of ticks and closes |
| RateLimit | web/api/auth.py | pruned deques against the full failure history |
| StreamTokens | web/api/logs_stream.py | the token dictionary against the full issue history |
| LogCursor | web/api/logs_stream.py | the batched cursor over an append-only log |
| Universe | bot/universe/selector.py, bot/core/engine.py, web/api/universe.py | selector, stored row, and every interleaving of scans and decisions |
| Versions, Retrain | bot/ml/versioning.py, web/api/ml_admin.py | the manifest, and every interleaving of job threads at the granularity of one session block, lock operation or manifest operation |

Each imperative method ends in the state that a function of its inputs gives,
and the laws are proved about that function over every input and every run.

## Laws that hold only under a condition

Several statements a reader may expect of the code are false in general. Each
has a concrete failing case and the condition under which it holds, as an
if-and-only-if.

- For a curve that starts positive, the one-pass drawdown is the largest
  pairwise fall exactly when no negative entry falls deeper below an early low
  than some negative entry falls below its peak (`LargestFallIff`), so on every
  nonnegative curve; `NegativeEquityBreaksLargestFall` fails it. It is at most
  100% exactly when equity never goes negative (`DrawdownRange`).
- `execute` moves the position as it reports always when the limit order is
  reported filled, after a market fill exactly when the limit order did not fill
  beside it, and after a failure exactly when nothing filled (`EntryExactIff`,
  `DoubleFillMovesTwice`). If cancels take effect this is decided when the
  cancel request returns (`CancelDecides`); with no fill after a wait gave up it
  always holds (`OrderlyBrokerIsExact`). The market order of a failed entry is
  left working, and breaks the agreement exactly when it fills later
  (`AgreeLaterIff`).
- A close sends one order for the whole position, but marks only the newest row
  of the symbol, even when no fill was reported. If the order fills, the books
  agree afterwards exactly when that row carries the whole position and the fill
  was reported, or came at the entry price; if it does not, exactly when the row
  was never recorded as filled (`CloseAgreesIff`, `UnreportedFillLosesPnl`). A
  close that is refused, or a missing broker, leaves a row filled overnight; the
  guard looks at rows of the day only and lets the symbol in again, and the next
  close loses the older row's P&L (`OvernightRowLosesPnl`).
- A close run whose fills are all reported always ends flat. Table and broker
  agree then exactly when every position was covered by the newest open row of
  its symbol (`CloseRunAgreesIff`), and the cash is the recorded P&L less what
  the rows still filled have paid (`CashIsPnlLessStakes`). A table with no open
  row and at most one filled row per symbol always covers (`CleanCovers`), and
  an entry keeps it so exactly when its row is not left open and does not join a
  position held overnight (`ExecutedCleanIff`). So a day that starts level, with
  nothing held from earlier days, ends flat with its cash the recorded P&L when
  its entries are orderly and its closes reported (`TradeDay`).
- Closing the reported position leaves the symbol flat, however the market
  moves, exactly when no order of the symbol is still working
  (`CloseIsSafeIff`); a repeated close beside a working one reverses the
  position (`RepeatedCloseReverses`).
- With no live trade the tripped breaker stops every tick exactly while no tick
  brings a portfolio value at which the day's statistics no longer trip it
  (`BreakerHoldsIff`, `RiseLiftsTheBreaker`); with a live trade, a close lifts it
  exactly when its P&L brings streak and loss below their limits
  (`CloseLiftsIff`, `OpenWinnerLiftsTheBreaker`).
- A client that resumes the log with `since_id` gets every later row exactly
  when the sync failed, so that the polls bring them, or at most 50 were waiting
  at it (`ResumeIff`, `ResumeSkipsARow`). There is no gap exactly when the sync
  sent nothing or no matching row after its last one has an id up to `since_id`
  (`NoGapIff`).
- The log stream and the approval reader use rows after their session block has
  closed. What they deliver, they deliver exactly when rows stay readable then
  (`BacklogDrains`, `UnreadableRowsAreNeverSent`, `DecisionIsRead`). The session
  factory of db/session.py:87 leaves rows to expire at the commit, so that with
  it the stream sends only error events and the engine reads no approval.
- A row that has left `pending_approval` stays as it is exactly when a user
  decided it or no scan of its date brings something else
  (`StaysOutOfPendingIff`, `PendingComesBack`).
- The retrain rows marked running are that of the lock holder at work and those
  whose final write failed or was never reached (`RunningRows`, `TwoRunning`),
  so at most one if every final write takes effect.
- A version stays registered until some other version is registered while the
  manifest cannot be read (`ForgottenIff`), or an overlapping rollback writes
  back a manifest it loaded earlier (`OverlappingRollbackForgets`).

Where the code and its own description differ, the model follows the code: the
universe API says that a row out of `pending_approval` never changes again, the
ML admin API says its lock allows one training at a time, which holds for the
lock but not for the rows marked running, and the resume parameter of the log
stream is bounded by the first sync of 50 rows; the conditions are above.

## Model

| member | source | states |
|---|---|---|
| BacktestEngine.ReplayBars | bot/backtesting/engine.py:139-203 | the bar loop with its five variables ends in the state of the per-bar fold |
| BacktestEngine.Run | bot/backtesting/engine.py:114-244 | a whole run returns the outcome of the fold with the forced close, its trade list meets the declarative specification, an indicator failure returns the untouched capital, and a zero capital with trades has no report |
| BacktestLaws.CheckExitMeaning | bot/backtesting/engine.py:283-298 | the exit check is decided by the two level tests, the stop winning when a bar touches both levels |
| BacktestLaws.StepTracks | bot/backtesting/engine.py:139-203 | one bar keeps: equity is capital plus P&L, day counters count entries, every trade closed at its first touch, the open position is untouched so far |
| BacktestLaws.RunIsReplay | bot/backtesting/engine.py:139-224 | each trade enters at the first eligible bar after its predecessor and exits at the first later bar touching a level, at that level, or is never touched and closes at the last close |
| BacktestLaws.ReplayIffRun | bot/backtesting/engine.py:139-224 | a trade list meets that specification if and only if it is the list the run produces |
| BacktestLaws.EquityConservation | bot/backtesting/engine.py:154-224 | one curve entry per bar, entry j is the capital plus P&L exited by bar j, the last entry is the final equity, which is the capital plus all P&L |
| BacktestLaws.NoLookAhead | bot/backtesting/engine.py:139-224 | given per-bar signals, the run on the first k bars makes the trades the full run closed by bar k, plus the forced close of the position the full run holds there, and the same curve up to the last entry, in it too without a forced close |
| BacktestLaws.HeldPositionCloses | bot/backtesting/engine.py:147-168 | the position held after k bars is the next trade of the full run, closed at bar k or later unless the data ends |
| TradeLaws.TradeShape | bot/backtesting/engine.py:171-201 | a trade enters after the warm-up, not before its predecessor's exit, under the day limit, with a positive ATR |
| TradeLaws.EveryEntryIsLicensed | bot/backtesting/engine.py:171-201 | every trade of a run enters from bar 60 on at a bar whose own inputs license it: a predicted side at or above the minimum probability, EMA cross and MACD missing, or 1 and positive for a long and 0 and negative for a short, a positive ATR and close; it enters at that close, for the whole shares its share of the equity buys, at least one |
| TradeLaws.EveryLicensedBarEnters | bot/backtesting/engine.py:171-201 | conversely, every licensed bar from 60 on with no trade open and the day below its limit is the entry bar of some trade, in the predicted direction |
| TradeLaws.EveryExitIsFirstTouch | bot/backtesting/engine.py:147-224 | every trade of a run ends at the first later bar that reaches its stop or target, at that level, the stop winning a tie, or at the last close if none does; stop and target lie their ATR multiples from the entry price, on opposite sides for long and short |
| TradeLaws.OnePositionAtATime | bot/backtesting/engine.py:148-201 | at most one position at a time, entry bars strictly increase from 60 on, and no date exceeds the daily limit even if its bars are not adjacent |
| TradeLaws.PnlBounds | bot/backtesting/engine.py:206-304 | a stop loses exactly and a target wins exactly its distance times shares, and every forced close lies between them |
| TradeLaws.MirrorLaw | bot/backtesting/engine.py:250-336 | reflecting all prices about a constant and exchanging long and short gives the same trades reflected: same bars, reasons and P&L per share |
| Metrics.ComputeMaxDrawdown | bot/backtesting/metrics.py:60-75 | the loop returns the deepest fall below the running peak, never negative |
| Metrics.PeakMeaning | bot/backtesting/metrics.py:65-70 | the running peak is an entry of the curve and no earlier entry exceeds it |
| Metrics.FallMeaning | bot/backtesting/metrics.py:68-75 | the deepest fall is attained by some entry below the peak of its time and bounds all of them |
| Metrics.LargestFallIff | bot/backtesting/metrics.py:60-75 | for every positive start it is the maximum over all pairs if and only if every negative entry below an early low is outfallen by a negative entry below its peak |
| Metrics.DrawdownIsLargestFall | bot/backtesting/metrics.py:60-75 | in particular on every curve that never goes negative it is the maximum over all pairs i <= j of the fall from i to j |
| Metrics.DrawdownRange | bot/backtesting/metrics.py:60-75 | with a positive start it is at most 100 if and only if the equity never goes negative |
| Metrics.NegativeEquityBreaksLargestFall | bot/backtesting/metrics.py:60-75 | a curve with negative equity on which the pairwise reading fails |
| Metrics.DrawdownScaleFree | bot/backtesting/metrics.py:60-75 | scaling the curve by a positive factor leaves the drawdown unchanged |
| Metrics.SplitSums | bot/backtesting/metrics.py:32-38 | wins and losses partition the trades and add up to the total P&L |
| Metrics.SplitMeaning | bot/backtesting/metrics.py:33-34 | wins are exactly the positive amounts, losses exactly the others, and together they are the whole multiset |
| Metrics.WinRateRange | bot/backtesting/metrics.py:48 | the win rate lies in 0 to 100 and is 100 exactly when no trade failed to win |
| Metrics.ProfitFactorMeaning | bot/backtesting/metrics.py:51 | infinite exactly when nothing was lost, above one exactly for a net gain |
| BacktestEngine.RealisedPnl | bot/backtesting/metrics.py:27-36 | the realised P&L that the metrics sum is the P&L of the run's trades |
| BacktestEngine.ReportAgrees | bot/backtesting/metrics.py:27-57 | for every run the report counts every trade, and its total return of the capital, its total P&L and final equity minus capital are the same amount; there is no report exactly for a zero capital with trades |
| BacktestEngine.ReportDetails | bot/backtesting/metrics.py:27-57 | for every run: win and loss counts are those of its trades, win rate times trade count is 100 times the wins, each average times its count adds up to the total P&L, the profit factor times the gross loss is the gross gain, largest win and loss are attained and bound every trade, the drawdown is that of the run's own curve; without trades every field is zero |
| Ledger.StepKeepsOneAlive | bot/core/engine.py:512-532 | a guarded step of the engine keeps at most one pending, open, filled or dryrun row per symbol and day |
| Ledger.OneAliveForever | bot/core/engine.py:512-552 | over every run of guarded steps at most one row per symbol and day is pending, open, filled or dryrun, and no row leaves a terminal status or changes symbol, side, shares or day |
| Ledger.PositionHasRow | bot/orders/eod_close.py:175-182 | in a clean table a nonzero position is exactly one filled row's signed shares |
| Ledger.FlatBookIsPnl | bot/orders/eod_close.py:186-202 | a flat book in agreement with a clean table has moved exactly the recorded P&L in cash and no row is filled |
| Ledger.CashIsPnlLessStakes | bot/orders/eod_close.py:186-202 | in any agreement the cash moved is the recorded P&L less what the rows still filled have paid |
| Ledger.PlacedMoves | bot/orders/executor.py:217-293 | an entry moves its own symbol by filled orders times signed shares and no other symbol |
| Ledger.DoubleFillMovesTwice | bot/orders/executor.py:281-293 | limit and market order both filling, the failing case |
| Ledger.EntryAgreesIff | bot/orders/executor.py:241-319 | an entry, into whatever table, leaves positions and cash in agreement exactly when as many of its orders filled as its row claims |
| Ledger.EntryCleanIff | bot/orders/executor.py:241-319 | a new row leaves a clean table clean exactly when it is not left open and, if filled, is its symbol's only filled row |
| Ledger.AgreeLaterIff | bot/orders/executor.py:286-333 | an order left working after its wait gave up breaks the agreement exactly when it fills after all |
| Ledger.CloseIsSafeIff | bot/orders/eod_close.py:81-114 | a close sized from the reported position leaves the symbol flat for every evolution of the book exactly when no order of the symbol was still working |
| Ledger.RepeatedCloseReverses | bot/orders/eod_close.py:81-114 | if an earlier closing order fills beside a later one the position reverses |
| Ledger.LastOpenMeaning | bot/orders/eod_close.py:175-184 | the row to close is the newest open or filled one of the symbol, none exactly when there is none |
| Ledger.CloseRecords | bot/orders/eod_close.py:175-204 | the marked row alone changes: it is closed at the exit price, with the P&L of exit minus fill for a long and fill minus exit for a short times its shares, and none without a fill price |
| Ledger.CloseSettles | bot/orders/eod_close.py:111-117 | a reported close of a position that the newest open row carries flattens that symbol and no other and keeps positions and cash in agreement, longs and shorts alike |
| Ledger.CleanCovers | bot/orders/eod_close.py:175-182 | in a clean table the row a close marks carries the whole position |
| Ledger.CloseEffect | bot/orders/eod_close.py:81-117 | a reported close of a whole position takes it off the table exactly when its newest open row carried it all, and then the table's cash moves with the broker's |
| Ledger.CloseAgreesIff | bot/orders/eod_close.py:81-117 | agreement survives a close whose order fills exactly when the newest open row carries the whole position and the fill was reported or came at the entry price, and one whose order does not fill exactly when that row was never recorded as filled |
| Ledger.UnreportedFillLosesPnl | bot/orders/eod_close.py:114-117 | a settled book and a fill that is never reported: flat position, 100 in cash, no P&L recorded, no agreement |
| Ledger.OvernightRowLosesPnl | bot/orders/eod_close.py:165-202 | ten shares held overnight, ten more let in the next day, twenty sold with a reported fill: settled before, flat after, 400 in cash, 100 recorded, one row still filled |
| Desk.Desk.WaitForFill | bot/orders/executor.py:341-372 | a returned price is that of a real fill and of the first priced reply; without one the wait was interrupted, told the order is gone, or reached its deadline; there are at most timeout/2 polls, rounded up |
| Desk.Desk.SendLimit | bot/orders/executor.py:219-251 | the limit order goes out as decided, the row turns open with its order id, or error when refused, unless that write fails, and the fill returned is that of a wait that gave up rightly or heard a price |
| Desk.Desk.FallBack | bot/orders/executor.py:281-319 | the cancel request precedes at most one market order, whose wait of 15 seconds gave up rightly or heard a price, and whose fill or failure the row records unless that write fails |
| Desk.Desk.Trade | bot/orders/executor.py:217-333 | the paper and live path as one script of events with the row, result, orders and waits of its ending, whatever the broker and the database do |
| Desk.Desk.Execute | bot/orders/executor.py:142-333 | for every broker behaviour and every pattern of failing writes: the exact journal, result, orders, row and waits of one ending, a limit fill only if reported while waiting and a market order only after that wait gave up rightly, and no row or order without approval or insert |
| Desk.SuccessIff | bot/orders/executor.py:142-333 | an entry that reaches the broker succeeds exactly when the last reply it heard is a priced fill, a dry run whenever its row is inserted; a success names a filled order of the entry at the reported price, a failure names none, and the trade id is that of the new row |
| Desk.LimitFilledIff | bot/orders/executor.py:249-272 | of the endings that waited the entry ends with the limit fill exactly when the replies heard for the limit order end in a priced fill |
| Desk.FailClosed | bot/orders/executor.py:154-293 | every order sent follows the insert of its row, at most a limit then a market order, the market order only after a cancel request |
| Desk.RowIsHonest | bot/orders/executor.py:186-319 | whichever writes fail the row only moves forward, is filled only at the reported price of a success and with the id of the order that filled, in error only after a failure, and still open or pending exactly when its outcome could not be written, open with its order id exactly when the mark could |
| Desk.ExecutedAgreesIff | bot/orders/executor.py:217-333 | from agreement table and broker agree after an entry exactly if it moved the position as reported or, with its outcome unwritten, nothing filled |
| Desk.ExecutedCleanIff | bot/core/engine.py:512-532 | an entry past the guard leaves a clean table clean exactly if its row is not left open and, if filled, no filled row of the symbol is left from an earlier day |
| Desk.EntryExactIff | bot/orders/executor.py:251-333 | the position moves up by the shares of a long and down by those of a short on a reported fill and by nothing otherwise: always for a limit fill, for a market fill iff the limit order did not fill, for a failure iff nothing filled |
| Desk.CancelDecides | bot/orders/executor.py:281-297 | with effective cancels a market fill is exact exactly when the limit order was unfilled as the cancel request returned, before the market order was sent |
| Desk.OrderlyBrokerIsExact | bot/orders/executor.py:251-333 | with effective cancels and no fill that a wait missed or that came after it gave up, every entry is exact |
| Desk.OnlyTheMarketOrderIsLeft | bot/orders/executor.py:286-333 | with effective cancels an entry into a settled book leaves nothing working but the market order of a failure |
| Desk.Desk.HasOpenPosition | bot/core/engine.py:499-532 | the guard blocks exactly when the database fails or a pending, open, filled or dryrun row of the symbol is dated today or later |
| Desk.Desk.Enter | bot/core/engine.py:546-552 | a request that passed the data, signal and risk steps is stopped, with nothing changed, exactly when the guard blocks it, and otherwise executed once; it keeps one live row per symbol and day whatever fails; from a settled book, table and broker agree exactly if the position moved as its row says, which effective cancels without late fills guarantee; nothing is left working unless it failed; a clean table stays clean exactly without an open row or a position held overnight |
| Desk.Desk.MarkTradeClosed | bot/orders/eod_close.py:165-204 | closes the newest open row of the symbol or, on a database failure, changes nothing |
| Desk.Desk.CloseOne | bot/orders/eod_close.py:81-160 | one attempt at one opposite market order of the same size, a wait of 30 seconds that gave up rightly or heard a price, the newest open row closed at the reported price, and the exact condition under which the books still agree |
| Desk.Desk.CloseEach | bot/orders/eod_close.py:81-162 | one attempt at the broker per position in order, each result that of its own order and wait; rows only move forward and stay clean, and with all fills reported no position is left and each symbol agrees exactly if it was covered |
| Desk.Desk.CloseAllPositions | bot/orders/eod_close.py:46-162 | one attempted close per position of the book at that moment, with the journal, orders and waits of the attempts; a fully reported run from a settled book ends flat, in agreement exactly if every position was covered by its newest open row, and from a clean table with the cash moved equal to the recorded P&L; dryrun, no broker or unreadable positions change no row |
| Desk.CloseRunAgreesIff | bot/orders/eod_close.py:81-162 | a fully reported close run leaves agreement exactly when every position was covered by the newest open row of its symbol |
| Desk.Desk.TradeDay | bot/core/engine.py:448-497 | any number of guarded entries, each stopped or executed as stated for one, and then the close run: from a level start with orderly entries and reported closes the day ends flat, no row filled, its cash the recorded P&L |
| Risk.QueryTodayStats | bot/risk/manager.py:262-286 | the newest-first pass returns today's P&L sum and the losing streak at the newest end |
| Risk.TodayPnlAdds | bot/risk/manager.py:262-273 | today's P&L is a sum to which exactly the rows closed today with a P&L contribute it |
| Risk.StreakMeaning | bot/risk/manager.py:264-284 | the streak is the number of priced rows before the first one, from the newest on, that is no loss of today |
| Risk.QueryEqualsCounter | bot/risk/manager.py:255-286 | it equals an online counter fed in closing order that ignores missing P&L, restarts each day, and resets on any non-loss |
| Risk.BreakerMeaning | bot/risk/manager.py:222-235 | the breaker trips exactly on the streak limit or when the day's loss reaches the limit share of the portfolio |
| Risk.TripMeaning | bot/risk/manager.py:206-237 | which reason halts: unreadable settings, then unreadable statistics, then the day's loss at or above its share of the portfolio, then the streak at its limit |
| Risk.BreakerMonotone | bot/risk/manager.py:222-235 | what trips at one portfolio value trips at every lower positive one |
| Risk.RiseLiftsTheBreaker | bot/risk/manager.py:222-225 | a rising portfolio value lifts a daily-loss halt, on concrete numbers |
| Risk.HalfKellyMeaning | bot/risk/manager.py:302-307 | half-Kelly is zero exactly up to probability one third, never above one half, and monotone |
| Risk.HalfKellyValue | bot/risk/manager.py:302-307 | half-Kelly is (3p - 1) / 4 between one third and one, 0.2 at 0.6, zero below and one half above |
| Risk.AmountValue | bot/risk/manager.py:146-152 | the amount of each sizing method in terms of portfolio and probability |
| Risk.SharesMonotone | bot/risk/manager.py:146-158 | shares never fall when portfolio value or probability rises, for every sizing method |
| Risk.ApprovedSize | bot/risk/manager.py:146-160 | an approval buys the largest whole number of shares that fits both the sizing amount and the cap, at least one |
| Risk.VerdictIff | bot/risk/manager.py:84-171 | every verdict by its condition: not tradable is never approved, then no portfolio, the breaker unless it is a dry run, a bad entry price; approved exactly if all pass and both the sizing amount and the cap pay for one share |
| Risk.TooSmallIff | bot/risk/manager.py:158-169 | an order is refused for size exactly when the limit does not pay for one share |
| TradingDay.TrippedTickRejects | bot/risk/manager.py:105-129 | a tick at no higher portfolio value is never approved while the breaker trips |
| TradingDay.TickEntersIff | bot/core/engine.py:512-552 | a tick adds its row exactly when the guard, the proposal, the portfolio, a silent readable breaker and both size limits let it, and otherwise changes nothing |
| TradingDay.BreakerHoldsIff | bot/risk/manager.py:104-129 | with no live trade the breaker stops every tick of a run if and only if no readable tick brings a portfolio value at which the starting statistics no longer trip it |
| TradingDay.CloseLiftsIff | bot/risk/manager.py:222-286 | a close lifts the halt exactly when, with its P&L counted, the streak and the loss are below their limits |
| TradingDay.BreakerAbsorbs | bot/risk/manager.py:104-129 | in particular with no live trade and no rising portfolio value, every later check of the day rejects and the state, with the halting statistics, never changes |
| TradingDay.DayStatsAreCounted | bot/risk/manager.py:240-286 | in every state a day reaches, the statistics read are those of a counter bumped at each close |
| TradingDay.ClosingsAreTheClosedRows | bot/risk/manager.py:255-260 | over every day what the query lists is exactly the P&L of the closed rows of the trades table |
| TradingDay.OpenWinnerLiftsTheBreaker | bot/risk/manager.py:278-284 | a winning close of a live trade ends the streak and lifts the halt, so the no-live-trade condition is needed |
| RateLimit.RecentIsSuffix | web/api/auth.py:75-76 | filtering an ordered history to the window gives a suffix of it |
| RateLimit.PopStale | web/api/auth.py:74-76 | popping stale entries off the pruned deque leaves exactly the full history filtered to the window |
| RateLimit.RefusedIff | web/api/auth.py:77-81 | a login is refused exactly while the fifth most recent failure is at most 60 seconds old |
| RateLimit.NeverABurst | web/api/auth.py:70-87 | over every run of logins no 60-second window of an address holds more than five recorded failures |
| RateLimit.HistoryIsComplete | web/api/auth.py:84-87 | after every run the history of an address is exactly the recorded times of its attempts answered with a wrong password, in order |
| RateLimit.AnswerIff | web/api/auth.py:165-188 | every attempt after every run is refused exactly when at least 5 wrong passwords of its address were answered in the last 60 seconds, and otherwise answered by the server's and the given password |
| RateLimit.SixSpanAMinute | web/api/auth.py:70-87 | of any six successive wrong passwords answered to an address the last is recorded more than 60 seconds after the first |
| RateLimit.Limiter.CheckRateLimit | web/api/auth.py:70-81 | prunes only this address and refuses exactly when its filtered full history holds five or more |
| RateLimit.Limiter.RecordFailure | web/api/auth.py:84-87 | appends to the deque and the history, keeping one a pruning of the other |
| RateLimit.Limiter.Login | web/api/auth.py:174-188 | the pruned limiter answers every login as one that keeps the full history would |
| StreamTokens.TokenStore.PurgeExpired | web/api/logs_stream.py:68-72 | collecting and popping the expired keys leaves exactly the young entries in order |
| StreamTokens.TokenStore.IssueToken | web/api/logs_stream.py:75-86 | the minimum by creation time is always the first entry, so issuing purges, drops the first at the limit and appends |
| StreamTokens.TokenStore.ConsumeToken | web/api/logs_stream.py:89-102 | the token leaves the store whoever presents it, and is accepted exactly when stored, young and of that address |
| StreamTokens.RunKeeps | web/api/logs_stream.py:68-102 | after every run: at most 500 entries, in issue order, never a spent one, and an unspent young token is missing only if 500 were issued after it |
| StreamTokens.StoredAreFresh | web/api/logs_stream.py:68-102 | after every operation of every run each stored token was issued, is at most 60 seconds old, and is not the one just presented |
| StreamTokens.AcceptedOnlyIf | web/api/logs_stream.py:89-102 | acceptance implies the token was issued to that address within 60 seconds and never presented since |
| StreamTokens.AcceptedIf | web/api/logs_stream.py:89-102 | and every such token is accepted while fewer than 500 were issued after it |
| StreamTokens.OneChance | web/api/logs_stream.py:93-98 | a presentation of an issued token, even from a wrong address, is its last chance in the whole run |
| StreamTokens.AcceptedOnce | web/api/logs_stream.py:89-102 | no token is accepted twice in a run |
| StreamTokens.OnlyTheLastStay | web/api/logs_stream.py:81-86 | the bound is tight: while tokens are only issued and none expires the store is exactly the last 500 |
| LogCursor.PollMoves | web/api/logs_stream.py:156-173 | a poll moves the cursor over the next 200 matching rows, or all that are left, and sends exactly those |
| LogCursor.MatchingMeaning | web/api/logs_stream.py:138-146 | the matching rows are exactly those of the given category and level, in log order, and all rows when neither is given |
| LogCursor.SyncSends | web/api/logs_stream.py:133-148 | an answering sync sends exactly the newest 50 matching rows, or all of fewer, and leaves the cursor at the larger of since_id and the newest |
| LogCursor.RunIsSegment | web/api/logs_stream.py:133-173 | over every growing log and failing query, the polls have sent exactly the rows between where the sync left the cursor and where it is |
| LogCursor.SentInOrder | web/api/logs_stream.py:146-173 | the ids delivered over the whole stream strictly increase |
| LogCursor.SentMatches | web/api/logs_stream.py:138-173 | only rows of the log that match the filters are delivered, none beyond the cursor |
| LogCursor.DeliveredIff | web/api/logs_stream.py:154-173 | between the sync's cursor and the current one a row was delivered exactly when it is of the given category and of the given level, each only if given |
| LogCursor.NoGapIff | web/api/logs_stream.py:133-173 | from its first row on the stream has every matching row up to the cursor exactly when no row after the sync carries an id already claimed by since_id |
| LogCursor.NoGapUnlessAhead | web/api/logs_stream.py:133-173 | so there is never a gap when since_id is not ahead of the log, in particular for 0 |
| LogCursor.ResumeIff | web/api/logs_stream.py:133-173 | a resumed stream delivers every matching row after since_id exactly when the sync failed or at most 50 were waiting at it |
| LogCursor.ResumeSkipsARow | web/api/logs_stream.py:139-148 | a concrete resume at row 1 of 52 that never delivers row 2 |
| LogCursor.BacklogDrains | web/api/logs_stream.py:154-173 | a backlog of m rows is gone exactly after m/200 polls, rounded up, that answer and can read their rows, and never without |
| LogCursor.UnreadableRowsAreNeverSent | web/api/logs_stream.py:144-173 | a stream whose rows cannot be read after the session block sends nothing and never moves its cursor |
| LogCursor.Stream.InitialSync | web/api/logs_stream.py:133-152 | the sync loop leaves cursor and events as the run over one view; a failed query or an unreadable row sends nothing |
| LogCursor.Stream.PollOnce | web/api/logs_stream.py:154-176 | one polling round extends the run by one view; a failed query or an unreadable row changes nothing |
| Universe.SelectedAreCandidates | bot/universe/selector.py:56-117 | whatever the model answers only ranked candidates are chosen, and nothing exactly when there is no candidate to show |
| Universe.FirstChoice | bot/universe/selector.py:202-242 | the first choice is the first candidate of the answer, else the best ranked one |
| Universe.UpperMeaning | web/api/universe.py:133 | upper case changes exactly the letters a to z |
| Universe.StripMeaning | web/api/universe.py:133 | stripping removes exactly the blanks at both ends |
| Universe.TopMeaning | bot/universe/selector.py:90 | the slice shows the first n candidates, or all but the last -n for a negative n |
| Universe.ScoreDecides | bot/universe/selector.py:95-117 | whenever no reply symbol is valid, with or without an answer, the autonomous choice is the best ranked candidate alone and any other mode gets all that are shown |
| Universe.ReplyDecides | bot/universe/selector.py:202-229 | otherwise the choice is the reply, upper-cased and in its own order, without the symbols that are not shown |
| Universe.ScannedRowIsWellFormed | bot/core/engine.py:370-405 | a scanned row is undecided, its own choice is a candidate and is missing exactly when nothing was selectable |
| Universe.ScanWrites | bot/core/engine.py:387-413 | a scan replaces the date's row by its result unless a user decided it, and touches no other row |
| Universe.ScanStores | bot/core/engine.py:340-413 | every field a scan leaves in an undecided row; an autonomous scan without a valid answer stores the best ranked candidate, an approval scan no symbol |
| Universe.StepKeeps | bot/core/engine.py:387-413 | one scan or decision keeps one row per date and well-formed rows, and leaves decided rows as they are |
| Universe.RunIsSound | web/api/universe.py:131-182 | over every interleaving: one row per date, approved and autonomous symbols are candidates, pending and rejected rows have none, decided_at and decided_by are set exactly when decided |
| Universe.DecidedStays | web/api/universe.py:139-153 | a decided row with its candidates never changes again, and rows keep place and date |
| Universe.DecidedOnce | web/api/universe.py:139-143 | of all decisions on one row at most one succeeds, every later one is told so |
| Universe.AnswerIff | web/api/universe.py:131-182 | each reply by its condition: not found without the row, already decided unless it is pending, not a candidate unless the upper-cased stripped symbol is one; none of them changes the table |
| Universe.DecisionRecords | web/api/universe.py:149-178 | what a taken decision writes: status, symbol, moment, address and an appended reason, with the candidates and every other row kept |
| Universe.StaysOutOfPendingIff | bot/core/engine.py:396-411 | a row out of pending stays as it is exactly when decided, not rescanned or rescanned to the same row, and turns pending again exactly by a rescan in approval mode |
| Universe.PendingComesBack | bot/core/engine.py:396-411 | a date scanned in approval, autonomous and approval mode is pending, not pending and pending again |
| Universe.DecisionIsRead | bot/core/engine.py:417-442 | the engine reads back the symbol approved for the date exactly if the row is readable after its session block, and none after a rejection |
| Universe.ApprovedSymbolIsFinal | bot/core/engine.py:417-442 | once an approved symbol is read for a date, every later read of the run gives the same one, or none when it fails |
| Universe.TradesOnlyApproved | bot/core/engine.py:417-442 | a symbol is read only if some user action of the run approved exactly it for that date |
| Universe.SelectionTable.CandidateSymbols | web/api/universe.py:79-84 | the loop collects exactly the upper-cased readable symbols |
| Universe.SelectionTable.PersistSelection | bot/core/engine.py:355-413 | the field-by-field write ends in the table of the run, untouched when the database fails |
| Universe.SelectionTable.ApproveSelection | web/api/universe.py:131-153 | replies not found, already decided, not a candidate or ok in that order, and only ok changes the row |
| Universe.SelectionTable.RejectSelection | web/api/universe.py:164-182 | likewise for rejections, appending a given reason |
| Versions.Store.RegisterVersion | bot/ml/versioning.py:82-108 | the filter loop and append give the loaded manifest with the version moved to the end; it is current if asked for, and otherwise the loaded current version stays |
| Versions.Store.FindInManifest | bot/ml/versioning.py:142-151 | finds the name exactly when it is registered |
| Versions.Store.Rollback | bot/ml/versioning.py:112-128 | succeeds exactly for a registered version with its file, and then changes the current version alone |
| Versions.Store.ListVersions | bot/ml/versioning.py:77-79 | lists the readable manifest newest first |
| Versions.ReverseMeaning | bot/ml/versioning.py:77-79 | the k-th listed version is the k-th from the end |
| Versions.RegisterKeeps | bot/ml/versioning.py:94-108 | names stay distinct, the current version registered, every known version known, and the new data is what is stored |
| Versions.RegisterSets | bot/ml/versioning.py:101-107 | a registration makes its version current exactly if asked to, enters it last, and leaves the older entries of a new name in place |
| Versions.RollBackKeeps | bot/ml/versioning.py:119-128 | a rollback keeps the manifest sound and forgets nothing |
| Versions.RollBackSets | bot/ml/versioning.py:119-128 | a rollback changes the current version alone, and exactly for a registered name whose file exists |
| Versions.RollBackUndoesRegister | bot/ml/versioning.py:94-128 | rolling back to the version a registration replaced restores it while the new one stays available |
| Versions.OverlappingRollbackForgets | bot/ml/versioning.py:94-127 | a rollback overlapping a registration loses the new version exactly when it was not registered before |
| Versions.UnreadableRegisterForgets | bot/ml/versioning.py:154-166 | a registration that cannot read the manifest keeps its own version alone |
| Retrain.MovedFits | web/api/ml_admin.py:178-264 | one step of a thread keeps its place, its row and its hold on the lock in agreement |
| Retrain.RunConsistent | web/api/ml_admin.py:178-264 | so does every interleaving of any number of threads |
| Retrain.RunningRows | web/api/ml_admin.py:178-264 | the retrain rows marked running are exactly that of the lock holder at work and those whose final write failed or was never reached |
| Retrain.AtMostOneRunning | web/api/ml_admin.py:178-264 | if no final write fails at most one retrain row is ever running |
| Retrain.TwoRunning | web/api/ml_admin.py:123-143 | an interleaving with a failed final write that has two running rows |
| Retrain.StepForward | web/api/ml_admin.py:123-175 | a step moves statuses only pending to running to done or failed, or pending to failed |
| Retrain.RunForward | web/api/ml_admin.py:123-175 | over every run finished rows never change and none returns to pending |
| Retrain.ThreadsEnd | web/api/ml_admin.py:178-264 | however threads interleave each ends within six steps of its own, and when all have ended the lock is free |
| Retrain.ManifestSound | bot/ml/versioning.py:94-128 | over every interleaving versions are distinct and the current one registered or none, whatever fails |
| Retrain.ForgottenIff | bot/ml/versioning.py:94-108 | a step forgets a known version exactly when it registers another one without having read the manifest |
| Retrain.DoneStaysRegistered | web/api/ml_admin.py:216-246 | while the manifest is readable the version a done job reports stays registered for ever |
| Retrain.ReadsItsOwnMetrics | web/api/ml_admin.py:228-241 | under the lock a job reads back the metrics of its own training, unless a command-line registration intervenes |
| Retrain.LoneJob | web/api/ml_admin.py:183-264 | an undisturbed job frees the lock and is done exactly when training produced a model: that model is then current, its entry the newest, and the row carries its name and metrics; otherwise the row failed and the manifest is as before |
| Retrain.RefusedJobFails | web/api/ml_admin.py:184-191 | a job that finds the lock taken fails its row and touches nothing else |
| Retrain.LoneRollback | web/api/ml_admin.py:336-349 | an undisturbed rollback is done exactly for a registered version whose file exists, which is then current, and otherwise fails with the manifest as before |
| Retrain.PostIsTurnedAwayIff | web/api/ml_admin.py:299-327 | a retrain request changes nothing exactly while the lock is held and otherwise adds a pending row and its thread |
| Retrain.OthersLeave | web/api/ml_admin.py:178-264 | a step of anyone else leaves a thread, its row and its hold on the lock alone |
| Retrain.Server.RunRetrainJob | web/api/ml_admin.py:178-264 | however the other threads interleave and whatever fails, all the thread target does is n protocol steps of this thread: 2 when the lock was taken, 3 when the row could not be marked, 5 without a model, 6 with one; it ends without the lock and, if its final write takes effect, with a failed row or a done row that names the model |

## Left out

- Sharpe ratio, rounding and floating point: metrics and sizes are exact reals.
- Indicators, features, training, inference and universe scoring are inputs; so is the text of Claude's answer after JSON parsing.
- The engine tick as a whole, signals, news, alerts, price feeds, settings storage, JWT and password handling, the frontend, migrations and deployment.
- Partial fills, zero fill prices, ties in closing times, and the difference between local dates and UTC timestamps.
- The order book assumes that an order call that raises took no order, and broker positions are complete, typed and without zero entries.
- Desk.Desk.Enter: a request stands for a signal that passed the data provider, the bars, the gap filter, the signal generator and the risk check; the engine's early returns before that make no request.
- Desk.Desk.TradeDay: entries run one after another with all of a day's requests given; the engine's ticks, its watchlist and its clock are not part of this model.
- Database isolation: each session block is one atomic step that takes effect or fails.
- Desk.Desk.CloseAllPositions: its journal lists the attempts at the broker and not the row writes, because each close is one update whose effect on the table is stated.
- TradingDay.BreakerAbsorbs: settings are fixed for the day and a row outcome of the executor is an input of the step; what the executor does to orders is stated by Desk.Desk.Execute.
- Settings that cannot be cast while sizing raise out of the check; they are outside the sizing functions.
- Login requests are serial; the lock and the client address headers are not modelled.
- Stream tokens never collide, as random 32-byte strings; the heartbeat, disconnects and event formatting of the log stream are not modelled.
- Log rows become visible in id order; a row committed late below the cursor is outside the model.
- Upper case and stripping are those of ASCII text; row ids count without holes; request validation before the routes is not modelled.
- Other fields of a candidate, of a trade row and of a manifest entry that no rule reads.
- Versions and Retrain: job errors and timestamps are not stored in the rows; a thread that cannot start, and a process that stops, leave their rows as they were.
