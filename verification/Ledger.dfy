/** Trade rows, broker orders and what they add up to (bot/orders/executor.py,
    bot/orders/eod_close.py, db/models.py). */
module Ledger {
  import opened Common

  // ----- broker side -----

  datatype Action = Long | Short
  datatype OrderSide = Buy | Sell
  datatype Kind = Limit(price: real) | Market

  /** Fills are all-or-nothing. */
  datatype OrderState = Working | Done(price: real) | Dead

  datatype Order = Order(symbol: string, side: OrderSide, shares: nat, kind: Kind, state: OrderState)

  function Entry(action: Action): OrderSide {
    if action.Long? then Buy else Sell
  }

  function Opposite(action: Action): OrderSide {
    if action.Long? then Sell else Buy
  }

  function Signed(side: OrderSide, shares: nat): int {
    if side.Buy? then shares else -(shares as int)
  }

  /** The position in a symbol that the filled orders add up to. */
  function Net(orders: seq<Order>, symbol: string): int {
    if orders == [] then 0
    else
      var o := orders[|orders| - 1];
      Net(orders[..|orders| - 1], symbol) +
      (if o.symbol == symbol && o.state.Done? then Signed(o.side, o.shares) else 0)
  }

  function OrderCash(o: Order): real {
    if o.state.Done? then -(Signed(o.side, o.shares) as real * o.state.price) else 0.0
  }

  /** The cash the filled orders have moved. */
  function Cash(orders: seq<Order>): real {
    if orders == [] then 0.0 else Cash(orders[..|orders| - 1]) + OrderCash(orders[|orders| - 1])
  }

  ghost predicate NoneWorking(orders: seq<Order>) {
    forall i :: 0 <= i < |orders| ==> !orders[i].state.Working?
  }

  /** What the market may do to the order book: working orders fill at a
      positive price or die; nothing else changes. */
  ghost predicate Evolves(before: seq<Order>, after: seq<Order>) {
    && |before| <= |after|
    && forall i {:trigger after[i]} :: 0 <= i < |before| ==>
         && (after[i] == before[i] ||
             (before[i].state.Working? && after[i] == before[i].(state := after[i].state)))
         && (after[i].state.Done? && before[i].state.Working? ==> after[i].state.price > 0.0)
  }

  lemma SettledOrdersStay(before: seq<Order>, after: seq<Order>)
    requires Evolves(before, after) && NoneWorking(before)
    ensures after[..|before|] == before
  {
  }

  lemma {:induction false} NetConcat(a: seq<Order>, b: seq<Order>, symbol: string)
    ensures Net(a + b, symbol) == Net(a, symbol) + Net(b, symbol)
  {
    if b == [] {
      assert a + b == a;
    } else {
      NetConcat(a, b[..|b| - 1], symbol);
      assert (a + b)[..|a + b| - 1] == a + b[..|b| - 1];
    }
  }

  lemma CashPush(orders: seq<Order>, order: Order)
    ensures Cash(orders + [order]) == Cash(orders) + OrderCash(order)
  {
    assert (orders + [order])[..|orders|] == orders;
  }

  lemma {:induction false} CashConcat(a: seq<Order>, b: seq<Order>)
    ensures Cash(a + b) == Cash(a) + Cash(b)
  {
    if b == [] {
      assert a + b == a;
    } else {
      CashConcat(a, b[..|b| - 1]);
      assert (a + b)[..|a + b| - 1] == a + b[..|b| - 1];
    }
  }

  // ----- the trades table -----

  datatype Mode = Paper | Live | Simulated

  datatype Status = Pending | Open | Filled | Closed | Error | Dryrun

  /** `day` is the date the row was created on. */
  datatype Row = Row(
    symbol: string, action: Action, mode: Mode, status: Status, shares: nat, entryPrice: real,
    fillPrice: Option<real>, exitPrice: Option<real>, pnl: Option<real>, orderId: Option<nat>, day: int)

  predicate Alive(status: Status) {
    status.Pending? || status.Open? || status.Filled?
  }

  /** Where a row's status may go from here. */
  predicate StatusLater(a: Status, b: Status) {
    match a
    case Pending => true
    case Open => !b.Pending? && !b.Dryrun?
    case Filled => b.Filled? || b.Closed?
    case _ => b == a
  }

  predicate RowLater(a: Row, b: Row) {
    && b.symbol == a.symbol && b.action == a.action && b.mode == a.mode
    && b.shares == a.shares && b.entryPrice == a.entryPrice && b.day == a.day
    && StatusLater(a.status, b.status)
  }

  ghost predicate TableLater(rows: seq<Row>, rows': seq<Row>) {
    |rows| <= |rows'| && forall i {:trigger rows'[i]} :: 0 <= i < |rows| ==> RowLater(rows[i], rows'[i])
  }

  lemma TableLaterTrans(a: seq<Row>, b: seq<Row>, c: seq<Row>)
    requires TableLater(a, b) && TableLater(b, c)
    ensures TableLater(a, c)
  {
    forall i | 0 <= i < |a| ensures RowLater(a[i], c[i]) {
      assert RowLater(a[i], b[i]) && RowLater(b[i], c[i]);
    }
  }

  /** Live, or logged without an order: either keeps the symbol for the day. */
  predicate Busy(status: Status) {
    Alive(status) || status.Dryrun?
  }

  /** A row for the symbol, of today or later, that blocks a new entry. */
  predicate Blocks(row: Row, symbol: string, today: int) {
    row.symbol == symbol && Busy(row.status) && row.day >= today
  }

  ghost predicate Unblocked(rows: seq<Row>, symbol: string, today: int) {
    forall i :: 0 <= i < |rows| ==> !Blocks(rows[i], symbol, today)
  }

  /** At most one pending, open, filled or dryrun row per symbol and day. */
  ghost predicate OneAlive(rows: seq<Row>) {
    forall i, j :: 0 <= i < j < |rows| && rows[i].symbol == rows[j].symbol && rows[i].day == rows[j].day ==>
      !(rows[i].status in {Pending, Open, Filled, Dryrun} && rows[j].status in {Pending, Open, Filled, Dryrun})
  }

  /** One step of the engine as the table sees it: rows move forward, and at
      most one row is added, for today, past the entry guard. */
  ghost predicate GuardedStep(rows: seq<Row>, rows': seq<Row>) {
    && TableLater(rows, rows')
    && (|rows'| == |rows| ||
        (|rows'| == |rows| + 1 && rows'[..|rows|] == rows &&
         Unblocked(rows, rows'[|rows|].symbol, rows'[|rows|].day)))
  }

  lemma StepKeepsOneAlive(rows: seq<Row>, rows': seq<Row>)
    requires OneAlive(rows) && GuardedStep(rows, rows')
    ensures OneAlive(rows')
  {
    var n := |rows|;
    forall i, j | 0 <= i < j < |rows'| && rows'[i].symbol == rows'[j].symbol && rows'[i].day == rows'[j].day
      ensures !(Busy(rows'[i].status) && Busy(rows'[j].status))
    {
      assert RowLater(rows[i], rows'[i]);
      if j < n {
        assert RowLater(rows[j], rows'[j]);
      } else {
        assert rows'[i] == rows'[..n][i] == rows[i];
        assert !Blocks(rows[i], rows'[n].symbol, rows'[n].day);
      }
    }
  }

  /** Over every run of guarded entries and closes, at most one row per symbol
      and day is live or dryrun, and no row ever leaves a terminal status. */
  lemma {:induction false} OneAliveForever(tables: seq<seq<Row>>, k: nat)
    requires k < |tables| && OneAlive(tables[0])
    requires forall i :: 0 <= i < |tables| - 1 ==> GuardedStep(tables[i], tables[i + 1])
    ensures OneAlive(tables[k]) && TableLater(tables[0], tables[k])
  {
    if k > 0 {
      OneAliveForever(tables, k - 1);
      assert GuardedStep(tables[k - 1], tables[k - 1 + 1]);
      StepKeepsOneAlive(tables[k - 1], tables[k]);
      TableLaterTrans(tables[0], tables[k - 1], tables[k]);
    } else {
      assert TableLater(tables[0], tables[0]);
    }
  }

  // ----- rows against the broker -----

  /** The position in a symbol that the filled rows claim. */
  function RowNet(rows: seq<Row>, symbol: string): int {
    if rows == [] then 0
    else
      var r := rows[|rows| - 1];
      RowNet(rows[..|rows| - 1], symbol) +
      (if r.symbol == symbol && r.status.Filled? then Signed(Entry(r.action), r.shares) else 0)
  }

  function Stake(r: Row): real {
    if r.fillPrice.Some? then Signed(Entry(r.action), r.shares) as real * r.fillPrice.value else 0.0
  }

  /** What one row says has moved in cash: its P&L once closed, minus its
      stake while filled. */
  function RowMoney(r: Row): real {
    match r.status
    case Closed => if r.pnl.Some? then r.pnl.value else 0.0
    case Filled => -Stake(r)
    case _ => 0.0
  }

  function RowCash(rows: seq<Row>): real {
    if rows == [] then 0.0 else RowCash(rows[..|rows| - 1]) + RowMoney(rows[|rows| - 1])
  }

  /** The sum of the recorded P&L of the closed rows. */
  function RecordedPnl(rows: seq<Row>): real {
    if rows == [] then 0.0
    else
      var r := rows[|rows| - 1];
      RecordedPnl(rows[..|rows| - 1]) + (if r.status.Closed? && r.pnl.Some? then r.pnl.value else 0.0)
  }

  /** Filled rows have shares and a price. */
  ghost predicate Priced(rows: seq<Row>) {
    forall i :: 0 <= i < |rows| && rows[i].status.Filled? ==>
      rows[i].shares > 0 && rows[i].fillPrice.Some? && rows[i].fillPrice.value > 0.0
  }

  /** The table and the broker agree: every position and all cash the broker
      moved are what the rows add up to. */
  ghost predicate Agree(rows: seq<Row>, orders: seq<Order>) {
    && Priced(rows)
    && (forall s :: Net(orders, s) == RowNet(rows, s))
    && Cash(orders) == RowCash(rows)
  }

  /** No row is open undecided, and no symbol has two filled rows. */
  ghost predicate Clean(rows: seq<Row>) {
    && (forall i :: 0 <= i < |rows| ==> !rows[i].status.Open?)
    && (forall i, j :: 0 <= i < j < |rows| && rows[i].symbol == rows[j].symbol ==>
          !(rows[i].status.Filled? && rows[j].status.Filled?))
  }

  /** What the rows still filled have paid. */
  function Stakes(rows: seq<Row>): real {
    if rows == [] then 0.0
    else
      var r := rows[|rows| - 1];
      Stakes(rows[..|rows| - 1]) + (if r.status.Filled? then Stake(r) else 0.0)
  }

  /** They agree and no order is working, so that they go on agreeing. */
  ghost predicate Settled(rows: seq<Row>, orders: seq<Order>) {
    Agree(rows, orders) && NoneWorking(orders)
  }

  lemma RowPush(rows: seq<Row>, r: Row, s: string)
    ensures RowNet(rows + [r], s) ==
      RowNet(rows, s) + (if r.symbol == s && r.status.Filled? then Signed(Entry(r.action), r.shares) else 0)
    ensures RowCash(rows + [r]) == RowCash(rows) + RowMoney(r)
  {
    assert (rows + [r])[..|rows|] == rows;
  }

  /** Replacing one row changes the totals by that row's share. */
  lemma {:induction false} RowReplace(rows: seq<Row>, i: nat, r: Row, s: string)
    requires i < |rows| && r.symbol == rows[i].symbol
    ensures RowCash(rows[i := r]) == RowCash(rows) - RowMoney(rows[i]) + RowMoney(r)
    ensures s != r.symbol ==> RowNet(rows[i := r], s) == RowNet(rows, s)
    ensures s == r.symbol && rows[i].status.Filled? && !r.status.Filled? ==>
      RowNet(rows[i := r], s) == RowNet(rows, s) - Signed(Entry(rows[i].action), rows[i].shares)
  {
    var n := |rows|;
    if i == n - 1 {
      assert rows[i := r][..n - 1] == rows[..n - 1];
    } else {
      RowReplace(rows[..n - 1], i, r, s);
      assert rows[i := r][..n - 1] == rows[..n - 1][i := r];
    }
  }

  lemma {:induction false} RowNetNone(rows: seq<Row>, s: string)
    requires forall i :: 0 <= i < |rows| && rows[i].symbol == s ==> !rows[i].status.Filled?
    ensures RowNet(rows, s) == 0
  {
    if rows != [] { RowNetNone(rows[..|rows| - 1], s); }
  }

  /** The one filled row of a symbol is the symbol's position. */
  lemma {:induction false} RowNetOne(rows: seq<Row>, k: nat)
    requires k < |rows| && rows[k].status.Filled?
    requires forall i :: 0 <= i < |rows| && i != k && rows[i].symbol == rows[k].symbol ==> !rows[i].status.Filled?
    ensures RowNet(rows, rows[k].symbol) == Signed(Entry(rows[k].action), rows[k].shares)
  {
    var n := |rows|;
    if k == n - 1 {
      RowNetNone(rows[..n - 1], rows[k].symbol);
    } else {
      RowNetOne(rows[..n - 1], k);
    }
  }

  /** In a clean table a position is backed by exactly one filled row. */
  lemma PositionHasRow(rows: seq<Row>, s: string) returns (k: nat)
    requires Clean(rows) && RowNet(rows, s) != 0
    ensures k < |rows| && rows[k].symbol == s && rows[k].status.Filled?
    ensures RowNet(rows, s) == Signed(Entry(rows[k].action), rows[k].shares)
    ensures forall i :: 0 <= i < |rows| && i != k && rows[i].symbol == s ==> !rows[i].status.Filled?
  {
    if forall i :: 0 <= i < |rows| && rows[i].symbol == s ==> !rows[i].status.Filled? {
      RowNetNone(rows, s);
    }
    k :| k < |rows| && rows[k].symbol == s && rows[k].status.Filled?;
    RowNetOne(rows, k);
  }

  lemma {:induction false} RowCashSplits(rows: seq<Row>)
    ensures RowCash(rows) == RecordedPnl(rows) - Stakes(rows)
  {
    if rows != [] { RowCashSplits(rows[..|rows| - 1]); }
  }

  /** In agreement the cash the broker moved is the recorded P&L less what the
      rows still filled have paid, so it is the recorded P&L exactly when these
      payments cancel. */
  lemma CashIsPnlLessStakes(rows: seq<Row>, orders: seq<Order>)
    requires Agree(rows, orders)
    ensures Cash(orders) == RecordedPnl(rows) - Stakes(rows)
  {
    RowCashSplits(rows);
  }

  lemma {:induction false} NoStakes(rows: seq<Row>)
    requires forall i :: 0 <= i < |rows| ==> !rows[i].status.Filled?
    ensures Stakes(rows) == 0.0
  {
    if rows != [] { NoStakes(rows[..|rows| - 1]); }
  }

  /** A flat book in agreement with a clean table has moved exactly the recorded
      P&L in cash, and no row is left filled. */
  lemma FlatBookIsPnl(rows: seq<Row>, orders: seq<Order>)
    requires Agree(rows, orders) && Clean(rows) && forall s :: Net(orders, s) == 0
    ensures Cash(orders) == RecordedPnl(rows)
    ensures forall i :: 0 <= i < |rows| ==> !rows[i].status.Filled?
  {
    forall i | 0 <= i < |rows| ensures !rows[i].status.Filled? {
      if rows[i].status.Filled? {
        forall j | 0 <= j < |rows| && j != i && rows[j].symbol == rows[i].symbol ensures !rows[j].status.Filled? {
          assert i < j || j < i;
        }
        RowNetOne(rows, i);
        assert false;
      }
    }
    NoStakes(rows);
    CashIsPnlLessStakes(rows, orders);
  }

  // ----- one entry -----

  /** The orders of one entry: a limit order at the entry price, then perhaps
      a market order, both for the decided side and shares. */
  ghost predicate Placed(own: seq<Order>, symbol: string, side: OrderSide, shares: nat, entry: real) {
    && |own| <= 2
    && (forall i :: 0 <= i < |own| ==>
          own[i].symbol == symbol && own[i].side == side && own[i].shares == shares &&
          own[i].kind == if i == 0 then Limit(entry) else Market)
  }

  function FilledCount(own: seq<Order>): (n: nat)
    ensures n <= |own|
    ensures n == |own| <==> forall i :: 0 <= i < |own| ==> own[i].state.Done?
  {
    if own == [] then 0
    else FilledCount(own[..|own| - 1]) + (if own[|own| - 1].state.Done? then 1 else 0)
  }

  lemma PlacedMoves(own: seq<Order>, symbol: string, side: OrderSide, shares: nat, entry: real, s: string)
    requires Placed(own, symbol, side, shares, entry)
    ensures Net(own, s) == if s == symbol then FilledCount(own) * Signed(side, shares) else 0
  {
    if |own| == 2 { assert own[..1] == [own[0]]; }
  }

  /** Both orders of one entry filling is the failing case, on concrete orders. */
  lemma DoubleFillMovesTwice()
    ensures var own := [Order("AAPL", Buy, 10, Limit(100.0), Done(100.0)), Order("AAPL", Buy, 10, Market, Done(101.0))];
      Placed(own, "AAPL", Buy, 10, 100.0) && Net(own, "AAPL") == 20
  {
    var own := [Order("AAPL", Buy, 10, Limit(100.0), Done(100.0)), Order("AAPL", Buy, 10, Market, Done(101.0))];
    assert own[..1] == [own[0]];
    PlacedMoves(own, "AAPL", Buy, 10, 100.0, "AAPL");
  }

  /** The row is filled only at the price of one of the orders. */
  ghost predicate RowFits(row: Row, own: seq<Order>) {
    && row.shares > 0
    && (row.status.Filled? ==> row.fillPrice.Some? && row.fillPrice.value > 0.0)
    && (row.status.Filled? ==> exists k :: 0 <= k < |own| && own[k].state == Done(row.fillPrice.value))
    && !row.status.Closed?
  }

  /** How many fills the row claims. */
  function ClaimedFills(row: Row): nat {
    if row.status.Filled? then 1 else 0
  }

  lemma SmallCash(own: seq<Order>)
    requires |own| <= 2
    ensures Cash(own) == (if |own| > 0 then OrderCash(own[0]) else 0.0) + (if |own| > 1 then OrderCash(own[1]) else 0.0)
    ensures FilledCount(own) ==
      (if |own| > 0 && own[0].state.Done? then 1 else 0) + (if |own| > 1 && own[1].state.Done? then 1 else 0)
  {
    if |own| == 2 { assert own[..1] == [own[0]]; }
  }

  lemma PlacedCash(own: seq<Order>, row: Row)
    requires Placed(own, row.symbol, Entry(row.action), row.shares, row.entryPrice) && RowFits(row, own)
    requires FilledCount(own) == ClaimedFills(row)
    ensures Cash(own) == RowMoney(row)
  {
    SmallCash(own);
    if row.status.Filled? {
      var k :| 0 <= k < |own| && own[k].state == Done(row.fillPrice.value);
      assert OrderCash(own[k]) == RowMoney(row);
    }
  }

  lemma EntryIsPriced(rows: seq<Row>, row: Row)
    requires Priced(rows) && row.shares > 0
    requires row.status.Filled? ==> row.fillPrice.Some? && row.fillPrice.value > 0.0
    ensures Priced(rows + [row])
  {
  }

  /** A new row leaves the table clean exactly when it is not left open and,
      if filled, it is the symbol's only filled row. */
  lemma EntryCleanIff(rows: seq<Row>, row: Row)
    requires Clean(rows)
    ensures Clean(rows + [row]) <==>
      && !row.status.Open?
      && (row.status.Filled? ==>
            forall i :: 0 <= i < |rows| && rows[i].symbol == row.symbol ==> !rows[i].status.Filled?)
  {
    var all := rows + [row];
    assert all[|rows|] == row && forall i :: 0 <= i < |rows| ==> all[i] == rows[i];
  }

  lemma EntryNets(rows: seq<Row>, orders: seq<Order>, row: Row, own: seq<Order>, s: string)
    requires Net(orders, s) == RowNet(rows, s) && row.shares > 0
    requires Placed(own, row.symbol, Entry(row.action), row.shares, row.entryPrice)
    ensures Net(orders + own, s) == RowNet(rows + [row], s) <==>
      s != row.symbol || FilledCount(own) == ClaimedFills(row)
  {
    NetConcat(orders, own, s);
    PlacedMoves(own, row.symbol, Entry(row.action), row.shares, row.entryPrice, s);
    RowPush(rows, row, s);
    TimesIsOnce(FilledCount(own), ClaimedFills(row), Signed(Entry(row.action), row.shares), Net(own, s));
  }

  lemma TimesIsOnce(n: nat, m: nat, x: int, moved: int)
    requires x != 0 && n <= 2 && m <= 1
    ensures moved == n * x ==> (moved == (if m == 1 then x else 0) <==> n == m)
  {
    assert n == 0 || n == 1 || n == 2;
  }

  /** An entry leaves the table and the broker in agreement exactly when as
      many of its orders filled as its row claims. */
  lemma EntryAgreesIff(rows: seq<Row>, orders: seq<Order>, row: Row, own: seq<Order>)
    requires Agree(rows, orders) && RowFits(row, own)
    requires Placed(own, row.symbol, Entry(row.action), row.shares, row.entryPrice)
    ensures Agree(rows + [row], orders + own) <==> FilledCount(own) == ClaimedFills(row)
  {
    EntryNets(rows, orders, row, own, row.symbol);
    if FilledCount(own) == ClaimedFills(row) {
      EntryIsPriced(rows, row);
      forall s ensures Net(orders + own, s) == RowNet(rows + [row], s) {
        EntryNets(rows, orders, row, own, s);
      }
      CashConcat(orders, own);
      PlacedCash(own, row);
      RowPush(rows, row, "");
    }
  }

  // ----- orders left working -----

  /** What one order has moved of a symbol. */
  function Moves(o: Order, s: string): int {
    if o.symbol == s && o.state.Done? then Signed(o.side, o.shares) else 0
  }

  /** Replacing one order changes the totals by that order's part. */
  lemma {:induction false} OrderReplace(orders: seq<Order>, i: nat, o: Order, s: string)
    requires i < |orders|
    ensures Net(orders[i := o], s) == Net(orders, s) - Moves(orders[i], s) + Moves(o, s)
    ensures Cash(orders[i := o]) == Cash(orders) - OrderCash(orders[i]) + OrderCash(o)
  {
    var n := |orders|;
    if i == n - 1 {
      assert orders[i := o][..n - 1] == orders[..n - 1];
    } else {
      OrderReplace(orders[..n - 1], i, o, s);
      assert orders[i := o][..n - 1] == orders[..n - 1][i := o];
    }
  }

  /** An order that is left working, once its wait gave up, breaks the agreement
      exactly when it fills after all. */
  lemma AgreeLaterIff(rows: seq<Row>, orders: seq<Order>, after: seq<Order>, id: nat)
    requires Agree(rows, orders) && Evolves(orders, after) && |after| == |orders|
    requires id < |orders| && orders[id].state.Working? && orders[id].shares > 0
    requires forall i :: 0 <= i < |orders| && i != id ==> !orders[i].state.Working?
    ensures Agree(rows, after) <==> !after[id].state.Done?
  {
    assert after == orders[id := after[id]];
    OrderReplace(orders, id, after[id], orders[id].symbol);
    if !after[id].state.Done? {
      forall s ensures Net(after, s) == RowNet(rows, s) {
        OrderReplace(orders, id, after[id], s);
      }
    }
  }

  /** No order that would move the symbol is working. */
  ghost predicate Quiet(orders: seq<Order>, s: string) {
    forall i :: 0 <= i < |orders| && orders[i].symbol == s && orders[i].state.Working? ==> orders[i].shares == 0
  }

  lemma {:induction false} QuietNet(orders: seq<Order>, after: seq<Order>, s: string)
    requires Quiet(orders, s) && Evolves(orders, after) && |after| == |orders|
    ensures Net(after, s) == Net(orders, s)
  {
    if orders != [] {
      var n := |orders| - 1;
      assert Evolves(orders[..n], after[..n]) by {
        forall i {:trigger after[..n][i]} | 0 <= i < n
          ensures after[..n][i] == after[i] && orders[..n][i] == orders[i]
        {
        }
      }
      QuietNet(orders[..n], after[..n], s);
      assert after[n] == orders[n] || orders[n].state.Working?;
    }
  }

  /** A close sized from the reported position leaves the symbol flat, however
      the book evolves, exactly when no order of the symbol was still working:
      a second close run is safe only after the first one's orders are settled. */
  lemma CloseIsSafeIff(book: seq<Order>, close: Order)
    requires close.state.Done? && Signed(close.side, close.shares) == -Net(book, close.symbol)
    ensures (forall after :: Evolves(book, after) && |after| == |book| ==> Net(after + [close], close.symbol) == 0)
      <==> Quiet(book, close.symbol)
  {
    var s := close.symbol;
    if Quiet(book, s) {
      forall after | Evolves(book, after) && |after| == |book| ensures Net(after + [close], s) == 0 {
        QuietNet(book, after, s);
        NetPush(after, close);
      }
    } else {
      var i :| 0 <= i < |book| && book[i].symbol == s && book[i].state.Working? && book[i].shares != 0;
      var after := book[i := book[i].(state := Done(1.0))];
      assert Evolves(book, after);
      OrderReplace(book, i, after[i], s);
      NetPush(after, close);
      assert Net(after + [close], s) != 0;
    }
  }

  lemma NetPushAt(orders: seq<Order>, o: Order, s: string)
    ensures Net(orders + [o], s) == Net(orders, s) + Moves(o, s)
  {
    assert (orders + [o])[..|orders|] == orders;
  }

  lemma NetPush(orders: seq<Order>, o: Order)
    ensures Net(orders + [o], o.symbol) == Net(orders, o.symbol) + Moves(o, o.symbol)
  {
    NetPushAt(orders, o, o.symbol);
  }

  /** If an earlier closing order fills beside a later one, the position reverses. */
  lemma RepeatedCloseReverses(book: seq<Order>, i: nat, price: real, close: Order)
    requires i < |book| && book[i].state.Working? && book[i].symbol == close.symbol && close.state.Done?
    requires Signed(book[i].side, book[i].shares) == Signed(close.side, close.shares) == -Net(book, close.symbol)
    ensures Net(book[i := book[i].(state := Done(price))] + [close], close.symbol) == -Net(book, close.symbol)
  {
    OrderReplace(book, i, book[i].(state := Done(price)), close.symbol);
    NetPush(book[i := book[i].(state := Done(price))], close);
  }

  // ----- one close -----

  /** The newest open or filled row of a symbol. */
  function LastOpen(rows: seq<Row>, symbol: string): Option<nat> {
    if rows == [] then None
    else
      var r := rows[|rows| - 1];
      if r.symbol == symbol && (r.status.Open? || r.status.Filled?) then Some(|rows| - 1)
      else LastOpen(rows[..|rows| - 1], symbol)
  }

  lemma {:induction false} LastOpenMeaning(rows: seq<Row>, symbol: string)
    ensures var k := LastOpen(rows, symbol);
      && (k.Some? ==> k.value < |rows| && rows[k.value].symbol == symbol &&
                      (rows[k.value].status.Open? || rows[k.value].status.Filled?))
      && (forall i :: (if k.Some? then k.value else -1) < i < |rows| && rows[i].symbol == symbol ==>
            !rows[i].status.Open? && !rows[i].status.Filled?)
  {
    if rows != [] { LastOpenMeaning(rows[..|rows| - 1], symbol); }
  }

  /** P&L is recorded when both prices are known and not zero. */
  function ClosePnl(row: Row, exit: Option<real>): Option<real> {
    if exit.Some? && exit.value != 0.0 && row.fillPrice.Some? && row.fillPrice.value != 0.0 then
      Some(if row.action.Long? then (exit.value - row.fillPrice.value) * row.shares as real
           else (row.fillPrice.value - exit.value) * row.shares as real)
    else None
  }

  function ClosedRow(row: Row, exit: Option<real>): Row {
    row.(status := Closed, exitPrice := exit, pnl := ClosePnl(row, exit))
  }

  /** What a close leaves in the row it marks, long and short spelled out. */
  lemma CloseRecords(rows: seq<Row>, symbol: string, exit: real, k: nat)
    requires k < |rows| && LastOpen(rows, symbol) == Some(k)
    ensures var after := CloseTable(rows, symbol, Some(exit));
      && |after| == |rows| && after[k].status.Closed? && after[k].exitPrice == Some(exit)
      && (forall i :: 0 <= i < |rows| && i != k ==> after[i] == rows[i])
      && (rows[k].fillPrice.Some? && rows[k].fillPrice.value != 0.0 && exit != 0.0 ==>
            after[k].pnl == Some(
              if rows[k].action.Long? then (exit - rows[k].fillPrice.value) * rows[k].shares as real
              else (rows[k].fillPrice.value - exit) * rows[k].shares as real))
      && (rows[k].fillPrice.None? ==> after[k].pnl.None?)
  {
    LastOpenMeaning(rows, symbol);
    assert CloseTable(rows, symbol, Some(exit)) == rows[k := ClosedRow(rows[k], Some(exit))];
    assert CloseTable(rows, symbol, Some(exit))[k].pnl == ClosePnl(rows[k], Some(exit));
  }

  function CloseTable(rows: seq<Row>, symbol: string, exit: Option<real>): seq<Row> {
    LastOpenMeaning(rows, symbol);
    var k := LastOpen(rows, symbol);
    if k.None? then rows else rows[k.value := ClosedRow(rows[k.value], exit)]
  }

  lemma CloseMoney(row: Row, exit: real)
    requires row.status.Filled? && row.fillPrice.Some? && row.fillPrice.value != 0.0 && exit != 0.0
    ensures RowMoney(ClosedRow(row, Some(exit))) - RowMoney(row) ==
            Signed(Entry(row.action), row.shares) as real * exit
  {
    var fill, n := row.fillPrice.value, row.shares as real;
    assert (exit - fill) * n == n * exit - n * fill;
  }

  lemma CloseKeeps(rows: seq<Row>, k: nat, row: Row)
    requires k < |rows| && row.symbol == rows[k].symbol && row.status.Closed?
    ensures Priced(rows) ==> Priced(rows[k := row])
    ensures Clean(rows) ==> Clean(rows[k := row])
  {
  }

  lemma CloseNets(rows: seq<Row>, orders: seq<Order>, k: nat, row: Row, order: Order, s: string)
    requires k < |rows| && rows[k].status.Filled? && row.symbol == rows[k].symbol && row.status.Closed?
    requires order.symbol == rows[k].symbol && order.state.Done?
    requires Signed(order.side, order.shares) == -Net(orders, order.symbol)
    requires Net(orders, order.symbol) == Signed(Entry(rows[k].action), rows[k].shares)
    requires Net(orders, s) == RowNet(rows, s)
    ensures Net(orders + [order], s) == if s == order.symbol then 0 else Net(orders, s)
    ensures Net(orders + [order], s) == RowNet(rows[k := row], s)
  {
    assert (orders + [order])[..|orders|] == orders;
    RowReplace(rows, k, row, s);
  }

  lemma NegatedTimes(n: int, x: real)
    ensures -((-n) as real * x) == n as real * x
  {
  }

  lemma CloseCash(rows: seq<Row>, orders: seq<Order>, k: nat, order: Order)
    requires k < |rows| && rows[k].status.Filled? && rows[k].fillPrice.Some? && rows[k].fillPrice.value != 0.0
    requires order.state.Done? && order.state.price != 0.0
    requires Signed(order.side, order.shares) == -Signed(Entry(rows[k].action), rows[k].shares)
    requires Cash(orders) == RowCash(rows)
    ensures Cash(orders + [order]) == RowCash(rows[k := ClosedRow(rows[k], Some(order.state.price))])
  {
    var price := order.state.price;
    CashPush(orders, order);
    RowReplace(rows, k, ClosedRow(rows[k], Some(price)), "");
    ClosePair(rows[k], order);
  }

  lemma ClosePair(row: Row, order: Order)
    requires row.status.Filled? && row.fillPrice.Some? && row.fillPrice.value != 0.0
    requires order.state.Done? && order.state.price != 0.0
    requires Signed(order.side, order.shares) == -Signed(Entry(row.action), row.shares)
    ensures OrderCash(order) == RowMoney(ClosedRow(row, Some(order.state.price))) - RowMoney(row)
  {
    CloseMoney(row, order.state.price);
    NegatedTimes(Signed(Entry(row.action), row.shares), order.state.price);
  }

  /** The row a close would mark is filled and carries the whole position. */
  predicate Covers(rows: seq<Row>, orders: seq<Order>, s: string) {
    var k := LastOpen(rows, s);
    && k.Some? && k.value < |rows| && rows[k.value].status.Filled?
    && Net(orders, s) == Signed(Entry(rows[k.value].action), rows[k.value].shares)
  }

  lemma CleanCovers(rows: seq<Row>, orders: seq<Order>, s: string)
    requires Agree(rows, orders) && Clean(rows) && Net(orders, s) != 0
    ensures Covers(rows, orders, s)
  {
    var k := PositionHasRow(rows, s);
    LastOpenMeaning(rows, s);
    assert LastOpen(rows, s) == Some(k);
  }

  /** Closing a covered position with one filled market order, and its row at the
      fill price, keeps the agreement, flattens that symbol and no other. */
  lemma CloseSettles(rows: seq<Row>, orders: seq<Order>, order: Order)
    requires Agree(rows, orders) && Covers(rows, orders, order.symbol)
    requires order.state.Done? && order.state.price > 0.0
    requires Signed(order.side, order.shares) == -Net(orders, order.symbol)
    ensures Agree(CloseTable(rows, order.symbol, Some(order.state.price)), orders + [order])
    ensures forall s :: Net(orders + [order], s) == if s == order.symbol then 0 else Net(orders, s)
  {
    LastOpenMeaning(rows, order.symbol);
    var k := LastOpen(rows, order.symbol).value;
    var row := ClosedRow(rows[k], Some(order.state.price));
    CloseKeeps(rows, k, row);
    forall s
      ensures Net(orders + [order], s) == if s == order.symbol then 0 else Net(orders, s)
      ensures Net(orders + [order], s) == RowNet(rows[k := row], s)
    {
      CloseNets(rows, orders, k, row, order, s);
    }
    CloseCash(rows, orders, k, order);
  }

  lemma {:induction false} LastOpenElsewhere(rows: seq<Row>, k: nat, row: Row, s: string)
    requires k < |rows| && row.symbol == rows[k].symbol != s
    ensures LastOpen(rows[k := row], s) == LastOpen(rows, s)
  {
    var n := |rows| - 1;
    if k == n {
      assert rows[k := row][..n] == rows[..n];
    } else {
      LastOpenElsewhere(rows[..n], k, row, s);
      assert rows[k := row][..n] == rows[..n][k := row];
    }
  }

  /** What the totals and the close of a symbol depend on. */
  ghost predicate SameFor(rows: seq<Row>, orders: seq<Order>, rows': seq<Row>, orders': seq<Order>, s: string) {
    && Net(orders', s) == Net(orders, s) && RowNet(rows', s) == RowNet(rows, s)
    && (Covers(rows', orders', s) <==> Covers(rows, orders, s))
  }

  lemma CloseElsewhere(rows: seq<Row>, orders: seq<Order>, order: Order, exit: Option<real>, s: string)
    requires s != order.symbol
    ensures SameFor(rows, orders, CloseTable(rows, order.symbol, exit), orders + [order], s)
  {
    NetPushAt(orders, order, s);
    LastOpenMeaning(rows, order.symbol);
    var k := LastOpen(rows, order.symbol);
    if k.Some? {
      var row := ClosedRow(rows[k.value], exit);
      LastOpenElsewhere(rows, k.value, row, s);
      LastOpenMeaning(rows, s);
      RowReplace(rows, k.value, row, s);
    }
  }

  /** A reported close of the whole position flattens it. The row it marks gives
      up the same position exactly when the position was covered, and then the
      table's cash moves with the broker's. */
  lemma CloseEffect(rows: seq<Row>, orders: seq<Order>, order: Order)
    requires Priced(rows) && RowNet(rows, order.symbol) == Net(orders, order.symbol) != 0
    requires order.state.Done? && order.state.price > 0.0
    requires Signed(order.side, order.shares) == -Net(orders, order.symbol)
    ensures var rows', orders' := CloseTable(rows, order.symbol, Some(order.state.price)), orders + [order];
      && Priced(rows') && Net(orders', order.symbol) == 0
      && (RowNet(rows', order.symbol) == 0 <==> Covers(rows, orders, order.symbol))
      && (Covers(rows, orders, order.symbol) ==> Cash(orders') - RowCash(rows') == Cash(orders) - RowCash(rows))
  {
    var s := order.symbol;
    HeldHasRow(rows, s);
    LastOpenMeaning(rows, s);
    var k := LastOpen(rows, s).value;
    var row := ClosedRow(rows[k], Some(order.state.price));
    CloseKeeps(rows, k, row);
    NetPush(orders, order);
    RowReplace(rows, k, row, s);
    if rows[k].status.Open? { RowReplaceOpen(rows, k, row, s); }
    if Covers(rows, orders, s) {
      CashPush(orders, order);
      ClosePair(rows[k], order);
    }
  }

  lemma CloseStaysClean(rows: seq<Row>, symbol: string, exit: Option<real>)
    requires Clean(rows)
    ensures Clean(CloseTable(rows, symbol, exit))
  {
    LastOpenMeaning(rows, symbol);
    var k := LastOpen(rows, symbol);
    if k.Some? { CloseKeeps(rows, k.value, ClosedRow(rows[k.value], exit)); }
  }

  /** The closing order filled at the very price its row was entered at. */
  predicate FilledAtEntryPrice(rows: seq<Row>, order: Order) {
    var k := LastOpen(rows, order.symbol);
    && k.Some? && k.value < |rows|
    && order.state.Done? && rows[k.value].fillPrice == Some(order.state.price)
  }

  /** The row a close would mark is one that never got its fill recorded. */
  predicate MarksOpenRow(rows: seq<Row>, s: string) {
    var k := LastOpen(rows, s);
    k.Some? && k.value < |rows| && rows[k.value].status.Open?
  }

  lemma {:induction false} HeldHasRow(rows: seq<Row>, s: string)
    requires RowNet(rows, s) != 0
    ensures LastOpen(rows, s).Some?
  {
    var r := rows[|rows| - 1];
    if !(r.symbol == s && (r.status.Open? || r.status.Filled?)) {
      HeldHasRow(rows[..|rows| - 1], s);
    }
  }

  /** The program sends one order for the whole position but marks only the
      newest row of the symbol closed, even when no fill was reported. From
      agreement, a close whose order fills leaves agreement exactly when that
      row carries the whole position and the fill was reported, or came at the
      price the row was entered at. A close whose order does not fill leaves it
      exactly when the row it marks was never recorded as filled. */
  lemma CloseAgreesIff(rows: seq<Row>, orders: seq<Order>, order: Order, exit: Option<real>)
    requires Agree(rows, orders) && Net(orders, order.symbol) != 0
    requires order.state.Done? ==> order.state.price > 0.0
    requires exit.Some? ==> order.state == Done(exit.value)
    requires Signed(order.side, order.shares) == -Net(orders, order.symbol)
    ensures Agree(CloseTable(rows, order.symbol, exit), orders + [order]) <==>
      if order.state.Done?
      then Covers(rows, orders, order.symbol) && (exit.Some? || FilledAtEntryPrice(rows, order))
      else MarksOpenRow(rows, order.symbol)
  {
    var s := order.symbol;
    HeldHasRow(rows, s);
    LastOpenMeaning(rows, s);
    var k := LastOpen(rows, s).value;
    if order.state.Done? && exit.Some? && Covers(rows, orders, s) {
      CloseSettles(rows, orders, order);
    } else if order.state.Done? && Covers(rows, orders, s) {
      UnreportedClose(rows, orders, order, k);
    } else if rows[k].status.Filled? {
      UncoveredClose(rows, orders, order, k, ClosedRow(rows[k], exit));
    } else {
      OpenRowClose(rows, orders, order, k, ClosedRow(rows[k], exit));
    }
  }

  /** Marking a filled row without moving exactly its shares breaks the positions. */
  lemma UncoveredClose(rows: seq<Row>, orders: seq<Order>, order: Order, k: nat, row: Row)
    requires Agree(rows, orders) && k < |rows| && rows[k].status.Filled? && rows[k].symbol == order.symbol
    requires row.symbol == rows[k].symbol && row.status.Closed?
    requires Signed(order.side, order.shares) == -Net(orders, order.symbol)
    requires order.state.Done? ==> Net(orders, order.symbol) != Signed(Entry(rows[k].action), rows[k].shares)
    ensures !Agree(rows[k := row], orders + [order])
  {
    RowReplace(rows, k, row, order.symbol);
    NetPush(orders, order);
    assert Net(orders + [order], order.symbol) != RowNet(rows[k := row], order.symbol);
  }

  /** Marking an open row moves no row's shares, so nothing may have moved at the broker. */
  lemma OpenRowClose(rows: seq<Row>, orders: seq<Order>, order: Order, k: nat, row: Row)
    requires Agree(rows, orders) && k < |rows| && rows[k].status.Open? && rows[k].symbol == order.symbol
    requires row.symbol == rows[k].symbol && row.status.Closed? && (!order.state.Done? ==> row.pnl.None?)
    requires Signed(order.side, order.shares) == -Net(orders, order.symbol) != 0
    ensures Agree(rows[k := row], orders + [order]) <==> !order.state.Done?
  {
    forall s ensures RowNet(rows[k := row], s) == RowNet(rows, s) {
      RowReplaceOpen(rows, k, row, s);
    }
    RowReplace(rows, k, row, "");
    NetPush(orders, order);
    CashPush(orders, order);
    CloseKeeps(rows, k, row);
    if !order.state.Done? {
      forall s ensures Net(orders + [order], s) == RowNet(rows[k := row], s) {
        assert (orders + [order])[..|orders|] == orders;
      }
    }
  }

  lemma {:induction false} RowReplaceOpen(rows: seq<Row>, i: nat, r: Row, s: string)
    requires i < |rows| && !rows[i].status.Filled? && !r.status.Filled?
    ensures RowNet(rows[i := r], s) == RowNet(rows, s)
  {
    var n := |rows|;
    if i == n - 1 {
      assert rows[i := r][..n - 1] == rows[..n - 1];
    } else {
      RowReplaceOpen(rows[..n - 1], i, r, s);
      assert rows[i := r][..n - 1] == rows[..n - 1][i := r];
    }
  }

  lemma UnreportedClose(rows: seq<Row>, orders: seq<Order>, order: Order, k: nat)
    requires Agree(rows, orders) && k < |rows| && rows[k].status.Filled? && rows[k].symbol == order.symbol
    requires Net(orders, order.symbol) == Signed(Entry(rows[k].action), rows[k].shares)
    requires Signed(order.side, order.shares) == -Net(orders, order.symbol) != 0 && order.state.Done?
    ensures Agree(rows[k := ClosedRow(rows[k], None)], orders + [order]) <==>
      rows[k].fillPrice == Some(order.state.price)
  {
    var row := ClosedRow(rows[k], None);
    RowReplace(rows, k, row, order.symbol);
    CashPush(orders, order);
    UnreportedCash(rows[k], order);
    CloseKeeps(rows, k, row);
    forall s ensures Net(orders + [order], s) == RowNet(rows[k := row], s) {
      CloseNets(rows, orders, k, row, order, s);
    }
  }

  /** An unreported close brings in what the row had paid exactly at the entry price. */
  lemma UnreportedCash(row: Row, order: Order)
    requires row.status.Filled? && row.fillPrice.Some? && order.state.Done?
    requires Signed(order.side, order.shares) == -Signed(Entry(row.action), row.shares) != 0
    ensures OrderCash(order) == -RowMoney(row) <==> row.fillPrice.value == order.state.price
  {
    var n := Signed(Entry(row.action), row.shares);
    NegatedTimes(n, order.state.price);
    ProductsEqual(n as real, order.state.price, row.fillPrice.value);
  }

  lemma ProductsEqual(n: real, x: real, y: real)
    requires n != 0.0
    ensures n * x == n * y <==> x == y
  {
    var d := x - y;
    assert n * d == n * x - n * y;
    if d > 0.0 || d < 0.0 { NonZero(n, d); }
  }

  lemma NonZero(n: real, d: real)
    requires n != 0.0 && d != 0.0
    ensures n * d != 0.0
  {
    if n > 0.0 && d > 0.0 { assert n * d > 0.0; }
    if n < 0.0 && d < 0.0 { assert (-n) * (-d) > 0.0; }
    if n > 0.0 && d < 0.0 { assert n * (-d) > 0.0; }
    if n < 0.0 && d > 0.0 { assert (-n) * d > 0.0; }
  }

  /** For example, ten shares bought at 100 and sold at 110 without a report:
      the books agreed before, the position is flat after, but the 100 gained
      is recorded nowhere. */
  lemma UnreportedFillLosesPnl()
    ensures var row := Row("AAPL", Long, Paper, Filled, 10, 100.0, Some(100.0), None, None, Some(0), 0);
      var buy := Order("AAPL", Buy, 10, Limit(100.0), Done(100.0));
      var sell := Order("AAPL", Sell, 10, Market, Done(110.0));
      && Settled([row], [buy]) && !Agree(CloseTable([row], "AAPL", None), [buy, sell])
      && Cash([buy, sell]) == 100.0
      && RecordedPnl(CloseTable([row], "AAPL", None)) == 0.0
      && Net([buy, sell], "AAPL") == 0
  {
    var row := Row("AAPL", Long, Paper, Filled, 10, 100.0, Some(100.0), None, None, Some(0), 0);
    var buy := Order("AAPL", Buy, 10, Limit(100.0), Done(100.0));
    var sell := Order("AAPL", Sell, 10, Market, Done(110.0));
    assert [] + [buy] == [buy] && [buy] + [sell] == [buy, sell];
    NetPush([], buy);
    NetPush([buy], sell);
    CashPush([], buy);
    CashPush([buy], sell);
    assert LastOpen([row], "AAPL") == Some(0);
    assert CloseTable([row], "AAPL", None) == [ClosedRow(row, None)];
    assert Agree([row], [buy]) by {
      forall s ensures Net([buy], s) == RowNet([row], s) {
        assert [buy][..0] == [] && [row][..0] == [];
      }
    }
    CloseAgreesIff([row], [buy], sell, None);
  }

  /** For example, ten shares bought at 100 and kept overnight, ten more bought
      at 120 the next day, and all twenty sold at 130 with a reported fill: the
      books agreed before and the position is flat after, but of the 400 gained
      only 100 is recorded and the first row stays filled. */
  lemma OvernightRowLosesPnl()
    ensures var first := Row("AAPL", Long, Paper, Filled, 10, 100.0, Some(100.0), None, None, Some(0), 0);
      var second := Row("AAPL", Long, Paper, Filled, 10, 120.0, Some(120.0), None, None, Some(1), 1);
      var buy := Order("AAPL", Buy, 10, Limit(100.0), Done(100.0));
      var more := Order("AAPL", Buy, 10, Limit(120.0), Done(120.0));
      var sell := Order("AAPL", Sell, 20, Market, Done(130.0));
      var buys := [buy, more];
      var after := CloseTable([first, second], "AAPL", Some(130.0));
      && Unblocked([first], "AAPL", 1) && Settled([first, second], buys)
      && Net(buys + [sell], "AAPL") == 0 && !Agree(after, buys + [sell])
      && Cash(buys + [sell]) == 400.0 && RecordedPnl(after) == 100.0 && after[0].status.Filled?
  {
    var first := Row("AAPL", Long, Paper, Filled, 10, 100.0, Some(100.0), None, None, Some(0), 0);
    var second := Row("AAPL", Long, Paper, Filled, 10, 120.0, Some(120.0), None, None, Some(1), 1);
    var buy := Order("AAPL", Buy, 10, Limit(100.0), Done(100.0));
    var more := Order("AAPL", Buy, 10, Limit(120.0), Done(120.0));
    var sell := Order("AAPL", Sell, 20, Market, Done(130.0));
    TwoBuys(first, second, buy, more);
    NetPush([buy, more], sell);
    CashPush([buy, more], sell);
    assert LastOpen([first, second], "AAPL") == Some(1);
    var closed := ClosedRow(second, Some(130.0));
    assert CloseTable([first, second], "AAPL", Some(130.0)) == [first, closed];
    assert [first, closed][..1] == [first];
    CloseAgreesIff([first, second], [buy, more], sell, Some(130.0));
  }

  lemma TwoBuys(first: Row, second: Row, buy: Order, more: Order)
    requires first == Row("AAPL", Long, Paper, Filled, 10, 100.0, Some(100.0), None, None, Some(0), 0)
    requires second == Row("AAPL", Long, Paper, Filled, 10, 120.0, Some(120.0), None, None, Some(1), 1)
    requires buy == Order("AAPL", Buy, 10, Limit(100.0), Done(100.0))
    requires more == Order("AAPL", Buy, 10, Limit(120.0), Done(120.0))
    ensures Settled([first, second], [buy, more])
    ensures Net([buy, more], "AAPL") == 20 && Cash([buy, more]) == -2200.0
  {
    forall s ensures Net([buy, more], s) == RowNet([first, second], s) {
      OrdersOfTwo(buy, more, s);
      RowsOfTwo(first, second, s);
    }
    OrdersOfTwo(buy, more, "AAPL");
    RowsOfTwo(first, second, "AAPL");
  }

  lemma OrdersOfTwo(a: Order, b: Order, s: string)
    ensures Net([a, b], s) == Moves(a, s) + Moves(b, s) && Cash([a, b]) == OrderCash(a) + OrderCash(b)
  {
    assert [] + [a] == [a] && [a] + [b] == [a, b];
    NetPushAt([], a, s);
    NetPushAt([a], b, s);
    CashPush([], a);
    CashPush([a], b);
  }

  lemma RowsOfTwo(a: Row, b: Row, s: string)
    ensures RowCash([a, b]) == RowMoney(a) + RowMoney(b)
    ensures RowNet([a, b], s) ==
      (if a.symbol == s && a.status.Filled? then Signed(Entry(a.action), a.shares) else 0) +
      (if b.symbol == s && b.status.Filled? then Signed(Entry(b.action), b.shares) else 0)
  {
    assert [] + [a] == [a] && [a] + [b] == [a, b];
    RowPush([], a, s);
    RowPush([a], b, s);
  }
}
