/** Order execution and the end-of-day close against a broker and a database
    that may fail at every call (bot/orders/executor.py, bot/orders/eod_close.py,
    the entry guard of bot/core/engine.py). The broker, the trades table and the
    clock are the fields of one class. What the broker does is nondeterministic;
    which database calls fail is an input. */
module Desk {
  import opened Common
  import opened Ledger

  /** What happened, in order: row inserts, orders sent or refused, cancel
      requests, and attempts to write a row's status. */
  datatype Event =
    | Inserted(row: nat) | InsertFailed
    | Sent(order: nat) | Refused
    | CancelAsked(order: nat)
    | Wrote(row: nat, status: Status)

  /** What a status query may answer; FilledAt carries the price when known. */
  datatype Reply = Raised | Submitted | Inactive | FilledAt(price: Option<real>)

  datatype Signal = Signal(symbol: string, action: Action, entryPrice: real)

  datatype Reason =
    | NotApproved | RecordFailed | DryrunLogged | NoBroker | PlaceFailed
    | LimitFilled | MarketFilled | Unfilled

  datatype OrderResult = OrderResult(
    success: bool, tradeId: Option<nat>, orderId: Option<nat>, fillPrice: Option<real>,
    shares: nat, symbol: string, action: Action, reason: Reason)

  /** A position as the broker reports it, shares unsigned. */
  datatype Holding = Holding(symbol: string, shares: nat, action: Action)

  /** One closing attempt: `sent` is false when the broker refused the order;
      success is a known fill price. */
  datatype CloseResult = CloseResult(
    symbol: string, side: OrderSide, shares: nat, sent: bool, fillPrice: Option<real>)

  const POLL_INTERVAL: real := 2.0
  const MARKET_TIMEOUT: int := 15
  const EOD_TIMEOUT: int := 30

  /** Replies that keep the poll going. */
  ghost predicate Inconclusive(heard: seq<Reply>) {
    forall i :: 0 <= i < |heard| ==> !heard[i].Inactive? && !(heard[i].FilledAt? && heard[i].price.Some?)
  }

  /** At most one poll for every two seconds begun, and none without time. */
  predicate PollsFit(n: nat, timeout: int) {
    n > 0 ==> 2 * n <= timeout + 1
  }

  /** How a wait for a fill ends: the price is the one of the first priced fill
      reply, and without one the wait was interrupted, told that the order is
      gone, or ran to its deadline; the polls fit before the deadline. */
  ghost predicate GaveUpRightly(heard: seq<Reply>, timeout: int, price: Option<real>, interrupted: bool, late: bool) {
    && PollsFit(|heard|, timeout)
    && (price.Some? ==>
          heard != [] && Inconclusive(heard[..|heard| - 1]) && heard[|heard| - 1] == FilledAt(price))
    && (price.None? ==>
          || (late && Inconclusive(heard))
          || (heard != [] && Inconclusive(heard[..|heard| - 1]) &&
                (heard[|heard| - 1] == Inactive || (interrupted && Inconclusive(heard)))))
  }

  lemma PollFits(n: nat, timeout: int, start: real, clock: real)
    requires start + n as real * POLL_INTERVAL <= clock < start + timeout as real
    ensures PollsFit(n + 1, timeout)
  {
    assert 2 * n < timeout;
  }

  lemma HeardOneMore(heard: seq<Reply>, reply: Reply)
    requires Inconclusive(heard)
    ensures (heard + [reply])[..|heard|] == heard
    ensures !reply.Inactive? && !(reply.FilledAt? && reply.price.Some?) ==> Inconclusive(heard + [reply])
  {
  }

  function NewRow(signal: Signal, mode: Mode, shares: nat, today: int): Row {
    Row(signal.symbol, signal.action, mode, Status.Pending, shares, signal.entryPrice, None, None, None, None, today)
  }

  ghost predicate PositiveFills(orders: seq<Order>) {
    forall i :: 0 <= i < |orders| && orders[i].state.Done? ==> orders[i].state.price > 0.0
  }

  ghost predicate Reports(h: Holding, orders: seq<Order>) {
    h.shares > 0 && Net(orders, h.symbol) == Signed(Entry(h.action), h.shares)
  }

  /** The holdings are exactly the non-zero positions, one entry per symbol. */
  ghost predicate Describes(holdings: seq<Holding>, orders: seq<Order>) {
    && (forall i, j :: 0 <= i < j < |holdings| ==> holdings[i].symbol != holdings[j].symbol)
    && (forall i :: 0 <= i < |holdings| ==> Reports(holdings[i], orders))
    && (forall s :: Net(orders, s) != 0 ==> exists i :: 0 <= i < |holdings| && holdings[i].symbol == s)
  }

  lemma {:induction false} NetNeedsOrder(orders: seq<Order>, s: string)
    ensures Net(orders, s) != 0 ==> exists i :: 0 <= i < |orders| && orders[i].symbol == s
  {
    if orders != [] {
      var init := orders[..|orders| - 1];
      NetNeedsOrder(init, s);
      if Net(init, s) != 0 {
        var i :| 0 <= i < |init| && init[i].symbol == s;
        assert orders[i].symbol == s;
      } else {
        assert orders[|orders| - 1].symbol == s || Net(orders, s) == 0;
      }
    }
  }

  // ----- what one entry does -----

  datatype Request = Request(signal: Signal, approved: bool, shares: nat, mode: Mode, connected: bool, today: int)

  /** Which database calls of an entry fail: the guard's query, the insert, the
      write that marks the row open, and the write of the outcome. */
  datatype Faults = Faults(guard: bool, insert: bool, mark: bool, outcome: bool)

  /** One tick's entry: the request, and what fails during it. */
  datatype Visit = Visit(req: Request, timeout: int, faults: Faults, cancelWorks: bool)

  function BaseRow(req: Request): Row {
    NewRow(req.signal, req.mode, req.shares, req.today)
  }

  function Side(req: Request): OrderSide {
    Entry(req.signal.action)
  }

  /** Which ending an entry may have, given the request and the insert. */
  ghost predicate ReasonFits(req: Request, faults: Faults, reason: Reason) {
    match reason
    case NotApproved => !req.approved
    case RecordFailed => req.approved && faults.insert
    case DryrunLogged => req.approved && !faults.insert && req.mode.Simulated?
    case NoBroker => req.approved && !faults.insert && !req.mode.Simulated? && !req.connected
    case _ => req.approved && !faults.insert && !req.mode.Simulated? && req.connected
  }

  /** Everything an entry does, in order, for row t and first order o. */
  function Script(reason: Reason, t: nat, o: nat, marketSent: bool): seq<Event> {
    match reason
    case NotApproved => []
    case RecordFailed => [InsertFailed]
    case DryrunLogged => [Inserted(t), Wrote(t, Dryrun)]
    case NoBroker => [Inserted(t), Wrote(t, Error)]
    case PlaceFailed => [Inserted(t), Refused, Wrote(t, Error)]
    case LimitFilled => [Inserted(t), Sent(o), Wrote(t, Status.Open), Wrote(t, Status.Filled)]
    case MarketFilled =>
      [Inserted(t), Sent(o), Wrote(t, Status.Open), CancelAsked(o), Sent(o + 1), Wrote(t, Status.Filled)]
    case Unfilled =>
      [Inserted(t), Sent(o), Wrote(t, Status.Open), CancelAsked(o),
       if marketSent then Sent(o + 1) else Refused, Wrote(t, Error)]
  }

  /** How many orders an entry sends. */
  function SentCount(reason: Reason, marketSent: bool): nat {
    match reason
    case LimitFilled => 1
    case MarketFilled => 2
    case Unfilled => if marketSent then 2 else 1
    case _ => 0
  }

  /** Fail-closed: every order an entry sends follows the insert of its row; at
      most a limit and a market order are sent, the market order only after a
      cancel request for the limit order. */
  lemma FailClosed(reason: Reason, t: nat, o: nat, marketSent: bool, i: nat)
    requires i < |Script(reason, t, o, marketSent)| && Script(reason, t, o, marketSent)[i].Sent?
    ensures var script := Script(reason, t, o, marketSent);
      && (exists j :: 0 <= j < i && script[j] == Inserted(t))
      && o <= script[i].order < o + SentCount(reason, marketSent) <= o + 2
      && (script[i].order > o ==> exists j :: 0 <= j < i && script[j] == CancelAsked(o))
      && (forall j :: i < j < |script| && script[j].Sent? ==> script[i].order < script[j].order)
  {
    var script := Script(reason, t, o, marketSent);
    assert script[0] == Inserted(t);
    if script[i].order > o { assert script[3] == CancelAsked(o); }
  }

  predicate Succeeds(reason: Reason) {
    reason.DryrunLogged? || reason.LimitFilled? || reason.MarketFilled?
  }

  function ResultOf(req: Request, reason: Reason, t: nat, o: nat, price: real): OrderResult {
    OrderResult(
      Succeeds(reason),
      if reason.NotApproved? || reason.RecordFailed? then None else Some(t),
      if reason.LimitFilled? then Some(o) else if reason.MarketFilled? then Some(o + 1) else None,
      if Succeeds(reason) then Some(price) else None,
      if reason.NotApproved? then 0 else req.shares,
      req.signal.symbol, req.signal.action, reason)
  }

  function Marked(req: Request, o: nat, faults: Faults): Row {
    if faults.mark then BaseRow(req) else BaseRow(req).(status := Status.Open, orderId := Some(o))
  }

  /** The row an entry leaves, whichever of its writes failed. */
  function RowAfter(req: Request, reason: Reason, o: nat, price: real, faults: Faults): Row {
    var base, marked := BaseRow(req), Marked(req, o, faults);
    match reason
    case DryrunLogged => if faults.outcome then base else base.(status := Dryrun, fillPrice := Some(price))
    case LimitFilled =>
      if faults.outcome then marked else marked.(status := Status.Filled, fillPrice := Some(price))
    case MarketFilled =>
      if faults.outcome then marked
      else marked.(status := Status.Filled, fillPrice := Some(price), orderId := Some(o + 1))
    case Unfilled => if faults.outcome then marked else marked.(status := Error)
    case _ => if faults.outcome then base else base.(status := Error)
  }

  /** The endings with a limit order that the broker took. */
  predicate Sends(reason: Reason) {
    reason.LimitFilled? || reason.MarketFilled? || reason.Unfilled?
  }

  /** Whichever writes fail, the row moved forward from pending, is filled only
      at the reported price of a success, in error only after a failure, and
      undecided only when the outcome could not be written. */
  lemma RowIsHonest(req: Request, reason: Reason, o: nat, price: real, faults: Faults)
    requires !reason.NotApproved? && !reason.RecordFailed?
    ensures var row := RowAfter(req, reason, o, price, faults);
      && RowLater(BaseRow(req), row) && !row.status.Closed?
      && (row.status.Filled? ==> Succeeds(reason) && row.fillPrice == Some(price))
      && (row.status.Error? ==> !Succeeds(reason))
      && (row.status.Open? <==> faults.outcome && !faults.mark && Sends(reason))
      && (row.status.Pending? <==> faults.outcome && (faults.mark || !Sends(reason)))
      && (row.status.Open? ==> row.orderId == Some(o))
      && (row.status.Filled? && !faults.mark ==> row.orderId == Some(if reason.LimitFilled? then o else o + 1))
  {
  }

  /** The orders of the entry: placed as asked, the reported one filled at the
      reported price. */
  ghost predicate OrdersFit(req: Request, reason: Reason, own: seq<Order>, marketSent: bool, price: real) {
    && |own| == SentCount(reason, marketSent)
    && Placed(own, req.signal.symbol, Side(req), req.shares, req.signal.entryPrice)
    && (reason.DryrunLogged? ==> price == req.signal.entryPrice)
    && (reason.LimitFilled? ==> own[0].state == Done(price) && price > 0.0)
    && (reason.MarketFilled? ==> own[1].state == Done(price) && price > 0.0)
  }

  lemma LimitFits(req: Request, o: nat, orders: seq<Order>, price: real)
    requires |orders| == o + 1 && price > 0.0
    requires orders[o] == Order(req.signal.symbol, Side(req), req.shares, Limit(req.signal.entryPrice), Done(price))
    ensures OrdersFit(req, LimitFilled, orders[o..], false, price)
  {
    assert orders[o..] == [orders[o]];
  }

  lemma FallBackFits(req: Request, o: nat, before: seq<Order>, orders: seq<Order>, fill: Option<real>, marketSent: bool)
    requires |before| == o + 1 && Evolves(before, orders)
    requires before[o] ==
             Order(req.signal.symbol, Side(req), req.shares, Limit(req.signal.entryPrice), before[o].state)
    requires |orders| == o + (if marketSent then 2 else 1) && (fill.Some? ==> marketSent && fill.value > 0.0)
    requires marketSent ==>
      orders[o + 1] == Order(req.signal.symbol, Side(req), req.shares, Market, orders[o + 1].state)
    requires fill.Some? ==> orders[o + 1].state == Done(fill.value)
    ensures OrdersFit(req, if fill.Some? then MarketFilled else Unfilled, orders[o..], marketSent,
                      if fill.Some? then fill.value else 0.0)
  {
    assert orders[o] == before[o] || orders[o] == before[o].(state := orders[o].state);
    assert orders[o..] == if marketSent then [orders[o], orders[o + 1]] else [orders[o]];
  }

  lemma WrittenTwice(rows: seq<Row>, id: nat, a: Row, b: Row)
    requires id < |rows|
    ensures rows[id := a][id := b] == rows[id := b] && rows[id := rows[id]] == rows
  {
  }

  // ----- the stages of an entry -----

  /** Everything an entry can see or change. */
  datatype Moment = Moment(
    rows: seq<Row>, orders: seq<Order>, clock: real, interrupted: bool, journal: seq<Event>, replies: seq<Reply>)

  /** The limit order went out as decided, or was refused; the row was marked,
      unless that write failed; and the wait for the order ended rightly. */
  ghost predicate SentLimit(req: Request, id: nat, timeout: int, faults: Faults, m: Moment, m': Moment,
                            limit: Option<nat>, fill: Option<real>)
    requires id < |m.rows|
  {
    var n := |m.orders|;
    var row := if limit.Some? then m.rows[id].(status := Status.Open, orderId := limit)
               else m.rows[id].(status := Error);
    && Evolves(m.orders, m'.orders) && |m'.orders| == n + (if limit.Some? then 1 else 0)
    && (fill.Some? ==> limit.Some?)
    && (limit.Some? ==>
          && limit.value == n
          && m'.orders[n] == Order(req.signal.symbol, Side(req), req.shares,
                                   Limit(req.signal.entryPrice), m'.orders[n].state)
          && (fill.Some? ==> m'.orders[n].state == Done(fill.value) && fill.value > 0.0))
    && m'.rows == (if (if limit.Some? then faults.mark else faults.outcome) then m.rows else m.rows[id := row])
    && m'.journal == m.journal + [if limit.Some? then Sent(n) else Refused, Wrote(id, row.status)]
    && m.clock <= m'.clock && m.replies <= m'.replies
    && (if limit.Some?
        then GaveUpRightly(m'.replies[|m.replies|..], timeout, fill, m'.interrupted,
                           m'.clock >= m.clock + timeout as real)
        else m'.replies == m.replies)
  }

  /** After the limit order: a cancel request, at most one market order, its
      wait of 15 seconds, and the outcome in the row, unless that write failed. */
  ghost predicate FellBack(req: Request, id: nat, limit: nat, down: bool, cancelWorks: bool, m: Moment, m': Moment,
                           fill: Option<real>, market: Option<nat>, cancelled: seq<Order>)
    requires id < |m.rows| && limit < |m.orders|
  {
    var n := |m.orders|;
    var row := if fill.Some? then m.rows[id].(status := Status.Filled, fillPrice := fill, orderId := market)
               else m.rows[id].(status := Error);
    && |cancelled| == n && Evolves(m.orders, cancelled) && Evolves(cancelled, m'.orders)
    && Evolves(m.orders, m'.orders)
    && (cancelWorks ==> !cancelled[limit].state.Working?)
    && |m'.orders| == n + (if market.Some? then 1 else 0)
    && (fill.Some? ==> market.Some?)
    && (market.Some? ==>
          && market.value == n
          && m'.orders[n] == Order(req.signal.symbol, Side(req), req.shares, Market, m'.orders[n].state)
          && (fill.Some? ==> m'.orders[n].state == Done(fill.value) && fill.value > 0.0))
    && m'.rows == (if down then m.rows else m.rows[id := row])
    && m'.journal == m.journal +
         [CancelAsked(limit), if market.Some? then Sent(n) else Refused, Wrote(id, row.status)]
    && m.clock <= m'.clock && (m.interrupted ==> m'.interrupted) && m.replies <= m'.replies
    && (if market.Some?
        then GaveUpRightly(m'.replies[|m.replies|..], 15, fill, m'.interrupted, m'.clock >= m.clock + 15.0)
        else m'.replies == m.replies)
  }

  /** The whole paper and live path of row id. */
  ghost predicate Traded(req: Request, id: nat, timeout: int, faults: Faults, cancelWorks: bool, m: Moment, m': Moment,
                         reason: Reason, marketSent: bool, price: real, w: Watch)
    requires id < |m.rows|
  {
    var o := |m.orders|;
    && (reason.PlaceFailed? || reason.LimitFilled? || GoesOn(reason))
    && m'.journal == m.journal + Script(reason, id, o, marketSent)[1..]
    && m'.rows == m.rows[id := RowAfter(req, reason, o, price, faults)]
    && Evolves(m.orders, m'.orders) && o <= |m'.orders|
    && OrdersFit(req, reason, m'.orders[o..], marketSent, price)
    && Watched(reason, o, cancelWorks, w, m'.orders)
    && Waited(reason, timeout, m.clock, price, marketSent, w, m.replies, m'.replies, m'.interrupted, m'.clock)
  }

  lemma NotPlaced(req: Request, id: nat, timeout: int, faults: Faults, cancelWorks: bool, m: Moment, m': Moment)
    requires id < |m.rows| && m.rows[id] == BaseRow(req)
    requires SentLimit(req, id, timeout, faults, m, m', None, None)
    ensures Traded(req, id, timeout, faults, cancelWorks, m, m', PlaceFailed, false, 0.0, NO_WATCH)
  {
    assert m.rows[id := m.rows[id]] == m.rows;
    assert m'.orders[|m.orders|..] == [];
  }

  lemma LimitDone(req: Request, id: nat, timeout: int, faults: Faults, cancelWorks: bool,
                  m: Moment, mid: Moment, m': Moment, fill: real, w: Watch)
    requires id < |m.rows| && m.rows[id] == BaseRow(req)
    requires SentLimit(req, id, timeout, faults, m, mid, Some(|m.orders|), Some(fill))
    requires m' == mid.(rows := m'.rows, journal := mid.journal + [Wrote(id, Status.Filled)])
    requires m'.rows == if faults.outcome then mid.rows
                        else mid.rows[id := mid.rows[id].(status := Status.Filled, fillPrice := Some(fill))]
    requires w == Watch([], [], mid.replies[|m.replies|..], mid.clock, mid.interrupted)
    ensures Traded(req, id, timeout, faults, cancelWorks, m, m', LimitFilled, false, fill, w)
  {
    var o := |m.orders|;
    WrittenTwice(m.rows, id, Marked(req, o, faults), m'.rows[id]);
    LimitFits(req, o, m'.orders, fill);
    assert m'.journal == m.journal + Script(LimitFilled, id, o, false)[1..];
    assert m'.replies == m.replies + w.limitHeard;
    WaitedOnce(timeout, m.clock, fill, w, m.replies, m'.replies, mid.interrupted,
               mid.clock >= m.clock + timeout as real, m'.clock);
  }

  lemma MarketDone(req: Request, id: nat, timeout: int, faults: Faults, cancelWorks: bool,
                   m: Moment, mid: Moment, m': Moment, fill: Option<real>, market: Option<nat>, w: Watch)
    requires id < |m.rows| && m.rows[id] == BaseRow(req)
    requires SentLimit(req, id, timeout, faults, m, mid, Some(|m.orders|), None)
    requires FellBack(req, id, |m.orders|, faults.outcome, cancelWorks, mid, m', fill, market, w.cancelled)
    requires w == Watch(mid.orders, w.cancelled, mid.replies[|m.replies|..], mid.clock, mid.interrupted)
    ensures Traded(req, id, timeout, faults, cancelWorks, m, m', if fill.Some? then MarketFilled else Unfilled,
                   market.Some?, if fill.Some? then fill.value else 0.0, w)
  {
    var o, price := |m.orders|, if fill.Some? then fill.value else 0.0;
    var reason := if fill.Some? then MarketFilled else Unfilled;
    WrittenTwice(m.rows, id, Marked(req, o, faults), m'.rows[id]);
    FallBackFits(req, o, mid.orders, m'.orders, fill, market.Some?);
    EvolvesTrans(m.orders, mid.orders, m'.orders);
    assert m'.journal == m.journal + Script(reason, id, o, market.Some?)[1..];
    assert mid.replies == m.replies + w.limitHeard;
    WaitedTwice(timeout, m.clock, price, market.Some?, w, m.replies, mid.replies, m'.replies,
                m'.interrupted, m'.clock, fill);
  }

  // ----- a whole entry -----

  /** What an entry leaves besides its result: whether the broker took the market
      order, the fill price, and what its waits saw. */
  datatype Trace = Trace(marketSent: bool, price: real, watch: Watch)

  /** The entry went through one ending: its result, journal, row, orders and
      waits are those of that ending. */
  ghost predicate Executed(v: Visit, m: Moment, m': Moment, result: OrderResult, t: Trace) {
    var req, reason, o := v.req, result.reason, |m.orders|;
    && ReasonFits(req, v.faults, reason)
    && result == ResultOf(req, reason, |m.rows|, o, t.price)
    && m'.journal == m.journal + Script(reason, |m.rows|, o, t.marketSent)
    && m'.rows == (if reason.NotApproved? || reason.RecordFailed? then m.rows
                   else m.rows + [RowAfter(req, reason, o, t.price, v.faults)])
    && Evolves(m.orders, m'.orders) && o <= |m'.orders|
    && OrdersFit(req, reason, m'.orders[o..], t.marketSent, t.price)
    && Watched(reason, o, v.cancelWorks, t.watch, m'.orders)
    && Waited(reason, v.timeout, m.clock, t.price, t.marketSent, t.watch,
              m.replies, m'.replies, m'.interrupted, m'.clock)
  }

  lemma EndedEarly(v: Visit, m: Moment, m': Moment, result: OrderResult, price: real)
    requires result.reason in {NotApproved, RecordFailed, DryrunLogged, NoBroker}
    requires ReasonFits(v.req, v.faults, result.reason)
    requires result == ResultOf(v.req, result.reason, |m.rows|, |m.orders|, price)
    requires m' == m.(rows := m'.rows, journal := m.journal + Script(result.reason, |m.rows|, |m.orders|, false))
    requires m'.rows == if result.reason.NotApproved? || result.reason.RecordFailed? then m.rows
                        else m.rows + [RowAfter(v.req, result.reason, |m.orders|, price, v.faults)]
    requires result.reason.DryrunLogged? ==> price == v.req.signal.entryPrice
    ensures Executed(v, m, m', result, Trace(false, price, NO_WATCH))
  {
    assert m'.orders[|m.orders|..] == [];
  }

  lemma TradedIsExecuted(v: Visit, m: Moment, mid: Moment, m': Moment, result: OrderResult, t: Trace)
    requires v.req.approved && !v.faults.insert && !v.req.mode.Simulated? && v.req.connected
    requires mid == m.(rows := m.rows + [BaseRow(v.req)], journal := m.journal + [Inserted(|m.rows|)])
    requires result == ResultOf(v.req, result.reason, |m.rows|, |m.orders|, t.price)
    requires Traded(v.req, |m.rows|, v.timeout, v.faults, v.cancelWorks, mid, m',
                    result.reason, t.marketSent, t.price, t.watch)
    ensures Executed(v, m, m', result, t)
  {
    var row := RowAfter(v.req, result.reason, |m.orders|, t.price, v.faults);
    assert (m.rows + [BaseRow(v.req)])[|m.rows| := row] == m.rows + [row];
    var script := Script(result.reason, |m.rows|, |m.orders|, t.marketSent);
    assert script == [Inserted(|m.rows|)] + script[1..];
    assert m.journal + [Inserted(|m.rows|)] + script[1..] == m.journal + script;
  }

  /** The visit was stopped by the guard and changed nothing, or executed. */
  ghost predicate Entered(v: Visit, m: Moment, m': Moment, result: Option<OrderResult>, t: Trace) {
    && (result.None? <==> v.faults.guard || !Unblocked(m.rows, v.req.signal.symbol, v.req.today))
    && (result.None? ==> m' == m)
    && (result.Some? ==> Executed(v, m, m', result.value, t))
  }

  /** The last reply heard gave the price of a fill. */
  predicate ToldFilled(heard: seq<Reply>) {
    heard != [] && heard[|heard| - 1].FilledAt? && heard[|heard| - 1].price.Some?
  }

  /** An entry that reaches the broker succeeds exactly when the last reply it
      heard gives a fill price, and a dry run whenever its row is inserted. A
      success names a filled order of the entry and its price; a failure names
      neither. The trade id is that of the new row, if there is one. */
  lemma SuccessIff(v: Visit, m: Moment, m': Moment, result: OrderResult, t: Trace)
    requires Executed(v, m, m', result, t)
    ensures result.success <==>
      && v.req.approved && !v.faults.insert
      && (v.req.mode.Simulated? || (m.replies <= m'.replies && ToldFilled(m'.replies[|m.replies|..])))
    ensures !result.success ==> result.fillPrice.None? && result.orderId.None?
    ensures result.success && v.req.mode.Simulated? ==>
      result.fillPrice == Some(v.req.signal.entryPrice) && result.orderId.None? && |m'.orders| == |m.orders|
    ensures result.success && !v.req.mode.Simulated? ==>
      && result.fillPrice.Some? && result.orderId.Some?
      && |m.orders| <= result.orderId.value < |m'.orders|
      && var order := m'.orders[result.orderId.value];
         order.state == Done(result.fillPrice.value) && order.symbol == v.req.signal.symbol
    ensures result.tradeId == if v.req.approved && !v.faults.insert then Some(|m.rows|) else None
    ensures |m'.rows| == |m.rows| + (if result.tradeId.Some? then 1 else 0)
    ensures result.shares == if v.req.approved then v.req.shares else 0
    ensures result.symbol == v.req.signal.symbol && result.action == v.req.signal.action
  {
    var o, own := |m.orders|, m'.orders[|m.orders|..];
    if result.reason.LimitFilled? { assert own[0] == m'.orders[o]; }
    if result.reason.MarketFilled? { assert own[1] == m'.orders[o + 1]; }
    HeardAtTheEnd(result.reason, v.timeout, m.clock, t.price, t.marketSent, t.watch,
                  m.replies, m'.replies, m'.interrupted, m'.clock);
  }

  lemma HeardAtTheEnd(reason: Reason, timeout: int, start: real, price: real, marketSent: bool, w: Watch,
                      before: seq<Reply>, after: seq<Reply>, interrupted: bool, clock: real)
    requires Waited(reason, timeout, start, price, marketSent, w, before, after, interrupted, clock)
    ensures before <= after
    ensures ToldFilled(after[|before|..]) <==> reason.LimitFilled? || reason.MarketFilled?
  {
    var mid := before + w.limitHeard;
    if Sends(reason) {
      assert mid <= after && before <= mid;
      var tail := after[|mid|..];
      assert after[|before|..] == w.limitHeard + tail;
      assert !ToldFilled(w.limitHeard) || reason.LimitFilled?;
      if tail == [] { assert after[|before|..] == w.limitHeard; }
    }
  }

  // ----- entries and closes against the ledger -----

  function ExpectedFills(reason: Reason): nat {
    if reason.LimitFilled? || reason.MarketFilled? then 1 else 0
  }

  /** What the waits of an entry saw: the order book when the wait for the limit
      order ended and when the cancel request for it returned, the replies heard
      for it, when that wait ended, and whether a shutdown was signalled by then. */
  datatype Watch = Watch(
    gaveUp: seq<Order>, cancelled: seq<Order>, limitHeard: seq<Reply>, limitEnd: real, cut: bool)

  const NO_WATCH := Watch([], [], [], 0.0, false)

  /** How the waits went, for each ending. A limit fill is one reported while
      waiting; the market order comes only after the wait for the limit order
      gave up rightly, and its own wait of 15 seconds decides the rest. */
  ghost predicate Waited(reason: Reason, timeout: int, start: real, price: real, marketSent: bool, w: Watch,
                         before: seq<Reply>, after: seq<Reply>, interrupted: bool, clock: real) {
    var mid := before + w.limitHeard;
    match reason
    case LimitFilled => after == mid && GaveUpRightly(w.limitHeard, timeout, Some(price), false, false)
    case MarketFilled =>
      && mid <= after && LimitGaveUp(timeout, start, w, interrupted, clock)
      && GaveUpRightly(after[|mid|..], 15, Some(price), false, false)
    case Unfilled =>
      && mid <= after && LimitGaveUp(timeout, start, w, interrupted, clock)
      && (if marketSent then GaveUpRightly(after[|mid|..], 15, None, interrupted, clock >= w.limitEnd + 15.0)
          else after == mid)
    case _ => after == before
  }

  ghost predicate LimitGaveUp(timeout: int, start: real, w: Watch, interrupted: bool, clock: real) {
    && GaveUpRightly(w.limitHeard, timeout, None, w.cut, w.limitEnd >= start + timeout as real)
    && (w.cut ==> interrupted) && start <= w.limitEnd <= clock
  }

  lemma WaitedOnce(timeout: int, start: real, price: real, w: Watch, before: seq<Reply>, after: seq<Reply>,
                   interrupted: bool, late: bool, clock: real)
    requires after == before + w.limitHeard
    requires GaveUpRightly(w.limitHeard, timeout, Some(price), interrupted, late)
    ensures Waited(LimitFilled, timeout, start, price, false, w, before, after, interrupted, clock)
  {
  }

  lemma WaitedTwice(timeout: int, start: real, price: real, marketSent: bool, w: Watch, before: seq<Reply>,
                    mid: seq<Reply>, after: seq<Reply>, interrupted: bool, clock: real, fill: Option<real>)
    requires mid == before + w.limitHeard && mid <= after && start <= w.limitEnd <= clock && (w.cut ==> interrupted)
    requires GaveUpRightly(w.limitHeard, timeout, None, w.cut, w.limitEnd >= start + timeout as real)
    requires if marketSent
             then GaveUpRightly(after[|mid|..], 15, fill, interrupted, clock >= w.limitEnd + 15.0)
             else after == mid && fill.None?
    requires fill.Some? ==> fill.value == price
    ensures Waited(if fill.Some? then MarketFilled else Unfilled, timeout, start, price, marketSent, w,
                   before, after, interrupted, clock)
  {
  }

  /** Of the endings that waited, the entry ends with the limit fill exactly when
      the replies heard for the limit order end in a priced fill. */
  lemma LimitFilledIff(reason: Reason, timeout: int, start: real, price: real, marketSent: bool, w: Watch,
                       before: seq<Reply>, after: seq<Reply>, interrupted: bool, clock: real)
    requires Waited(reason, timeout, start, price, marketSent, w, before, after, interrupted, clock)
    requires reason.LimitFilled? || GoesOn(reason)
    ensures reason.LimitFilled? <==>
      w.limitHeard != [] && var last := w.limitHeard[|w.limitHeard| - 1]; last.FilledAt? && last.price.Some?
  {
  }

  predicate GoesOn(reason: Reason) {
    reason.MarketFilled? || reason.Unfilled?
  }

  ghost predicate Watched(reason: Reason, o: nat, cancelWorks: bool, w: Watch, orders: seq<Order>) {
    GoesOn(reason) ==>
      && |w.gaveUp| == |w.cancelled| == o + 1 <= |orders|
      && Evolves(w.gaveUp, w.cancelled) && Evolves(w.cancelled, orders)
      && (cancelWorks ==> !w.cancelled[o].state.Working?)
  }

  /** When the position moved as reported, for each ending: a filled limit order
      always; a filled market order if the limit order did not fill beside it;
      a failure if no order filled. */
  ghost predicate EntryExact(reason: Reason, own: seq<Order>) {
    match reason
    case MarketFilled => own != [] && !own[0].state.Done?
    case Unfilled => forall i :: 0 <= i < |own| ==> !own[i].state.Done?
    case _ => true
  }

  lemma FillsPerEnding(req: Request, reason: Reason, own: seq<Order>, marketSent: bool, price: real)
    requires OrdersFit(req, reason, own, marketSent, price)
    ensures FilledCount(own) == ExpectedFills(reason) <==> EntryExact(reason, own)
  {
    SmallCash(own);
  }

  /** An entry moves the position up by its shares for a long and down for a short
      when an order was reported filled, and by nothing otherwise, exactly under
      its ending's condition. */
  lemma EntryExactIff(req: Request, reason: Reason, own: seq<Order>, marketSent: bool, price: real)
    requires OrdersFit(req, reason, own, marketSent, price) && req.shares > 0
    ensures Net(own, req.signal.symbol) ==
        (if !(reason.LimitFilled? || reason.MarketFilled?) then 0
         else if req.signal.action.Long? then req.shares else -(req.shares as int))
      <==> EntryExact(reason, own)
  {
    FillsPerEnding(req, reason, own, marketSent, price);
    PlacedMoves(own, req.signal.symbol, Side(req), req.shares, req.signal.entryPrice, req.signal.symbol);
    TimesIsOnce(FilledCount(own), ExpectedFills(reason), Signed(Side(req), req.shares), Net(own, req.signal.symbol));
  }

  /** No order filled that its wait had not reported by its end. */
  ghost predicate NothingMissed(reason: Reason, o: nat, w: Watch, orders: seq<Order>) {
    && (GoesOn(reason) && o < |w.gaveUp| ==> !w.gaveUp[o].state.Done?)
    && (reason.Unfilled? ==> forall i :: o < i < |orders| ==> !orders[i].state.Done?)
  }

  /** The limit order, not filled when its wait ended, does not fill before its
      cancel request returns. */
  ghost predicate NoLateFill(reason: Reason, o: nat, w: Watch) {
    GoesOn(reason) && o < |w.gaveUp| && o < |w.cancelled| && w.cancelled[o].state.Done? ==> w.gaveUp[o].state.Done?
  }

  /** If cancels take effect, all is decided when the cancel request returns:
      the entry will be exact if the limit order is not filled then, whatever
      the market does, and a market order given up stays unfilled. */
  lemma CancelDecides(reason: Reason, o: nat, w: Watch, orders: seq<Order>, own: seq<Order>)
    requires Watched(reason, o, true, w, orders) && o <= |orders| && own == orders[o..]
    ensures EntryExact(reason, own) <==>
      && (GoesOn(reason) ==> !w.cancelled[o].state.Done?)
      && (reason.Unfilled? ==> forall i :: o < i < |orders| ==> !orders[i].state.Done?)
  {
    if GoesOn(reason) {
      assert own[0] == orders[o] == w.cancelled[o];
      if reason.Unfilled? {
        assert forall i :: 0 <= i < |own| ==> own[i] == orders[o + i];
        assert forall i :: o <= i < |orders| ==> orders[i] == own[i - o];
      }
    }
  }

  /** With cancels that take effect and no fill after a wait gave up, every
      entry moves the position exactly as reported. */
  lemma OrderlyBrokerIsExact(reason: Reason, o: nat, w: Watch, orders: seq<Order>, own: seq<Order>)
    requires Watched(reason, o, true, w, orders) && o <= |orders| && own == orders[o..]
    requires NothingMissed(reason, o, w, orders) && NoLateFill(reason, o, w)
    ensures EntryExact(reason, own)
  {
    CancelDecides(reason, o, w, orders, own);
  }

  /** If cancels take effect, an entry into a settled book leaves at most one
      order working: the market order of a failed entry. */
  lemma OnlyTheMarketOrderIsLeft(req: Request, reason: Reason, w: Watch, before: seq<Order>, orders: seq<Order>,
                                 marketSent: bool, price: real, i: nat)
    requires NoneWorking(before) && Evolves(before, orders)
    requires Watched(reason, |before|, true, w, orders)
    requires OrdersFit(req, reason, orders[|before|..], marketSent, price)
    requires i < |orders| && orders[i].state.Working?
    ensures reason.Unfilled? && i == |before| + 1
  {
    var o := |before|;
    SettledOrdersStay(before, orders);
    assert forall k :: 0 <= k < o ==> orders[k] == orders[..o][k] == before[k];
    if i >= o { assert orders[o..][i - o] == orders[i]; }
    if GoesOn(reason) { assert orders[o] == w.cancelled[o]; }
  }

  /** A filled row of the symbol is left from an earlier day. */
  ghost predicate HeldOvernight(rows: seq<Row>, symbol: string, today: int) {
    exists i :: 0 <= i < |rows| && rows[i].symbol == symbol && rows[i].status.Filled? && rows[i].day < today
  }

  /** No order of the entry filled, when its outcome could not be written;
      otherwise the position moved as reported. */
  ghost predicate EntryTold(reason: Reason, faults: Faults, own: seq<Order>) {
    if faults.outcome then FilledCount(own) == 0 else EntryExact(reason, own)
  }

  /** If the table and the broker agreed, they agree after an entry exactly when
      it moved the position as its row says. */
  lemma ExecutedAgreesIff(req: Request, reason: Reason, price: real, marketSent: bool,
                          faults: Faults, rows: seq<Row>, orders: seq<Order>, row: Row, own: seq<Order>)
    requires Agree(rows, orders) && req.shares > 0
    requires ReasonFits(req, faults, reason) && !reason.NotApproved? && !reason.RecordFailed?
    requires row == RowAfter(req, reason, |orders|, price, faults)
    requires OrdersFit(req, reason, own, marketSent, price)
    ensures Agree(rows + [row], orders + own) <==> EntryTold(reason, faults, own)
  {
    assert RowFits(row, own);
    FillsPerEnding(req, reason, own, marketSent, price);
    EntryAgreesIff(rows, orders, row, own);
  }

  /** An entry past the guard leaves a clean table clean exactly when its row is
      not left open and, if filled, the symbol was not held overnight. */
  ghost predicate StaysClean(rows: seq<Row>, req: Request, reason: Reason, faults: Faults) {
    && (SentCount(reason, true) > 0 && faults.outcome ==> faults.mark)
    && (ExpectedFills(reason) == 1 && !faults.outcome ==> !HeldOvernight(rows, req.signal.symbol, req.today))
  }

  lemma ExecutedCleanIff(req: Request, reason: Reason, price: real, faults: Faults, rows: seq<Row>, o: nat)
    requires Clean(rows) && Unblocked(rows, req.signal.symbol, req.today)
    requires !reason.NotApproved? && !reason.RecordFailed?
    ensures Clean(rows + [RowAfter(req, reason, o, price, faults)]) <==> StaysClean(rows, req, reason, faults)
  {
    var row := RowAfter(req, reason, o, price, faults);
    EntryCleanIff(rows, row);
    forall i | 0 <= i < |rows| && rows[i].symbol == row.symbol && rows[i].status.Filled?
      ensures rows[i].day < req.today
    {
      assert !Blocks(rows[i], req.signal.symbol, req.today);
    }
  }

  /** What an entry that ended with the given journal of orders guarantees. */
  lemma EntryLaws(req: Request, reason: Reason, price: real, marketSent: bool, faults: Faults, cancelWorks: bool,
                  w: Watch, rows: seq<Row>, orders: seq<Order>, rows': seq<Row>, orders': seq<Order>)
    requires Unblocked(rows, req.signal.symbol, req.today) && ReasonFits(req, faults, reason)
    requires rows' == if reason.NotApproved? || reason.RecordFailed? then rows
                      else rows + [RowAfter(req, reason, |orders|, price, faults)]
    requires Evolves(orders, orders') && OrdersFit(req, reason, orders'[|orders|..], marketSent, price)
    requires Watched(reason, |orders|, cancelWorks, w, orders')
    ensures cancelWorks && NothingMissed(reason, |orders|, w, orders') && NoLateFill(reason, |orders|, w)
      ==> EntryExact(reason, orders'[|orders|..])
    ensures cancelWorks && NoneWorking(orders) && !reason.Unfilled? ==> NoneWorking(orders')
    ensures Settled(rows, orders) && req.shares > 0 ==>
      (Agree(rows', orders') <==> EntryTold(reason, faults, orders'[|orders|..]) || rows' == rows)
    ensures Clean(rows) ==> (Clean(rows') <==> StaysClean(rows, req, reason, faults) || rows' == rows)
  {
    var o := |orders|;
    var own := orders'[o..];
    if cancelWorks && NothingMissed(reason, o, w, orders') && NoLateFill(reason, o, w) {
      OrderlyBrokerIsExact(reason, o, w, orders', own);
    }
    if cancelWorks && NoneWorking(orders) && !reason.Unfilled? {
      forall i: nat | i < |orders'| ensures !orders'[i].state.Working? {
        if orders'[i].state.Working? {
          OnlyTheMarketOrderIsLeft(req, reason, w, orders, orders', marketSent, price, i);
        }
      }
    }
    if Settled(rows, orders) && req.shares > 0 {
      SettledOrdersStay(orders, orders');
      assert orders' == orders + own;
      if rows' != rows {
        ExecutedAgreesIff(req, reason, price, marketSent, faults, rows, orders, rows'[|rows|], own);
      } else {
        assert own == [] && orders' == orders;
      }
    }
    if Clean(rows) && rows' != rows { ExecutedCleanIff(req, reason, price, faults, rows, o); }
  }

  /** The table after the close attempts: each attempt whose order was sent
      closes the newest open row of its symbol, filled or not, unless the
      database fails for that symbol. */
  function CloseRows(rows: seq<Row>, results: seq<CloseResult>, failing: set<string>): seq<Row> {
    if results == [] then rows
    else
      var r := results[|results| - 1];
      var prior := CloseRows(rows, results[..|results| - 1], failing);
      if r.sent && r.symbol !in failing then CloseTable(prior, r.symbol, r.fillPrice) else prior
  }

  ghost predicate ResultFits(r: CloseResult, h: Holding) {
    && r.symbol == h.symbol && r.side == Opposite(h.action) && r.shares == h.shares
    && (r.fillPrice.Some? ==> r.sent)
  }

  predicate AllFilled(results: seq<CloseResult>) {
    forall i :: 0 <= i < |results| ==> results[i].fillPrice.Some?
  }

  function CountSent(results: seq<CloseResult>): nat {
    if results == [] then 0
    else CountSent(results[..|results| - 1]) + (if results[|results| - 1].sent then 1 else 0)
  }

  /** What a close saw: the number its order would get, the replies heard for it,
      when it began and when it ended. */
  datatype CloseWatch = CloseWatch(order: nat, heard: seq<Reply>, start: real, end: real)

  /** A sent closing order is the one the result describes, filled at the reported
      price, and was waited for, 30 seconds at most; a refused one was not. */
  ghost predicate CloseSeen(r: CloseResult, w: CloseWatch, orders: seq<Order>, interrupted: bool) {
    && w.start <= w.end && w.order + (if r.sent then 1 else 0) <= |orders|
    && (r.sent ==>
          && orders[w.order] == Order(r.symbol, r.side, r.shares, Market, orders[w.order].state)
          && (r.fillPrice.Some? ==> orders[w.order].state == Done(r.fillPrice.value))
          && GaveUpRightly(w.heard, 30, r.fillPrice, interrupted, w.end >= w.start + 30.0))
    && (!r.sent ==> w.heard == [])
  }

  /** Of two attempts the second began after the first, with its order counted. */
  predicate After(r: CloseResult, w: CloseWatch, next: CloseWatch) {
    w.end <= next.start && w.order + (if r.sent then 1 else 0) <= next.order
  }

  function Heard(watches: seq<CloseWatch>): seq<Reply> {
    if watches == [] then [] else Heard(watches[..|watches| - 1]) + watches[|watches| - 1].heard
  }

  /** One attempt at the broker for each result. */
  function CloseScript(results: seq<CloseResult>, watches: seq<CloseWatch>): seq<Event>
    requires |results| == |watches|
  {
    if results == [] then []
    else
      var n := |results| - 1;
      CloseScript(results[..n], watches[..n]) + [if results[n].sent then Sent(watches[n].order) else Refused]
  }

  ghost predicate AllSeen(results: seq<CloseResult>, watches: seq<CloseWatch>, m: Moment, m': Moment)
    requires |results| == |watches|
  {
    && m.clock <= m'.clock
    && (forall k :: 0 <= k < |results| ==>
          && CloseSeen(results[k], watches[k], m'.orders, m'.interrupted)
          && |m.orders| <= watches[k].order && m.clock <= watches[k].start && watches[k].end <= m'.clock)
    && (forall j, k :: 0 <= j < k < |results| ==> After(results[j], watches[j], watches[k]))
  }

  /** The closes were attempted at the broker in order, one after the other, and
      the results tell what came of them. */
  ghost predicate Attempted(results: seq<CloseResult>, watches: seq<CloseWatch>, m: Moment, m': Moment) {
    && |watches| == |results|
    && m'.journal == m.journal + CloseScript(results, watches)
    && m'.replies == m.replies + Heard(watches)
    && AllSeen(results, watches, m, m')
  }

  lemma SeenLater(r: CloseResult, w: CloseWatch, m: Moment, m': Moment)
    requires CloseSeen(r, w, m.orders, m.interrupted) && Evolves(m.orders, m'.orders)
    requires m.interrupted ==> m'.interrupted
    ensures CloseSeen(r, w, m'.orders, m'.interrupted)
  {
    if r.sent { assert m'.orders[w.order].state == m.orders[w.order].state || m.orders[w.order].state.Working?; }
  }

  lemma AllSeenNext(results: seq<CloseResult>, watches: seq<CloseWatch>, m: Moment, mid: Moment, m': Moment,
                    r: CloseResult, w: CloseWatch)
    requires |results| == |watches| && AllSeen(results, watches, m, mid)
    requires w.start == mid.clock && w.end == m'.clock && w.order == |mid.orders| >= |m.orders|
    requires CloseSeen(r, w, m'.orders, m'.interrupted)
    requires Evolves(mid.orders, m'.orders) && (mid.interrupted ==> m'.interrupted)
    ensures AllSeen(results + [r], watches + [w], m, m')
  {
    var rs, ws := results + [r], watches + [w];
    forall k | 0 <= k < |rs| ensures CloseSeen(rs[k], ws[k], m'.orders, m'.interrupted) {
      if k < |results| { SeenLater(results[k], watches[k], mid, m'); }
    }
    forall j, k | 0 <= j < k < |rs| ensures After(rs[j], ws[j], ws[k]) {
      if k < |results| { assert After(results[j], watches[j], watches[k]); }
    }
  }

  lemma AttemptedNext(results: seq<CloseResult>, watches: seq<CloseWatch>, m: Moment, mid: Moment, m': Moment,
                      r: CloseResult, w: CloseWatch)
    requires Attempted(results, watches, m, mid)
    requires m'.journal == mid.journal + [if r.sent then Sent(|mid.orders|) else Refused]
    requires m'.replies == mid.replies + w.heard
    requires w.start == mid.clock && w.end == m'.clock && w.order == |mid.orders| >= |m.orders|
    requires CloseSeen(r, w, m'.orders, m'.interrupted)
    requires Evolves(mid.orders, m'.orders) && (mid.interrupted ==> m'.interrupted)
    ensures Attempted(results + [r], watches + [w], m, m')
  {
    AllSeenNext(results, watches, m, mid, m', r, w);
    assert (results + [r])[..|results|] == results && (watches + [w])[..|watches|] == watches;
    assert m'.journal == m.journal + CloseScript(results + [r], watches + [w]);
    assert m'.replies == m.replies + Heard(watches + [w]);
  }

  /** What a close run does: nothing in a dry run or without the broker; otherwise
      one attempt for every position the broker reports. */
  ghost predicate ClosedAll(mode: Mode, connected: bool, listDown: bool, failing: set<string>, m: Moment, m': Moment,
                            results: seq<CloseResult>, watches: seq<CloseWatch>, holdings: seq<Holding>,
                            book: seq<Order>) {
    && (mode.Simulated? || !connected ==> m' == m)
    && (mode.Simulated? || !connected || listDown ==> results == [] && holdings == [])
    && (!mode.Simulated? && connected && !listDown ==>
          Evolves(m.orders, book) && |book| == |m.orders| && Describes(holdings, book))
    && Fits(results, holdings, |holdings|)
    && Evolves(m.orders, m'.orders) && |m'.orders| == |m.orders| + CountSent(results)
    && Attempted(results, watches, m, m')
    && m'.rows == CloseRows(m.rows, results, failing)
  }

  /** The attempts after the broker reported its positions are the whole run. */
  lemma AttemptsAreTheRun(mode: Mode, failing: set<string>, m: Moment, listed: Moment, m': Moment,
                          results: seq<CloseResult>, watches: seq<CloseWatch>, holdings: seq<Holding>)
    requires !mode.Simulated? && Evolves(m.orders, listed.orders) && |listed.orders| == |m.orders|
    requires m.rows == listed.rows && m.journal == listed.journal && m.replies == listed.replies
    requires m.clock <= listed.clock && Describes(holdings, listed.orders)
    requires Fits(results, holdings, |holdings|) && Attempted(results, watches, listed, m')
    requires Evolves(listed.orders, m'.orders) && |m'.orders| == |m.orders| + CountSent(results)
    requires m'.rows == CloseRows(listed.rows, results, failing)
    ensures ClosedAll(mode, true, false, failing, m, m', results, watches, holdings, listed.orders)
  {
    EvolvesTrans(m.orders, listed.orders, m'.orders);
  }

  /** Closing one row moves the table forward. */
  lemma CloseTableLater(rows: seq<Row>, symbol: string, exit: Option<real>)
    ensures TableLater(rows, CloseTable(rows, symbol, exit))
    ensures |CloseTable(rows, symbol, exit)| == |rows|
  {
    LastOpenMeaning(rows, symbol);
  }

  /** Every remaining position is among the holdings from i on, as reported. */
  ghost predicate Remaining(holdings: seq<Holding>, i: nat, orders: seq<Order>) {
    && (forall k :: i <= k < |holdings| ==> Reports(holdings[k], orders))
    && (forall s :: Net(orders, s) != 0 ==> exists k :: i <= k < |holdings| && holdings[k].symbol == s)
  }

  lemma RemainingNext(holdings: seq<Holding>, i: nat, before: seq<Order>, after: seq<Order>)
    requires i < |holdings| && Remaining(holdings, i, before)
    requires forall j, k :: 0 <= j < k < |holdings| ==> holdings[j].symbol != holdings[k].symbol
    requires forall s :: Net(after, s) == if s == holdings[i].symbol then 0 else Net(before, s)
    ensures Remaining(holdings, i + 1, after)
  {
    forall k | i + 1 <= k < |holdings| ensures Reports(holdings[k], after) {
      assert Reports(holdings[k], before);
      assert holdings[i].symbol != holdings[k].symbol;
    }
    forall s | Net(after, s) != 0 ensures exists k :: i + 1 <= k < |holdings| && holdings[k].symbol == s {
      assert Net(before, s) != 0;
      var k :| i <= k < |holdings| && holdings[k].symbol == s;
      assert k != i;
    }
  }

  // ----- a day -----

  /** Table and broker agree and are at rest, and nothing is held from earlier days. */
  ghost predicate Level(rows: seq<Row>, orders: seq<Order>, today: int) {
    && Settled(rows, orders) && Clean(rows)
    && (forall i :: 0 <= i < |rows| && rows[i].status.Filled? ==> rows[i].day >= today)
  }

  /** The visit made no entry, or one whose outcome was written, that moved the
      position as reported and left no order working. */
  ghost predicate Orderly(v: Visit, result: Option<OrderResult>, before: seq<Order>, after: seq<Order>) {
    result.Some? ==>
      && v.req.shares > 0 && !v.faults.outcome && |before| <= |after|
      && EntryExact(result.value.reason, after[|before|..]) && NoneWorking(after)
  }

  lemma VisitKeepsLevel(v: Visit, reason: Reason, rows: seq<Row>, orders: seq<Order>,
                        rows': seq<Row>, orders': seq<Order>)
    requires Level(rows, orders, v.req.today) && GuardedStep(rows, rows') && NoneWorking(orders') && !v.faults.outcome
    requires |orders| <= |orders'| && EntryExact(reason, orders'[|orders|..])
    requires Agree(rows', orders') <==> EntryTold(reason, v.faults, orders'[|orders|..]) || rows' == rows
    requires Clean(rows') <==> StaysClean(rows, v.req, reason, v.faults) || rows' == rows
    requires if |rows'| == |rows| then rows' == rows else rows'[|rows|].day == v.req.today
    ensures Level(rows', orders', v.req.today)
  {
    assert !HeldOvernight(rows, v.req.signal.symbol, v.req.today);
    forall i | 0 <= i < |rows'| && rows'[i].status.Filled? ensures rows'[i].day >= v.req.today {
      if i < |rows| { assert RowLater(rows[i], rows'[i]) && rows'[i] == rows'[..|rows|][i]; }
    }
  }

  // ----- a close run against the ledger -----

  ghost predicate NotYet(holdings: seq<Holding>, i: nat, s: string) {
    forall k :: 0 <= k < i && k < |holdings| ==> holdings[k].symbol != s
  }

  /** The newest open row of each of the first i symbols carries its whole position. */
  ghost predicate AllCovered(holdings: seq<Holding>, i: nat, rows: seq<Row>, orders: seq<Order>) {
    forall k :: 0 <= k < i && k < |holdings| ==> Covers(rows, orders, holdings[k].symbol)
  }

  /** After i reported closes: the other symbols are as at the start, each closed
      symbol agrees exactly if it was covered at the start, and so does the cash. */
  ghost predicate Closing(holdings: seq<Holding>, i: nat, rows0: seq<Row>, orders0: seq<Order>,
                          rows: seq<Row>, orders: seq<Order>) {
    && Priced(rows) && NoneWorking(orders)
    && (forall s :: NotYet(holdings, i, s) ==> SameFor(rows0, orders0, rows, orders, s))
    && (forall k :: 0 <= k < i && k < |holdings| ==>
          (RowNet(rows, holdings[k].symbol) == Net(orders, holdings[k].symbol) <==>
             Covers(rows0, orders0, holdings[k].symbol)))
    && (AllCovered(holdings, i, rows0, orders0) ==> Cash(orders) == RowCash(rows))
  }

  lemma ClosingNext(holdings: seq<Holding>, i: nat, rows0: seq<Row>, orders0: seq<Order>,
                    rows: seq<Row>, orders: seq<Order>, order: Order)
    requires i < |holdings| && order.symbol == holdings[i].symbol
    requires forall j, k :: 0 <= j < k < |holdings| ==> holdings[j].symbol != holdings[k].symbol
    requires Agree(rows0, orders0) && Closing(holdings, i, rows0, orders0, rows, orders)
    requires order.state.Done? && order.state.price > 0.0 && Net(orders, order.symbol) != 0
    requires Signed(order.side, order.shares) == -Net(orders, order.symbol)
    ensures Closing(holdings, i + 1, rows0, orders0,
                    CloseTable(rows, order.symbol, Some(order.state.price)), orders + [order])
  {
    var h, exit := order.symbol, Some(order.state.price);
    var rows', orders' := CloseTable(rows, h, exit), orders + [order];
    assert NotYet(holdings, i, h);
    assert SameFor(rows0, orders0, rows, orders, h);
    CloseEffect(rows, orders, order);
    forall s | NotYet(holdings, i + 1, s) ensures SameFor(rows0, orders0, rows', orders', s) {
      assert NotYet(holdings, i, s) && s != holdings[i].symbol;
      CloseElsewhere(rows, orders, order, exit, s);
    }
    forall k | 0 <= k < i + 1
      ensures RowNet(rows', holdings[k].symbol) == Net(orders', holdings[k].symbol) <==>
        Covers(rows0, orders0, holdings[k].symbol)
    {
      if k < i { CloseElsewhere(rows, orders, order, exit, holdings[k].symbol); }
    }
    if AllCovered(holdings, i + 1, rows0, orders0) {
      assert AllCovered(holdings, i, rows0, orders0) && Covers(rows0, orders0, holdings[i].symbol);
    }
  }

  /** A fully reported close run leaves agreement exactly when every position
      was covered by the newest open row of its symbol. */
  lemma CloseRunAgreesIff(holdings: seq<Holding>, rows0: seq<Row>, orders0: seq<Order>,
                          rows: seq<Row>, orders: seq<Order>)
    requires Agree(rows0, orders0) && Closing(holdings, |holdings|, rows0, orders0, rows, orders)
    ensures Agree(rows, orders) <==> AllCovered(holdings, |holdings|, rows0, orders0)
  {
    if AllCovered(holdings, |holdings|, rows0, orders0) {
      forall s ensures Net(orders, s) == RowNet(rows, s) {
        if NotYet(holdings, |holdings|, s) {
          assert SameFor(rows0, orders0, rows, orders, s);
        }
      }
    }
  }

  lemma CleanRunIsCovered(holdings: seq<Holding>, rows: seq<Row>, orders: seq<Order>)
    requires Agree(rows, orders) && Clean(rows) && Remaining(holdings, 0, orders)
    ensures AllCovered(holdings, |holdings|, rows, orders)
  {
    forall k | 0 <= k < |holdings| ensures Covers(rows, orders, holdings[k].symbol) {
      assert Reports(holdings[k], orders);
      CleanCovers(rows, orders, holdings[k].symbol);
    }
  }

  lemma RunNext(holdings: seq<Holding>, i: nat, rows0: seq<Row>, orders0: seq<Order>,
                rows: seq<Row>, orders: seq<Order>, order: Order)
    requires i < |holdings| && Remaining(holdings, i, orders)
    requires forall j, k :: 0 <= j < k < |holdings| ==> holdings[j].symbol != holdings[k].symbol
    requires Agree(rows0, orders0) && Closing(holdings, i, rows0, orders0, rows, orders)
    requires order == Order(holdings[i].symbol, Opposite(holdings[i].action), holdings[i].shares, Market, order.state)
    requires order.state.Done? && order.state.price > 0.0
    ensures Closing(holdings, i + 1, rows0, orders0,
                    CloseTable(rows, holdings[i].symbol, Some(order.state.price)), orders + [order])
    ensures Remaining(holdings, i + 1, orders + [order])
  {
    assert Reports(holdings[i], orders);
    ClosingNext(holdings, i, rows0, orders0, rows, orders, order);
    forall s ensures Net(orders + [order], s) == if s == holdings[i].symbol then 0 else Net(orders, s) {
      NetPushAt(orders, order, s);
    }
    RemainingNext(holdings, i, orders, orders + [order]);
  }

  lemma ClosingStarts(holdings: seq<Holding>, rows: seq<Row>, orders: seq<Order>)
    requires Settled(rows, orders)
    ensures Closing(holdings, 0, rows, orders, rows, orders)
  {
  }

  /** Everything a close run keeps after i closes. */
  ghost predicate ClosedUpTo(holdings: seq<Holding>, i: nat, results: seq<CloseResult>, failing: set<string>,
                             rows0: seq<Row>, orders0: seq<Order>, rows: seq<Row>, orders: seq<Order>) {
    && Fits(results, holdings, i) && |orders| == |orders0| + CountSent(results)
    && TableLater(rows0, rows) && |rows| == |rows0|
    && rows == CloseRows(rows0, results, failing)
    && (Clean(rows0) ==> Clean(rows))
    && (Settled(rows0, orders0) && Remaining(holdings, 0, orders0) && Markable(holdings, failing) &&
        AllFilled(results) ==>
          Closing(holdings, i, rows0, orders0, rows, orders) && Remaining(holdings, i, orders))
  }

  lemma ClosedUpToStarts(holdings: seq<Holding>, failing: set<string>, rows: seq<Row>, orders: seq<Order>)
    ensures ClosedUpTo(holdings, 0, [], failing, rows, orders, rows, orders)
  {
    StepInPlace(rows);
    if Settled(rows, orders) { ClosingStarts(holdings, rows, orders); }
  }

  lemma ClosedUpToNext(holdings: seq<Holding>, i: nat, results: seq<CloseResult>, failing: set<string>,
                       rows0: seq<Row>, orders0: seq<Order>, rows: seq<Row>, orders: seq<Order>,
                       r: CloseResult, rows': seq<Row>, orders': seq<Order>)
    requires forall j, k :: 0 <= j < k < |holdings| ==> holdings[j].symbol != holdings[k].symbol
    requires i < |holdings| && ClosedUpTo(holdings, i, results, failing, rows0, orders0, rows, orders)
    requires ResultFits(r, holdings[i]) && |orders'| == |orders| + (if r.sent then 1 else 0)
    requires rows' == if r.sent && r.symbol !in failing then CloseTable(rows, r.symbol, r.fillPrice) else rows
    requires r.sent ==>
      orders'[|orders|] == Order(r.symbol, r.side, r.shares, Market, orders'[|orders|].state)
    requires r.fillPrice.Some? ==> orders'[|orders|].state == Done(r.fillPrice.value) && r.fillPrice.value > 0.0
    requires NoneWorking(orders) && r.sent ==> orders' == orders + [orders'[|orders|]]
    ensures ClosedUpTo(holdings, i + 1, results + [r], failing, rows0, orders0, rows', orders')
  {
    ResultsNext(results, r, holdings, i);
    StepInPlace(rows);
    CloseTableLater(rows, r.symbol, r.fillPrice);
    TableLaterTrans(rows0, rows, rows');
    if Clean(rows) { CloseStaysClean(rows, r.symbol, r.fillPrice); }
    if Settled(rows0, orders0) && Remaining(holdings, 0, orders0) && Markable(holdings, failing) &&
       AllFilled(results + [r])
    {
      assert holdings[i].symbol !in failing;
      RunNext(holdings, i, rows0, orders0, rows, orders, orders'[|orders|]);
    }
  }

  /** A fully reported run from a settled book: flat, in agreement exactly if
      covered, and from a clean table with its cash the recorded P&L. */
  lemma RunEndsFlat(holdings: seq<Holding>, results: seq<CloseResult>, failing: set<string>,
                    rows0: seq<Row>, orders0: seq<Order>, rows: seq<Row>, orders: seq<Order>)
    requires ClosedUpTo(holdings, |holdings|, results, failing, rows0, orders0, rows, orders)
    requires Settled(rows0, orders0) && Describes(holdings, orders0) && Markable(holdings, failing)
    requires AllFilled(results)
    ensures NoneWorking(orders) && forall s :: Net(orders, s) == 0
    ensures Agree(rows, orders) <==> AllCovered(holdings, |holdings|, rows0, orders0)
    ensures Clean(rows0) ==> Settled(rows, orders) && FlatBook(rows, orders)
  {
    assert Remaining(holdings, 0, orders0);
    CloseRunAgreesIff(holdings, rows0, orders0, rows, orders);
    if Clean(rows0) {
      CleanRunIsCovered(holdings, rows0, orders0);
      FlatBookIsPnl(rows, orders);
    }
  }

  class Desk {
    var rows: seq<Row>
    var orders: seq<Order>
    var clock: real
    var interrupted: bool
    ghost var journal: seq<Event>
    ghost var replies: seq<Reply>

    ghost predicate Valid()
      reads this
    {
      PositiveFills(orders)
    }

    ghost function Now(): Moment
      reads this
    {
      Moment(rows, orders, clock, interrupted, journal, replies)
    }

    constructor ()
      ensures Valid() && rows == [] && orders == [] && journal == [] && replies == []
    {
      rows, orders, clock, interrupted := [], [], 0.0, false;
      journal, replies := [], [];
    }

    // ----- the environment -----

    /** Time passes: working orders may fill or die, a shutdown may be signalled. */
    method Drift()
      requires Valid()
      modifies this`orders, this`clock, this`interrupted
      ensures Valid()
      ensures Evolves(old(orders), orders) && |orders| == |old(orders)|
      ensures clock >= old(clock) && (old(interrupted) ==> interrupted)
    {
      var i := 0;
      while i < |orders|
        invariant 0 <= i <= |orders| == |old(orders)|
        invariant Valid() && Evolves(old(orders), orders)
        invariant orders[i..] == old(orders)[i..]
        invariant clock == old(clock) && interrupted == old(interrupted)
      {
        var fills: bool, dies: bool, price: real := *, *, *;
        assert orders[i] == old(orders)[i..][0];
        if orders[i].state.Working? {
          if fills && price > 0.0 {
            orders := orders[i := orders[i].(state := Done(price))];
          } else if dies {
            orders := orders[i := orders[i].(state := Dead)];
          }
        }
        i := i + 1;
      }
      var elapsed: real, signalled: bool := *, *;
      if elapsed > 0.0 { clock := clock + elapsed; }
      interrupted := interrupted || signalled;
    }

    /** The order id, or None when the broker raised and took nothing. */
    method PlaceOrder(symbol: string, side: OrderSide, shares: nat, kind: Kind) returns (id: Option<nat>)
      requires Valid()
      modifies this`orders, this`clock, this`interrupted, this`journal
      ensures Valid() && clock >= old(clock) && (old(interrupted) ==> interrupted)
      ensures Evolves(old(orders), orders)
      ensures id.None? ==> |orders| == |old(orders)| && journal == old(journal) + [Refused]
      ensures id.Some? ==>
        && id.value == |old(orders)| && |orders| == |old(orders)| + 1
        && orders[id.value] == Order(symbol, side, shares, kind, Working)
        && journal == old(journal) + [Sent(id.value)]
    {
      Drift();
      var raised: bool := *;
      if raised {
        journal := journal + [Refused];
        return None;
      }
      id := Some(|orders|);
      orders := orders + [Order(symbol, side, shares, kind, Working)];
      journal := journal + [Sent(id.value)];
    }

    /** A fill is reported only when it happened, perhaps without its price;
        an order the broker does not find is reported inactive. */
    method GetOrderStatus(id: nat) returns (reply: Reply)
      requires Valid() && id < |orders|
      modifies this`orders, this`clock, this`interrupted, this`replies
      ensures Valid()
      ensures Evolves(old(orders), orders) && |orders| == |old(orders)| && clock >= old(clock)
      ensures old(interrupted) ==> interrupted
      ensures replies == old(replies) + [reply]
      ensures reply.FilledAt? && reply.price.Some? ==> orders[id].state == Done(reply.price.value)
    {
      Drift();
      var raised: bool, lost: bool, priced: bool := *, *, *;
      reply :=
        if raised then Raised
        else match orders[id].state
          case Working => if lost then Inactive else Submitted
          case Dead => Inactive
          case Done(price) => if lost then Inactive else FilledAt(if priced then Some(price) else None);
      replies := replies + [reply];
    }

    /** May raise and may have no effect; neither is visible to the caller. */
    method CancelOrder(id: nat, effective: bool)
      requires Valid() && id < |orders|
      modifies this`orders, this`clock, this`interrupted, this`journal
      ensures Valid()
      ensures Evolves(old(orders), orders) && |orders| == |old(orders)|
      ensures clock >= old(clock) && (old(interrupted) ==> interrupted)
      ensures journal == old(journal) + [CancelAsked(id)]
      ensures effective ==> !orders[id].state.Working?
    {
      journal := journal + [CancelAsked(id)];
      Drift();
      if effective && orders[id].state.Working? {
        orders := orders[id := orders[id].(state := Dead)];
      }
    }

    /** The broker's positions, or None when it raised. */
    method GetPositions(raises: bool) returns (holdings: Option<seq<Holding>>)
      requires Valid()
      modifies this`orders, this`clock, this`interrupted
      ensures Valid()
      ensures Evolves(old(orders), orders) && |orders| == |old(orders)|
      ensures clock >= old(clock) && (old(interrupted) ==> interrupted)
      ensures holdings.None? <==> raises
      ensures holdings.Some? ==> Describes(holdings.value, orders)
    {
      Drift();
      if raises { return None; }
      var found: seq<Holding> := [];
      for i := 0 to |orders|
        invariant forall j, k :: 0 <= j < k < |found| ==> found[j].symbol != found[k].symbol
        invariant forall j :: 0 <= j < |found| ==> Reports(found[j], orders)
        invariant forall k :: 0 <= k < i && Net(orders, orders[k].symbol) != 0 ==>
          exists j :: 0 <= j < |found| && found[j].symbol == orders[k].symbol
      {
        var s := orders[i].symbol;
        var net := Net(orders, s);
        if net != 0 && forall j :: 0 <= j < |found| ==> found[j].symbol != s {
          var h := Holding(s, if net > 0 then net else -net, if net > 0 then Long else Short);
          ghost var before := found;
          found := found + [h];
          assert found[|before|].symbol == s;
          assert forall j :: 0 <= j < |before| ==> found[j] == before[j];
        }
      }
      forall s | Net(orders, s) != 0 ensures exists i :: 0 <= i < |found| && found[i].symbol == s {
        NetNeedsOrder(orders, s);
      }
      return Some(found);
    }

    /** Inserts a row and returns its id, or None when the database is down. */
    method CreateTradeRecord(row: Row, down: bool) returns (id: Option<nat>)
      modifies this`rows, this`journal
      ensures id == if down then None else Some(|old(rows)|)
      ensures rows == if down then old(rows) else old(rows) + [row]
      ensures journal == old(journal) + [if down then InsertFailed else Inserted(|old(rows)|)]
    {
      if down {
        journal := journal + [InsertFailed];
        return None;
      }
      id := Some(|rows|);
      rows := rows + [row];
      journal := journal + [Inserted(id.value)];
    }

    /** Writes a row, unless the database is down; the failure is swallowed. */
    method UpdateTrade(id: nat, row: Row, down: bool)
      requires id < |rows|
      modifies this`rows, this`journal
      ensures rows == if down then old(rows) else old(rows)[id := row]
      ensures journal == old(journal) + [Wrote(id, row.status)]
    {
      if !down { rows := rows[id := row]; }
      journal := journal + [Wrote(id, row.status)];
    }

    /** Waits one poll interval, or less when the shutdown event is set. */
    method Wait() returns (woken: bool)
      requires Valid()
      modifies this`orders, this`clock, this`interrupted
      ensures Valid()
      ensures Evolves(old(orders), orders) && |orders| == |old(orders)|
      ensures clock >= old(clock) && (old(interrupted) ==> interrupted)
      ensures if woken then interrupted else clock >= old(clock) + POLL_INTERVAL
    {
      Drift();
      if interrupted { return true; }
      clock := clock + POLL_INTERVAL;
      return false;
    }

    // ----- the executor -----

    /** Polls until the order is filled, gone, or the deadline passes. */
    method WaitForFill(id: nat, timeout: int) returns (price: Option<real>)
      requires Valid() && id < |orders|
      modifies this`orders, this`clock, this`interrupted, this`replies
      ensures Valid()
      ensures Evolves(old(orders), orders) && |orders| == |old(orders)|
      ensures price.Some? ==> orders[id].state == Done(price.value) && price.value > 0.0
      ensures clock >= old(clock) && (old(interrupted) ==> interrupted)
      ensures old(replies) <= replies
      ensures GaveUpRightly(replies[|old(replies)|..], timeout, price, interrupted,
                            clock >= old(clock) + timeout as real)
    {
      var deadline := clock + timeout as real;
      ghost var heard: seq<Reply> := [];
      while clock < deadline
        invariant Valid() && Evolves(old(orders), orders) && |orders| == |old(orders)|
        invariant replies == old(replies) + heard && Inconclusive(heard) && PollsFit(|heard|, timeout)
        invariant old(clock) + |heard| as real * POLL_INTERVAL <= clock && old(clock) <= clock
        invariant old(interrupted) ==> interrupted
        decreases deadline - clock
      {
        PollFits(|heard|, timeout, old(clock), clock);
        var reply := GetOrderStatus(id);
        HeardOneMore(heard, reply);
        heard := heard + [reply];
        assert replies[|old(replies)|..] == heard;
        if reply.FilledAt? && reply.price.Some? { return reply.price; }
        if reply.Inactive? { return None; }
        var woken := Wait();
        if woken { return None; }
      }
      assert replies[|old(replies)|..] == heard;
      return None;
    }

    /** After a limit order that did not fill: ask for its cancellation, try a
        market order once, and record the outcome in row id. */
    method FallBack(req: Request, id: nat, limit: nat, down: bool, cancelWorks: bool)
      returns (fill: Option<real>, market: Option<nat>, ghost cancelled: seq<Order>)
      requires Valid() && id < |rows| && limit < |orders|
      modifies this
      ensures Valid()
      ensures FellBack(req, id, limit, down, cancelWorks, old(Now()), Now(), fill, market, cancelled)
    {
      CancelOrder(limit, cancelWorks);
      cancelled := orders;
      market := PlaceOrder(req.signal.symbol, Side(req), req.shares, Market);
      fill := None;
      if market.Some? { fill := WaitForFill(market.value, MARKET_TIMEOUT); }
      if fill.Some? {
        UpdateTrade(id, rows[id].(status := Status.Filled, fillPrice := fill, orderId := market), down);
      } else {
        UpdateTrade(id, rows[id].(status := Error), down);
      }
    }

    /** Send the limit order, mark row id open or failed, and wait for the fill. */
    method SendLimit(req: Request, id: nat, timeout: int, faults: Faults)
      returns (limit: Option<nat>, fill: Option<real>)
      requires Valid() && id < |rows|
      modifies this
      ensures Valid()
      ensures SentLimit(req, id, timeout, faults, old(Now()), Now(), limit, fill)
    {
      limit := PlaceOrder(req.signal.symbol, Side(req), req.shares, Limit(req.signal.entryPrice));
      fill := None;
      if limit.None? {
        UpdateTrade(id, rows[id].(status := Error), faults.outcome);
        return;
      }
      UpdateTrade(id, rows[id].(status := Status.Open, orderId := limit), faults.mark);
      fill := WaitForFill(limit.value, timeout);
    }

    /** The paper and live part: send the limit order, wait for it, fall back. */
    method Trade(req: Request, id: nat, timeout: int, faults: Faults, cancelWorks: bool)
      returns (result: OrderResult, ghost marketSent: bool, ghost price: real, ghost watch: Watch)
      requires Valid() && req.approved && !req.mode.Simulated? && req.connected
      requires id < |rows| && rows[id] == BaseRow(req)
      modifies this
      ensures Valid()
      ensures result == ResultOf(req, result.reason, id, |old(orders)|, price)
      ensures Traded(req, id, timeout, faults, cancelWorks, old(Now()), Now(),
                     result.reason, marketSent, price, watch)
    {
      marketSent, price, watch := false, 0.0, NO_WATCH;
      ghost var start := Now();
      var limit, fill := SendLimit(req, id, timeout, faults);
      ghost var mid := Now();
      if limit.None? {
        NotPlaced(req, id, timeout, faults, cancelWorks, start, mid);
        result := OrderResult(false, Some(id), None, None, req.shares,
                              req.signal.symbol, req.signal.action, PlaceFailed);
        return;
      }
      ghost var heard := replies[|start.replies|..];
      if fill.Some? {
        price, watch := fill.value, Watch([], [], heard, clock, interrupted);
        UpdateTrade(id, rows[id].(status := Status.Filled, fillPrice := fill), faults.outcome);
        LimitDone(req, id, timeout, faults, cancelWorks, start, mid, Now(), price, watch);
        result := OrderResult(true, Some(id), limit, fill, req.shares,
                              req.signal.symbol, req.signal.action, LimitFilled);
        return;
      }
      var market;
      ghost var cancelled;
      fill, market, cancelled := FallBack(req, id, limit.value, faults.outcome, cancelWorks);
      watch := Watch(mid.orders, cancelled, heard, mid.clock, mid.interrupted);
      MarketDone(req, id, timeout, faults, cancelWorks, start, mid, Now(), fill, market, watch);
      marketSent := market.Some?;
      if fill.Some? {
        price := fill.value;
        result := OrderResult(true, Some(id), market, fill, req.shares,
                              req.signal.symbol, req.signal.action, MarketFilled);
      } else {
        result := OrderResult(false, Some(id), None, None, req.shares,
                              req.signal.symbol, req.signal.action, Unfilled);
      }
    }

    /** Persist a pending row, then send the limit order, wait, cancel it and
        try a market order once. Whatever fails, the row, the journal, the
        orders, the waits and the result are those of one ending. */
    method Execute(req: Request, timeout: int, faults: Faults, cancelWorks: bool)
      returns (result: OrderResult, ghost trace: Trace)
      requires Valid()
      modifies this
      ensures Valid()
      ensures Executed(Visit(req, timeout, faults, cancelWorks), old(Now()), Now(), result, trace)
    {
      trace := Trace(false, 0.0, NO_WATCH);
      ghost var v, start := Visit(req, timeout, faults, cancelWorks), Now();
      if !req.approved {
        result := OrderResult(false, None, None, None, 0, req.signal.symbol, req.signal.action, NotApproved);
        EndedEarly(v, start, Now(), result, 0.0);
        return;
      }
      var tradeId := CreateTradeRecord(BaseRow(req), faults.insert);
      if tradeId.None? {
        result := OrderResult(false, None, None, None, req.shares, req.signal.symbol, req.signal.action, RecordFailed);
        EndedEarly(v, start, Now(), result, 0.0);
        return;
      }
      var id := tradeId.value;
      if req.mode.Simulated? {
        UpdateTrade(id, rows[id].(status := Dryrun, fillPrice := Some(req.signal.entryPrice)), faults.outcome);
        result := OrderResult(true, tradeId, None, Some(req.signal.entryPrice), req.shares,
                              req.signal.symbol, req.signal.action, DryrunLogged);
        trace := trace.(price := req.signal.entryPrice);
        EndedEarly(v, start, Now(), result, trace.price);
        return;
      }
      if !req.connected {
        UpdateTrade(id, rows[id].(status := Error), faults.outcome);
        result := OrderResult(false, tradeId, None, None, req.shares,
                              req.signal.symbol, req.signal.action, NoBroker);
        EndedEarly(v, start, Now(), result, 0.0);
        return;
      }
      ghost var inserted := Now();
      ghost var marketSent: bool, price: real, watch: Watch;
      result, marketSent, price, watch := Trade(req, id, timeout, faults, cancelWorks);
      trace := Trace(marketSent, price, watch);
      TradedIsExecuted(v, start, inserted, Now(), result, trace);
    }

    // ----- the entry guard -----

    /** Is there already a live or dryrun row for the symbol today? A database
        failure counts as yes. */
    method HasOpenPosition(symbol: string, today: int, down: bool) returns (blocked: bool)
      ensures blocked <==> down || !Unblocked(rows, symbol, today)
      ensures blocked <==> down || exists i :: 0 <= i < |rows| && rows[i].symbol == symbol && rows[i].day >= today
                                    && rows[i].status in {Pending, Status.Open, Status.Filled, Dryrun}
    {
      if down { return true; }
      for i := 0 to |rows|
        invariant forall k :: 0 <= k < i ==> !Blocks(rows[k], symbol, today)
      {
        if Blocks(rows[i], symbol, today) { return true; }
      }
      return false;
    }

    /** One guarded entry of a request that passed the data, signal and risk
        steps. Whatever fails, the table takes a guarded step. From agreement,
        table and broker agree afterwards exactly if the entry moved the
        position as its row says, which a written outcome, effective cancels and
        no fill after a wait gave up guarantee. The table stays clean exactly if
        its row is not left open and does not join a position held overnight. */
    method Enter(req: Request, timeout: int, faults: Faults, cancelWorks: bool)
      returns (result: Option<OrderResult>, ghost trace: Trace)
      requires Valid()
      modifies this
      ensures Valid() && Evolves(old(orders), orders)
      ensures Entered(Visit(req, timeout, faults, cancelWorks), old(Now()), Now(), result, trace)
      ensures GuardedStep(old(rows), rows)
      ensures OneAlive(old(rows)) ==> OneAlive(rows)
      ensures result.Some? && cancelWorks
        && NothingMissed(result.value.reason, |old(orders)|, trace.watch, orders)
        && NoLateFill(result.value.reason, |old(orders)|, trace.watch)
        ==> EntryExact(result.value.reason, orders[|old(orders)|..])
      ensures result.Some? && cancelWorks && NoneWorking(old(orders)) && !result.value.reason.Unfilled?
        ==> NoneWorking(orders)
      ensures result.Some? && Settled(old(rows), old(orders)) && req.shares > 0 ==>
        (Agree(rows, orders) <==>
           EntryTold(result.value.reason, faults, orders[|old(orders)|..]) || rows == old(rows))
      ensures result.Some? && Clean(old(rows)) ==>
        (Clean(rows) <==> StaysClean(old(rows), req, result.value.reason, faults) || rows == old(rows))
      ensures if |rows| == |old(rows)| then rows == old(rows) else rows[|old(rows)|].day == req.today
    {
      result, trace := None, Trace(false, 0.0, NO_WATCH);
      var blocked := HasOpenPosition(req.signal.symbol, req.today, faults.guard);
      if blocked {
        StepInPlace(rows);
        return;
      }
      var r;
      r, trace := Execute(req, timeout, faults, cancelWorks);
      result := Some(r);
      if r.tradeId.Some? { RowIsHonest(req, r.reason, |old(orders)|, trace.price, faults); }
      StepGuarded(old(rows), rows, req);
      EntryLaws(req, r.reason, trace.price, trace.marketSent, faults, cancelWorks, trace.watch,
                old(rows), old(orders), rows, orders);
    }

    // ----- the end-of-day close -----

    /** Close the newest open or filled row of the symbol. */
    method MarkTradeClosed(symbol: string, exit: Option<real>, down: bool)
      modifies this`rows
      ensures rows == if down then old(rows) else CloseTable(old(rows), symbol, exit)
    {
      if down { return; }
      LastOpenMeaning(rows, symbol);
      var k := LastOpen(rows, symbol);
      if k.None? { return; }
      rows := rows[k.value := ClosedRow(rows[k.value], exit)];
    }

    /** Close one position with a market order and mark its row. */
    method CloseOne(h: Holding, down: bool) returns (result: CloseResult)
      requires Valid()
      modifies this
      ensures Valid() && Evolves(old(orders), orders)
      ensures ResultFits(result, h)
      ensures |orders| == |old(orders)| + (if result.sent then 1 else 0)
      ensures result.sent ==>
        var n := |old(orders)|;
        orders[n] == Order(h.symbol, Opposite(h.action), h.shares, Market, orders[n].state)
      ensures rows == if result.sent && !down then CloseTable(old(rows), h.symbol, result.fillPrice) else old(rows)
      ensures result.fillPrice.Some? ==>
        orders[|old(orders)|].state == Done(result.fillPrice.value) && result.fillPrice.value > 0.0
      ensures clock >= old(clock) && old(replies) <= replies && (old(interrupted) ==> interrupted)
      ensures journal == old(journal) + [if result.sent then Sent(|old(orders)|) else Refused]
      ensures if result.sent
        then GaveUpRightly(replies[|old(replies)|..], 30, result.fillPrice, interrupted, clock >= old(clock) + 30.0)
        else replies == old(replies)
      ensures NoneWorking(old(orders)) && result.sent ==> orders == old(orders) + [orders[|old(orders)|]]
      ensures Settled(old(rows), old(orders)) && Reports(h, old(orders)) && !down && result.sent ==>
        var order := orders[|old(orders)|];
        (Agree(rows, orders) <==>
           if order.state.Done?
           then Covers(old(rows), old(orders), h.symbol) &&
                (result.fillPrice.Some? || FilledAtEntryPrice(old(rows), order))
           else MarksOpenRow(old(rows), h.symbol))
    {
      var side := Opposite(h.action);
      var id := PlaceOrder(h.symbol, side, h.shares, Market);
      if id.None? {
        result := CloseResult(h.symbol, side, h.shares, false, None);
        return;
      }
      var fill := WaitForFill(id.value, EOD_TIMEOUT);
      MarkTradeClosed(h.symbol, fill, down);
      result := CloseResult(h.symbol, side, h.shares, true, fill);
      if NoneWorking(old(orders)) {
        SettledOrdersStay(old(orders), orders);
        assert orders == old(orders) + [orders[id.value]];
        if Settled(old(rows), old(orders)) && Reports(h, old(orders)) && !down {
          CloseAgreesIff(old(rows), old(orders), orders[id.value], fill);
        }
      }
    }

    /** Close the given positions one by one; `failing` holds the symbols whose
        row the database fails to update. */
    method CloseEach(holdings: seq<Holding>, failing: set<string>)
      returns (results: seq<CloseResult>, ghost watches: seq<CloseWatch>)
      requires Valid()
      requires forall j, k :: 0 <= j < k < |holdings| ==> holdings[j].symbol != holdings[k].symbol
      modifies this
      ensures Valid() && Evolves(old(orders), orders)
      ensures ClosedUpTo(holdings, |holdings|, results, failing, old(rows), old(orders), rows, orders)
      ensures Attempted(results, watches, old(Now()), Now())
    {
      results, watches := [], [];
      ClosedUpToStarts(holdings, failing, rows, orders);
      for i := 0 to |holdings|
        invariant Valid() && Evolves(old(orders), orders)
        invariant ClosedUpTo(holdings, i, results, failing, old(rows), old(orders), rows, orders)
        invariant Attempted(results, watches, old(Now()), Now())
      {
        ghost var before, results0 := Now(), results;
        var r := CloseOne(holdings[i], holdings[i].symbol in failing);
        results := results + [r];
        EvolvesTrans(old(orders), before.orders, orders);
        ClosedUpToNext(holdings, i, results0, failing, old(rows), old(orders), before.rows, before.orders,
                       r, rows, orders);
        ghost var w := CloseWatch(|before.orders|, replies[|before.replies|..], before.clock, clock);
        AttemptedNext(results0, watches, old(Now()), before, Now(), r, w);
        watches := watches + [w];
      }
    }

    /** Close every reported position. `listDown` says that the broker cannot
        report its positions; `book` is the order book when it does. From a
        settled book, a run in which every write took effect and every fill was
        reported leaves no position; table and broker agree then exactly if
        every position was covered by the newest open row of its symbol. With a
        clean table that is so, and the cash is the recorded P&L. */
    method CloseAllPositions(mode: Mode, connected: bool, listDown: bool, failing: set<string>)
      returns (results: seq<CloseResult>, ghost watches: seq<CloseWatch>,
               ghost holdings: seq<Holding>, ghost book: seq<Order>)
      requires Valid()
      modifies this
      ensures Valid()
      ensures ClosedAll(mode, connected, listDown, failing, old(Now()), Now(), results, watches, holdings, book)
      ensures GuardedStep(old(rows), rows) && |rows| == |old(rows)|
      ensures
        && !mode.Simulated? && connected && !listDown
        && Settled(old(rows), old(orders)) && Markable(holdings, failing) && AllFilled(results)
        ==> NoneWorking(orders) && (forall s :: Net(orders, s) == 0)
            && (Agree(rows, orders) <==> AllCovered(holdings, |holdings|, old(rows), old(orders)))
            && (Clean(old(rows)) ==> Settled(rows, orders) && FlatBook(rows, orders))
    {
      results, watches, holdings, book := [], [], [], [];
      StepInPlace(rows);
      if mode.Simulated? || !connected { return; }
      var positions := GetPositions(listDown);
      if positions.None? { return; }
      holdings, book := positions.value, orders;
      if NoneWorking(old(orders)) {
        SettledOrdersStay(old(orders), orders);
        assert orders == old(orders);
      }
      ghost var listed := Now();
      results, watches := CloseEach(positions.value, failing);
      AttemptsAreTheRun(mode, failing, old(Now()), listed, Now(), results, watches, holdings);
      if Settled(old(rows), old(orders)) && Markable(holdings, failing) && AllFilled(results) {
        RunEndsFlat(holdings, results, failing, old(rows), old(orders), rows, orders);
      }
    }

    // ----- a day of entries and its close run -----

    /** Any number of guarded entries, then the close run. From a level start,
        if every entry was orderly, every close was reported filled and every
        row could be marked, the day ends flat and its cash is the recorded P&L. */
    method TradeDay(visits: seq<Visit>, today: int, mode: Mode, failing: set<string>)
      returns (results: seq<Option<OrderResult>>, closes: seq<CloseResult>,
               ghost day: Day, ghost watches: seq<CloseWatch>, ghost holdings: seq<Holding>, ghost book: seq<Order>)
      requires Valid() && !mode.Simulated?
      requires forall v :: v in visits ==> v.req.today == today
      modifies this
      ensures Valid()
      ensures DayUpTo(visits, results, day, |visits|) && day.moments[0] == old(Now())
      ensures ClosedAll(mode, true, false, failing, day.moments[|visits|], Now(), closes, watches, holdings, book)
      ensures OneAlive(old(rows)) ==> OneAlive(rows)
      ensures
        && Level(old(rows), old(orders), today) && AllOrderly(visits, results, day, |visits|)
        && Markable(holdings, failing) && AllFilled(closes)
        ==> Settled(rows, orders) && FlatBook(rows, orders)
    {
      results, day := [], Day([Now()], []);
      for i := 0 to |visits|
        invariant Valid() && DayUpTo(visits, results, day, i)
        invariant day.moments[0] == old(Now()) && day.moments[i] == Now()
        invariant OneAlive(old(rows)) ==> OneAlive(rows)
        invariant Level(old(rows), old(orders), today) && AllOrderly(visits, results, day, i) ==>
          Level(rows, orders, today)
      {
        var v := visits[i];
        ghost var before, results0, day0 := Now(), results, day;
        var result;
        ghost var trace;
        result, trace := Enter(v.req, v.timeout, v.faults, v.cancelWorks);
        results, day := results + [result], Day(day.moments + [Now()], day.traces + [trace]);
        NextVisit(visits, results0, result, day0, Now(), trace, i);
        if Level(before.rows, before.orders, today) && result.Some? && Orderly(v, result, before.orders, orders) {
          VisitKeepsLevel(v, result.value.reason, before.rows, before.orders, rows, orders);
        }
      }
      ghost var rows0 := rows;
      closes, watches, holdings, book := CloseAllPositions(mode, true, false, failing);
      if OneAlive(rows0) { StepKeepsOneAlive(rows0, rows); }
    }
  }

  lemma EvolvesTrans(a: seq<Order>, b: seq<Order>, c: seq<Order>)
    requires Evolves(a, b) && Evolves(b, c)
    ensures Evolves(a, c)
  {
    forall i {:trigger c[i]} | 0 <= i < |a|
      ensures c[i] == a[i] || (a[i].state.Working? && c[i] == a[i].(state := c[i].state))
      ensures c[i].state.Done? && a[i].state.Working? ==> c[i].state.price > 0.0
    {
      assert b[i] == a[i] || a[i].state.Working?;
      assert c[i] == b[i] || b[i].state.Working?;
    }
  }

  /** A day of visits: the moments before, between and after them, and their traces. */
  datatype Day = Day(moments: seq<Moment>, traces: seq<Trace>)

  /** The first n visits of the day were made one after the other. */
  ghost predicate DayUpTo(visits: seq<Visit>, results: seq<Option<OrderResult>>, day: Day, n: nat) {
    && |results| == |day.traces| == n <= |visits| && |day.moments| == n + 1
    && forall k :: 0 <= k < n ==> Entered(visits[k], day.moments[k], day.moments[k + 1], results[k], day.traces[k])
  }

  /** Every one of the first n visits was orderly. */
  ghost predicate AllOrderly(visits: seq<Visit>, results: seq<Option<OrderResult>>, day: Day, n: nat) {
    n <= |visits| && n <= |results| && n < |day.moments| &&
    forall k :: 0 <= k < n ==> Orderly(visits[k], results[k], day.moments[k].orders, day.moments[k + 1].orders)
  }

  lemma NextVisit(visits: seq<Visit>, results: seq<Option<OrderResult>>, result: Option<OrderResult>,
                  day: Day, m: Moment, trace: Trace, n: nat)
    requires n < |visits| && DayUpTo(visits, results, day, n)
    requires Entered(visits[n], day.moments[n], m, result, trace)
    ensures var rs, day' := results + [result], Day(day.moments + [m], day.traces + [trace]);
      && DayUpTo(visits, rs, day', n + 1)
      && (AllOrderly(visits, rs, day', n + 1) <==>
            AllOrderly(visits, results, day, n) && Orderly(visits[n], result, day.moments[n].orders, m.orders))
  {
    var rs, ms, ts := results + [result], day.moments + [m], day.traces + [trace];
    assert forall k :: 0 <= k < n ==> rs[k] == results[k] && ts[k] == day.traces[k];
    assert forall k :: 0 <= k <= n ==> ms[k] == day.moments[k];
    assert rs[n] == result && ts[n] == trace && ms[n + 1] == m;
    forall k | 0 <= k < n + 1 ensures Entered(visits[k], ms[k], ms[k + 1], rs[k], ts[k]) {
      if k < n { assert Entered(visits[k], day.moments[k], day.moments[k + 1], results[k], day.traces[k]); }
    }
    if AllOrderly(visits, rs, Day(ms, ts), n + 1) {
      forall k | 0 <= k < n
        ensures Orderly(visits[k], results[k], day.moments[k].orders, day.moments[k + 1].orders)
      {
        assert Orderly(visits[k], rs[k], ms[k].orders, ms[k + 1].orders);
      }
      assert Orderly(visits[n], rs[n], ms[n].orders, ms[n + 1].orders);
    }
  }

  /** The rows of all held symbols can be updated. */
  ghost predicate Markable(holdings: seq<Holding>, failing: set<string>) {
    forall k :: 0 <= k < |holdings| ==> holdings[k].symbol !in failing
  }

  ghost predicate Fits(results: seq<CloseResult>, holdings: seq<Holding>, i: nat) {
    |results| == i <= |holdings| && forall k :: 0 <= k < i ==> ResultFits(results[k], holdings[k])
  }

  /** No position and no filled row is left and the cash moved is the recorded P&L. */
  ghost predicate FlatBook(rows: seq<Row>, orders: seq<Order>) {
    && (forall s :: Net(orders, s) == 0) && Cash(orders) == RecordedPnl(rows)
    && (forall i :: 0 <= i < |rows| ==> !rows[i].status.Filled?)
  }

  lemma ResultsNext(results: seq<CloseResult>, r: CloseResult, holdings: seq<Holding>, i: nat)
    requires Fits(results, holdings, i) && i < |holdings| && ResultFits(r, holdings[i])
    ensures Fits(results + [r], holdings, i + 1)
    ensures (results + [r])[..|results|] == results
    ensures CountSent(results + [r]) == CountSent(results) + (if r.sent then 1 else 0)
    ensures AllFilled(results + [r]) ==> AllFilled(results) && r.fillPrice.Some?
  {
    assert (results + [r])[..|results|] == results;
    if AllFilled(results + [r]) {
      assert (results + [r])[i] == r;
      forall k | 0 <= k < |results| ensures results[k].fillPrice.Some? {
        assert (results + [r])[k] == results[k];
      }
    }
  }

  lemma StepInPlace(rows: seq<Row>)
    ensures TableLater(rows, rows) && GuardedStep(rows, rows)
  {
  }

  lemma StepGuarded(rows: seq<Row>, rows': seq<Row>, req: Request)
    requires Unblocked(rows, req.signal.symbol, req.today)
    requires rows' == rows ||
      (|rows'| == |rows| + 1 && rows'[..|rows|] == rows && RowLater(BaseRow(req), rows'[|rows|]))
    ensures GuardedStep(rows, rows')
    ensures OneAlive(rows) ==> OneAlive(rows')
  {
    forall i | 0 <= i < |rows| ensures RowLater(rows[i], rows'[i]) {
      assert rows'[i] == rows'[..|rows|][i];
    }
    assert TableLater(rows, rows');
    if OneAlive(rows) { StepKeepsOneAlive(rows, rows'); }
  }
}
