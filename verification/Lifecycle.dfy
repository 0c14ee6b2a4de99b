/**
 Order, trade and runner context (flumine/order/order.py, flumine/order/trade.py and
 flumine/strategy/runnercontext.py): the status changes as functions on a trade and its context,
 what they keep, and the classes that make them in place.
 */
module Lifecycle {
  import opened Lists
  import opened Exchange
  import opened Simulation

  type TradeId = nat

  // ----- runner context

  datatype Context = Context(
    trades: seq<TradeId>,
    liveTrades: seq<TradeId>,
    lastPlaced: Option<int>,
    lastReset: Option<int>)

  const FreshContext := Context([], [], None, None)

  function PlaceTrade(c: Context, id: TradeId, now: int): Context {
    Context(
      if id in c.trades then c.trades else c.trades + [id],
      if id in c.liveTrades then c.liveTrades else c.liveTrades + [id],
      Some(now), c.lastReset)
  }

  function ResetTrade(c: Context, id: TradeId, now: int): Context {
    c.(liveTrades := Without(c.liveTrades, id), lastReset := Some(now))
  }

  /** The limits of a strategy that its `validate_order` enforces. */
  datatype Strategy = Strategy(maxTradeCount: nat, maxLiveTradeCount: nat, multiOrderTrades: bool)

  /** Less than the wait has gone by since the event; an elapsed time of zero counts as no event. */
  predicate TooSoon(event: Option<int>, now: int, wait: int) {
    event.Some? && now - event.value != 0 && now - event.value < wait
  }

  predicate ValidateOrder(s: Strategy, c: Context, id: TradeId, now: int, placeReset: int, reset: int) {
    (s.multiOrderTrades && id in c.liveTrades)
    || (&& |c.trades| < s.maxTradeCount
        && |c.liveTrades| < s.maxLiveTradeCount
        && !TooSoon(c.lastPlaced, now, placeReset)
        && !TooSoon(c.lastReset, now, reset))
  }

  datatype ContextEvent =
    | Requested(id: TradeId, now: int, placeReset: int, reset: int)
    | Completed(id: TradeId, now: int)

  function ContextStep(s: Strategy, c: Context, e: ContextEvent): Context {
    match e
    case Requested(id, now, placeReset, reset) =>
      if ValidateOrder(s, c, id, now, placeReset, reset) then PlaceTrade(c, id, now) else c
    case Completed(id, now) => ResetTrade(c, id, now)
  }

  function ContextRun(s: Strategy, es: seq<ContextEvent>): Context {
    if es == [] then FreshContext else ContextStep(s, ContextRun(s, es[..|es| - 1]), es[|es| - 1])
  }

  /** Over every run of validated placements and completions: no duplicates, live trades are trades
      placed, and neither count passes its limit. */
  lemma {:induction false} ContextLimits(s: Strategy, es: seq<ContextEvent>)
    ensures var c := ContextRun(s, es);
      && Distinct(c.trades) && Distinct(c.liveTrades)
      && (forall id :: id in c.liveTrades ==> id in c.trades)
      && |c.liveTrades| <= s.maxLiveTradeCount && |c.trades| <= s.maxTradeCount
  {
    if es != [] {
      ContextLimits(s, es[..|es| - 1]);
      var c, e := ContextRun(s, es[..|es| - 1]), es[|es| - 1];
      if e.Completed? {
        WithoutRemoves(c.liveTrades, e.id);
      }
    }
  }

  /** Event i of a run is a request that was let through. */
  ghost predicate LetThrough(s: Strategy, es: seq<ContextEvent>, i: int) {
    0 <= i < |es| && es[i].Requested?
    && ValidateOrder(s, ContextRun(s, es[..i]), es[i].id, es[i].now, es[i].placeReset, es[i].reset)
  }

  ghost predicate LastLetThrough(s: Strategy, es: seq<ContextEvent>, j: int, i: int) {
    j < i && LetThrough(s, es, j) && forall k :: j < k < i ==> !LetThrough(s, es, k)
  }

  ghost predicate LastCompleted(es: seq<ContextEvent>, j: int, i: int) {
    0 <= j < i <= |es| && es[j].Completed? && forall k :: j < k < i ==> !es[k].Completed?
  }

  /** Over every run: a request is let through exactly if it is another order of a live trade and the
      strategy allows that, or if both counts are below their limits and its waits are over: no time or at
      least the one wait since the last request that was let through, and no time or at least the other
      since the last completion. */
  lemma WhenRequestIsLetThrough(s: Strategy, es: seq<ContextEvent>, i: nat)
    requires i < |es| && es[i].Requested?
    ensures var c, e := ContextRun(s, es[..i]), es[i];
      LetThrough(s, es, i) <==>
        || (s.multiOrderTrades && e.id in c.liveTrades)
        || (&& |c.trades| < s.maxTradeCount && |c.liveTrades| < s.maxLiveTradeCount
            && (forall j :: LastLetThrough(s, es, j, i) ==> e.now == es[j].now || e.now - es[j].now >= e.placeReset)
            && (forall j :: LastCompleted(es, j, i) ==> e.now == es[j].now || e.now - es[j].now >= e.reset))
  {
    hide ValidateOrder;
    LastsAreKept(s, es, i);
    ValidatedBy(s, ContextRun(s, es[..i]), es[i]);
  }

  lemma ValidatedBy(s: Strategy, c: Context, e: ContextEvent)
    requires e.Requested?
    ensures ValidateOrder(s, c, e.id, e.now, e.placeReset, e.reset) <==>
      || (s.multiOrderTrades && e.id in c.liveTrades)
      || (&& |c.trades| < s.maxTradeCount && |c.liveTrades| < s.maxLiveTradeCount
          && (c.lastPlaced.Some? ==> e.now == c.lastPlaced.value || e.now - c.lastPlaced.value >= e.placeReset)
          && (c.lastReset.Some? ==> e.now == c.lastReset.value || e.now - c.lastReset.value >= e.reset))
  {
  }

  /** The context keeps the times of both. */
  lemma StepKeepsTimes(s: Strategy, es: seq<ContextEvent>, n: nat)
    requires n < |es|
    ensures var c, d := ContextRun(s, es[..n]), ContextRun(s, es[..n + 1]);
      && d.lastPlaced == (if LetThrough(s, es, n) then Some(es[n].now) else c.lastPlaced)
      && d.lastReset == (if es[n].Completed? then Some(es[n].now) else c.lastReset)
  {
    hide ValidateOrder;
    assert es[..n + 1][..n] == es[..n];
  }

  lemma {:induction false} LastsAreKept(s: Strategy, es: seq<ContextEvent>, i: nat)
    requires i <= |es|
    ensures var c := ContextRun(s, es[..i]);
      && (forall j :: LastLetThrough(s, es, j, i) ==> c.lastPlaced == Some(es[j].now))
      && (c.lastPlaced.Some? ==> exists j :: LastLetThrough(s, es, j, i))
      && (forall j :: LastCompleted(es, j, i) ==> c.lastReset == Some(es[j].now))
      && (c.lastReset.Some? ==> exists j :: LastCompleted(es, j, i))
  {
    hide ContextRun, LetThrough;
    if i == 0 {
      NothingRun(s, es);
    } else {
      var n := i - 1;
      LastsAreKept(s, es, n);
      StepKeepsTimes(s, es, n);
      NextLetThrough(s, es, n);
      NextCompleted(es, n);
    }
  }

  lemma NothingRun(s: Strategy, es: seq<ContextEvent>)
    ensures ContextRun(s, es[..0]) == FreshContext && forall j :: !LastLetThrough(s, es, j, 0)
  {
  }

  lemma NextLetThrough(s: Strategy, es: seq<ContextEvent>, n: nat)
    requires n < |es|
    ensures forall j ::
      LastLetThrough(s, es, j, n + 1) <==> if LetThrough(s, es, n) then j == n else LastLetThrough(s, es, j, n)
  {
    hide LetThrough;
    forall j
      ensures LastLetThrough(s, es, j, n + 1) <==> if LetThrough(s, es, n) then j == n else LastLetThrough(s, es, j, n)
    {
      if LastLetThrough(s, es, j, n + 1) && j != n {
        assert !LetThrough(s, es, n);
      }
    }
  }

  lemma NextCompleted(es: seq<ContextEvent>, n: nat)
    requires n < |es|
    ensures forall j :: LastCompleted(es, j, n + 1) <==> if es[n].Completed? then j == n else LastCompleted(es, j, n)
  {
    forall j
      ensures LastCompleted(es, j, n + 1) <==> if es[n].Completed? then j == n else LastCompleted(es, j, n)
    {
      if LastCompleted(es, j, n + 1) && j != n {
        assert !es[n].Completed?;
      }
    }
  }

  // ----- orders and trades

  datatype OrderStatus =
    | Pending | Cancelling | Updating | Replacing
    | Executable | ExecutionComplete | Expired | Violation

  datatype TradeStatus = TradePending | Live | Complete

  /** An order; `reduction` and `newPrice` are its update data, `hasBet` that it has a bet id. */
  datatype Order = Order(
    sim: Sim,
    status: Option<OrderStatus>,
    log: seq<OrderStatus>,
    hasBet: bool,
    reduction: Option<int>,
    newPrice: Option<Price>)

  function NewOrder(side: Side, o: OrderType): Order {
    Order(Initial(side, o), None, [], false, None, None)
  }

  datatype Trade = Trade(id: TradeId, status: TradeStatus, log: seq<TradeStatus>, orders: seq<Order>)

  predicate OrderComplete(s: Option<OrderStatus>) {
    s == Some(ExecutionComplete) || s == Some(Expired) || s == Some(Violation)
  }

  predicate OrdersComplete(os: seq<Order>) {
    forall i :: 0 <= i < |os| ==> OrderComplete(os[i].status)
  }

  /** All but order k. */
  predicate OthersComplete(os: seq<Order>, k: nat) {
    forall i :: 0 <= i < |os| && i != k ==> OrderComplete(os[i].status)
  }

  /** `Trade.complete`. */
  predicate TradeComplete(t: Trade) {
    t.status == Live && OrdersComplete(t.orders)
  }

  type TC = (Trade, Context)

  /** `Trade._update_status`. */
  function SetTradeStatus(tc: TC, s: TradeStatus, now: int): (r: TC)
    ensures r.0.orders == tc.0.orders && r.0.id == tc.0.id
    decreases if s == Live then 2 else 0
  {
    var t := tc.0.(status := s, log := tc.0.log + [s]);
    if TradeComplete(t) then CompleteTrade((t, tc.1), now) else (t, tc.1)
  }

  function CompleteTrade(tc: TC, now: int): (r: TC)
    ensures r.0.orders == tc.0.orders && r.0.id == tc.0.id
    decreases 1
  {
    var (t, c) := SetTradeStatus(tc, Complete, now);
    (t, ResetTrade(c, t.id, now))
  }

  function UpdateStatus(o: Order, s: OrderStatus): Order {
    var o := o.(status := Some(s), log := o.log + [s]);
    if s == Executable || s == ExecutionComplete || s == Violation then o.(reduction := None, newPrice := None) else o
  }

  /** `Order._update_status` of order k, with the update data its callers clear. */
  function SetOrderStatus(tc: TC, k: nat, s: OrderStatus, now: int): (r: TC)
    requires k < |tc.0.orders|
    ensures r.0.orders == tc.0.orders[k := UpdateStatus(tc.0.orders[k], s)] && r.0.id == tc.0.id
  {
    var t := tc.0.(orders := tc.0.orders[k := UpdateStatus(tc.0.orders[k], s)]);
    if TradeComplete(t) && s != Violation then CompleteTrade((t, tc.1), now) else (t, tc.1)
  }

  /** What an update does to the trade, without the recursion: it completes the trade, taking it off
      the context once, exactly when the trade is live, all its orders are then complete and the
      update is not a violation. */
  lemma OrderUpdateOutcome(tc: TC, k: nat, s: OrderStatus, now: int)
    requires k < |tc.0.orders|
    ensures var (t, c) := SetOrderStatus(tc, k, s, now);
      var orders := tc.0.orders[k := UpdateStatus(tc.0.orders[k], s)];
      var completes := tc.0.status == Live && OrdersComplete(orders) && s != Violation;
      && t.orders == orders && t.id == tc.0.id
      && t.status == (if completes then Complete else tc.0.status)
      && t.log == tc.0.log + (if completes then [Complete] else [])
      && c == (if completes then ResetTrade(tc.1, tc.0.id, now) else tc.1)
  {
    var t := tc.0.(orders := tc.0.orders[k := UpdateStatus(tc.0.orders[k], s)]);
    CompleteTradeOutcome((t, tc.1), now);
    assert tc.0.log + [] == tc.0.log;
  }

  lemma CompleteTradeOutcome(tc: TC, now: int)
    ensures CompleteTrade(tc, now) ==
      (tc.0.(status := Complete, log := tc.0.log + [Complete]), ResetTrade(tc.1, tc.0.id, now))
  {
    assert SetTradeStatus(tc, Complete, now).1 == tc.1;
  }

  lemma TradeUpdateOutcome(tc: TC, s: TradeStatus, now: int)
    ensures var (t, c) := SetTradeStatus(tc, s, now);
      var completes := s == Live && OrdersComplete(tc.0.orders);
      && t.orders == tc.0.orders && t.id == tc.0.id
      && t.status == (if completes then Complete else s)
      && t.log == tc.0.log + [s] + (if completes then [Complete] else [])
      && c == (if completes then ResetTrade(tc.1, tc.0.id, now) else tc.1)
  {
    CompleteTradeOutcome((tc.0.(status := s, log := tc.0.log + [s]), tc.1), now);
    assert tc.0.log + [s] + [] == tc.0.log + [s];
  }

  /** No update leaves a trade that is live though all its orders are complete, except a violation of
      an order of a live trade whose every other order is complete. */
  lemma NeverLeftComplete(tc: TC, k: nat, s: OrderStatus, now: int)
    requires k < |tc.0.orders|
    ensures TradeComplete(SetOrderStatus(tc, k, s, now).0)
      <==> s == Violation && tc.0.status == Live && OthersComplete(tc.0.orders, k)
    ensures forall ts :: !TradeComplete(SetTradeStatus(tc, ts, now).0)
  {
    OrderUpdateOutcome(tc, k, s, now);
    var orders := tc.0.orders[k := UpdateStatus(tc.0.orders[k], s)];
    if OrdersComplete(orders) {
      assert forall i :: 0 <= i < |orders| && i != k ==> orders[i] == tc.0.orders[i];
    }
    forall ts ensures !TradeComplete(SetTradeStatus(tc, ts, now).0) {
      TradeUpdateOutcome(tc, ts, now);
    }
  }

  // ----- requests on an order: its new data before the status changes, None where they raise

  /** `BetfairOrder.cancel`: only what remains can be taken off, a falsy reduction takes it all. */
  function RequestCancel(o: Order, reduction: Option<int>): Option<Order> {
    if !o.hasBet || !o.sim.otype.Limit? then None
    else if reduction.Some? && reduction.value != 0 && Remaining(o.sim) - reduction.value < 0 then None
    else if o.status != Some(Executable) then None
    else Some(o.(reduction := reduction))
  }

  /** `BetfairOrder.update`. */
  function RequestUpdate(o: Order, persistence: Persistence): Option<Order> {
    if !o.hasBet || !o.sim.otype.Limit? then None
    else if o.sim.otype.persistence == persistence then None
    else if o.status != Some(Executable) then None
    else Some(o.(sim := o.sim.(otype := o.sim.otype.(persistence := persistence))))
  }

  /** `BetfairOrder.replace`. */
  function RequestReplace(o: Order, newPrice: Price): Option<Order> {
    if !o.hasBet || o.sim.otype.MarketOnClose? then None
    else if (if o.sim.otype.Limit? then o.sim.otype.price else o.sim.otype.bound) == newPrice then None
    else if o.status != Some(Executable) then None
    else Some(o.(newPrice := Some(newPrice)))
  }

  /** A request that does not raise replaces the order's data and sets its status. */
  function Requests(tc: TC, k: nat, o: Option<Order>, s: OrderStatus, now: int): TC
    requires k < |tc.0.orders|
  {
    if o.None? then tc else SetOrderStatus((tc.0.(orders := tc.0.orders[k := o.value]), tc.1), k, s, now)
  }

  // ----- the classes

  class RunnerContext {
    var trades: seq<TradeId>
    var liveTrades: seq<TradeId>
    var datetimeLastPlaced: Option<int>
    var datetimeLastReset: Option<int>

    function View(): Context
      reads this
    {
      Context(trades, liveTrades, datetimeLastPlaced, datetimeLastReset)
    }

    constructor ()
      ensures View() == FreshContext
    {
      trades, liveTrades, datetimeLastPlaced, datetimeLastReset := [], [], None, None;
    }

    method Place(id: TradeId, now: int)
      modifies this
      ensures View() == PlaceTrade(old(View()), id, now)
    {
      datetimeLastPlaced := Some(now);
      if id !in trades {
        trades := trades + [id];
      }
      if id !in liveTrades {
        liveTrades := liveTrades + [id];
      }
    }

    method Reset(id: TradeId, now: int)
      modifies this
      ensures View() == ResetTrade(old(View()), id, now)
    {
      datetimeLastReset := Some(now);
      liveTrades := Without(liveTrades, id);
    }
  }

  class TradeObject {
    const id: TradeId
    const context: RunnerContext
    var orders: seq<OrderObject>
    var status: TradeStatus
    var statusLog: seq<TradeStatus>

    ghost predicate Valid()
      reads this, orders
    {
      && (forall i :: 0 <= i < |orders| ==> orders[i].trade == this)
      && (forall i, j :: 0 <= i < j < |orders| ==> orders[i] != orders[j] && orders[i].simulated != orders[j].simulated)
    }

    ghost function View(): Trade
      reads this, orders, set o | o in orders :: o.simulated
    {
      Trade(id, status, statusLog, Views(orders))
    }

    constructor (id: TradeId, context: RunnerContext)
      ensures Valid() && View() == Trade(id, Live, [], []) && this.context == context
    {
      this.id, this.context := id, context;
      orders, status, statusLog := [], Live, [];
    }

    predicate IsComplete()
      reads this, orders
      ensures IsComplete() == TradeComplete(View())
    {
      status == Live && forall i :: 0 <= i < |orders| ==> OrderComplete(orders[i].status)
    }

    method SetStatus(s: TradeStatus, now: int)
      requires Valid()
      modifies this, context
      ensures Valid() && orders == old(orders)
      ensures (View(), context.View()) == SetTradeStatus(old((View(), context.View())), s, now)
      decreases if s == Live then 2 else 0
    {
      statusLog := statusLog + [s];
      status := s;
      assert Views(orders) == old(Views(orders));
      if IsComplete() {
        MarkComplete(now);
      }
    }

    method MarkComplete(now: int)
      requires Valid()
      modifies this, context
      ensures Valid() && orders == old(orders)
      ensures (View(), context.View()) == CompleteTrade(old((View(), context.View())), now)
      decreases 1
    {
      SetStatus(Complete, now);
      context.Reset(id, now);
    }

    /** `with order.trade:` */
    method Enter(now: int)
      requires Valid()
      modifies this, context
      ensures Valid() && orders == old(orders)
      ensures (View(), context.View()) == SetTradeStatus(old((View(), context.View())), TradePending, now)
    {
      SetStatus(TradePending, now);
    }

    method Leave(now: int)
      requires Valid()
      modifies this, context
      ensures Valid() && orders == old(orders)
      ensures (View(), context.View()) == SetTradeStatus(old((View(), context.View())), Live, now)
    {
      SetStatus(Live, now);
    }

    method CreateOrder(side: Side, o: OrderType) returns (order: OrderObject)
      requires Valid()
      modifies this
      ensures Valid() && fresh(order) && fresh(order.simulated) && orders == old(orders) + [order]
      ensures order.View() == NewOrder(side, o) && order.trade == this
      ensures View() == old(View()).(orders := old(View()).orders + [NewOrder(side, o)])
    {
      order := new OrderObject(this, side, o);
      orders := orders + [order];
      assert Views(orders) == old(Views(orders)) + [NewOrder(side, o)];
    }
  }

  ghost function Views(os: seq<OrderObject>): (vs: seq<Order>)
    reads os, set o | o in os :: o.simulated
    ensures |vs| == |os| && forall i :: 0 <= i < |os| ==> vs[i] == os[i].View()
  {
    seq(|os|, i requires 0 <= i < |os| reads os, set o | o in os :: o.simulated => os[i].View())
  }

  class OrderObject {
    const trade: TradeObject
    const simulated: Simulated
    var status: Option<OrderStatus>
    var statusLog: seq<OrderStatus>
    var hasBet: bool
    var sizeReduction: Option<int>
    var newPrice: Option<Price>

    function View(): Order
      reads this, simulated
    {
      Order(simulated.View(), status, statusLog, hasBet, sizeReduction, newPrice)
    }

    constructor (trade: TradeObject, side: Side, o: OrderType)
      ensures this.trade == trade && View() == NewOrder(side, o)
      ensures fresh(simulated)
    {
      this.trade := trade;
      simulated := new Simulated(side, o);
      status, statusLog, hasBet, sizeReduction, newPrice := None, [], false, None, None;
    }

    /** `_update_status` and the clearing of update data around it; k is this order's place in its
        trade. */
    method SetStatus(s: OrderStatus, ghost k: nat, now: int)
      requires trade.Valid() && k < |trade.orders| && trade.orders[k] == this
      modifies this, trade, trade.context
      ensures trade.Valid() && trade.orders == old(trade.orders)
      ensures var tc := old((trade.View(), trade.context.View()));
        (trade.View(), trade.context.View()) == SetOrderStatus(tc, k, s, now)
    {
      hide SetTradeStatus, CompleteTrade, OrdersComplete, Remaining;
      statusLog := statusLog + [s];
      status := Some(s);
      if s == Executable || s == ExecutionComplete || s == Violation {
        sizeReduction, newPrice := None, None;
      }
      assert Views(trade.orders) == old(Views(trade.orders))[k := View()];
      if trade.IsComplete() && s != Violation {
        trade.MarkComplete(now);
      }
    }

    method Cancel(reduction: Option<int>, ghost k: nat, now: int) returns (ok: bool)
      requires trade.Valid() && k < |trade.orders| && trade.orders[k] == this
      modifies this, trade, trade.context
      ensures trade.Valid() && trade.orders == old(trade.orders)
      ensures ok == RequestCancel(old(View()), reduction).Some?
      ensures var tc := old((trade.View(), trade.context.View()));
        (trade.View(), trade.context.View()) == Requests(tc, k, RequestCancel(old(View()), reduction), Cancelling, now)
    {
      if !hasBet {
        return false;
      } else if simulated.orderType.Limit? {
        if reduction.Some? && reduction.value != 0 && simulated.SizeRemaining() - reduction.value < 0 {
          return false;
        }
        if status != Some(Executable) {
          return false;
        }
        sizeReduction := reduction;
        assert Views(trade.orders) == old(Views(trade.orders))[k := View()];
        SetStatus(Cancelling, k, now);
        return true;
      } else {
        return false;
      }
    }

    method Update(persistence: Persistence, ghost k: nat, now: int) returns (ok: bool)
      requires trade.Valid() && k < |trade.orders| && trade.orders[k] == this
      modifies this, simulated, trade, trade.context
      ensures trade.Valid() && trade.orders == old(trade.orders)
      ensures ok == RequestUpdate(old(View()), persistence).Some?
      ensures var tc := old((trade.View(), trade.context.View()));
        (trade.View(), trade.context.View()) == Requests(tc, k, RequestUpdate(old(View()), persistence), Updating, now)
    {
      if !hasBet {
        return false;
      } else if simulated.orderType.Limit? {
        if simulated.orderType.persistence == persistence {
          return false;
        } else if status != Some(Executable) {
          return false;
        }
        simulated.orderType := simulated.orderType.(persistence := persistence);
        assert Views(trade.orders) == old(Views(trade.orders))[k := View()];
        SetStatus(Updating, k, now);
        return true;
      } else {
        return false;
      }
    }

    method Replace(newPrice: Price, ghost k: nat, now: int) returns (ok: bool)
      requires trade.Valid() && k < |trade.orders| && trade.orders[k] == this
      modifies this, trade, trade.context
      ensures trade.Valid() && trade.orders == old(trade.orders)
      ensures ok == RequestReplace(old(View()), newPrice).Some?
      ensures var tc := old((trade.View(), trade.context.View()));
        (trade.View(), trade.context.View()) == Requests(tc, k, RequestReplace(old(View()), newPrice), Replacing, now)
    {
      if !hasBet {
        return false;
      } else if simulated.orderType.Limit? || simulated.orderType.LimitOnClose? {
        var price := if simulated.orderType.Limit? then simulated.orderType.price else simulated.orderType.bound;
        if price == newPrice {
          return false;
        } else if status != Some(Executable) {
          return false;
        }
        this.newPrice := Some(newPrice);
        assert Views(trade.orders) == old(Views(trade.orders))[k := View()];
        SetStatus(Replacing, k, now);
        return true;
      } else {
        return false;
      }
    }
  }
}
