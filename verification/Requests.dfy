/**
 Requests on the objects (flumine/execution/transaction.py with flumine/order/order.py): the controls,
 the order's own guard and status, the blotter, the runner context and the transaction's lists, in the
 order in which a request goes through them.
 */
module Requests {
  import opened Exchange
  import opened Lifecycle
  import opened Packaging
  import opened Market

  /** Refused by a control, or stopped by an exception of the order or the blotter. */
  datatype Reply = Accepted | Refused | Raised

  class MarketTransaction {
    const transaction: Transaction<OrderObject>
    var blotter: seq<OrderObject>  // all orders, in the order they were placed
    var liveOrders: seq<OrderObject>

    constructor (limits: OrderLimits)
      ensures transaction.View() == (EmptyTxn(), []) && transaction.limits == limits && fresh(transaction)
      ensures blotter == [] && liveOrders == []
    {
      transaction := new Transaction<OrderObject>(limits);
      blotter, liveOrders := [], [];
    }

    /** A control that fails marks the order as a violation, whatever the request. */
    method Refuse(order: OrderObject, ghost k: nat, now: int) returns (reply: Reply)
      requires IsOrder(order, k)
      modifies order, order.trade, order.trade.context
      ensures order.trade.Valid() && reply == Refused
      ensures TradeState(order.trade) == SetOrderStatus(old(TradeState(order.trade)), k, Violation, now)
    {
      order.SetStatus(Violation, k, now);
      reply := Refused;
    }

    /** The order turns pending before the blotter is asked, so that placing it again raises with the
        order pending and not collected. With execute false only the blotter gets it, unchecked. */
    method PlaceOrder(order: OrderObject, ghost k: nat, version: Option<int>, execute: bool, passes: bool, now: int)
      returns (reply: Reply)
      requires IsOrder(order, k) && transaction.limits.Positive()
      modifies this, transaction, order, order.trade, order.trade.context
      ensures order.trade.Valid()
      ensures reply == if execute && !passes then Refused else if order in old(blotter) then Raised else Accepted
      ensures var tc := old(TradeState(order.trade));
        var pending := SetOrderStatus(tc, k, Pending, now);
        TradeState(order.trade) == match reply
          case Refused => SetOrderStatus(tc, k, Violation, now)
          case Raised => pending
          case Accepted => (pending.0, if execute then PlaceTrade(pending.1, pending.0.id, now) else pending.1)
      ensures var asked := Ask(Place, Request(order, version), reply == Accepted && execute);
        transaction.View() == Act(old(transaction.View()), asked, transaction.limits)
      ensures blotter == old(blotter) + (if reply == Accepted then [order] else [])
      ensures liveOrders == old(liveOrders) + (if reply == Accepted then [order] else [])
    {
      hide SetOrderStatus, Views, PlaceTrade;
      if execute && !passes {
        reply := Refuse(order, k, now);
        return;
      }
      order.SetStatus(Pending, k, now);
      if order in blotter {
        return Raised;
      }
      blotter, liveOrders := blotter + [order], liveOrders + [order];
      if execute {
        Collect(order, k, version, now);
      }
      reply := Accepted;
    }

    method Collect(order: OrderObject, ghost k: nat, version: Option<int>, now: int)
      requires IsOrder(order, k) && transaction.limits.Positive()
      modifies transaction, order.trade.context
      ensures order.trade.Valid()
      ensures var tc := old(TradeState(order.trade));
        TradeState(order.trade) == (tc.0, PlaceTrade(tc.1, tc.0.id, now))
      ensures transaction.View()
           == Act(old(transaction.View()), Ask(Place, Request(order, version), true), transaction.limits)
    {
      hide PlaceTrade, Views;
      order.trade.context.Place(order.trade.id, now);
      var _ := transaction.PlaceOrder(order, version, true, true);
    }

    method CancelOrder(order: OrderObject, ghost k: nat, reduction: Option<int>, passes: bool, now: int)
      returns (reply: Reply)
      requires IsOrder(order, k) && transaction.limits.Positive()
      modifies transaction, order, order.trade, order.trade.context
      ensures order.trade.Valid()
      ensures var asked := RequestCancel(old(order.View()), reduction);
        && reply == (if !passes then Refused else if asked.None? then Raised else Accepted)
        && TradeState(order.trade) == AfterRequest(old(TradeState(order.trade)), k, asked, Cancelling, passes, now)
      ensures transaction.View()
           == Act(old(transaction.View()), Ask(Cancel, Request(order, None), reply == Accepted), transaction.limits)
    {
      hide SetOrderStatus, RequestCancel;
      if !passes {
        reply := Refuse(order, k, now);
        return;
      }
      var ok := order.Cancel(reduction, k, now);
      if !ok {
        return Raised;
      }
      var _ := transaction.CancelOrder(order, true);
      reply := Accepted;
    }

    method UpdateOrder(order: OrderObject, ghost k: nat, persistence: Persistence, passes: bool, now: int)
      returns (reply: Reply)
      requires IsOrder(order, k) && transaction.limits.Positive()
      modifies transaction, order, order.simulated, order.trade, order.trade.context
      ensures order.trade.Valid()
      ensures var asked := RequestUpdate(old(order.View()), persistence);
        && reply == (if !passes then Refused else if asked.None? then Raised else Accepted)
        && TradeState(order.trade) == AfterRequest(old(TradeState(order.trade)), k, asked, Updating, passes, now)
      ensures transaction.View()
           == Act(old(transaction.View()), Ask(Update, Request(order, None), reply == Accepted), transaction.limits)
    {
      hide SetOrderStatus, RequestUpdate;
      if !passes {
        reply := Refuse(order, k, now);
        return;
      }
      var ok := order.Update(persistence, k, now);
      if !ok {
        return Raised;
      }
      var _ := transaction.UpdateOrder(order, true);
      reply := Accepted;
    }

    /** The control sees the order at the price it still has: its new price is set after it passed. */
    method ReplaceOrder(order: OrderObject, ghost k: nat, newPrice: Price, version: Option<int>, passes: bool, now: int)
      returns (reply: Reply)
      requires IsOrder(order, k) && transaction.limits.Positive()
      modifies transaction, order, order.trade, order.trade.context
      ensures order.trade.Valid()
      ensures var asked := RequestReplace(old(order.View()), newPrice);
        && reply == (if !passes then Refused else if asked.None? then Raised else Accepted)
        && TradeState(order.trade) == AfterRequest(old(TradeState(order.trade)), k, asked, Replacing, passes, now)
      ensures transaction.View()
           == Act(old(transaction.View()), Ask(Replace, Request(order, version), reply == Accepted), transaction.limits)
    {
      hide SetOrderStatus, RequestReplace;
      if !passes {
        reply := Refuse(order, k, now);
        return;
      }
      var ok := order.Replace(newPrice, k, now);
      if !ok {
        return Raised;
      }
      var _ := transaction.ReplaceOrder(order, version, true);
      reply := Accepted;
    }
  }

  /** A request refused by a control, stopped by the order's guard, or accepted with its new data. */
  function AfterRequest(tc: TC, k: nat, asked: Option<Order>, s: OrderStatus, passes: bool, now: int): TC
    requires k < |tc.0.orders|
  {
    if passes then Requests(tc, k, asked, s, now) else SetOrderStatus(tc, k, Violation, now)
  }
}
