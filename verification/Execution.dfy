/**
 Simulated execution on the objects themselves (flumine/execution/simulatedexecution.py): what the
 loops over a package and over the live orders do to one order, inside its trade.
 */
module Execution {
  import opened Lists
  import opened Exchange
  import opened Simulation
  import opened Lifecycle
  import opened Packaging
  import opened Protocol
  import opened Market

  /** What a cancel of the order would take is not negative. */
  predicate NaturalCancel(order: OrderObject, b: MarketBook)
    reads order, order.simulated
  {
    var size := CancelStep(order.simulated.View(), b, order.sizeReduction).1;
    size.Some? ==> size.value >= 0
  }

  /** The instruction for a replace can be made out, and what its cancel takes is not negative. */
  predicate Replaceable(order: OrderObject, b: MarketBook)
    reads order, order.simulated
  {
    order.status != Some(Violation) ==> order.newPrice.Some? && NaturalCancel(order, b)
  }

  lemma DeliverReplace(cfg: Config, f: Feed, p: Package<Ref>, w: World, r: Ref)
    requires p.kind == Kind.Replace && Has(w, r) && Status(w, r) != Some(Violation)
    ensures var tc, runner := TCOf(w, r.trade), f.runners(w.trades[r.trade].runner);
      var (tc', outcome) := ReplaceOne(cfg, f, runner, p.version, tc, r.order);
      var w' := WithTC(w, r.trade, tc');
      DeliverOne(cfg, f, p, w, r) ==
      (if outcome.Replaced? then w'.(live := w'.live + [Ref(r.trade, |tc.0.orders|)]) else w', !outcome.Raised?)
  {
    hide ReplaceOne, WithTC;
  }

  lemma DeliverViolation(cfg: Config, f: Feed, p: Package<Ref>, w: World, r: Ref)
    requires Status(w, r) == Some(Violation)
    ensures DeliverOne(cfg, f, p, w, r) == (w, true)
  {
  }

  class SimulatedExecution {
    const cfg: Config

    constructor (cfg: Config)
      ensures this.cfg == cfg
    {
      this.cfg := cfg;
    }

    method PlaceInTrade(order: OrderObject, ghost k: nat, version: Option<int>, f: Feed, r: RunnerBook)
      requires IsOrder(order, k)
      requires NaturalSize(order)
      modifies order, order.trade, order.trade.context, order.simulated
      ensures order.trade.Valid() && order.trade.orders == old(order.trade.orders) && NaturalSize(order)
      ensures TradeState(order.trade) == PlaceOne(cfg, f, r, version, old(TradeState(order.trade)), k)
    {
      hide SetTradeStatus, SetOrderStatus, PlaceStep;
      order.trade.Enter(f.now);
      var ok := PlaceAt(order, k, version, f, r, true);
      if ok {
        order.SetStatus(Executable, k, f.now);
      } else {
        order.SetStatus(ExecutionComplete, k, f.now);
      }
      order.trade.Leave(f.now);
    }

    method CancelInTrade(order: OrderObject, ghost k: nat, f: Feed)
      requires IsOrder(order, k)
      modifies order, order.trade, order.trade.context, order.simulated
      ensures order.trade.Valid() && order.trade.orders == old(order.trade.orders)
      ensures TradeState(order.trade) == CancelOne(f, old(TradeState(order.trade)), k)
    {
      hide SetTradeStatus, SetOrderStatus, CancelStep;
      order.trade.Enter(f.now);
      ghost var inside := TradeState(order.trade);
      var size := order.simulated.Cancel(f.book, order.sizeReduction);
      assert Views(order.trade.orders) == inside.0.orders[k := order.View()];
      if size.Some? {
        if order.simulated.SizeRemaining() == 0 {
          order.SetStatus(ExecutionComplete, k, f.now);
        } else {
          order.SetStatus(Executable, k, f.now);
        }
      } else {
        order.SetStatus(Executable, k, f.now);
      }
      order.trade.Leave(f.now);
    }

    method UpdateInTrade(order: OrderObject, ghost k: nat, f: Feed)
      requires IsOrder(order, k)
      modifies order, order.trade, order.trade.context, order.simulated
      ensures order.trade.Valid() && order.trade.orders == old(order.trade.orders)
      ensures TradeState(order.trade) == UpdateOne(f, old(TradeState(order.trade)), k)
    {
      hide SetTradeStatus, SetOrderStatus, UpdateStep;
      order.trade.Enter(f.now);
      ghost var inside := TradeState(order.trade);
      var persistence := if order.simulated.orderType.Limit? then order.simulated.orderType.persistence else Lapse;
      var _ := order.simulated.Update(f.book, persistence);
      assert Views(order.trade.orders) == inside.0.orders[k := order.View()];
      order.SetStatus(Executable, k, f.now);
      order.trade.Leave(f.now);
    }

    method PlaceOrder(m: Objects, order: OrderObject, ghost r: Ref, ghost rest: World, version: Option<int>, f: Feed,
                      ghost p: Package<Ref>)
      requires Valid(m) && IsAt(m, order, r, OrdersOf(m)) && NaturalSize(order)
      requires p.kind == Place && p.version == version
      modifies order, order.trade, order.trade.context, order.simulated
      ensures OrdersOf(m) == old(OrdersOf(m)) && NaturalSize(order)
      ensures (View(m, rest), true) == DeliverOne(cfg, f, p, old(View(m, rest)), r)
    {
      hide PlaceOne, ValidWith;
      ViewAt(m, rest, order, r);
      ghost var was, ls := View(m, rest), OrdersOf(m);
      OthersApart(m, r.trade, order);
      if order.status != Some(Violation) {
        PlaceInTrade(order, r.order, version, f, f.runners(m.runners[order.trade.id]));
        assert OrdersOf(m) == ls;
        ViewAfter(m, rest, was, r.trade);
      }
    }

    method ExecutePlace(m: Objects, orders: seq<OrderObject>, version: Option<int>, f: Feed,
                        ghost rs: seq<Ref>, ghost rest: World)
      requires Valid(m) && AllAt(m, orders, rs, OrdersOf(m)) && forall o :: o in orders ==> NaturalSize(o)
      modifies m.trades, AllOrders(m), AllSims(m), m.contexts.Values
      ensures OrdersOf(m) == old(OrdersOf(m))
      ensures (View(m, rest), true) == DeliverAll(cfg, f, Package(Place, rs, version), old(View(m, rest)), rs)
    {
      hide DeliverOne, ValidWith, View, IsAt, AllAt, AllOrders, AllSims;
      ghost var p, ls := Package(Place, rs, version), OrdersOf(m);
      AllInMarket(m, orders, rs);
      for i := 0 to |orders|
        invariant OrdersOf(m) == ls && forall o :: o in orders ==> NaturalSize(o)
        invariant DeliverAll(cfg, f, p, View(m, rest), rs[i..]) == DeliverAll(cfg, f, p, old(View(m, rest)), rs)
      {
        OneAt(m, orders, rs, ls, i);
        assert rs[i..][1..] == rs[i + 1..];
        PlaceOrder(m, orders[i], rs[i], rest, version, f, p);
      }
    }

    method CancelOrder(m: Objects, order: OrderObject, ghost r: Ref, ghost rest: World, f: Feed, ghost p: Package<Ref>)
      requires Valid(m) && IsAt(m, order, r, OrdersOf(m)) && p.kind == Kind.Cancel
      modifies order, order.trade, order.trade.context, order.simulated
      ensures OrdersOf(m) == old(OrdersOf(m))
      ensures (View(m, rest), true) == DeliverOne(cfg, f, p, old(View(m, rest)), r)
    {
      hide CancelOne, ValidWith;
      ViewAt(m, rest, order, r);
      ghost var was, ls := View(m, rest), OrdersOf(m);
      OthersApart(m, r.trade, order);
      if order.status != Some(Violation) {
        CancelInTrade(order, r.order, f);
        assert OrdersOf(m) == ls;
        ViewAfter(m, rest, was, r.trade);
      }
    }

    method ExecuteCancel(m: Objects, orders: seq<OrderObject>, f: Feed, ghost rs: seq<Ref>, ghost rest: World)
      requires Valid(m) && AllAt(m, orders, rs, OrdersOf(m))
      modifies m.trades, AllOrders(m), AllSims(m), m.contexts.Values
      ensures OrdersOf(m) == old(OrdersOf(m))
      ensures (View(m, rest), true) == DeliverAll(cfg, f, Package(Kind.Cancel, rs, None), old(View(m, rest)), rs)
    {
      hide DeliverOne, ValidWith, View, IsAt, AllAt, AllOrders, AllSims;
      ghost var p, ls := Package(Kind.Cancel, rs, None), OrdersOf(m);
      AllInMarket(m, orders, rs);
      for i := 0 to |orders|
        invariant OrdersOf(m) == ls
        invariant DeliverAll(cfg, f, p, View(m, rest), rs[i..]) == DeliverAll(cfg, f, p, old(View(m, rest)), rs)
      {
        OneAt(m, orders, rs, ls, i);
        assert rs[i..][1..] == rs[i + 1..];
        CancelOrder(m, orders[i], rs[i], rest, f, p);
      }
    }

    method UpdateOrder(m: Objects, order: OrderObject, ghost r: Ref, ghost rest: World, f: Feed, ghost p: Package<Ref>)
      requires Valid(m) && IsAt(m, order, r, OrdersOf(m)) && p.kind == Kind.Update
      modifies order, order.trade, order.trade.context, order.simulated
      ensures OrdersOf(m) == old(OrdersOf(m))
      ensures (View(m, rest), true) == DeliverOne(cfg, f, p, old(View(m, rest)), r)
    {
      hide UpdateOne, ValidWith;
      ViewAt(m, rest, order, r);
      ghost var was, ls := View(m, rest), OrdersOf(m);
      OthersApart(m, r.trade, order);
      if order.status != Some(Violation) {
        UpdateInTrade(order, r.order, f);
        assert OrdersOf(m) == ls;
        ViewAfter(m, rest, was, r.trade);
      }
    }

    method ExecuteUpdate(m: Objects, orders: seq<OrderObject>, f: Feed, ghost rs: seq<Ref>, ghost rest: World)
      requires Valid(m) && AllAt(m, orders, rs, OrdersOf(m))
      modifies m.trades, AllOrders(m), AllSims(m), m.contexts.Values
      ensures OrdersOf(m) == old(OrdersOf(m))
      ensures (View(m, rest), true) == DeliverAll(cfg, f, Package(Kind.Update, rs, None), old(View(m, rest)), rs)
    {
      hide DeliverOne, ValidWith, View, IsAt, AllAt, AllOrders, AllSims;
      ghost var p, ls := Package(Kind.Update, rs, None), OrdersOf(m);
      AllInMarket(m, orders, rs);
      for i := 0 to |orders|
        invariant OrdersOf(m) == ls
        invariant DeliverAll(cfg, f, p, View(m, rest), rs[i..]) == DeliverAll(cfg, f, p, old(View(m, rest)), rs)
      {
        OneAt(m, orders, rs, ls, i);
        assert rs[i..][1..] == rs[i + 1..];
        UpdateOrder(m, orders[i], rs[i], rest, f, p);
      }
    }

    /** One live executable order at a market update. */
    method MatchInTrade(order: OrderObject, ghost k: nat, runner: Runner, f: Feed)
      requires IsOrder(order, k)
      modifies order, order.trade, order.trade.context, order.simulated
      ensures order.trade.Valid() && order.trade.orders == old(order.trade.orders)
      ensures TradeState(order.trade) == MatchOrder(cfg, f, runner, old(TradeState(order.trade)), k)
    {
      hide SetTradeStatus, SetOrderStatus, CallStep;
      var complete := order.simulated.Call(f.book, f.runners(runner).actualSp, f.traded(runner), cfg.minBspLiability);
      assert Views(order.trade.orders) == old(Views(order.trade.orders))[k := order.View()];
      if complete {
        order.SetStatus(ExecutionComplete, k, f.now);
      }
    }

    /** Cancels the order and places what was cancelled as a new order of the trade. A cancel that
        fails passes no size on, which raises inside the block and leaves the trade pending. */
    method ReplaceInTrade(order: OrderObject, ghost k: nat, version: Option<int>, f: Feed, r: RunnerBook)
      returns (outcome: ReplaceOutcome, replacement: OrderObject?)
      requires IsOrder(order, k) && order.newPrice.Some?
      requires NaturalCancel(order, f.book)
      modifies order, order.trade, order.trade.context, order.simulated
      ensures order.trade.Valid() && (replacement == null <==> outcome.Raised?)
      ensures outcome.Raised? ==> order.trade.orders == old(order.trade.orders)
      ensures replacement != null ==>
        && fresh(replacement) && fresh(replacement.simulated) && replacement.trade == order.trade
        && order.trade.orders == old(order.trade.orders) + [replacement]
      ensures (TradeState(order.trade), outcome) == ReplaceOne(cfg, f, r, version, old(TradeState(order.trade)), k)
    {
      hide CancelForReplace, PlaceReplacement, FinishReplace, Views;
      var newPrice := order.newPrice.value;
      var size := CancelCurrent(order, k, f);
      if size.None? {
        return Raised, null;
      }
      var otype := Limit(newPrice, size.value, order.simulated.orderType.persistence);
      var ok;
      ok, replacement := PlaceAndFinish(order, k, otype, version, f, r);
      outcome := if ok then Replaced else Refused;
    }

    method ReplaceAt(m: Objects, order: OrderObject, ghost r: Ref, ghost rest: World, version: Option<int>, f: Feed)
      returns (outcome: ReplaceOutcome, replacement: OrderObject?)
      requires Valid(m) && IsAt(m, order, r, OrdersOf(m)) && order.newPrice.Some? && NaturalCancel(order, f.book)
      modifies order, order.trade, order.trade.context, order.simulated
      ensures Valid(m) && Extends(OrdersOf(m), old(OrdersOf(m)))
      ensures var w := old(View(m, rest));
        && Has(w, r) && order.trade.id == r.trade
        && var runner := f.runners(w.trades[r.trade].runner);
           var (tc, done) := ReplaceOne(cfg, f, runner, version, TCOf(w, r.trade), r.order);
           outcome == done && View(m, rest) == WithTC(w, r.trade, tc)
      ensures outcome.Replaced? ==>
        && replacement != null
        && IsAt(m, replacement, Ref(r.trade, |TCOf(old(View(m, rest)), r.trade).0.orders|), OrdersOf(m))
    {
      hide ReplaceOne, ValidWith, NaturalCancel, Views, HeldViews, WithTC, TradeHolds, Apart, Absent, IsOrder;
      ViewAt(m, rest, order, r);
      ghost var was, ls, t := View(m, rest), OrdersOf(m), r.trade;
      outcome, replacement := ReplaceAlone(m, order, r, version, f);
      if replacement != null {
        OrderAdded(m, ls, t, replacement);
      }
      ViewAfter(m, rest, was, t);
    }

    /** What the replace does to the trade and its order list, and that nothing else changes. */
    method ReplaceAlone(m: Objects, order: OrderObject, ghost r: Ref, version: Option<int>, f: Feed)
      returns (outcome: ReplaceOutcome, replacement: OrderObject?)
      requires Valid(m) && IsAt(m, order, r, OrdersOf(m)) && order.newPrice.Some? && NaturalCancel(order, f.book)
      requires IsOrder(order, r.order) && order.trade.id == r.trade
      modifies order, order.trade, order.trade.context, order.simulated
      ensures var ls := old(OrdersOf(m));
        if replacement == null then OrdersOf(m) == ls
        else OrdersOf(m) == ls[r.trade := ls[r.trade] + [replacement]] && replacement.trade == order.trade
             && forall i :: 0 <= i < |ls| ==> Absent(ls[i], replacement)
      ensures var runner := f.runners(m.runners[r.trade]);
        (TradeState(order.trade), outcome) == ReplaceOne(cfg, f, runner, version, old(TradeState(order.trade)), r.order)
      ensures replacement == null <==> outcome.Raised?
      ensures forall i :: 0 <= i < |m.trades| && i != r.trade ==> m.trades[i].View() == old(m.trades[i].View())
      ensures forall x :: x in m.contexts && x != m.runners[r.trade] ==>
        m.contexts[x].View() == old(m.contexts[x].View())
    {
      hide ReplaceOne, ValidWith, NaturalCancel, Views, TradeHolds, Apart;
      ghost var ls, t := OrdersOf(m), r.trade;
      OthersApart(m, t, order);
      outcome, replacement := ReplaceInTrade(order, r.order, version, f, f.runners(m.runners[order.trade.id]));
      if replacement == null {
        assert OrdersOf(m) == ls;
      } else {
        var added: OrderObject := replacement;
        assert OrdersOf(m) == ls[t := ls[t] + [added]];
      }
    }

    /** The market itself is as it was. */
    method AddLive(m: Objects, live: LiveOrders, order: OrderObject, ghost r: Ref, ghost rest: World)
      requires Valid(m) && live.RefersTo(m) && IsAt(m, order, r, OrdersOf(m))
      modifies live
      ensures Valid(m) && live.RefersTo(m) && live.refs == old(live.refs) + [r]
      ensures OrdersOf(m) == old(OrdersOf(m)) && View(m, rest) == old(View(m, rest))
    {
      hide ValidWith, HeldViews;
      live.Add(m, order, r);
    }

    /** One order of a replace, and the replacement into the live orders; false if it raises. */
    method ReplaceOrder(m: Objects, live: LiveOrders, order: OrderObject, ghost r: Ref, ghost rest: World,
                        version: Option<int>, f: Feed, ghost p: Package<Ref>) returns (ok: bool)
      requires Valid(m) && live.RefersTo(m) && IsAt(m, order, r, OrdersOf(m))
      requires p.kind == Kind.Replace && p.version == version && Replaceable(order, f.book)
      modifies order, order.trade, order.trade.context, order.simulated, live
      ensures Valid(m) && live.RefersTo(m) && Extends(OrdersOf(m), old(OrdersOf(m)))
      ensures var w := old(View(m, rest.(live := live.refs)));
        (View(m, rest.(live := live.refs)), ok) == DeliverOne(cfg, f, p, w, r)
    {
      hide ReplaceOne, DeliverOne, View, ValidWith, NaturalCancel, IsAt, WithTC, AllAt;
      ghost var before, ls := rest.(live := live.refs), OrdersOf(m);
      ghost var w := View(m, before);
      ViewAt(m, before, order, r);
      ok := true;
      if order.status == Some(Violation) {
        DeliverViolation(cfg, f, p, w, r);
      } else {
        var outcome, replacement := ReplaceAt(m, order, r, before, version, f);
        ghost var w1 := View(m, before);
        DeliverReplace(cfg, f, p, w, r);
        StillAt(m, live.orders, live.refs, OrdersOf(m), ls);
        if outcome.Replaced? {
          AddLive(m, live, replacement, Ref(r.trade, |TCOf(w, r.trade).0.orders|), before);
        }
        ViewWithLive(m, before, live.refs);
        ok := !outcome.Raised?;
      }
    }

    method ExecuteReplace(m: Objects, live: LiveOrders, orders: seq<OrderObject>, version: Option<int>, f: Feed,
                          ghost rs: seq<Ref>, ghost rest: World) returns (ok: bool)
      requires Valid(m) && live.RefersTo(m) && AllAt(m, orders, rs, OrdersOf(m))
      requires Distinct(orders) && forall o :: o in orders ==> Replaceable(o, f.book)
      modifies m.trades, AllOrders(m), AllSims(m), m.contexts.Values, live
      ensures Valid(m) && live.RefersTo(m)
      ensures var w, p := old(View(m, rest.(live := live.refs))), Package(Kind.Replace, rs, version);
        (View(m, rest.(live := live.refs)), ok) == DeliverAll(cfg, f, p, w, rs)
    {
      hide DeliverOne, ValidWith, View, Apart, TradeHolds, IsAt, CancelStep, AllOrders, AllSims, Extends, AllAt;
      ghost var p, was := Package(Kind.Replace, rs, version), View(m, rest.(live := live.refs));
      AllInMarket(m, orders, rs);
      ok := true;
      for i := 0 to |orders|
        invariant Valid(m) && live.RefersTo(m) && AllAt(m, orders, rs, OrdersOf(m)) && |rs| == |orders|
        invariant forall j :: i <= j < |orders| ==> Replaceable(orders[j], f.book)
        invariant DeliverAll(cfg, f, p, View(m, rest.(live := live.refs)), rs[i..]) == DeliverAll(cfg, f, p, was, rs)
      {
        assert rs[i..][1..] == rs[i + 1..];
        SimsApart(m, orders, rs, i);
        ghost var ls := OrdersOf(m);
        ok := ReplaceOrder(m, live, orders[i], rs[i], rest, version, f, p);
        StillAt(m, orders, rs, OrdersOf(m), ls);
        if !ok {
          return;
        }
      }
    }

    method PlaceAndFinish(order: OrderObject, ghost k: nat, o: OrderType, version: Option<int>, f: Feed, r: RunnerBook)
      returns (ok: bool, replacement: OrderObject)
      requires IsOrder(order, k) && o.Limit? && o.size >= 0
      modifies order, order.trade, order.trade.context
      ensures order.trade.Valid() && order.trade.orders == old(order.trade.orders) + [replacement]
      ensures fresh(replacement) && fresh(replacement.simulated) && replacement.trade == order.trade
      ensures var side := order.simulated.side;
        var (tc, placed) := PlaceReplacement(cfg, f, r, version, old(TradeState(order.trade)), side, o);
        ok == placed && TradeState(order.trade) == FinishReplace(tc, k, |tc.0.orders| - 1, ok, f.now)
    {
      hide PlaceReplacement, FinishReplace, Views;
      replacement, ok := PlaceNew(order.trade, order.simulated.side, o, version, f, r);
      Finish(order, k, replacement, |order.trade.orders| - 1, ok, f.now);
    }

    method CancelCurrent(order: OrderObject, ghost k: nat, f: Feed) returns (size: Option<int>)
      requires IsOrder(order, k)
      modifies order, order.trade, order.trade.context, order.simulated
      ensures order.trade.Valid() && order.trade.orders == old(order.trade.orders)
      ensures (TradeState(order.trade), size) == CancelForReplace(f, old(TradeState(order.trade)), k)
      ensures order.simulated.orderType == old(order.simulated.orderType)
      ensures size == old(CancelStep(order.simulated.View(), f.book, order.sizeReduction).1)
    {
      hide SetTradeStatus, SetOrderStatus;
      order.trade.Enter(f.now);
      ghost var inside := TradeState(order.trade);
      size := order.simulated.Cancel(f.book, order.sizeReduction);
      assert Views(order.trade.orders) == inside.0.orders[k := order.View()];
      if size.Some? {
        order.SetStatus(ExecutionComplete, k, f.now);
      } else {
        order.SetStatus(Executable, k, f.now);
      }
    }

    method Finish(order: OrderObject, ghost k: nat, replacement: OrderObject, ghost n: nat, ok: bool, now: int)
      requires IsOrder(order, k) && IsOrder(replacement, n) && replacement.trade == order.trade
      modifies order, replacement, order.trade, order.trade.context
      ensures order.trade.Valid() && order.trade.orders == old(order.trade.orders)
      ensures TradeState(order.trade) == FinishReplace(old(TradeState(order.trade)), k, n, ok, now)
    {
      hide SetTradeStatus, SetOrderStatus;
      if ok {
        replacement.SetStatus(Pending, n, now);
        replacement.SetStatus(Executable, n, now);
      } else {
        order.SetStatus(Executable, k, now);
      }
      order.trade.Leave(now);
    }

    method PlaceNew(trade: TradeObject, side: Side, o: OrderType, version: Option<int>, f: Feed, r: RunnerBook)
      returns (replacement: OrderObject, ok: bool)
      requires trade.Valid() && o.Limit? && o.size >= 0
      modifies trade
      ensures trade.Valid() && trade.orders == old(trade.orders) + [replacement] && replacement.trade == trade
      ensures fresh(replacement) && fresh(replacement.simulated)
      ensures (TradeState(trade), ok) == PlaceReplacement(cfg, f, r, version, old(TradeState(trade)), side, o)
    {
      hide PlaceStep, Views;
      replacement := trade.CreateOrder(side, o);
      ghost var n := |trade.orders| - 1;
      ok := PlaceAt(replacement, n, version, f, r, false);
      Appended(old(TradeState(trade)).0.orders, NewOrder(side, o), replacement.View());
    }

    /** Places order k with the exchange; whether it then has a bet id depends on the caller when the
        placement fails. */
    method PlaceAt(order: OrderObject, ghost k: nat, version: Option<int>, f: Feed, r: RunnerBook, betOnFailure: bool)
      returns (ok: bool)
      requires IsOrder(order, k)
      requires NaturalSize(order)
      modifies order, order.simulated
      ensures order.trade.Valid() && NaturalSize(order)
      ensures var o := old(order.View());
        var (sim, placed) := PlaceStep(o.sim, version, cfg.bestPriceExecution, f.book, r);
        && ok == placed && order.View() == o.(sim := sim, hasBet := ok || betOnFailure)
        && TradeState(order.trade) == PutOrder(old(TradeState(order.trade)), k, order.View())
    {
      hide PlaceStep;
      PlaceKeepsTerms(order.simulated.View(), version, cfg.bestPriceExecution, f.book, r);
      ok := order.simulated.Place(version, cfg.bestPriceExecution, f.book, r);
      order.hasBet := ok || betOnFailure;
      assert Views(order.trade.orders) == old(Views(order.trade.orders))[k := order.View()];
    }
  }

  lemma Appended<T>(s: seq<T>, x: T, y: T)
    ensures (s + [x])[|s| := y] == s + [y]
  {
  }

  /** The matching of live orders at a market update (flumine/markets/middleware.py). */
  class SimulatedMiddleware {
    const execution: SimulatedExecution

    constructor (execution: SimulatedExecution)
      ensures this.execution == execution
    {
      this.execution := execution;
    }

    method ProcessOrder(m: Objects, order: OrderObject, ghost r: Ref, ghost rest: World, f: Feed)
      requires Valid(m) && IsAt(m, order, r, OrdersOf(m))
      modifies order, order.trade, order.trade.context, order.simulated
      ensures OrdersOf(m) == old(OrdersOf(m))
      ensures View(m, rest) == MatchOne(execution.cfg, f, old(View(m, rest)), r)
    {
      hide MatchOrder, ValidWith;
      ViewAt(m, rest, order, r);
      ghost var was, ls := View(m, rest), OrdersOf(m);
      OthersApart(m, r.trade, order);
      if order.status == Some(Executable) {
        execution.MatchInTrade(order, r.order, m.runners[order.trade.id], f);
        assert OrdersOf(m) == ls;
        ViewAfter(m, rest, was, r.trade);
      }
    }

    method ProcessSimulatedOrders(m: Objects, live: LiveOrders, f: Feed, ghost rest: World)
      requires Valid(m) && live.RefersTo(m)
      modifies m.trades, AllOrders(m), AllSims(m), m.contexts.Values
      ensures OrdersOf(m) == old(OrdersOf(m))
      ensures View(m, rest) == MatchAll(execution.cfg, f, old(View(m, rest)), live.refs)
    {
      hide MatchOne, ValidWith, View, IsAt, AllAt, AllOrders, AllSims;
      ghost var rs, ls, cfg := live.refs, OrdersOf(m), execution.cfg;
      AllInMarket(m, live.orders, rs);
      for i := 0 to |live.orders|
        invariant OrdersOf(m) == ls
        invariant MatchAll(cfg, f, View(m, rest), rs[i..]) == MatchAll(cfg, f, old(View(m, rest)), rs)
      {
        OneAt(m, live.orders, rs, ls, i);
        assert rs[i..][1..] == rs[i + 1..];
        ProcessOrder(m, live.orders[i], rs[i], rest, f);
      }
    }
  }

  /** The end of a market update (flumine/backtest/backtest.py). */
  class Backtest {
    constructor () {}

    method ProcessOrder(m: Objects, live: LiveOrders, order: OrderObject, ghost r: Ref, now: int, ghost rest: World)
      requires Valid(m) && live.RefersTo(m) && IsAt(m, order, r, OrdersOf(m))
      modifies order, order.trade, order.trade.context, live
      ensures OrdersOf(m) == old(OrdersOf(m)) && live.RefersTo(m)
      ensures View(m, rest.(live := live.refs)) == CompleteOne(old(View(m, rest.(live := live.refs))), r, now)
    {
      hide ValidWith, CompleteIfDone, Views, HeldViews, IsAt, TradeState, Without;
      ghost var before := rest.(live := live.refs);
      var finished := CompleteOrder(m, order, r, now, before);
      ghost var w := View(m, before);
      if finished {
        live.Remove(m, order, r);
      }
      assert View(m, before) == w;
      ViewWithLive(m, before, live.refs);
    }

    /** Whether the order's trade is then complete. */
    method CompleteOrder(m: Objects, order: OrderObject, ghost r: Ref, now: int, ghost rest: World)
      returns (finished: bool)
      requires Valid(m) && IsAt(m, order, r, OrdersOf(m))
      modifies order, order.trade, order.trade.context
      ensures OrdersOf(m) == old(OrdersOf(m))
      ensures Has(old(View(m, rest)), r) && View(m, rest) == CompleteIfDone(old(View(m, rest)), r, now)
      ensures finished == (View(m, rest).trades[r.trade].trade.status == Complete)
    {
      hide ValidWith, SetOrderStatus;
      ViewAt(m, rest, order, r);
      ghost var was, ls := View(m, rest), OrdersOf(m);
      OthersApart(m, r.trade, order);
      var done := if order.simulated.orderType.Limit? then order.simulated.SizeRemaining() == 0
                  else order.simulated.bspReconciled;
      if done {
        order.SetStatus(ExecutionComplete, r.order, now);
      }
      assert OrdersOf(m) == ls;
      ViewAfter(m, rest, was, r.trade);
      finished := order.trade.status == Complete;
    }

    method ProcessBacktestOrders(m: Objects, live: LiveOrders, now: int, ghost rest: World)
      requires Valid(m) && live.RefersTo(m)
      modifies m.trades, AllOrders(m), m.contexts.Values, live
      ensures OrdersOf(m) == old(OrdersOf(m)) && live.RefersTo(m)
      ensures View(m, rest.(live := live.refs))
           == CompleteAll(old(View(m, rest.(live := live.refs))), old(live.refs), now)
    {
      hide CompleteOne, ValidWith, View, IsAt, AllAt, AllOrders, AllSims;
      var orders := live.orders;
      ghost var rs, ls, was := live.refs, OrdersOf(m), View(m, rest.(live := live.refs));
      AllInMarket(m, orders, rs);
      for i := 0 to |orders|
        invariant OrdersOf(m) == ls && live.RefersTo(m)
        invariant CompleteAll(View(m, rest.(live := live.refs)), rs[i..], now) == CompleteAll(was, rs, now)
      {
        OneAt(m, orders, rs, ls, i);
        assert rs[i..][1..] == rs[i + 1..];
        ProcessOrder(m, live, orders[i], rs[i], now, rest);
      }
    }
  }
}
