/** What every step on one trade keeps, seen with the runner context it belongs to. */
module TradeSteps {
  import opened Lists
  import opened Exchange
  import opened Simulation
  import opened Fills
  import opened Accounting
  import opened Lifecycle
  import opened Protocol

  /** What a run may contain beyond the ordinary: requests refused by a control, cancels that add to
      what remains, orders placed in a trade that is complete, and updates that lose an open order. */
  datatype Scope = Scope(refusals: bool, additions: bool, late: bool, losses: bool)

  /** Waiting for an execution or on the exchange. */
  predicate IsOpen(s: Option<OrderStatus>) {
    s.Some? && !OrderComplete(s)
  }

  /** What is known of an order by its status alone. */
  ghost predicate OrderInv(sc: Scope, o: Order) {
    && o.status != Some(Expired) && (o.status == Some(Violation) ==> sc.refusals)
    && (WasPlaced(o) ==> o.status.Some? && Sound(o.sim) && Reached(o.sim))
    && (!WasPlaced(o) ==> o.status == None || o.status == Some(Violation))
    && (o.status == Some(Pending) ==> o.sim == Initial(o.sim.side, o.sim.otype) && ValidOrder(o.sim.otype))
    && (IsOpen(o.status) ==> !o.sim.bspReconciled && (o.status != Some(Pending) ==> o.sim.version.Some?))
    && (IsOpen(o.status) && o.status != Some(Pending) ==> o.hasBet)
    && (o.reduction.Some? ==> o.status == Some(Cancelling)) && (o.newPrice.Some? ==> o.status == Some(Replacing))
    && (!sc.additions && WasPlaced(o) ==> NotOversold(o.sim) && (o.reduction.Some? ==> o.reduction.value >= 0))
  }

  ghost predicate OrdersInv(sc: Scope, os: seq<Order>) {
    forall i :: 0 <= i < |os| ==> OrderInv(sc, os[i])
  }

  ghost predicate SomeOpen(os: seq<Order>) {
    exists i :: 0 <= i < |os| && IsOpen(os[i].status)
  }

  ghost predicate SomePlaced(os: seq<Order>) {
    exists i :: 0 <= i < |os| && WasPlaced(os[i])
  }

  /** Between steps a trade is live or complete, complete only with nothing open but orders waiting
      to be placed. Once an order of it is placed, its context counts it as live exactly if something
      is open or it has not been completed; without refusals it is live only with something
      incomplete. */
  ghost predicate TradeInv(sc: Scope, t: Trade, inLive: bool) {
    && t.status != TradePending
    && (t.status == Complete ==> OnlyPendingOpen(t.orders))
    && (inLive <==> SomePlaced(t.orders) && (SomeOpen(t.orders) || t.status == Live))
    && (SomeOpen(t.orders) ==> SomePlaced(t.orders))
    && (!sc.late && t.status == Complete ==> !SomeOpen(t.orders))
    && (!sc.refusals && t.status == Live ==> t.orders == [] || !OrdersComplete(t.orders))
  }

  ghost predicate OnlyPendingOpen(os: seq<Order>) {
    forall i :: 0 <= i < |os| && IsOpen(os[i].status) ==> os[i].status == Some(Pending)
  }

  ghost predicate TCInv(sc: Scope, tc: TC) {
    Distinct(tc.1.liveTrades) && TradeInv(sc, tc.0, tc.0.id in tc.1.liveTrades)
  }

  /** Only this trade's place in the context may have changed. */
  ghost predicate OnlyThisTrade(tc: TC, tc': TC) {
    && tc'.0.id == tc.0.id
    && forall u :: u != tc.0.id ==> (u in tc'.1.liveTrades <==> u in tc.1.liveTrades)
  }

  /** The result of a `with order.trade` block that left the orders as given. */
  ghost predicate LeftWith(tc: TC, tc': TC, orders: seq<Order>, now: int) {
    && tc'.0.orders == orders && tc'.0.id == tc.0.id
    && tc'.0.status == (if OrdersComplete(orders) then Complete else Live)
    && tc'.0.log == tc.0.log + [TradePending, Live] + (if OrdersComplete(orders) then [Complete] else [])
    && tc'.1 == (if OrdersComplete(orders) then ResetTrade(tc.1, tc.0.id, now) else tc.1)
  }

  lemma LeftKeeps(sc: Scope, tc: TC, tc': TC, k: nat, orders: seq<Order>, now: int)
    requires TCInv(sc, tc) && k < |tc.0.orders| && IsOpen(tc.0.orders[k].status)
    requires LeftWith(tc, tc', orders, now) && k < |orders| && WasPlaced(orders[k])
    ensures TCInv(sc, tc') && OnlyThisTrade(tc, tc')
  {
    hide WasPlaced;
    WithoutRemoves(tc.1.liveTrades, tc.0.id);
    assert SomeOpen(tc.0.orders) && SomePlaced(orders);
    if SomeOpen(orders) {
      var i :| 0 <= i < |orders| && IsOpen(orders[i].status);
      assert !OrdersComplete(orders);
    }
  }

  // ----- one order of a package

  lemma PlaceOneLeaves(cfg: Config, f: Feed, r: RunnerBook, v: Option<int>, tc: TC, k: nat)
    requires k < |tc.0.orders|
    ensures var tc' := PlaceOne(cfg, f, r, v, tc, k);
      var o := tc.0.orders[k]; var (sim, ok) := PlaceStep(o.sim, v, cfg.bestPriceExecution, f.book, r);
      var o' := UpdateStatus(o.(sim := sim, hasBet := true), if ok then Executable else ExecutionComplete);
      LeftWith(tc, tc', tc.0.orders[k := o'], f.now)
  {
    hide SetTradeStatus, SetOrderStatus, PlaceStep, OrdersComplete, UpdateStatus;
    var o := tc.0.orders[k];
    var (sim, ok) := PlaceStep(o.sim, v, cfg.bestPriceExecution, f.book, r);
    BlockLeaves(tc, k, o.(sim := sim, hasBet := true), if ok then Executable else ExecutionComplete, f.now);
  }

  /** Enter, replace the order's data, set its status, leave. */
  lemma BlockLeaves(tc: TC, k: nat, o: Order, s: OrderStatus, now: int)
    requires k < |tc.0.orders| && s != Violation
    ensures var inside := SetTradeStatus(tc, TradePending, now);
      LeftWith(tc, SetTradeStatus(SetOrderStatus(PutOrder(inside, k, o), k, s, now), Live, now),
        tc.0.orders[k := UpdateStatus(o, s)], now)
  {
    hide SetTradeStatus, SetOrderStatus, OrdersComplete, UpdateStatus;
    var inside := SetTradeStatus(tc, TradePending, now);
    TradeUpdateOutcome(tc, TradePending, now);
    var put := PutOrder(inside, k, o);
    OrderUpdateOutcome(put, k, s, now);
    TradeUpdateOutcome(SetOrderStatus(put, k, s, now), Live, now);
    assert put.0.orders[k := UpdateStatus(put.0.orders[k], s)] == tc.0.orders[k := UpdateStatus(o, s)];
  }

  lemma CancelOneLeaves(f: Feed, tc: TC, k: nat)
    requires k < |tc.0.orders|
    ensures var o := tc.0.orders[k]; var (sim, size) := CancelStep(o.sim, f.book, o.reduction);
      var s := if size.Some? && Remaining(sim) == 0 then ExecutionComplete else Executable;
      LeftWith(tc, CancelOne(f, tc, k), tc.0.orders[k := UpdateStatus(o.(sim := sim), s)], f.now)
  {
    hide SetTradeStatus, SetOrderStatus, OrdersComplete, UpdateStatus, CancelStep, Remaining;
    var o := tc.0.orders[k];
    var (sim, size) := CancelStep(o.sim, f.book, o.reduction);
    var s := if size.Some? && Remaining(sim) == 0 then ExecutionComplete else Executable;
    BlockLeaves(tc, k, o.(sim := sim), s, f.now);
  }

  lemma UpdateOneLeaves(f: Feed, tc: TC, k: nat)
    requires k < |tc.0.orders|
    ensures var o := tc.0.orders[k];
      LeftWith(tc, UpdateOne(f, tc, k), tc.0.orders[k := UpdateStatus(o, Executable)], f.now)
  {
    hide SetTradeStatus, SetOrderStatus, OrdersComplete, UpdateStatus;
    var o := tc.0.orders[k];
    var persistence := if o.sim.otype.Limit? then o.sim.otype.persistence else Lapse;
    assert UpdateStep(o.sim, f.book, persistence).0 == o.sim;
    BlockLeaves(tc, k, o, Executable, f.now);
  }

  /** The cancel at the start of a replace succeeds. */
  predicate Cancellable(o: Order, b: MarketBook) {
    b.status == Open && o.sim.otype.Limit?
  }

  /** The exchange takes a replacement at this price: its runner is there, the version it is meant for
      is the market's, and the client lets it match at a better price if there is one. */
  predicate Enterable(cfg: Config, b: MarketBook, r: RunnerBook, v: Option<int>, side: Side, price: Price) {
    && !r.removed && (v == None || v.value == 0 || v.value == b.version)
    && (cfg.bestPriceExecution
        || Signed(side, BestPrice(Opposing(side, r), if side.Back? then 101 else 100000)) <= Signed(side, price))
  }

  /** What the replacement is for: all that was cancelled, at the new price. */
  function Replacement(f: Feed, o: Order): Order
    requires o.newPrice.Some? && Cancellable(o, f.book)
  {
    var size := CancelStep(o.sim, f.book, o.reduction).1.value;
    NewOrder(o.sim.side, Limit(o.newPrice.value, size, o.sim.otype.persistence))
  }

  /** The two orders a replace leaves behind. When the replacement is refused the first is executable
      again and the second was never placed. */
  ghost function ReplaceLeaves(cfg: Config, f: Feed, r: RunnerBook, v: Option<int>, o: Order): (Order, Order)
    requires o.newPrice.Some? && Cancellable(o, f.book)
  {
    var first := UpdateStatus(o.(sim := CancelStep(o.sim, f.book, o.reduction).0), ExecutionComplete);
    var created := Replacement(f, o);
    var n := created.(sim := PlaceStep(created.sim, v, cfg.bestPriceExecution, f.book, r).0);
    if Enterable(cfg, f.book, r, v, o.sim.side, o.newPrice.value) then
      (first, UpdateStatus(UpdateStatus(n.(hasBet := true), Pending), Executable))
    else (UpdateStatus(first, Executable), n)
  }

  /** Placement of a LIMIT order on an open market. */
  lemma WhenEntered(cfg: Config, b: MarketBook, r: RunnerBook, v: Option<int>, s: Sim)
    requires b.status == Open && s.otype.Limit?
    ensures PlaceStep(s, v, cfg.bestPriceExecution, b, r).1 <==> Enterable(cfg, b, r, v, s.side, s.otype.price)
  {
    hide AddFills;
  }

  /** A replace succeeds, is refused or raises by what the market and the client allow. */
  lemma WhenReplaced(cfg: Config, f: Feed, r: RunnerBook, v: Option<int>, tc: TC, k: nat)
    requires k < |tc.0.orders|
    ensures var o, outcome := tc.0.orders[k], ReplaceOne(cfg, f, r, v, tc, k).1;
      var cancellable := o.newPrice.Some? && Cancellable(o, f.book);
      var enterable := o.newPrice.Some? && Enterable(cfg, f.book, r, v, o.sim.side, o.newPrice.value);
      && (outcome == Raised <==> !cancellable)
      && (outcome == Replaced <==> cancellable && enterable)
      && (outcome == Refused <==> cancellable && !enterable)
  {
    hide SetTradeStatus, SetOrderStatus, PlaceStep, FinishReplace, Enterable;
    var o := tc.0.orders[k];
    if o.newPrice.Some? && Cancellable(o, f.book) {
      WhenEntered(cfg, f.book, r, v, Replacement(f, o).sim);
    }
  }

  lemma ReplaceOneLeaves(cfg: Config, f: Feed, r: RunnerBook, v: Option<int>, tc: TC, k: nat)
    requires k < |tc.0.orders| && tc.0.orders[k].newPrice.Some? && Cancellable(tc.0.orders[k], f.book)
    ensures var (first, second) := ReplaceLeaves(cfg, f, r, v, tc.0.orders[k]);
      LeftWith(tc, ReplaceOne(cfg, f, r, v, tc, k).0, tc.0.orders[k := first] + [second], f.now)
  {
    hide SetTradeStatus, SetOrderStatus, OrdersComplete, UpdateStatus, PlaceStep, Enterable, FinishReplace, LeftWith;
    var o, inside := tc.0.orders[k], SetTradeStatus(tc, TradePending, f.now);
    TradeUpdateOutcome(tc, TradePending, f.now);
    var cancelled := CancelStep(o.sim, f.book, o.reduction).0;
    var put := PutOrder(inside, k, o.(sim := cancelled));
    OrderUpdateOutcome(put, k, ExecutionComplete, f.now);
    var one := CancelForReplace(f, tc, k).0;
    assert one == SetOrderStatus(put, k, ExecutionComplete, f.now);
    var first := UpdateStatus(o.(sim := cancelled), ExecutionComplete);
    assert one.0.orders == tc.0.orders[k := first];
    var ok := Enterable(cfg, f.book, r, v, o.sim.side, o.newPrice.value);
    var created := Replacement(f, o);
    WhenEntered(cfg, f.book, r, v, created.sim);
    var n := created.(sim := PlaceStep(created.sim, v, cfg.bestPriceExecution, f.book, r).0, hasBet := ok);
    var two: TC := (one.0.(orders := one.0.orders + [n]), one.1);
    assert ReplaceOne(cfg, f, r, v, tc, k).0 == FinishReplace(two, k, |tc.0.orders|, ok, f.now);
    FinishLeaves(tc, two, k, first, n, ok, f.now);
  }

  /** The end of the block, entered with the trade pending and orders first and n in place. */
  lemma FinishLeaves(tc: TC, two: TC, k: nat, first: Order, n: Order, ok: bool, now: int)
    requires k < |tc.0.orders| && two.0.orders == tc.0.orders[k := first] + [n] && two.1 == tc.1
    requires two.0.id == tc.0.id && two.0.status == TradePending && two.0.log == tc.0.log + [TradePending]
    ensures var orders := if ok then tc.0.orders[k := first] + [UpdateStatus(UpdateStatus(n, Pending), Executable)]
                          else tc.0.orders[k := UpdateStatus(first, Executable)] + [n];
      LeftWith(tc, FinishReplace(two, k, |tc.0.orders|, ok, now), orders, now)
  {
    hide SetTradeStatus, SetOrderStatus, OrdersComplete, UpdateStatus;
    var m := |tc.0.orders|;
    if ok {
      OrderUpdateOutcome(two, m, Pending, now);
      var three := SetOrderStatus(two, m, Pending, now);
      OrderUpdateOutcome(three, m, Executable, now);
      var four := SetOrderStatus(three, m, Executable, now);
      TradeUpdateOutcome(four, Live, now);
      assert four.0.orders == tc.0.orders[k := first] + [UpdateStatus(UpdateStatus(n, Pending), Executable)];
    } else {
      OrderUpdateOutcome(two, k, Executable, now);
      var three := SetOrderStatus(two, k, Executable, now);
      TradeUpdateOutcome(three, Live, now);
      assert three.0.orders == tc.0.orders[k := UpdateStatus(first, Executable)] + [n];
    }
  }

  // ----- orders

  lemma StaysPlaced(o: Order, sim: Sim, s: OrderStatus)
    requires WasPlaced(o)
    ensures WasPlaced(UpdateStatus(o.(sim := sim), s)) && WasPlaced(UpdateStatus(o, s))
  {
  }

  lemma PlacedOrder(sc: Scope, cfg: Config, f: Feed, r: RunnerBook, v: Option<int>, o: Order)
    requires OrderInv(sc, o) && o.status == Some(Pending)
    ensures var (sim, ok) := PlaceStep(o.sim, v, cfg.bestPriceExecution, f.book, r);
      OrderInv(sc, UpdateStatus(o.(sim := sim, hasBet := true), if ok then Executable else ExecutionComplete))
  {
    hide PlaceStep, Reported, Reached;
    PlaceKeeps(o.sim, v, cfg.bestPriceExecution, f.book, r);
    ReachedGoesOn(o.sim, Placed(v, cfg.bestPriceExecution, f.book, r));
  }

  lemma CancelledOrder(sc: Scope, f: Feed, o: Order, s: OrderStatus)
    requires OrderInv(sc, o) && IsOpen(o.status) && o.status != Some(Pending)
    requires s == Executable || s == ExecutionComplete
    ensures OrderInv(sc, UpdateStatus(o.(sim := CancelStep(o.sim, f.book, o.reduction).0), s))
  {
    hide CancelStep, Reported, Reached;
    StepKeepsSound(o.sim, Cancelled(f.book, o.reduction));
    ReachedGoesOn(o.sim, Cancelled(f.book, o.reduction));
    CancelKeepsVersion(o.sim, f.book, o.reduction);
  }

  lemma CancelKeepsVersion(s: Sim, b: MarketBook, reduction: Option<int>)
    ensures var t := CancelStep(s, b, reduction).0; t.version == s.version && t.bspReconciled == s.bspReconciled
  {
  }

  /** What an accepted cancel does when it is executed, whatever its reduction: the guard only stops
      one above the remainder; a negative one passes it and is the only one that adds to the
      remainder. */
  lemma CancelRequestOutcome(sc: Scope, o: Order, reduction: Option<int>, b: MarketBook)
    requires OrderInv(sc, o) && o.status == Some(Executable)
    ensures var asked := RequestCancel(o, reduction);
      && (asked.Some? <==> o.sim.otype.Limit? && (reduction.Some? ==> reduction.value <= Remaining(o.sim)))
      && (asked.Some? && b.status == Open ==>
          var (t, size) := CancelStep(asked.value.sim, b, asked.value.reduction);
          && size.Some? && Remaining(t) == Remaining(o.sim) - size.value && t.sizeMatched == o.sim.sizeMatched
          && size.value == (if reduction == None || reduction.value == 0 then Remaining(o.sim) else reduction.value)
          && (Remaining(t) > Remaining(o.sim) <==> reduction.Some? && reduction.value < 0))
  {
  }

  /** When an update of the persistence is accepted, and that the order has it from then on: the next market
      update reconciles it at a known starting price exactly if it is set to take that. */
  lemma UpdateRequestOutcome(sc: Scope, o: Order, p: Persistence, b: MarketBook, sp: StartingPrice, traded: seq<Level>,
                             min: int)
    requires OrderInv(sc, o) && o.status == Some(Executable) && WasPlaced(o)
    ensures var asked := RequestUpdate(o, p);
      && (asked.Some? <==> o.sim.otype.Limit? && o.sim.otype.persistence != p)
      && (asked.Some? ==>
          && asked.value == o.(sim := Accounting.Step(o.sim, UpdateRequested(p)))
          && (Accounting.Step(asked.value.sim, Called(b, sp, traded, min)).bspReconciled
              <==> b.bspReconciled && sp != 0 && p == TakeStartingPrice))
  {
    hide CallStep;
    var asked := RequestUpdate(o, p);
    if asked.Some? {
      StepKeepsSound(o.sim, UpdateRequested(p));
      SpFlag(asked.value.sim, Called(b, sp, traded, min));
    }
  }

  /** When a replace is accepted: the order has a bet, a price, another than the new one, and nothing else
      in flight. It is for the new price, and changes nothing until it is executed. */
  lemma ReplaceRequestOutcome(o: Order, price: Price)
    ensures var asked := RequestReplace(o, price);
      && (asked.Some? <==>
          && o.hasBet && o.status == Some(Executable)
          && match o.sim.otype
             case Limit(limit, _, _) => price != limit
             case LimitOnClose(_, bound) => price != bound
             case MarketOnClose(_) => false)
      && (asked.Some? ==> asked.value.newPrice == Some(price) && asked.value.(newPrice := o.newPrice) == o)
  {
  }

  /** Whether or not the replacement is taken, nothing is left of the first order, and what it had
      left is what the second one has matched and left if it is. */
  lemma ReplacedOrders(sc: Scope, cfg: Config, f: Feed, r: RunnerBook, v: Option<int>, o: Order)
    requires OrderInv(sc, o) && o.status == Some(Replacing) && o.newPrice.Some? && Cancellable(o, f.book)
    ensures var (first, second) := ReplaceLeaves(cfg, f, r, v, o);
      var ok := Enterable(cfg, f.book, r, v, o.sim.side, o.newPrice.value);
      && OrderInv(sc, first) && OrderInv(sc, second) && WasPlaced(first)
      && first.status == Some(if ok then ExecutionComplete else Executable)
      && second.status == (if ok then Some(Executable) else None) && WasPlaced(second) == ok
      && Remaining(first.sim) == 0 && first.sim.sizeMatched == o.sim.sizeMatched
      && second.sim.sizeMatched + Remaining(second.sim) == (if ok then Remaining(o.sim) else 0)
      && (!ok ==> second.sim.sizeMatched == 0)
  {
    hide PlaceStep, Reported, Enterable, Reached;
    CancelledOrder(sc, f, o, ExecutionComplete);
    var cancelled, created := CancelStep(o.sim, f.book, o.reduction).0, Replacement(f, o).sim;
    var first := UpdateStatus(o.(sim := cancelled), ExecutionComplete);
    StaysPlaced(o, cancelled, ExecutionComplete);
    StaysPlaced(first, cancelled, Executable);
    CancelKeepsVersion(o.sim, f.book, o.reduction);
    InitialIsSound(created.side, created.otype);
    PlaceKeeps(created, v, cfg.bestPriceExecution, f.book, r);
    CreatedIsReached(created.side, created.otype);
    ReachedGoesOn(created, Placed(v, cfg.bestPriceExecution, f.book, r));
    WhenEntered(cfg, f.book, r, v, created);
  }

  // ----- updates outside a package

  lemma StatusAfter(o: Order, s: OrderStatus)
    ensures UpdateStatus(o, s).status == Some(s)
    ensures WasPlaced(UpdateStatus(o, s)) == (WasPlaced(o) || s == Pending)
  {
  }

  lemma SimAfter(o: Order, s: OrderStatus)
    ensures UpdateStatus(o, s).sim == o.sim
  {
  }

  /** A trade's orders but for order k. */
  ghost predicate OthersOpen(os: seq<Order>, k: nat) {
    exists i :: 0 <= i < |os| && i != k && IsOpen(os[i].status)
  }

  ghost predicate OthersPlaced(os: seq<Order>, k: nat) {
    exists i :: 0 <= i < |os| && i != k && WasPlaced(os[i])
  }

  ghost predicate OthersOnlyPending(os: seq<Order>, k: nat) {
    forall i :: 0 <= i < |os| && i != k && IsOpen(os[i].status) ==> os[i].status == Some(Pending)
  }

  lemma Apart(os: seq<Order>, k: nat)
    requires k < |os|
    ensures SomeOpen(os) <==> IsOpen(os[k].status) || OthersOpen(os, k)
    ensures SomePlaced(os) <==> WasPlaced(os[k]) || OthersPlaced(os, k)
    ensures OnlyPendingOpen(os)
      <==> (IsOpen(os[k].status) ==> os[k].status == Some(Pending)) && OthersOnlyPending(os, k)
    ensures OrdersComplete(os) <==> OrderComplete(os[k].status) && OthersComplete(os, k)
  {
    hide WasPlaced;
    if IsOpen(os[k].status) { assert SomeOpen(os); }
    if WasPlaced(os[k]) { assert SomePlaced(os); }
  }

  lemma OthersSame(os: seq<Order>, ps: seq<Order>, k: nat)
    requires k < |os| == |ps| && forall i :: 0 <= i < |os| && i != k ==> ps[i] == os[i]
    ensures OthersOpen(ps, k) == OthersOpen(os, k) && OthersPlaced(ps, k) == OthersPlaced(os, k)
    ensures OthersOnlyPending(ps, k) == OthersOnlyPending(os, k) && OthersComplete(ps, k) == OthersComplete(os, k)
  {
    hide WasPlaced;
    if OthersOpen(os, k) {
      var i :| 0 <= i < |os| && i != k && IsOpen(os[i].status);
      assert IsOpen(ps[i].status);
    }
    if OthersPlaced(os, k) {
      var i :| 0 <= i < |os| && i != k && WasPlaced(os[i]);
      assert WasPlaced(ps[i]);
    }
  }

  /** One order's status changes by itself, with the trade completed if that completes it. */
  lemma OneMoves(sc: Scope, tc: TC, k: nat, s: OrderStatus, now: int)
    requires TCInv(sc, tc) && k < |tc.0.orders|
    requires var was := tc.0.orders[k];
      || (s == ExecutionComplete && WasPlaced(was) && !InFlight(was.status) && was.status != None)
      || (s == Pending && was.status == Some(Pending))
      || (s == Violation && !InFlight(was.status) && sc.refusals)
      || ((s == Cancelling || s == Updating || s == Replacing) && was.status == Some(Executable))
    ensures var tc' := SetOrderStatus(tc, k, s, now); TCInv(sc, tc') && OnlyThisTrade(tc, tc')
  {
    hide SetOrderStatus, UpdateStatus, SomeOpen, SomePlaced, OnlyPendingOpen, OrdersComplete, WasPlaced;
    OrderUpdateOutcome(tc, k, s, now);
    StatusAfter(tc.0.orders[k], s);
    WithoutRemoves(tc.1.liveTrades, tc.0.id);
    var os, ps := tc.0.orders, SetOrderStatus(tc, k, s, now).0.orders;
    Apart(os, k);
    Apart(ps, k);
    OthersSame(os, ps, k);
  }

  /** New data for an order whose status stays. */
  lemma PutKeeps(sc: Scope, tc: TC, k: nat, o: Order)
    requires TCInv(sc, tc) && k < |tc.0.orders|
    requires o.status == tc.0.orders[k].status && o.log == tc.0.orders[k].log
    ensures TCInv(sc, PutOrder(tc, k, o)) && OnlyThisTrade(tc, PutOrder(tc, k, o))
  {
    hide SomeOpen, SomePlaced, OnlyPendingOpen, OrdersComplete;
    var os, ps := tc.0.orders, PutOrder(tc, k, o).0.orders;
    Apart(os, k);
    Apart(ps, k);
    OthersSame(os, ps, k);
  }

  /** A created order is placed and its trade entered in the context. */
  lemma PlaceRequestKeeps(sc: Scope, tc: TC, k: nat, now: int)
    requires TCInv(sc, tc) && k < |tc.0.orders|
    requires tc.0.orders[k].status == None || tc.0.orders[k].status == Some(Violation)
    requires !sc.late ==> tc.0.status != Complete
    ensures var tc1 := SetOrderStatus(tc, k, Pending, now);
      var tc' := (tc1.0, PlaceTrade(tc1.1, tc1.0.id, now));
      TCInv(sc, tc') && OnlyThisTrade(tc, tc')
  {
    hide SetOrderStatus, UpdateStatus, SomeOpen, SomePlaced, OnlyPendingOpen, OrdersComplete, WasPlaced;
    OrderUpdateOutcome(tc, k, Pending, now);
    StatusAfter(tc.0.orders[k], Pending);
    var os, ps := tc.0.orders, SetOrderStatus(tc, k, Pending, now).0.orders;
    Apart(os, k);
    Apart(ps, k);
    OthersSame(os, ps, k);
  }

  lemma CreateKeeps(sc: Scope, tc: TC, o: Order)
    requires TCInv(sc, tc) && o.status == None && !WasPlaced(o)
    ensures var tc' := (tc.0.(orders := tc.0.orders + [o]), tc.1); TCInv(sc, tc') && OnlyThisTrade(tc, tc')
  {
    hide WasPlaced;
    var os, ps := tc.0.orders, tc.0.orders + [o];
    assert !OrdersComplete(ps) by { assert !OrderComplete(ps[|os|].status); }
    assert forall i :: 0 <= i < |os| ==> ps[i] == os[i];
    if SomeOpen(os) {
      var i :| 0 <= i < |os| && IsOpen(os[i].status);
      assert IsOpen(ps[i].status);
    }
    if SomePlaced(os) {
      var i :| 0 <= i < |os| && WasPlaced(os[i]);
      assert WasPlaced(ps[i]);
    }
  }
}
