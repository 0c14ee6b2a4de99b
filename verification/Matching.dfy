/**
 What reaches an order of a backtest: the delivery of its package, the exchange's update of every live
 executable order with its own runner's prices and volume, and both together in a market update.
 */
module Matching {
  import opened Lists
  import opened Exchange
  import opened Simulation
  import opened Fills
  import opened Accounting
  import opened Outcomes
  import opened Lifecycle
  import opened Packaging
  import opened Protocol
  import opened TradeSteps
  import opened Completion
  import opened BacktestRuns

  // ----- delays

  /** A request made outside the open transaction waits in a package of its own, and is due at the first
      update more than its latency later: 120 ms for a placement, 170 for a cancel, 150 for an update and
      280 for a replace, and the bet delay for what enters the market anew. In the open transaction it
      waits until that is executed. */
  lemma WhenARequestIsDue(cfg: Config, w: World, kind: Kind, r: Request<Ref>, how: How, f: Feed)
    requires cfg.limits.Positive()
    ensures var w', n := Enqueue(cfg, w, kind, r, how), |w.queue|;
      && w'.trades == w.trades && w'.live == w.live
      && (how.batched ==> w'.queue == w.queue && w'.txn.Of(kind) == w.txn.Of(kind) + [r])
      && (!how.batched ==>
          && w'.txn == w.txn && |w'.queue| == n + 1 && w'.queue[..n] == w.queue
          && w'.queue[n].package == Package(kind, [r.order], r.version)
          && (Due(f, w'.queue[n]) <==> f.now - how.now > match kind
              case Place => 120 + 1000 * how.betDelay
              case Cancel => 170
              case Update => 150
              case Replace => 280 + 1000 * how.betDelay))
  {
    hide Packages;
    OnePackage(kind, r, cfg.limits);
  }

  /** What waits in the transaction is sent when it is executed, with its latency from then on. */
  lemma WhenATransactionIsDue(cfg: Config, w: World, how: How, i: nat, f: Feed)
    requires cfg.limits.Positive()
    requires var w' := Next(cfg, w, ExecuteTransaction(how)); |w.queue| <= i < |w'.queue|
    ensures var w' := Next(cfg, w, ExecuteTransaction(how));
      && w'.queue[..|w.queue|] == w.queue && w'.txn.Of(w'.queue[i].package.kind) == []
      && w'.queue[i].package == Packages(w.txn, cfg.limits)[i - |w.queue|]
      && (Due(f, w'.queue[i]) <==> f.now - how.now > match w'.queue[i].package.kind
          case Place => 120 + 1000 * how.betDelay
          case Cancel => 170
          case Update => 150
          case Replace => 280 + 1000 * how.betDelay)
  {
    hide Packages;
  }

  // ----- deliveries

  /** What the delivery of a package makes of one of its orders: the exchange places, cancels or updates
      it, and it is executable after that unless the placement failed, the cancel left nothing or a
      replacement took its place. */
  ghost predicate DeliveredAs(cfg: Config, f: Feed, p: Package<Ref>, runner: RunnerBook, o: Order, o': Order) {
    match p.kind
    case Place =>
      && o'.sim == Accounting.Step(o.sim, Placed(p.version, cfg.bestPriceExecution, f.book, runner))
      && o'.status == Some(if PlaceStep(o.sim, p.version, cfg.bestPriceExecution, f.book, runner).1
                           then Executable else ExecutionComplete)
    case Cancel =>
      && o'.sim == Accounting.Step(o.sim, Cancelled(f.book, o.reduction))
      && o'.status == Some(if f.book.status == Open && o.sim.otype.Limit? && Remaining(o'.sim) == 0
                           then ExecutionComplete else Executable)
    case Update => o'.sim == o.sim && o'.status == Some(Executable)
    case Replace =>
      && o'.sim == Accounting.Step(o.sim, Cancelled(f.book, o.reduction))
      && o'.status == Some(
           if o.newPrice.Some? && Cancellable(o, f.book)
              && Enterable(cfg, f.book, runner, p.version, o.sim.side, o.newPrice.value)
           then ExecutionComplete else Executable)
  }

  /** A placement gives an order its bet, failed or not, and with its status its update data are done with. */
  ghost predicate Acknowledged(p: Package<Ref>, o: Order, o': Order) {
    o'.hasBet == (p.kind == Place || o.hasBet) && o'.reduction == None && o'.newPrice == None
  }

  lemma DeliverOneDoes(cfg: Config, f: Feed, p: Package<Ref>, w: World, r: Ref)
    requires Has(w, r) && Status(w, r) != Some(Violation) && DeliverOne(cfg, f, p, w, r).1
    ensures var w' := DeliverOne(cfg, f, p, w, r).0;
      && Has(w', r) && DeliveredAs(cfg, f, p, f.runners(w.trades[r.trade].runner), OrderAt(w, r), OrderAt(w', r))
      && Acknowledged(p, OrderAt(w, r), OrderAt(w', r))
  {
    hide PlaceOne, CancelOne, UpdateOne, ReplaceOne, UpdateStatus, PlaceStep, Enterable;
    var tc, runner := TCOf(w, r.trade), f.runners(w.trades[r.trade].runner);
    var o := OrderAt(w, r);
    match p.kind
    case Place =>
      PlaceOneLeaves(cfg, f, runner, p.version, tc, r.order);
      var placed := PlaceStep(o.sim, p.version, cfg.bestPriceExecution, f.book, runner);
      UpdatedTo(o.(sim := placed.0, hasBet := true), if placed.1 then Executable else ExecutionComplete);
    case Cancel =>
      CancelOneLeaves(f, tc, r.order);
      UpdatedTo(o.(sim := CancelStep(o.sim, f.book, o.reduction).0), Executable);
      UpdatedTo(o.(sim := CancelStep(o.sim, f.book, o.reduction).0), ExecutionComplete);
    case Update =>
      UpdateOneLeaves(f, tc, r.order);
      UpdatedTo(o, Executable);
    case Replace =>
      ReplaceOneDoes(cfg, f, runner, p.version, tc, r.order);
  }

  lemma ReplaceOneDoes(cfg: Config, f: Feed, r: RunnerBook, v: Option<int>, tc: TC, k: nat)
    requires k < |tc.0.orders| && !ReplaceOne(cfg, f, r, v, tc, k).1.Raised?
    ensures var o, os := tc.0.orders[k], ReplaceOne(cfg, f, r, v, tc, k).0.0.orders;
      && k < |os| && o.newPrice.Some? && Cancellable(o, f.book)
      && os[k].sim == Accounting.Step(o.sim, Cancelled(f.book, o.reduction))
      && os[k].hasBet == o.hasBet && os[k].reduction == None && os[k].newPrice == None
      && os[k].status == Some(
           if Enterable(cfg, f.book, r, v, o.sim.side, o.newPrice.value) then ExecutionComplete else Executable)
  {
    hide PlaceStep, Enterable, UpdateStatus, ReplaceOne;
    var o := tc.0.orders[k];
    WhenReplaced(cfg, f, r, v, tc, k);
    ReplaceOneLeaves(cfg, f, r, v, tc, k);
    var sim := CancelStep(o.sim, f.book, o.reduction).0;
    UpdatedTo(o.(sim := sim), ExecutionComplete);
    UpdatedTo(UpdateStatus(o.(sim := sim), ExecutionComplete), Executable);
  }

  lemma UpdatedTo(o: Order, s: OrderStatus)
    ensures UpdateStatus(o, s).status == Some(s) && UpdateStatus(o, s).sim == o.sim
    ensures UpdateStatus(o, s).hasBet == o.hasBet
    ensures s == Executable || s == ExecutionComplete ==>
      UpdateStatus(o, s).reduction == None && UpdateStatus(o, s).newPrice == None
  {
  }

  /** The trades, their runners and the rest of the orders are as they were, and live orders stay live. */
  ghost predicate Untouched(w: World, w': World, x: Ref) {
    && |w'.trades| == |w.trades| && (forall t :: 0 <= t < |w.trades| ==> w'.trades[t].runner == w.trades[t].runner)
    && (Has(w, x) ==> Has(w', x) && OrderAt(w', x) == OrderAt(w, x))
    && (x in w.live ==> x in w'.live)
  }

  lemma DeliverOneElsewhere(cfg: Config, f: Feed, p: Package<Ref>, w: World, r: Ref, x: Ref)
    requires x != r
    ensures Untouched(w, DeliverOne(cfg, f, p, w, r).0, x)
  {
    hide PlaceOne, CancelOne, UpdateOne, ReplaceOne;
    if Has(w, r) && Status(w, r) != Some(Violation) {
      var tc, runner := TCOf(w, r.trade), f.runners(w.trades[r.trade].runner);
      match p.kind
      case Place => PlaceOneLeaves(cfg, f, runner, p.version, tc, r.order);
      case Cancel => CancelOneLeaves(f, tc, r.order);
      case Update => UpdateOneLeaves(f, tc, r.order);
      case Replace => ReplaceElsewhere(cfg, f, runner, p.version, tc, r.order);
    }
  }

  lemma ReplaceElsewhere(cfg: Config, f: Feed, r: RunnerBook, v: Option<int>, tc: TC, k: nat)
    requires k < |tc.0.orders|
    ensures var os := ReplaceOne(cfg, f, r, v, tc, k).0.0.orders;
      |os| >= |tc.0.orders| && forall i :: 0 <= i < |tc.0.orders| && i != k ==> os[i] == tc.0.orders[i]
  {
    hide PlaceStep, CancelStep, UpdateStatus, SetTradeStatus, SetOrderStatus;
  }

  lemma {:induction false} DeliverAllElsewhere(cfg: Config, f: Feed, p: Package<Ref>, w: World, rs: seq<Ref>, x: Ref)
    requires x !in rs
    ensures Untouched(w, DeliverAll(cfg, f, p, w, rs).0, x)
    decreases |rs|
  {
    hide DeliverOne;
    if rs != [] {
      DeliverOneElsewhere(cfg, f, p, w, rs[0], x);
      DeliverAllElsewhere(cfg, f, p, DeliverOne(cfg, f, p, w, rs[0]).0, rs[1..], x);
    }
  }

  lemma {:induction false} CheckElsewhere(cfg: Config, f: Feed, w: World, q: seq<Queued>, x: Ref)
    requires forall i :: 0 <= i < |q| && Due(f, q[i]) ==> x !in q[i].package.orders
    ensures Untouched(w, Check(cfg, f, w, q).0, x)
    decreases |q|
  {
    hide DeliverAll;
    if q != [] {
      var p := q[0].package;
      if Due(f, q[0]) {
        DeliverAllElsewhere(cfg, f, p, w, p.orders, x);
        CheckElsewhere(cfg, f, DeliverAll(cfg, f, p, w, p.orders).0, q[1..], x);
      } else {
        CheckElsewhere(cfg, f, w, q[1..], x);
      }
    }
  }

  lemma {:induction false} NotCarried(q: seq<Queued>, x: Ref)
    requires forall k :: Carried(InQueue(q), k, x) == 0
    ensures forall i :: 0 <= i < |q| ==> x !in q[i].package.orders
  {
    if q != [] {
      forall k ensures Carried(InQueue(q[1..]), k, x) == 0 {
        CarriedHead(q, k, x);
      }
      NotCarried(q[1..], x);
      CarriedHead(q, q[0].package.kind, x);
      NotIn(q[0].package.orders, x);
    }
  }

  lemma {:induction false} NotIn(rs: seq<Ref>, x: Ref)
    requires Times(rs, x) == 0
    ensures x !in rs
  {
    if rs != [] { NotIn(rs[1..], x); }
  }

  lemma {:induction false} DeliverAllReaches(cfg: Config, f: Feed, p: Package<Ref>, w: World, rs: seq<Ref>, r: Ref)
    requires Has(w, r) && Status(w, r) != Some(Violation) && Times(rs, r) == 1 && DeliverAll(cfg, f, p, w, rs).1
    ensures var w' := DeliverAll(cfg, f, p, w, rs).0;
      && |w'.trades| == |w.trades| && (forall t :: 0 <= t < |w.trades| ==> w'.trades[t].runner == w.trades[t].runner)
      && (r in w.live ==> r in w'.live)
      && Has(w', r) && DeliveredAs(cfg, f, p, f.runners(w.trades[r.trade].runner), OrderAt(w, r), OrderAt(w', r))
    decreases |rs|
  {
    hide DeliverOne, DeliveredAs;
    var w1 := DeliverOne(cfg, f, p, w, rs[0]).0;
    DeliverOneOnly(cfg, f, p, w, rs[0]);
    if rs[0] == r {
      DeliverOneDoes(cfg, f, p, w, r);
      NotIn(rs[1..], r);
      DeliverAllElsewhere(cfg, f, p, w1, rs[1..], r);
    } else {
      DeliverOneElsewhere(cfg, f, p, w, rs[0], r);
      DeliverAllReaches(cfg, f, p, w1, rs[1..], r);
    }
  }

  lemma DeliverOneOnly(cfg: Config, f: Feed, p: Package<Ref>, w: World, r: Ref)
    ensures var w' := DeliverOne(cfg, f, p, w, r).0;
      && |w'.trades| == |w.trades| && (forall t :: 0 <= t < |w.trades| ==> w'.trades[t].runner == w.trades[t].runner)
      && forall x :: x in w.live ==> x in w'.live
  {
    hide PlaceOne, CancelOne, UpdateOne, ReplaceOne;
  }

  lemma {:induction false} CheckReaches(cfg: Config, f: Feed, w: World, q: seq<Queued>, i: nat, r: Ref)
    requires Has(w, r) && Status(w, r) != Some(Violation) && Check(cfg, f, w, q).2
    requires i < |q| && Due(f, q[i]) && r in q[i].package.orders
    requires forall k :: Carried(InQueue(q), k, r) == if k == q[i].package.kind then 1 else 0
    ensures var w', p := Check(cfg, f, w, q).0, q[i].package;
      && |w'.trades| == |w.trades| && (forall t :: 0 <= t < |w.trades| ==> w'.trades[t].runner == w.trades[t].runner)
      && (r in w.live ==> r in w'.live)
      && Has(w', r) && DeliveredAs(cfg, f, p, f.runners(w.trades[r.trade].runner), OrderAt(w, r), OrderAt(w', r))
    decreases |q|
  {
    hide DeliverAll, DeliveredAs;
    var p := q[0].package;
    var w1 := if Due(f, q[0]) then DeliverAll(cfg, f, p, w, p.orders).0 else w;
    forall k ensures Carried(InQueue(q), k, r)
      == (if k == p.kind then Times(p.orders, r) else 0) + Carried(InQueue(q[1..]), k, r) {
      CarriedHead(q, k, r);
    }
    if i == 0 {
      OnlyHere(q, r);
      DeliverAllReaches(cfg, f, p, w, p.orders, r);
      CheckElsewhere(cfg, f, w1, q[1..], r);
    } else {
      assert q[1..][i - 1] == q[i];
      CarriedSomewhere(q[1..], i - 1, r);
      assert Carried(InQueue(q), p.kind, r) == if p.kind == q[i].package.kind then 1 else 0;
      NotIn(p.orders, r);
      if Due(f, q[0]) {
        DeliverAllElsewhere(cfg, f, p, w, p.orders, r);
      }
      CheckReaches(cfg, f, w1, q[1..], i - 1, r);
    }
  }

  /** Carried once, by the first package. */
  lemma OnlyHere(q: seq<Queued>, r: Ref)
    requires q != [] && r in q[0].package.orders
    requires forall k :: Carried(InQueue(q), k, r) == if k == q[0].package.kind then 1 else 0
    ensures Times(q[0].package.orders, r) == 1
    ensures forall j :: 0 <= j < |q[1..]| ==> r !in q[1..][j].package.orders
  {
    CarriedSomewhere(q, 0, r);
    IsIn(q[0].package.orders, r);
    forall k ensures Carried(InQueue(q[1..]), k, r) == 0 { CarriedHead(q, k, r); }
    CarriedHead(q, q[0].package.kind, r);
    NotCarried(q[1..], r);
  }

  lemma {:induction false} IsIn(rs: seq<Ref>, x: Ref)
    requires x in rs
    ensures Times(rs, x) > 0
  {
    if rs[0] != x { IsIn(rs[1..], x); }
  }

  lemma {:induction false} CarriedSomewhere(q: seq<Queued>, i: nat, r: Ref)
    requires i < |q| && r in q[i].package.orders
    ensures Carried(InQueue(q), q[i].package.kind, r) > 0
  {
    CarriedHead(q, q[i].package.kind, r);
    if i == 0 {
      IsIn(q[0].package.orders, r);
    } else {
      CarriedSomewhere(q[1..], i - 1, r);
    }
  }

  // ----- the pass over the live orders

  /** The update as it reaches an order: the market's book, and of the order's own runner the starting
      price and the volume traded. */
  function Reaching(cfg: Config, f: Feed, w: World, r: Ref): Event
    requires Has(w, r)
  {
    var runner := w.trades[r.trade].runner;
    Called(f.book, f.runners(runner).actualSp, f.traded(runner), cfg.minBspLiability)
  }

  /** A live executable order is one the exchange has and no starting price has reconciled. */
  ghost predicate OnExchange(w: World, rs: seq<Ref>) {
    forall x :: x in rs && Status(w, x) == Some(Executable) ==>
      var s := OrderAt(w, x).sim; Sound(s) && s.version.Some? && !s.bspReconciled
  }

  /** Every live executable order makes one step of the exchange with the update that reaches it, and is
      then complete exactly if that has reconciled it at a starting price. Every other order stays as it
      is. */
  lemma {:induction false} WhatMatchingDoes(cfg: Config, f: Feed, w: World, rs: seq<Ref>)
    requires Distinct(rs) && OnExchange(w, rs)
    ensures var w' := MatchAll(cfg, f, w, rs);
      && |w'.trades| == |w.trades| && w'.live == w.live && (forall x :: Has(w', x) <==> Has(w, x))
      && forall x :: Has(w, x) ==>
          if x in rs && Status(w, x) == Some(Executable) then
            && OrderAt(w', x).sim == Accounting.Step(OrderAt(w, x).sim, Reaching(cfg, f, w, x))
            && Status(w', x) == Some(if OrderAt(w', x).sim.bspReconciled then ExecutionComplete else Executable)
          else OrderAt(w', x) == OrderAt(w, x)
    decreases |rs|
  {
    hide MatchOne, Accounting.Step;
    if rs != [] {
      var w1 := MatchOne(cfg, f, w, rs[0]);
      MatchOneDoes(cfg, f, w, rs[0]);
      assert rs[0] !in rs[1..];
      WhatMatchingDoes(cfg, f, w1, rs[1..]);
    }
  }

  lemma MatchOneDoes(cfg: Config, f: Feed, w: World, r: Ref)
    requires OnExchange(w, [r])
    ensures var w' := MatchOne(cfg, f, w, r);
      && |w'.trades| == |w.trades| && (forall t :: 0 <= t < |w.trades| ==> w'.trades[t].runner == w.trades[t].runner)
      && w'.live == w.live && (forall x :: Has(w', x) <==> Has(w, x))
      && (forall x :: Has(w, x) && x != r ==> OrderAt(w', x) == OrderAt(w, x))
      && (Has(w, r) ==>
          if Status(w, r) == Some(Executable) then
            && OrderAt(w', r).sim == Accounting.Step(OrderAt(w, r).sim, Reaching(cfg, f, w, r))
            && Status(w', r) == Some(if OrderAt(w', r).sim.bspReconciled then ExecutionComplete else Executable)
          else OrderAt(w', r) == OrderAt(w, r))
  {
    hide SetOrderStatus, UpdateStatus, CallStep, Sound;
    if Status(w, r) == Some(Executable) {
      var s, e := OrderAt(w, r).sim, Reaching(cfg, f, w, r);
      assert r in [r];
      UpdateOutcome(s, e.b, e.sp, e.traded, e.minBspLiability);
      UpdatedTo(OrderAt(w, r).(sim := Accounting.Step(s, e)), ExecutionComplete);
    }
  }

  // ----- a market update

  /** A package that carries the order is due. */
  ghost predicate IsDue(f: Feed, w: World, r: Ref, i: int) {
    0 <= i < |w.queue| && Due(f, w.queue[i]) && r in w.queue[i].package.orders
  }

  /** Over every orderly run: what a market update does to a live order. A due package is delivered to it on
      the market as it was before the update; if it is executable then, the update takes it one step of the
      exchange further; and it ends execution complete if nothing is left of it or a starting price has
      reconciled it. */
  lemma WhatAnUpdateDoes(cfg: Config, first: Feed, steps: seq<Step>, f: Feed, r: Ref) returns (o: Order)
    requires cfg.limits.Positive() && ValidSteps(cfg, Started(first), steps) && AllOrderly(cfg, Started(first), steps)
    requires var w := After(cfg, Started(first), steps); Admissible(cfg, w, ProcessUpdate(f)) && r in w.live
    ensures var w := After(cfg, Started(first), steps);
      && Has(w, r)
      && (forall i :: IsDue(f, w, r, i) ==>
          DeliveredAs(cfg, AtExecution(f, w.quotes), w.queue[i].package,
            w.quotes.runners(w.trades[r.trade].runner), OrderAt(w, r), o))
      && ((forall i :: !IsDue(f, w, r, i)) ==> o == OrderAt(w, r))
      && (o.status == Some(Executable) ==> Sound(o.sim) && o.sim.version.Some? && !o.sim.bspReconciled)
    ensures var w := After(cfg, Started(first), steps);
      var w', t := Next(cfg, w, ProcessUpdate(f)),
        if o.status == Some(Executable) then Accounting.Step(o.sim, Reaching(cfg, f, w, r)) else o.sim;
      && Has(w', r) && OrderAt(w', r).sim == t
      && Status(w', r) ==
         if (if t.otype.Limit? then Remaining(t) == 0 else t.bspReconciled)
            || (o.status == Some(Executable) && t.bspReconciled)
         then Some(ExecutionComplete) else o.status
  {
    hide WorldInv, Accounting.Step, MatchUpdate, DeliveredAs;
    var w := After(cfg, Started(first), steps);
    var sc := StartsAndKeeps(ANYTHING, cfg, first, steps);
    var w1 := MatchUpdate(cfg, f, w).0;
    o := MatchedInUpdate(cfg, f, w, r);
    LiveAreOrders(cfg, f, w);
    WhatOnePassCompletes(w1, w1.live, f.now);
  }

  /** So an order at a limit that is executable at the front of its queue fills from half of what traded at
      its limit or better on its own runner, each size rounded, as far as it remains. */
  lemma FrontFillsFromOwnRunner(cfg: Config, first: Feed, steps: seq<Step>, f: Feed, r: Ref)
    requires cfg.limits.Positive() && ValidSteps(cfg, Started(first), steps) && AllOrderly(cfg, Started(first), steps)
    requires var w := After(cfg, Started(first), steps);
      && Admissible(cfg, w, ProcessUpdate(f)) && r in w.live && Status(w, r) == Some(Executable)
      && var s := OrderAt(w, r).sim;
         && s.otype.Limit? && Remaining(s) > 0 && s.piq == 0
         && (f.book.bspReconciled ==> s.otype.persistence != TakeStartingPrice)
         && (f.book.status == Suspended && s.otype.persistence == Lapse ==> s.version == Some(f.book.version))
    ensures var w := After(cfg, Started(first), steps);
      var w', s := Next(cfg, w, ProcessUpdate(f)), OrderAt(w, r).sim;
      var h := Halves(s.side, s.otype.price, f.traded(w.trades[r.trade].runner));
      && Has(w', r) && OrderAt(w', r).sim.sizeMatched == s.sizeMatched + Min(Remaining(s), h)
      && Status(w', r) == Some(if h >= Remaining(s) then ExecutionComplete else Executable)
  {
    hide ValidSteps, AllOrderly, After, Admissible, Next, CallStep, Halves, Sound, Eligible, WorldInv;
    var w := After(cfg, Started(first), steps);
    var sc := StartsAndKeeps(ANYTHING, cfg, first, steps);
    forall i ensures !IsDue(f, w, r, i) {
      if IsDue(f, w, r, i) { CarriedOnce(w, r, i); }
    }
    var o := WhatAnUpdateDoes(cfg, first, steps, f, r);
    var e := Reaching(cfg, f, w, r);
    UpdateOutcome(o.sim, e.b, e.sp, e.traded, e.minBspLiability);
  }

  lemma LiveAreOrders(cfg: Config, f: Feed, w: World)
    requires WorldInv(ANYTHING, w, FlightOf(w), true) && MatchUpdate(cfg, f, w).1
    ensures var w' := MatchUpdate(cfg, f, w).0; forall x :: x in w'.live ==> Has(w', x)
  {
    hide MatchUpdate, TradesInv, FlightIs;
    var w' := MatchUpdate(cfg, f, w).0;
    var m := MatchUpdateKeeps(ANYTHING, cfg, f, w);
    forall x | x in w'.live ensures Has(w', x) { assert LiveOrder(w', x, false); }
  }

  lemma MatchedInUpdate(cfg: Config, f: Feed, w: World, r: Ref) returns (o: Order)
    requires WorldInv(ANYTHING, w, FlightOf(w), true) && MatchUpdate(cfg, f, w).1 && r in w.live
    ensures Has(w, r)
    ensures forall i :: IsDue(f, w, r, i) ==>
      DeliveredAs(cfg, AtExecution(f, w.quotes), w.queue[i].package, w.quotes.runners(w.trades[r.trade].runner),
        OrderAt(w, r), o)
    ensures (forall i :: !IsDue(f, w, r, i)) ==> o == OrderAt(w, r)
    ensures o.status == Some(Executable) ==> Sound(o.sim) && o.sim.version.Some? && !o.sim.bspReconciled
    ensures var w' := MatchUpdate(cfg, f, w).0;
      && r in w'.live && Has(w', r)
      && (if o.status == Some(Executable) then
            && OrderAt(w', r).sim == Accounting.Step(o.sim, Reaching(cfg, f, w, r))
            && Status(w', r) == Some(if OrderAt(w', r).sim.bspReconciled then ExecutionComplete else Executable)
          else OrderAt(w', r) == o)
  {
    hide WorldInv, Accounting.Step, Check, MatchAll, DeliveredAs;
    var g := AtExecution(f, w.quotes);
    LiveIsPlaced(w, r);
    if i :| IsDue(f, w, r, i) {
      CarriedOnce(w, r, i);
      CheckReaches(cfg, g, w, w.queue, i, r);
      forall j | IsDue(f, w, r, j)
        ensures DeliveredAs(cfg, g, w.queue[j].package, w.quotes.runners(w.trades[r.trade].runner), OrderAt(w, r),
          OrderAt(Check(cfg, g, w, w.queue).0, r))
      {
        CarriedOnce(w, r, j);
        CheckReaches(cfg, g, w, w.queue, j, r);
      }
    } else {
      forall i | 0 <= i < |w.queue| && Due(g, w.queue[i]) ensures r !in w.queue[i].package.orders {
        assert !IsDue(f, w, r, i);
      }
      CheckElsewhere(cfg, g, w, w.queue, r);
    }
    var (w1, kept, _) := Check(cfg, g, w, w.queue);
    o := OrderAt(w1, r);
    var w2 := w1.(queue := kept, quotes := Quotes(f.book, f.runners));
    LiveAfterCheck(cfg, f, w);
    WhatMatchingDoes(cfg, f, w2, w2.live);
    assert OrderAt(w2, r) == OrderAt(w1, r);
    assert Reaching(cfg, f, w2, r) == Reaching(cfg, f, w, r);
  }

  lemma LiveIsPlaced(w: World, r: Ref)
    requires WorldInv(ANYTHING, w, FlightOf(w), true) && r in w.live
    ensures Has(w, r)
  {
    assert LiveOrder(w, r, true);
  }

  /** A package that carries an order is the only one, and the order waits for it. */
  lemma CarriedOnce(w: World, r: Ref, i: nat)
    requires WorldInv(ANYTHING, w, FlightOf(w), true) && i < |w.queue| && r in w.queue[i].package.orders
    ensures InFlight(Status(w, r))
    ensures forall k :: Carried(InQueue(w.queue), k, r) == if k == w.queue[i].package.kind then 1 else 0
  {
    hide TradesInv, LiveInv;
    var kind := w.queue[i].package.kind;
    CarriedSomewhere(w.queue, i, r);
    assert FlightOf(w)(kind, r) == if Status(w, r) == Some(StatusOf(kind)) then 1 else 0;
    forall k ensures Carried(InQueue(w.queue), k, r) == if k == kind then 1 else 0 {
      assert FlightOf(w)(k, r) == if Status(w, r) == Some(StatusOf(k)) then 1 else 0;
    }
  }

  lemma LiveAfterCheck(cfg: Config, f: Feed, w: World)
    requires WorldInv(ANYTHING, w, FlightOf(w), true) && MatchUpdate(cfg, f, w).1
    ensures var w1 := Check(cfg, AtExecution(f, w.quotes), w, w.queue).0;
      Distinct(w1.live) && OnExchange(w1, w1.live)
  {
    hide Check, MatchAll, TradesInv, FlightIs, Sound;
    Loosen(ANYTHING, w);
    var base: Counts := (k, x) => Asked(w.txn.Of(k), x);
    FlightSame(w, FlightOf(w), InAll(base, w.queue));
    CheckKeeps(ANYTHING, cfg, AtExecution(f, w.quotes), w, w.queue, base);
    var w1 := Check(cfg, AtExecution(f, w.quotes), w, w.queue).0;
    forall x | x in w1.live && Status(w1, x) == Some(Executable)
      ensures var s := OrderAt(w1, x).sim; Sound(s) && s.version.Some? && !s.bspReconciled
    {
      assert LiveOrder(w1, x, false);
      ExecutableIsOnExchange(w1, x);
    }
  }

  lemma ExecutableIsOnExchange(w: World, x: Ref)
    requires TradesInv(ANYTHING, w) && Status(w, x) == Some(Executable) && WasPlaced(OrderAt(w, x))
    ensures var s := OrderAt(w, x).sim; Sound(s) && s.version.Some? && !s.bspReconciled
  {
    hide Sound;
    assert HeldInv(ANYTHING, w, x.trade);
  }
}
