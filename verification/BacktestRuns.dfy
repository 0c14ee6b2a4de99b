/** What every step of a backtest keeps, and what therefore holds after every run. */
module BacktestRuns {
  import opened Lists
  import opened Exchange
  import opened Wap
  import opened Simulation
  import opened Fills
  import opened Accounting
  import opened Lifecycle
  import opened Packaging
  import opened Protocol
  import opened TradeSteps
  import opened Completion

  /** How often an order is in a list of pending requests or a queued package of a kind. */
  ghost function Flight(w: World, kind: Kind, r: Ref): nat {
    Asked(w.txn.Of(kind), r) + Carried(InQueue(w.queue), kind, r)
  }

  type Counts = (Kind, Ref) -> int

  ghost predicate Natural(m: Counts) { forall kind, r :: m(kind, r) >= 0 }

  ghost function FlightOf(w: World): Counts { (kind, r) => Flight(w, kind, r) }

  /** Counts are one where the order's status waits for that kind of execution, else zero. */
  ghost predicate FlightIs(w: World, m: Counts) {
    forall kind, r :: m(kind, r) == if Status(w, r) == Some(StatusOf(kind)) then 1 else 0
  }

  ghost predicate TradesInv(sc: Scope, w: World) {
    && (forall t :: 0 <= t < |w.trades| ==> HeldInv(sc, w, t))
    && forall runner :: ContextInv(ContextOf(w, runner), |w.trades|)
  }

  ghost predicate ContextInv(c: Context, trades: nat) {
    Distinct(c.liveTrades) && forall u :: u in c.liveTrades ==> u < trades
  }

  ghost predicate HeldInv(sc: Scope, w: World, t: nat)
    requires t < |w.trades|
  {
    w.trades[t].trade.id == t && TCInv(sc, TCOf(w, t)) && OrdersInv(sc, w.trades[t].trade.orders)
  }

  /** A live order that waits for execution has something left; at the end of an update, strictly,
      so has a live executable order. */
  ghost predicate LiveInv(sc: Scope, w: World, strict: bool) {
    && Distinct(w.live) && (forall r :: r in w.live ==> LiveOrder(w, r, strict))
    && (!sc.losses ==> forall r :: OpenIsLive(w, r))
  }

  ghost predicate OpenIsLive(w: World, r: Ref) {
    Has(w, r) && IsOpen(Status(w, r)) ==> r in w.live
  }

  ghost predicate LiveOrder(w: World, r: Ref, strict: bool) {
    && Has(w, r) && WasPlaced(OrderAt(w, r))
    && (InFlight(Status(w, r)) || (strict && Status(w, r) == Some(Executable)) ==> !Done(OrderAt(w, r).sim))
  }

  ghost predicate WorldInv(sc: Scope, w: World, m: Counts, strict: bool) {
    TradesInv(sc, w) && LiveInv(sc, w, strict) && FlightIs(w, m)
  }

  // ----- changes to one order

  /** Nothing but order r changed, and no order but n is new. */
  ghost predicate Moved(w: World, w': World, r: Ref, n: Ref) {
    && (forall x :: Has(w, x) ==> Has(w', x))
    && (forall x :: Has(w, x) && x != r ==> OrderAt(w', x) == OrderAt(w, x))
    && (forall x :: Has(w', x) && !Has(w, x) ==> x == n)
  }

  lemma TradeMoved(w: World, t: nat, tc: TC, k: nat)
    requires t < |w.trades| && k <= |w.trades[t].trade.orders| <= |tc.0.orders| <= |w.trades[t].trade.orders| + 1
    requires forall i :: 0 <= i < |w.trades[t].trade.orders| && i != k ==> tc.0.orders[i] == w.trades[t].trade.orders[i]
    ensures Moved(w, WithTC(w, t, tc), Ref(t, k), Ref(t, |w.trades[t].trade.orders|))
  {
  }

  lemma TradesKept(sc: Scope, w: World, t: nat, tc: TC)
    requires TradesInv(sc, w) && t < |w.trades|
    requires TCInv(sc, tc) && OnlyThisTrade(TCOf(w, t), tc) && OrdersInv(sc, tc.0.orders)
    ensures TradesInv(sc, WithTC(w, t, tc))
  {
    hide TCInv, OrdersInv;
    var w' := WithTC(w, t, tc);
    assert HeldInv(sc, w, t);
    forall u | 0 <= u < |w'.trades| ensures HeldInv(sc, w', u) {
      assert HeldInv(sc, w, u);
      if u != t && w.trades[u].runner == w.trades[t].runner {
        OtherTradeKept(sc, w.trades[u].trade, TCOf(w, t), tc);
      }
      assert TCOf(w', u) == if u == t then tc
        else (w.trades[u].trade, if w.trades[u].runner == w.trades[t].runner then tc.1 else TCOf(w, u).1);
    }
    forall runner ensures ContextInv(ContextOf(w', runner), |w'.trades|) {
      assert ContextInv(ContextOf(w, runner), |w.trades|);
      if runner == w.trades[t].runner {
        ContextKept(sc, TCOf(w, t), tc, |w.trades|);
      }
    }
  }

  /** Only trades and contexts matter to this part. */
  lemma SameTrades(sc: Scope, w: World, w': World)
    requires TradesInv(sc, w) && w'.trades == w.trades && w'.contexts == w.contexts
    ensures TradesInv(sc, w')
  {
    hide TCInv, OrdersInv;
    assert forall runner :: ContextOf(w', runner) == ContextOf(w, runner);
    forall t | 0 <= t < |w'.trades| ensures HeldInv(sc, w', t) {
      assert HeldInv(sc, w, t) && TCOf(w', t) == TCOf(w, t);
    }
  }

  lemma ContextKept(sc: Scope, tc: TC, tc': TC, trades: nat)
    requires ContextInv(tc.1, trades) && TCInv(sc, tc') && OnlyThisTrade(tc, tc') && tc.0.id < trades
    ensures ContextInv(tc'.1, trades)
  {
  }

  lemma OtherTradeKept(sc: Scope, u: Trade, tc: TC, tc': TC)
    requires TCInv(sc, (u, tc.1)) && TCInv(sc, tc') && OnlyThisTrade(tc, tc') && u.id != tc.0.id
    ensures TCInv(sc, (u, tc'.1))
  {
  }

  /** An order leaves its status of waiting. */
  lemma FlightDrops(w: World, w': World, m: Counts, kind: Kind, r: Ref, n: Ref)
    requires FlightIs(w, m) && Moved(w, w', r, n) && m(kind, r) > 0
    requires !InFlight(Status(w', r)) && (!Has(w, n) ==> !InFlight(Status(w', n)))
    ensures FlightIs(w', Clear(m, kind, r))
  {
    forall k, x ensures Clear(m, kind, r)(k, x) == if Status(w', x) == Some(StatusOf(k)) then 1 else 0 {
      assert m(k, x) == if Status(w, x) == Some(StatusOf(k)) then 1 else 0;
      assert m(kind, r) == if Status(w, r) == Some(StatusOf(kind)) then 1 else 0;
    }
  }

  /** An order that does not wait, before or after. */
  lemma FlightStays(w: World, w': World, m: Counts, r: Ref, n: Ref)
    requires FlightIs(w, m) && Moved(w, w', r, n)
    requires !InFlight(Status(w, r)) && !InFlight(Status(w', r)) && (!Has(w, n) ==> !InFlight(Status(w', n)))
    ensures FlightIs(w', m)
  {
    forall k, x ensures m(k, x) == if Status(w', x) == Some(StatusOf(k)) then 1 else 0 {
      assert m(k, x) == if Status(w, x) == Some(StatusOf(k)) then 1 else 0;
    }
  }

  ghost function Raise(m: Counts, kind: Kind, r: Ref): Counts {
    (k, x) => m(k, x) + if k == kind && x == r then 1 else 0
  }

  ghost function Clear(m: Counts, kind: Kind, r: Ref): Counts {
    (k, x) => if k == kind && x == r then 0 else m(k, x)
  }

  lemma FlightRises(w: World, w': World, m: Counts, kind: Kind, r: Ref)
    requires FlightIs(w, m) && Moved(w, w', r, r)
    requires !InFlight(Status(w, r)) && Status(w', r) == Some(StatusOf(kind))
    ensures FlightIs(w', Raise(m, kind, r))
  {
    forall k, x ensures Raise(m, kind, r)(k, x) == if Status(w', x) == Some(StatusOf(k)) then 1 else 0 {
      assert m(k, x) == if Status(w, x) == Some(StatusOf(k)) then 1 else 0;
    }
  }

  lemma FlightSame(w: World, m: Counts, m': Counts)
    requires FlightIs(w, m) && forall k, x :: m(k, x) == m'(k, x)
    ensures FlightIs(w, m')
  {
    forall k, x ensures m'(k, x) == if Status(w, x) == Some(StatusOf(k)) then 1 else 0 {
      assert m(k, x) == m'(k, x);
    }
  }

  lemma LiveMoved(sc: Scope, w: World, w': World, r: Ref, n: Ref)
    requires LiveInv(sc, w, false) && Moved(w, w', r, n)
    requires r in w.live ==> LiveOrder(w', r, false)
    requires !sc.losses ==> OpenIsLive(w', r) && OpenIsLive(w', n)
    requires w'.live == w.live || (w'.live == w.live + [n] && n !in w.live && LiveOrder(w', n, false))
    ensures LiveInv(sc, w', false)
  {
    forall x | x in w'.live ensures LiveOrder(w', x, false) {
      if x in w.live && x != r {
        assert LiveOrder(w, x, false);
      }
    }
    if !sc.losses {
      forall x ensures OpenIsLive(w', x) {
        assert OpenIsLive(w, x);
      }
    }
  }

  // ----- delivering packages

  /** The order that execution leaves: no longer waiting, everything else as before. */
  lemma DeliverOneKeeps(sc: Scope, cfg: Config, f: Feed, p: Package<Ref>, w: World, r: Ref, m: Counts)
    requires WorldInv(sc, w, m, false) && m(p.kind, r) > 0 && DeliverOne(cfg, f, p, w, r).1
    ensures var w' := DeliverOne(cfg, f, p, w, r).0;
      && WorldInv(sc, w', Clear(m, p.kind, r), false)
      && OnlyOrders(w, w')
  {
    hide PlaceOne, CancelOne, UpdateOne, ReplaceOne, TCInv, OrderInv, OrdersComplete, ReplaceLeaves, Sound, WasPlaced;
    assert m(p.kind, r) == if Status(w, r) == Some(StatusOf(p.kind)) then 1 else 0;
    var t, k := r.trade, r.order;
    var tc := TCOf(w, t);
    var n := Ref(t, |tc.0.orders|);
    assert HeldInv(sc, w, t);
    var tc', orders, entered := DeliveredTrade(sc, cfg, f, p, w, r);
    var w' := DeliverOne(cfg, f, p, w, r).0;
    TradesKept(sc, w, t, tc');
    TradeMoved(w, t, tc', k);
    assert Moved(w, w', r, n);
    assert forall x :: x in w.live ==> LiveOrder(w, x, false);
    assert !Has(w, n);
    SameTrades(sc, WithTC(w, t, tc'), w');
    FlightDrops(w, w', m, p.kind, r, n);
    assert LiveOrder(w', r, false);
    assert w'.live == w.live || LiveOrder(w', n, false);
    if !sc.losses {
      assert OpenIsLive(w, r);
    }
    LiveMoved(sc, w, w', r, n);
  }

  /** The trade as execution of one of its orders leaves it, and whether a replacement went live. */
  lemma DeliveredTrade(sc: Scope, cfg: Config, f: Feed, p: Package<Ref>, w: World, r: Ref)
    returns (tc': TC, orders: seq<Order>, entered: bool)
    requires Has(w, r) && HeldInv(sc, w, r.trade) && Status(w, r) == Some(StatusOf(p.kind))
    requires DeliverOne(cfg, f, p, w, r).1
    ensures var os := w.trades[r.trade].trade.orders;
      && TCInv(sc, tc') && OnlyThisTrade(TCOf(w, r.trade), tc') && OrdersInv(sc, tc'.0.orders)
      && tc'.0.orders == orders && |os| <= |orders| <= |os| + 1
      && (forall i :: 0 <= i < |os| && i != r.order ==> orders[i] == os[i])
      && (orders[r.order].status == Some(Executable) || orders[r.order].status == Some(ExecutionComplete))
      && WasPlaced(orders[r.order])
      && (|orders| > |os| ==> !InFlight(orders[|os|].status) && (entered || orders[|os|].status == None))
      && (entered ==> |orders| > |os| && WasPlaced(orders[|os|]))
      && DeliverOne(cfg, f, p, w, r).0 ==
          (var w1 := WithTC(w, r.trade, tc'); if entered then w1.(live := w1.live + [Ref(r.trade, |os|)]) else w1)
  {
    hide PlaceOne, CancelOne, UpdateOne, ReplaceOne, OrdersComplete, ReplaceLeaves, TradeInv, Sound, PlaceStep,
      CancelStep, UpdateStatus, WasPlaced, Enterable;
    var tc, k, runner := TCOf(w, r.trade), r.order, f.runners(w.trades[r.trade].runner);
    var o := tc.0.orders[k];
    assert OrderInv(sc, o) && WasPlaced(o);
    entered := false;
    match p.kind {
      case Place =>
        var (sim, ok) := PlaceStep(o.sim, p.version, cfg.bestPriceExecution, f.book, runner);
        var s, placed := if ok then Executable else ExecutionComplete, o.(sim := sim, hasBet := true);
        tc', orders := PlaceOne(cfg, f, runner, p.version, tc, k), tc.0.orders[k := UpdateStatus(placed, s)];
        PlaceOneLeaves(cfg, f, runner, p.version, tc, k);
        PlacedOrder(sc, cfg, f, runner, p.version, o);
        SameLog(o, placed);
        StatusAfter(placed, s);
      case Cancel =>
        var (sim, size) := CancelStep(o.sim, f.book, o.reduction);
        var s := if size.Some? && Remaining(sim) == 0 then ExecutionComplete else Executable;
        tc', orders := CancelOne(f, tc, k), tc.0.orders[k := UpdateStatus(o.(sim := sim), s)];
        CancelOneLeaves(f, tc, k);
        CancelledOrder(sc, f, o, s);
        SameLog(o, o.(sim := sim));
        StatusAfter(o.(sim := sim), s);
      case Update =>
        tc', orders := UpdateOne(f, tc, k), tc.0.orders[k := UpdateStatus(o, Executable)];
        UpdateOneLeaves(f, tc, k);
        UpdatedOrder(sc, o);
        StatusAfter(o, Executable);
      case Replace =>
        WhenReplaced(cfg, f, runner, p.version, tc, k);
        ReplaceOneLeaves(cfg, f, runner, p.version, tc, k);
        ReplacedOrders(sc, cfg, f, runner, p.version, o);
        var (first, second) := ReplaceLeaves(cfg, f, runner, p.version, o);
        tc', orders := ReplaceOne(cfg, f, runner, p.version, tc, k).0, tc.0.orders[k := first] + [second];
        entered := ReplaceOne(cfg, f, runner, p.version, tc, k).1.Replaced?;
    }
    LeftKeeps(sc, tc, tc', k, orders, f.now);
  }

  lemma StatusAndLog(sc: Scope, o: Order)
    requires OrderInv(sc, o)
    ensures IsOpen(o.status) ==> WasPlaced(o)
    ensures WasPlaced(o) ==> o.status.Some?
  {
  }

  lemma SameLog(o: Order, p: Order)
    requires p.log == o.log
    ensures WasPlaced(p) == WasPlaced(o)
  {
  }

  /** Lists of requests, packages and quotes are as they were. */
  predicate OnlyOrders(w: World, w': World) {
    w'.txn == w.txn && w'.queue == w.queue
  }

  lemma UpdatedOrder(sc: Scope, o: Order)
    requires OrderInv(sc, o) && IsOpen(o.status) && o.status != Some(Pending)
    ensures OrderInv(sc, UpdateStatus(o, Executable))
  {
  }

  ghost function Rest(base: Counts, kind: Kind, rs: seq<Ref>): Counts {
    (k, x) => base(k, x) + if k == kind then Times(rs, x) else 0
  }

  lemma {:induction false} DeliverAllKeeps(sc: Scope, cfg: Config, f: Feed, p: Package<Ref>, w: World, rs: seq<Ref>,
                                           base: Counts)
    requires WorldInv(sc, w, Rest(base, p.kind, rs), false) && Natural(base) && DeliverAll(cfg, f, p, w, rs).1
    ensures var w' := DeliverAll(cfg, f, p, w, rs).0;
      WorldInv(sc, w', base, false) && OnlyOrders(w, w')
    decreases |rs|
  {
    hide TradesInv, LiveInv, DeliverOne;
    if rs == [] {
      FlightSame(w, Rest(base, p.kind, rs), base);
    } else {
      var m := Rest(base, p.kind, rs);
      assert Times(rs, rs[0]) == 1 + Times(rs[1..], rs[0]);
      DeliverOneKeeps(sc, cfg, f, p, w, rs[0], m);
      var w1 := DeliverOne(cfg, f, p, w, rs[0]).0;
      FirstDelivered(w, base, p.kind, rs);
      FlightSame(w1, Clear(m, p.kind, rs[0]), Rest(base, p.kind, rs[1..]));
      DeliverAllKeeps(sc, cfg, f, p, w1, rs[1..], base);
    }
  }

  /** Counts are at most one, so the first of a list is in no other place. */
  lemma FirstDelivered(w: World, base: Counts, kind: Kind, rs: seq<Ref>)
    requires rs != [] && FlightIs(w, Rest(base, kind, rs)) && Natural(base)
    ensures forall k, x :: Clear(Rest(base, kind, rs), kind, rs[0])(k, x) == Rest(base, kind, rs[1..])(k, x)
  {
    var m := Rest(base, kind, rs);
    assert m(kind, rs[0]) <= 1;
    forall k, x ensures Clear(m, kind, rs[0])(k, x) == Rest(base, kind, rs[1..])(k, x) {
      assert Times(rs, x) == (if rs[0] == x then 1 else 0) + Times(rs[1..], x);
    }
  }

  ghost function InAll(base: Counts, q: seq<Queued>): Counts {
    (k, x) => base(k, x) + Carried(InQueue(q), k, x)
  }

  ghost function Plus(base: Counts, q: Queued): Counts {
    (k, x) => base(k, x) + if k == q.package.kind then Times(q.package.orders, x) else 0
  }

  lemma CarriedHead(q: seq<Queued>, k: Kind, x: Ref)
    requires q != []
    ensures Carried(InQueue(q), k, x)
         == (if k == q[0].package.kind then Times(q[0].package.orders, x) else 0) + Carried(InQueue(q[1..]), k, x)
  {
    assert InQueue(q)[1..] == InQueue(q[1..]);
  }

  /** Delivering what is due takes exactly the due packages out of the counts. */
  lemma {:induction false} CheckKeeps(sc: Scope, cfg: Config, f: Feed, w: World, q: seq<Queued>, base: Counts)
    requires WorldInv(sc, w, InAll(base, q), false) && Natural(base) && Check(cfg, f, w, q).2
    ensures var (w', kept, _) := Check(cfg, f, w, q);
      WorldInv(sc, w', InAll(base, kept), false) && OnlyOrders(w, w')
    decreases |q|
  {
    hide TradesInv, LiveInv, DeliverAll, FlightIs;
    if q != [] {
      forall k, x ensures Carried(InQueue(q), k, x)
        == (if k == q[0].package.kind then Times(q[0].package.orders, x) else 0) + Carried(InQueue(q[1..]), k, x) {
        CarriedHead(q, k, x);
      }
      var p := q[0].package;
      if Due(f, q[0]) {
        var base1 := InAll(base, q[1..]);
        FlightSame(w, InAll(base, q), Rest(base1, p.kind, p.orders));
        DeliverAllKeeps(sc, cfg, f, p, w, p.orders, base1);
        var w1 := DeliverAll(cfg, f, p, w, p.orders).0;
        CheckKeeps(sc, cfg, f, w1, q[1..], base);
      } else {
        FlightSame(w, InAll(base, q), InAll(Plus(base, q[0]), q[1..]));
        CheckKeeps(sc, cfg, f, w, q[1..], Plus(base, q[0]));
        var (w', kept, _) := Check(cfg, f, w, q[1..]);
        var kept' := [q[0]] + kept;
        assert kept'[1..] == kept;
        forall k, x ensures InAll(base, kept')(k, x) == InAll(Plus(base, q[0]), kept)(k, x) {
          CarriedHead(kept', k, x);
        }
        FlightSame(w', InAll(Plus(base, q[0]), kept), InAll(base, kept'));
      }
    }
  }

  /** An update takes exactly the packages due by then out of the queue, whatever they do, or none where
      one of them raises. */
  lemma {:induction false} OnlyDueIsDelivered(cfg: Config, f: Feed, w: World, q: seq<Queued>)
    ensures var (_, kept, ok) := Check(cfg, f, w, q); kept == if ok then NotDue(f, q) else q
    decreases |q|
  {
    hide DeliverAll;
    if q != [] {
      OnlyDueIsDelivered(cfg, f,
        if Due(f, q[0]) then DeliverAll(cfg, f, q[0].package, w, q[0].package.orders).0 else w, q[1..]);
    }
  }

  /** What no more than its delay has passed for. */
  function NotDue(f: Feed, q: seq<Queued>): seq<Queued> {
    if q == [] then [] else (if f.now <= q[0].created + q[0].delay then [q[0]] else []) + NotDue(f, q[1..])
  }

  // ----- matching

  lemma MatchedOrder(sc: Scope, o: Order, sim: Sim, f: Feed, sp: StartingPrice, traded: seq<Level>, min: int)
    requires OrderInv(sc, o) && o.status == Some(Executable) && sim == CallStep(o.sim, f.book, sp, traded, min).0
    ensures var complete := CallStep(o.sim, f.book, sp, traded, min).1;
      OrderInv(sc, if complete then UpdateStatus(o.(sim := sim), ExecutionComplete) else o.(sim := sim))
  {
    hide CallStep, Reported, SpStep, Reached;
    var e := Called(f.book, sp, traded, min);
    StepKeepsSound(o.sim, e);
    ReachedGoesOn(o.sim, e);
    if NotOversold(o.sim) {
      StepKeepsNotOversold(o.sim, e);
    }
    CallKeepsVersion(o.sim, f.book, sp, traded, min);
    SameLog(o, o.(sim := sim));
  }

  lemma CallKeepsVersion(s: Sim, b: MarketBook, sp: StartingPrice, traded: seq<Level>, min: int)
    requires s.version.Some? && Sound(s) && !s.bspReconciled
    ensures var (t, complete) := CallStep(s, b, sp, traded, min); t.version.Some? && t.bspReconciled == complete
  {
    hide TradeAll, Average;
    if s.otype.Limit? && Remaining(s) != 0 {
      TradeKeeps(s.(version := Some(b.version)), b.time, traded);
    }
  }

  lemma MatchOneKeeps(sc: Scope, cfg: Config, f: Feed, w: World, r: Ref, m: Counts)
    requires WorldInv(sc, w, m, false)
    ensures var w' := MatchOne(cfg, f, w, r);
      WorldInv(sc, w', m, false) && w'.live == w.live && OnlyOrders(w, w')
  {
    hide TCInv, OrderInv, SetOrderStatus, UpdateStatus, CallStep;
    if Status(w, r) == Some(Executable) {
      var tc, k, runner := TCOf(w, r.trade), r.order, w.trades[r.trade].runner;
      assert HeldInv(sc, w, r.trade);
      var o := OrderAt(w, r);
      assert OrderInv(sc, o);
      var (sim, complete) := CallStep(o.sim, f.book, f.runners(runner).actualSp, f.traded(runner), cfg.minBspLiability);
      MatchedOrder(sc, o, sim, f, f.runners(runner).actualSp, f.traded(runner), cfg.minBspLiability);
      var put := PutOrder(tc, k, o.(sim := sim));
      PutKeeps(sc, tc, k, o.(sim := sim));
      SameLog(o, o.(sim := sim));
      StatusAndLog(sc, o);
      OneMoves(sc, put, k, ExecutionComplete, f.now);
      StatusAfter(o.(sim := sim), ExecutionComplete);
      var tc' := if complete then SetOrderStatus(put, k, ExecutionComplete, f.now) else put;
      TradesKept(sc, w, r.trade, tc');
      TradeMoved(w, r.trade, tc', k);
      var w' := WithTC(w, r.trade, tc');
      var n := Ref(r.trade, |tc.0.orders|);
      FlightStays(w, w', m, r, n);
      if !sc.losses {
        assert OpenIsLive(w, r);
      }
      LiveMoved(sc, w, w', r, n);
    }
  }

  lemma {:induction false} MatchAllKeeps(sc: Scope, cfg: Config, f: Feed, w: World, rs: seq<Ref>, m: Counts)
    requires WorldInv(sc, w, m, false)
    ensures var w' := MatchAll(cfg, f, w, rs);
      WorldInv(sc, w', m, false) && w'.live == w.live && OnlyOrders(w, w')
    decreases |rs|
  {
    hide WorldInv, MatchOne;
    if rs != [] {
      MatchOneKeeps(sc, cfg, f, w, rs[0], m);
      MatchAllKeeps(sc, cfg, f, MatchOne(cfg, f, w, rs[0]), rs[1..], m);
    }
  }

  // ----- completion

  lemma CompletedOrder(sc: Scope, o: Order)
    requires OrderInv(sc, o) && WasPlaced(o)
    ensures OrderInv(sc, UpdateStatus(o, ExecutionComplete)) && WasPlaced(UpdateStatus(o, ExecutionComplete))
  {
  }

  /** Completing one live order that is done, and dropping it if its trade is complete. */
  lemma CompleteOneKeeps(sc: Scope, w: World, r: Ref, now: int, m: Counts)
    requires WorldInv(sc, w, m, false) && r in w.live
    requires !sc.losses ==> LosesNone(w, [r])
    ensures var w' := CompleteOne(w, r, now);
      && WorldInv(sc, w', m, false) && OnlyOrders(w, w')
      && (forall x :: x in w'.live ==> x in w.live)
      && (forall x :: x in w.live && x != r ==> x in w'.live)
      && (forall x :: Has(w, x) && x != r ==> Has(w', x) && OrderAt(w', x) == OrderAt(w, x))
      && Has(w', r) && (Status(w', r) == Some(Executable) ==> !Done(OrderAt(w', r).sim))
  {
    hide TCInv, OrderInv, SetOrderStatus, UpdateStatus, Done;
    assert LiveOrder(w, r, false);
    var tc, k := TCOf(w, r.trade), r.order;
    assert HeldInv(sc, w, r.trade);
    var o := OrderAt(w, r);
    assert OrderInv(sc, o);
    var n := Ref(r.trade, |tc.0.orders|);
    var tc' := if Done(o.sim) then SetOrderStatus(tc, k, ExecutionComplete, now) else tc;
    if Done(o.sim) {
      StatusAndLog(sc, o);
      OneMoves(sc, tc, k, ExecutionComplete, now);
      CompletedOrder(sc, o);
      StatusAfter(o, ExecutionComplete);
    }
    var w1 := WithTC(w, r.trade, tc');
    TradesKept(sc, w, r.trade, tc');
    TradeMoved(w, r.trade, tc', k);
    if Done(o.sim) {
      FlightStays(w, w1, m, r, n);
    } else {
      assert tc' == tc && forall x :: Status(w1, x) == Status(w, x);
      SameStatus(w, w1, m);
    }
    LiveMoved(sc, w, w1, r, n);
    var w' := CompleteOne(w, r, now);
    WithoutRemoves(w1.live, r);
    SameTrades(sc, w1, w');
    FlightSame(w', m, m);
    if !sc.losses {
      forall x ensures OpenIsLive(w', x) {
        assert OpenIsLive(w1, x);
        assert x == r && IsOpen(Status(w1, r)) ==> w1.trades[r.trade].trade.status != Complete by {
          assert r in [r];
        }
      }
    }
  }

  lemma NoneOpenInComplete(sc: Scope, w: World, r: Ref)
    requires !sc.late && TradesInv(sc, w) && Has(w, r) && w.trades[r.trade].trade.status == Complete
    ensures !IsOpen(Status(w, r))
  {
    assert HeldInv(sc, w, r.trade);
  }

  lemma SameStatus(w: World, w': World, m: Counts)
    requires FlightIs(w, m) && forall x :: Status(w', x) == Status(w, x)
    ensures FlightIs(w', m)
  {
    forall k, x ensures m(k, x) == if Status(w', x) == Some(StatusOf(k)) then 1 else 0 {
      assert m(k, x) == if Status(w, x) == Some(StatusOf(k)) then 1 else 0;
    }
  }

  /** Of the live orders not yet looked at nothing is claimed; the others have something left or are
      not executable. */
  ghost predicate LookedAt(w: World, rs: seq<Ref>) {
    forall x :: x in w.live && x !in rs && Has(w, x) && Status(w, x) == Some(Executable) ==> !Done(OrderAt(w, x).sim)
  }

  lemma {:induction false} CompleteAllKeeps(sc: Scope, w: World, rs: seq<Ref>, now: int, m: Counts)
    requires WorldInv(sc, w, m, false) && Distinct(rs) && LookedAt(w, rs)
    requires (forall x :: x in rs ==> x in w.live) && (!sc.losses ==> LosesNone(w, rs))
    ensures var w' := CompleteAll(w, rs, now); WorldInv(sc, w', m, true) && OnlyOrders(w, w')
    decreases |rs|
  {
    hide TradesInv, FlightIs, CompleteOne, Done;
    if rs == [] {
      forall r | r in w.live ensures LiveOrder(w, r, true) {
        assert LiveOrder(w, r, false);
      }
    } else {
      var w1 := CompleteOne(w, rs[0], now);
      if !sc.losses {
        assert LiveOrder(w, rs[0], false);
        LosesNoneAfter(w, rs, now);
      }
      CompleteOneKeeps(sc, w, rs[0], now, m);
      assert rs[0] !in rs[1..];
      forall x | x in w1.live && x !in rs[1..] && Has(w1, x) && Status(w1, x) == Some(Executable)
        ensures !Done(OrderAt(w1, x).sim)
      {
        if x != rs[0] {
          assert LiveOrder(w, x, false);
        }
      }
      CompleteAllKeeps(sc, w1, rs[1..], now, m);
    }
  }

  /** Delivery and matching. */
  lemma MatchUpdateKeeps(sc: Scope, cfg: Config, f: Feed, w: World) returns (m: Counts)
    requires WorldInv(sc, w, FlightOf(w), true) && MatchUpdate(cfg, f, w).1
    ensures var w' := MatchUpdate(cfg, f, w).0;
      WorldInv(sc, w', m, false) && forall k, x :: m(k, x) == FlightOf(w')(k, x)
  {
    hide TradesInv, FlightIs, Check, MatchAll;
    Loosen(sc, w);
    var base: Counts := (k, x) => Asked(w.txn.Of(k), x);
    FlightSame(w, FlightOf(w), InAll(base, w.queue));
    var before := AtExecution(f, w.quotes);
    CheckKeeps(sc, cfg, before, w, w.queue, base);
    var (w1, kept, _) := Check(cfg, before, w, w.queue);
    var w2 := w1.(queue := kept, quotes := Quotes(f.book, f.runners));
    Requeued(sc, w1, w2, InAll(base, kept));
    MatchAllKeeps(sc, cfg, f, w2, w2.live, InAll(base, kept));
    m := InAll(base, kept);
  }

  /** One market update, delivery, matching and completion together. */
  lemma UpdateKeeps(sc: Scope, cfg: Config, f: Feed, w: World)
    requires WorldInv(sc, w, FlightOf(w), true) && MarketUpdate(cfg, f, w).1
    requires sc.losses || !sc.late || var w1 := MatchUpdate(cfg, f, w).0; LosesNone(w1, w1.live)
    ensures var w' := MarketUpdate(cfg, f, w).0; WorldInv(sc, w', FlightOf(w'), true)
  {
    hide TradesInv, FlightIs, MatchUpdate, CompleteAll, LosesNone;
    var w1 := MatchUpdate(cfg, f, w).0;
    var m := MatchUpdateKeeps(sc, cfg, f, w);
    if !sc.late {
      NoneIsLost(sc, w1, m);
    }
    CompleteAllKeeps(sc, w1, w1.live, f.now, m);
    var w2 := CompleteAll(w1, w1.live, f.now);
    FlightSame(w2, m, FlightOf(w2));
  }

  lemma NoneIsLost(sc: Scope, w: World, m: Counts)
    requires WorldInv(sc, w, m, false) && !sc.late
    ensures LosesNone(w, w.live)
  {
    forall x | x in w.live && Has(w, x) && w.trades[x.trade].trade.status == Complete ensures !IsOpen(Status(w, x)) {
      NoneOpenInComplete(sc, w, x);
    }
  }

  lemma Loosen(sc: Scope, w: World)
    requires LiveInv(sc, w, true)
    ensures LiveInv(sc, w, false)
  {
    forall r | r in w.live ensures LiveOrder(w, r, false) {
      assert LiveOrder(w, r, true);
    }
  }

  /** Lists of requests and packages do not matter to the rest. */
  lemma Requeued(sc: Scope, w: World, w': World, m: Counts)
    requires w' == w.(txn := w'.txn, queue := w'.queue, quotes := w'.quotes)
    ensures forall strict :: WorldInv(sc, w, m, strict) ==> WorldInv(sc, w', m, strict)
  {
    if TradesInv(sc, w) {
      SameTrades(sc, w, w');
    }
    if FlightIs(w, m) {
      SameStatus(w, w', m);
    }
    forall strict | LiveInv(sc, w, strict) ensures LiveInv(sc, w', strict) {
      forall r | r in w.live ensures LiveOrder(w', r, strict) {
        assert LiveOrder(w, r, strict);
      }
      if !sc.losses {
        forall r ensures OpenIsLive(w', r) { assert OpenIsLive(w, r); }
      }
    }
  }

  // ----- requests

  lemma FlightAfterEnqueue(cfg: Config, w: World, kind: Kind, r: Request<Ref>, how: How, k: Kind, x: Ref)
    requires cfg.limits.Positive()
    ensures Flight(Enqueue(cfg, w, kind, r, how), k, x) == Flight(w, k, x) + if k == kind && x == r.order then 1 else 0
  {
    if how.batched {
      AskedAppend(w.txn.Of(kind), r, x);
      assert w.txn.Add(kind, r).Of(kind) == w.txn.Of(kind) + [r];
    } else {
      var t := EmptyTxn<Ref>().Add(kind, r);
      PackagesCarry(t, cfg.limits, k, x);
      AskedAppend([], r, x);
      assert t.Of(kind) == [] + [r];
      FlightAfterSend(w.queue, Packages(t, cfg.limits), how, k, x);
    }
  }

  lemma FlightAfterSend(q: seq<Queued>, ps: seq<Package<Ref>>, how: How, k: Kind, x: Ref)
    ensures Carried(InQueue(q + ToQueue(ps, how)), k, x) == Carried(InQueue(q), k, x) + Carried(ps, k, x)
  {
    assert InQueue(q + ToQueue(ps, how)) == InQueue(q) + ps;
    CarriedAppend(InQueue(q), ps, k, x);
  }

  lemma AskedAppend(rs: seq<Request<Ref>>, r: Request<Ref>, x: Ref)
    ensures Asked(rs + [r], x) == Asked(rs, x) + if r.order == x then 1 else 0
  {
    assert (rs + [r])[..|rs|] == rs;
  }

  /** An order that begins to wait, and the request for it. */
  lemma EnqueueKeeps(sc: Scope, cfg: Config, w: World, w1: World, kind: Kind, r: Ref, v: Option<int>, how: How)
    requires cfg.limits.Positive() && FlightIs(w, FlightOf(w)) && Moved(w, w1, r, r)
    requires w1.txn == w.txn && w1.queue == w.queue
    requires !InFlight(Status(w, r)) && Status(w1, r) == Some(StatusOf(kind))
    requires TradesInv(sc, w1) && LiveInv(sc, w1, true)
    ensures var w' := Enqueue(cfg, w1, kind, Request(r, v), how); WorldInv(sc, w', FlightOf(w'), true)
  {
    hide TradesInv, LiveInv, Enqueue, Flight;
    FlightRises(w, w1, FlightOf(w), kind, r);
    var w' := Enqueue(cfg, w1, kind, Request(r, v), how);
    EnqueueChanges(cfg, w1, kind, Request(r, v), how);
    var m := Raise(FlightOf(w), kind, r);
    assert WorldInv(sc, w1, m, true);
    Requeued(sc, w1, w', m);
    assert WorldInv(sc, w', m, true);
    forall k, x ensures m(k, x) == FlightOf(w')(k, x) {
      FlightAfterEnqueue(cfg, w1, kind, Request(r, v), how, k, x);
      FlightOnlyLists(w, w1, k, x);
    }
    FlightSame(w', m, FlightOf(w'));
  }

  lemma EnqueueChanges(cfg: Config, w: World, kind: Kind, r: Request<Ref>, how: How)
    requires cfg.limits.Positive()
    ensures var w' := Enqueue(cfg, w, kind, r, how); w' == w.(txn := w'.txn, queue := w'.queue)
  {
  }

  lemma FlightOnlyLists(w: World, w': World, k: Kind, x: Ref)
    requires OnlyOrders(w, w')
    ensures Flight(w', k, x) == Flight(w, k, x)
  {
  }

  lemma RequestedOrder(sc: Scope, o: Order, p: Order, s: OrderStatus)
    requires OrderInv(sc, o) && o.status == Some(Executable) && (s == Cancelling || s == Updating || s == Replacing)
    requires p == o.(reduction := p.reduction, newPrice := p.newPrice)
    requires p.reduction.Some? ==> s == Cancelling && (sc.additions || p.reduction.value >= 0)
    requires p.newPrice.Some? ==> s == Replacing
    ensures OrderInv(sc, UpdateStatus(p, s))
  {
  }

  lemma RepersistedOrder(sc: Scope, o: Order, persistence: Persistence)
    requires OrderInv(sc, o) && o.status == Some(Executable) && o.sim.otype.Limit?
    ensures var p := o.(sim := o.sim.(otype := o.sim.otype.(persistence := persistence)));
      OrderInv(sc, UpdateStatus(p, Updating)) && Done(p.sim) == Done(o.sim)
  {
    hide Reported, Reached;
    StepKeepsSound(o.sim, UpdateRequested(persistence));
    ReachedGoesOn(o.sim, UpdateRequested(persistence));
    if NotOversold(o.sim) {
      StepKeepsNotOversold(o.sim, UpdateRequested(persistence));
    }
  }

  /** A request for an executable order with new data that leaves what remains alone. */
  lemma AskOrderKeeps(sc: Scope, cfg: Config, w: World, r: Ref, o: Order, kind: Kind, v: Option<int>, how: How)
    requires cfg.limits.Positive() && Has(w, r) && WorldInv(sc, w, FlightOf(w), true)
    requires Status(w, r) == Some(Executable) && o.status == Some(Executable) && kind != Place
    requires OrderInv(sc, UpdateStatus(o, StatusOf(kind))) && Done(o.sim) == Done(OrderAt(w, r).sim)
    requires o.log == OrderAt(w, r).log
    ensures var w' := AskOrder(cfg, w, r, Some(o), kind, v, how); WorldInv(sc, w', FlightOf(w'), true)
  {
    hide TCInv, OrderInv, SetOrderStatus, UpdateStatus, Done, Flight, Enqueue;
    var tc, k := TCOf(w, r.trade), r.order;
    assert HeldInv(sc, w, r.trade);
    var put := PutOrder(tc, k, o);
    PutKeeps(sc, tc, k, o);
    OneMoves(sc, put, k, StatusOf(kind), how.now);
    var tc' := SetOrderStatus(put, k, StatusOf(kind), how.now);
    StatusAfter(o, StatusOf(kind));
    SameLog(OrderAt(w, r), o);
    SimAfter(o, StatusOf(kind));
    assert tc'.0.orders == tc.0.orders[k := UpdateStatus(o, StatusOf(kind))];
    TradesKept(sc, w, r.trade, tc');
    TradeMoved(w, r.trade, tc', k);
    var w1 := WithTC(w, r.trade, tc');
    assert Moved(w, w1, r, r);
    LiveStill(sc, w, w1, r);
    EnqueueKeeps(sc, cfg, w, w1, kind, r, v, how);
  }

  /** An executable order that was live had something left, and still has while it waits. */
  lemma LiveStill(sc: Scope, w: World, w1: World, r: Ref)
    requires LiveInv(sc, w, true) && Moved(w, w1, r, r) && w1.live == w.live
    requires Has(w, r) && Status(w, r) == Some(Executable)
    requires WasPlaced(OrderAt(w, r)) ==> WasPlaced(OrderAt(w1, r))
    requires Done(OrderAt(w1, r).sim) == Done(OrderAt(w, r).sim)
    ensures LiveInv(sc, w1, true)
  {
    forall x | x in w1.live ensures LiveOrder(w1, x, true) {
      assert LiveOrder(w, x, true);
    }
    if !sc.losses {
      forall x ensures OpenIsLive(w1, x) { assert OpenIsLive(w, x); }
    }
  }

  lemma PlaceRequestInv(sc: Scope, cfg: Config, w: World, r: Ref, v: Option<int>, how: How)
    requires cfg.limits.Positive() && Has(w, r) && WorldInv(sc, w, FlightOf(w), true)
    requires Unplaced(OrderAt(w, r)) && ValidOrder(OrderAt(w, r).sim.otype)
    requires !sc.late ==> w.trades[r.trade].trade.status != Complete
    ensures var w' := PlaceRequest(cfg, w, r, v, how); WorldInv(sc, w', FlightOf(w'), true)
  {
    hide TCInv, OrderInv, SetOrderStatus, UpdateStatus, Done, Flight, Enqueue;
    var tc, k, o := TCOf(w, r.trade), r.order, OrderAt(w, r);
    assert HeldInv(sc, w, r.trade) && OrderInv(sc, o);
    UnplacedStatus(sc, o);
    PlaceRequestKeeps(sc, tc, k, how.now);
    PendingOrder(sc, o);
    StatusAfter(o, Pending);
    var tc1 := SetOrderStatus(tc, k, Pending, how.now);
    var tc' := (tc1.0, PlaceTrade(tc1.1, tc1.0.id, how.now));
    assert tc'.0.orders == tc.0.orders[k := UpdateStatus(o, Pending)];
    TradesKept(sc, w, r.trade, tc');
    TradeMoved(w, r.trade, tc', k);
    var w1 := WithTC(w, r.trade, tc');
    var w2 := w1.(live := w1.live + [r]);
    SameTrades(sc, w1, w2);
    forall x | x in w.live ensures x != r && LiveOrder(w2, x, true) {
      assert LiveOrder(w, x, true);
    }
    assert LiveOrder(w2, r, true);
    assert Moved(w, w2, r, r);
    if !sc.losses {
      forall x ensures OpenIsLive(w2, x) { assert OpenIsLive(w, x); }
    }
    EnqueueKeeps(sc, cfg, w, w2, Place, r, v, how);
  }

  lemma UnplacedStatus(sc: Scope, o: Order)
    requires OrderInv(sc, o) && Unplaced(o)
    ensures o.status == None || o.status == Some(Violation)
  {
  }

  lemma PendingOrder(sc: Scope, o: Order)
    requires OrderInv(sc, o) && Unplaced(o) && ValidOrder(o.sim.otype)
    ensures OrderInv(sc, UpdateStatus(o, Pending)) && !Done(UpdateStatus(o, Pending).sim)
  {
    hide Reached;
    InitialIsSound(o.sim.side, o.sim.otype);
    CreatedIsReached(o.sim.side, o.sim.otype);
  }

  lemma CreateOrderInv(sc: Scope, w: World, t: nat, o: Order)
    requires WorldInv(sc, w, FlightOf(w), true) && t < |w.trades| && o.status == None && OrderInv(sc, o)
    requires !WasPlaced(o)
    ensures var tc := TCOf(w, t);
      var w' := WithTC(w, t, (tc.0.(orders := tc.0.orders + [o]), tc.1)); WorldInv(sc, w', FlightOf(w'), true)
  {
    hide TCInv, OrderInv, Flight, Done;
    var tc := TCOf(w, t);
    var tc' := (tc.0.(orders := tc.0.orders + [o]), tc.1);
    assert HeldInv(sc, w, t);
    CreateKeeps(sc, tc, o);
    TradesKept(sc, w, t, tc');
    var n := Ref(t, |tc.0.orders|);
    TradeMoved(w, t, tc', |tc.0.orders|);
    var w' := WithTC(w, t, tc');
    FlightStays(w, w', FlightOf(w), n, n);
    forall k, x ensures FlightOf(w)(k, x) == FlightOf(w')(k, x) { FlightOnlyLists(w, w', k, x); }
    FlightSame(w', FlightOf(w), FlightOf(w'));
    forall x | x in w'.live ensures LiveOrder(w', x, true) { assert LiveOrder(w, x, true); }
    if !sc.losses {
      forall x ensures OpenIsLive(w', x) { assert OpenIsLive(w, x); }
    }
  }

  lemma CreateTradeInv(sc: Scope, w: World, runner: Runner)
    requires WorldInv(sc, w, FlightOf(w), true)
    ensures var w' := w.(trades := w.trades + [Held(Trade(|w.trades|, Live, [], []), runner)]);
      WorldInv(sc, w', FlightOf(w'), true)
  {
    hide OrderInv, Flight, Done;
    var n := |w.trades|;
    var w' := w.(trades := w.trades + [Held(Trade(n, Live, [], []), runner)]);
    assert forall x :: Has(w', x) <==> Has(w, x);
    SameStatus(w, w', FlightOf(w));
    forall k, x ensures FlightOf(w)(k, x) == FlightOf(w')(k, x) { FlightOnlyLists(w, w', k, x); }
    FlightSame(w', FlightOf(w), FlightOf(w'));
    forall x | x in w'.live ensures LiveOrder(w', x, true) { assert LiveOrder(w, x, true); }
    if !sc.losses {
      forall x ensures OpenIsLive(w', x) { assert OpenIsLive(w, x); }
    }
    assert forall c :: ContextOf(w', c) == ContextOf(w, c);
    forall t | 0 <= t < |w'.trades| ensures HeldInv(sc, w', t) {
      if t < n {
        assert HeldInv(sc, w, t) && TCOf(w', t) == TCOf(w, t);
      } else {
        assert ContextInv(ContextOf(w, runner), n);
      }
    }
    forall c ensures ContextInv(ContextOf(w', c), n + 1) { assert ContextInv(ContextOf(w, c), n); }
  }

  /** A control refuses a request for an order with none in flight. */
  lemma RefuseKeeps(sc: Scope, w: World, r: Ref, now: int)
    requires WorldInv(sc, w, FlightOf(w), true) && sc.refusals
    requires Has(w, r) && !InFlight(Status(w, r)) && (WasPlaced(OrderAt(w, r)) || Unplaced(OrderAt(w, r)))
    ensures var w' := WithTC(w, r.trade, SetOrderStatus(TCOf(w, r.trade), r.order, Violation, now));
      WorldInv(sc, w', FlightOf(w'), true)
  {
    hide TCInv, OrderInv, UpdateStatus, Flight, Done, WasPlaced;
    assert HeldInv(sc, w, r.trade);
    RefusedOrder(sc, OrderAt(w, r));
    OnlyStatusKeeps(sc, w, r, Violation, now);
  }

  /** An order that waits to be placed is placed once more. */
  lemma PlaceAgainKeeps(sc: Scope, w: World, r: Ref, now: int)
    requires WorldInv(sc, w, FlightOf(w), true) && Has(w, r) && Status(w, r) == Some(Pending)
    ensures var w' := WithTC(w, r.trade, SetOrderStatus(TCOf(w, r.trade), r.order, Pending, now));
      WorldInv(sc, w', FlightOf(w'), true)
  {
    hide TCInv, UpdateStatus, Flight, Done, WasPlaced, Sound, NotOversold;
    assert HeldInv(sc, w, r.trade);
    StillPending(sc, OrderAt(w, r));
    OnlyStatusKeeps(sc, w, r, Pending, now);
  }

  lemma StillPending(sc: Scope, o: Order)
    requires OrderInv(sc, o) && o.status == Some(Pending)
    ensures OrderInv(sc, UpdateStatus(o, Pending))
  {
  }

  /** One order's status moves by itself, without starting or ending a wait. */
  lemma OnlyStatusKeeps(sc: Scope, w: World, r: Ref, s: OrderStatus, now: int)
    requires WorldInv(sc, w, FlightOf(w), true) && Has(w, r)
    requires var was := Status(w, r);
      (s == Violation && !InFlight(was) && sc.refusals) || (s == Pending && was == Some(Pending))
    requires OrderInv(sc, UpdateStatus(OrderAt(w, r), s))
    ensures var w' := WithTC(w, r.trade, SetOrderStatus(TCOf(w, r.trade), r.order, s, now));
      WorldInv(sc, w', FlightOf(w'), true)
  {
    hide TCInv, OrderInv, SetOrderStatus, UpdateStatus, Flight, Done, WasPlaced;
    var tc, k, o := TCOf(w, r.trade), r.order, OrderAt(w, r);
    assert HeldInv(sc, w, r.trade);
    OneMoves(sc, tc, k, s, now);
    StatusAfter(o, s);
    SimAfter(o, s);
    var tc' := SetOrderStatus(tc, k, s, now);
    TradesKept(sc, w, r.trade, tc');
    TradeMoved(w, r.trade, tc', k);
    var w', n := WithTC(w, r.trade, tc'), Ref(r.trade, |tc.0.orders|);
    if s == Pending {
      SameStatus(w, w', FlightOf(w));
    } else {
      FlightStays(w, w', FlightOf(w), r, n);
    }
    forall kind, x ensures FlightOf(w)(kind, x) == FlightOf(w')(kind, x) { FlightOnlyLists(w, w', kind, x); }
    FlightSame(w', FlightOf(w), FlightOf(w'));
    forall x | x in w'.live ensures LiveOrder(w', x, true) {
      assert LiveOrder(w, x, true);
    }
    if !sc.losses {
      forall x ensures OpenIsLive(w', x) { assert OpenIsLive(w, x); }
    }
  }

  /** Placing an order that was placed before sets it pending and collects nothing, so exclusivity
      survives it exactly where the order is still waiting to be placed. */
  lemma WhenPlacingAgainKeepsExclusivity(w: World, r: Ref, now: int)
    requires FlightIs(w, FlightOf(w)) && Has(w, r)
    ensures var w' := WithTC(w, r.trade, SetOrderStatus(TCOf(w, r.trade), r.order, Pending, now));
      FlightIs(w', FlightOf(w')) <==> Status(w, r) == Some(Pending)
  {
    hide SetOrderStatus, UpdateStatus, Flight;
    var tc := SetOrderStatus(TCOf(w, r.trade), r.order, Pending, now);
    var w' := WithTC(w, r.trade, tc);
    StatusAfter(OrderAt(w, r), Pending);
    TradeMoved(w, r.trade, tc, r.order);
    forall kind, x ensures FlightOf(w)(kind, x) == FlightOf(w')(kind, x) { FlightOnlyLists(w, w', kind, x); }
    if Status(w, r) == Some(Pending) {
      assert forall x :: Status(w', x) == Status(w, x);
      SameStatus(w, w', FlightOf(w));
      FlightSame(w', FlightOf(w), FlightOf(w'));
    } else {
      assert FlightOf(w)(Place, r) == 0 && FlightOf(w')(Place, r) == 0;
      assert Status(w', r) == Some(StatusOf(Place));
    }
  }

  /** A refusal takes an order out of flight but not out of its list or package, so exclusivity
      survives it exactly where nothing was in flight. */
  lemma WhenRefusalKeepsExclusivity(w: World, r: Ref, now: int)
    requires FlightIs(w, FlightOf(w)) && Has(w, r)
    ensures var w' := WithTC(w, r.trade, SetOrderStatus(TCOf(w, r.trade), r.order, Violation, now));
      FlightIs(w', FlightOf(w')) <==> !InFlight(Status(w, r))
  {
    hide SetOrderStatus, UpdateStatus, Flight;
    var tc := SetOrderStatus(TCOf(w, r.trade), r.order, Violation, now);
    var w', n := WithTC(w, r.trade, tc), Ref(r.trade, |w.trades[r.trade].trade.orders|);
    StatusAfter(OrderAt(w, r), Violation);
    TradeMoved(w, r.trade, tc, r.order);
    forall kind, x ensures FlightOf(w)(kind, x) == FlightOf(w')(kind, x) { FlightOnlyLists(w, w', kind, x); }
    if InFlight(Status(w, r)) {
      var kind := KindOf(Status(w, r).value);
      assert FlightOf(w)(kind, r) == 1 && FlightOf(w')(kind, r) == 1;
      assert Status(w', r) == Some(Violation);
    } else {
      FlightStays(w, w', FlightOf(w), r, n);
      FlightSame(w', FlightOf(w), FlightOf(w'));
    }
  }

  function KindOf(s: OrderStatus): (kind: Kind)
    ensures InFlight(Some(s)) ==> StatusOf(kind) == s
  {
    match s
    case Cancelling => Cancel
    case Updating => Update
    case Replacing => Replace
    case _ => Place
  }

  lemma RefusedOrder(sc: Scope, o: Order)
    requires sc.refusals && OrderInv(sc, o) && !InFlight(o.status) && (WasPlaced(o) || Unplaced(o))
    ensures OrderInv(sc, UpdateStatus(o, Violation))
  {
    StatusAfter(o, Violation);
  }

  // ----- steps and runs

  /** The step leaves alone what waits: no control refuses a request while another is in flight, and no
      order is placed again unless it still waits to be placed. */
  predicate Orderly(w: World, s: Step) {
    && (s.Refuse? ==> !InFlight(Status(w, s.r)))
    && (s.PlaceAgain? ==> Status(w, s.r) == Some(Pending))
  }

  /** The step is one a run of this scope may contain. */
  ghost predicate Within(sc: Scope, cfg: Config, w: World, s: Step) {
    && (s.Refuse? ==> sc.refusals)
    && (s.AskCancel? && s.reduction.Some? && s.reduction.value < 0 ==> sc.additions)
    && (s.AskPlace? && s.r.trade < |w.trades| && w.trades[s.r.trade].trade.status == Complete ==> sc.late)
    && (s.ProcessUpdate? ==> sc.losses || !sc.late || var w1 := MatchUpdate(cfg, s.f, w).0; LosesNone(w1, w1.live))
  }

  lemma StepKeeps(sc: Scope, cfg: Config, w: World, s: Step)
    requires cfg.limits.Positive() && Admissible(cfg, w, s) && Orderly(w, s) && Within(sc, cfg, w, s)
    requires WorldInv(sc, w, FlightOf(w), true)
    ensures var w' := Next(cfg, w, s); WorldInv(sc, w', FlightOf(w'), true)
  {
    hide WorldInv, OrderInv, UpdateStatus, MarketUpdate, AskOrder, PlaceRequest, Done, SetOrderStatus, WasPlaced;
    match s
    case CreateTrade(runner) => CreateTradeInv(sc, w, runner);
    case CreateOrder(t, side, otype) =>
      NewOrderInv(sc, side, otype);
      CreateOrderInv(sc, w, t, NewOrder(side, otype));
    case AskPlace(r, v, how) => PlaceRequestInv(sc, cfg, w, r, v, how);
    case PlaceAgain(r, now) => PlaceAgainKeeps(sc, w, r, now);
    case Refuse(r, now) => RefuseKeeps(sc, w, r, now);
    case AskCancel(r, reduction, how) =>
      var o := OrderAt(w, r);
      if RequestCancel(o, reduction).Some? {
        OrderIsInv(sc, w, r);
        ExecutableHasNoData(sc, o);
        RequestedOrder(sc, o, o.(reduction := reduction), Cancelling);
        AskOrderKeeps(sc, cfg, w, r, o.(reduction := reduction), Cancel, None, how);
      } else {
        AskingInVain(cfg, w, r, Cancel, None, how);
      }
    case AskUpdate(r, persistence, how) =>
      var o := OrderAt(w, r);
      if RequestUpdate(o, persistence).Some? {
        OrderIsInv(sc, w, r);
        RepersistedOrder(sc, o, persistence);
        AskOrderKeeps(sc, cfg, w, r, RequestUpdate(o, persistence).value, Update, None, how);
      } else {
        AskingInVain(cfg, w, r, Update, None, how);
      }
    case AskReplace(r, newPrice, v, how) =>
      var o := OrderAt(w, r);
      if RequestReplace(o, newPrice).Some? {
        OrderIsInv(sc, w, r);
        ExecutableHasNoData(sc, o);
        RequestedOrder(sc, o, o.(newPrice := Some(newPrice)), Replacing);
        AskOrderKeeps(sc, cfg, w, r, o.(newPrice := Some(newPrice)), Replace, v, how);
      } else {
        AskingInVain(cfg, w, r, Replace, v, how);
      }
    case ExecuteTransaction(how) => ExecuteKeeps(sc, cfg, w, how);
    case ProcessUpdate(f) => UpdateKeeps(sc, cfg, f, w);
  }

  lemma AskingInVain(cfg: Config, w: World, r: Ref, kind: Kind, v: Option<int>, how: How)
    requires cfg.limits.Positive() && Has(w, r)
    ensures AskOrder(cfg, w, r, None, kind, v, how) == w
  {
  }

  lemma NewOrderInv(sc: Scope, side: Side, otype: OrderType)
    ensures OrderInv(sc, NewOrder(side, otype)) && !WasPlaced(NewOrder(side, otype))
  {
  }

  lemma OrderIsInv(sc: Scope, w: World, r: Ref)
    requires TradesInv(sc, w) || WorldInv(sc, w, FlightOf(w), true)
    requires Has(w, r)
    ensures OrderInv(sc, OrderAt(w, r))
  {
    assert HeldInv(sc, w, r.trade);
  }

  lemma ExecutableHasNoData(sc: Scope, o: Order)
    requires OrderInv(sc, o) && o.status == Some(Executable)
    ensures o.reduction == None && o.newPrice == None
  {
  }

  lemma ExecuteKeeps(sc: Scope, cfg: Config, w: World, how: How)
    requires cfg.limits.Positive() && WorldInv(sc, w, FlightOf(w), true)
    ensures var sent := ToQueue(Packages(w.txn, cfg.limits), how);
      var w' := w.(txn := Executed(w.txn, cfg.limits), queue := w.queue + sent);
      WorldInv(sc, w', FlightOf(w'), true)
  {
    hide WorldInv, Packages;
    var w' := w.(txn := Executed(w.txn, cfg.limits), queue := w.queue + ToQueue(Packages(w.txn, cfg.limits), how));
    Requeued(sc, w, w', FlightOf(w));
    forall k, x ensures FlightOf(w)(k, x) == FlightOf(w')(k, x) {
      PackagesCarry(w.txn, cfg.limits, k, x);
      FlightAfterSend(w.queue, Packages(w.txn, cfg.limits), how, k, x);
    }
    Recounted(sc, w', FlightOf(w), FlightOf(w'));
  }

  lemma Recounted(sc: Scope, w: World, m: Counts, m': Counts)
    requires WorldInv(sc, w, m, true) && forall k, x :: m(k, x) == m'(k, x)
    ensures WorldInv(sc, w, m', true)
  {
    FlightSame(w, m, m');
  }

  ghost predicate ValidSteps(cfg: Config, w: World, steps: seq<Step>)
    requires cfg.limits.Positive()
    decreases |steps|
  {
    steps != [] ==> Admissible(cfg, w, steps[0]) && ValidSteps(cfg, Next(cfg, w, steps[0]), steps[1..])
  }

  ghost function After(cfg: Config, w: World, steps: seq<Step>): World
    requires cfg.limits.Positive() && ValidSteps(cfg, w, steps)
    decreases |steps|
  {
    if steps == [] then w else After(cfg, Next(cfg, w, steps[0]), steps[1..])
  }

  ghost predicate AllOrderly(cfg: Config, w: World, steps: seq<Step>)
    requires cfg.limits.Positive() && ValidSteps(cfg, w, steps)
    decreases |steps|
  {
    steps != [] ==> Orderly(w, steps[0]) && AllOrderly(cfg, Next(cfg, w, steps[0]), steps[1..])
  }

  ghost predicate AllWithin(sc: Scope, cfg: Config, w: World, steps: seq<Step>)
    requires cfg.limits.Positive() && ValidSteps(cfg, w, steps)
    decreases |steps|
  {
    steps != [] ==> Within(sc, cfg, w, steps[0]) && AllWithin(sc, cfg, Next(cfg, w, steps[0]), steps[1..])
  }

  const ANYTHING := Scope(true, true, true, true)

  lemma {:induction false} RunKeeps(sc: Scope, cfg: Config, w: World, steps: seq<Step>)
    requires cfg.limits.Positive() && ValidSteps(cfg, w, steps) && WorldInv(sc, w, FlightOf(w), true)
    requires AllOrderly(cfg, w, steps) && AllWithin(sc, cfg, w, steps)
    ensures var w' := After(cfg, w, steps); WorldInv(sc, w', FlightOf(w'), true)
    decreases |steps|
  {
    hide WorldInv, Next, Admissible, Orderly, Within;
    if steps != [] {
      StepKeeps(sc, cfg, w, steps[0]);
      RunKeeps(sc, cfg, Next(cfg, w, steps[0]), steps[1..]);
    }
  }

  lemma {:induction false} AnythingGoes(cfg: Config, w: World, steps: seq<Step>)
    requires cfg.limits.Positive() && ValidSteps(cfg, w, steps)
    ensures AllWithin(ANYTHING, cfg, w, steps)
    decreases |steps|
  {
    hide Next, Admissible;
    if steps != [] { AnythingGoes(cfg, Next(cfg, w, steps[0]), steps[1..]); }
  }

  lemma StartInv(sc: Scope, first: Feed)
    ensures var w := Started(first); WorldInv(sc, w, FlightOf(w), true)
  {
    assert forall r :: ContextOf(Started(first), r) == FreshContext;
  }

  /** The scope of a run where it stays within that, else any. */
  lemma StartsAndKeeps(sc: Scope, cfg: Config, first: Feed, steps: seq<Step>) returns (scope: Scope)
    requires cfg.limits.Positive() && ValidSteps(cfg, Started(first), steps) && AllOrderly(cfg, Started(first), steps)
    ensures scope == if AllWithin(sc, cfg, Started(first), steps) then sc else ANYTHING
    ensures var w := After(cfg, Started(first), steps); WorldInv(scope, w, FlightOf(w), true)
  {
    hide WorldInv, Next;
    scope := if AllWithin(sc, cfg, Started(first), steps) then sc else ANYTHING;
    AnythingGoes(cfg, Started(first), steps);
    StartInv(scope, first);
    RunKeeps(scope, cfg, Started(first), steps);
  }

  /** Every order that is pending, cancelling, updating or replacing is in exactly one pending list or
      queued package, one of that kind, and every other order is in none. */
  ghost predicate Exclusive(w: World) {
    FlightIs(w, FlightOf(w))
  }

  ghost predicate ExclusiveThroughout(cfg: Config, w: World, steps: seq<Step>)
    requires cfg.limits.Positive() && ValidSteps(cfg, w, steps)
    decreases |steps|
  {
    Exclusive(w) && (steps != [] ==> ExclusiveThroughout(cfg, Next(cfg, w, steps[0]), steps[1..]))
  }

  /** Exclusivity holds at every point of a run, refused requests, refused replaces and negative size
      reductions included, exactly when every step is orderly. */
  lemma InFlightExclusivity(cfg: Config, first: Feed, steps: seq<Step>)
    requires cfg.limits.Positive() && ValidSteps(cfg, Started(first), steps)
    ensures ExclusiveThroughout(cfg, Started(first), steps) <==> AllOrderly(cfg, Started(first), steps)
    ensures AllOrderly(cfg, Started(first), steps) ==>
      var w := After(cfg, Started(first), steps);
      forall kind, r :: Flight(w, kind, r) == if Status(w, r) == Some(StatusOf(kind)) then 1 else 0
  {
    hide WorldInv;
    StartInv(ANYTHING, first);
    ExclusiveWhileOrderly(cfg, Started(first), steps);
    if AllOrderly(cfg, Started(first), steps) {
      var scope := StartsAndKeeps(ANYTHING, cfg, first, steps);
      FlightsOf(After(cfg, Started(first), steps), scope);
    }
  }

  lemma FlightsOf(w: World, sc: Scope)
    requires WorldInv(sc, w, FlightOf(w), true)
    ensures forall kind, r :: Flight(w, kind, r) == if Status(w, r) == Some(StatusOf(kind)) then 1 else 0
  {
    hide Flight;
    forall kind, r ensures Flight(w, kind, r) == if Status(w, r) == Some(StatusOf(kind)) then 1 else 0 {
      assert FlightOf(w)(kind, r) == if Status(w, r) == Some(StatusOf(kind)) then 1 else 0;
    }
  }

  lemma {:induction false} ExclusiveWhileOrderly(cfg: Config, w: World, steps: seq<Step>)
    requires cfg.limits.Positive() && ValidSteps(cfg, w, steps) && WorldInv(ANYTHING, w, FlightOf(w), true)
    ensures ExclusiveThroughout(cfg, w, steps) <==> AllOrderly(cfg, w, steps)
    decreases |steps|
  {
    hide WorldInv, Next, Admissible, Orderly, Exclusive;
    IsExclusive(w);
    if steps != [] {
      var s := steps[0];
      if Orderly(w, s) {
        WithinAnything(cfg, w, s);
        StepKeeps(ANYTHING, cfg, w, s);
        ExclusiveWhileOrderly(cfg, Next(cfg, w, s), steps[1..]);
      } else {
        DisorderBreaks(cfg, w, s);
        assert !ExclusiveThroughout(cfg, Next(cfg, w, s), steps[1..]);
      }
    }
  }

  lemma IsExclusive(w: World)
    requires WorldInv(ANYTHING, w, FlightOf(w), true)
    ensures Exclusive(w)
  {
  }

  lemma WithinAnything(cfg: Config, w: World, s: Step)
    ensures Within(ANYTHING, cfg, w, s)
  {
  }

  lemma DisorderBreaks(cfg: Config, w: World, s: Step)
    requires cfg.limits.Positive() && Admissible(cfg, w, s) && !Orderly(w, s) && Exclusive(w)
    ensures !Exclusive(Next(cfg, w, s))
  {
    hide FlightIs, SetOrderStatus, MarketUpdate;
    match s
    case Refuse(r, now) => WhenRefusalKeepsExclusivity(w, r, now);
    case PlaceAgain(r, now) => WhenPlacingAgainKeepsExclusivity(w, r, now);
    case _ =>
  }

  /** No order of the trade still waits to be placed. */
  predicate AllRequested(t: Trade) {
    forall i :: 0 <= i < |t.orders| ==> t.orders[i].status.Some?
  }

  const NO_REFUSALS := Scope(false, true, true, true)

  /** After any orderly run, a trade with some order placed and none still to be placed counts as live in
      its runner context exactly when one of its orders is incomplete, unless it is one that `complete`
      says should have been completed; and that is only ever so after a refusal. */
  lemma TradeLiveness(cfg: Config, first: Feed, steps: seq<Step>, t: nat)
    requires cfg.limits.Positive() && ValidSteps(cfg, Started(first), steps) && AllOrderly(cfg, Started(first), steps)
    ensures var w, refused := After(cfg, Started(first), steps), !AllWithin(NO_REFUSALS, cfg, Started(first), steps);
      t < |w.trades| ==>
        var trade, context := w.trades[t].trade, ContextOf(w, w.trades[t].runner);
        && Distinct(context.liveTrades)
        && (AllRequested(trade) && SomePlaced(trade.orders) ==>
            (t in context.liveTrades <==> !OrdersComplete(trade.orders) || TradeComplete(trade)))
        && (!refused && trade.orders != [] ==> !TradeComplete(trade))
        && (!refused && trade.orders != [] && AllRequested(trade) ==>
            && (t in context.liveTrades <==> !OrdersComplete(trade.orders))
            && (trade.status == Live ==> t in context.liveTrades))
  {
    var sc := StartsAndKeeps(NO_REFUSALS, cfg, first, steps);
    var w := After(cfg, Started(first), steps);
    if t < |w.trades| {
      assert HeldInv(sc, w, t);
      var trade := w.trades[t].trade;
      if AllRequested(trade) {
        if trade.orders != [] && !sc.refusals {
          assert OrderInv(sc, trade.orders[0]);
          assert SomePlaced(trade.orders);
        }
        LivenessOf(sc, trade, ContextOf(w, w.trades[t].runner));
      }
    }
  }

  lemma LivenessOf(sc: Scope, t: Trade, c: Context)
    requires TCInv(sc, (t, c)) && OrdersInv(sc, t.orders) && AllRequested(t)
    ensures SomeOpen(t.orders) <==> !OrdersComplete(t.orders)
    ensures SomePlaced(t.orders) ==> (t.id in c.liveTrades <==> !OrdersComplete(t.orders) || TradeComplete(t))
  {
    hide WasPlaced, OrderInv;
    if !OrdersComplete(t.orders) {
      var i :| 0 <= i < |t.orders| && !OrderComplete(t.orders[i].status);
      assert IsOpen(t.orders[i].status);
    }
  }

  const NO_ADDITIONS := Scope(true, false, true, true)

  /** After any orderly run every order placed is sound: its sizes add up, nothing is overmatched and its
      limit is honoured until a starting price fills it; and a live order that waits or is executable
      always has something left. Nothing is cancelled below zero while no reduction is negative. */
  lemma OrdersAreSound(cfg: Config, first: Feed, steps: seq<Step>, r: Ref)
    requires cfg.limits.Positive() && ValidSteps(cfg, Started(first), steps) && AllOrderly(cfg, Started(first), steps)
    ensures var w := After(cfg, Started(first), steps);
      && (Has(w, r) && WasPlaced(OrderAt(w, r)) ==>
          && Sound(OrderAt(w, r).sim)
          && (AllWithin(NO_ADDITIONS, cfg, Started(first), steps) ==> NotOversold(OrderAt(w, r).sim)))
      && (r in w.live ==>
          && Has(w, r) && WasPlaced(OrderAt(w, r))
          && (InFlight(Status(w, r)) || Status(w, r) == Some(Executable) ==>
              var s := OrderAt(w, r).sim; if s.otype.Limit? then Remaining(s) > 0 else !s.bspReconciled))
  {
    hide Done, Sound, NotOversold, WasPlaced;
    var sc := StartsAndKeeps(NO_ADDITIONS, cfg, first, steps);
    var w := After(cfg, Started(first), steps);
    if Has(w, r) {
      OrderIsInv(sc, w, r);
    }
    if r in w.live {
      assert LiveOrder(w, r, true);
      WhenDone(OrderAt(w, r).sim);
    }
  }

  /** After any orderly run the state of every order placed is one that a run of the exchange leads to from
      its creation, so that what holds of all those runs holds of the orders of a backtest. */
  lemma OrdersAreRuns(cfg: Config, first: Feed, steps: seq<Step>, r: Ref)
    requires cfg.limits.Positive() && ValidSteps(cfg, Started(first), steps) && AllOrderly(cfg, Started(first), steps)
    ensures var w := After(cfg, Started(first), steps);
      Has(w, r) && WasPlaced(OrderAt(w, r)) ==> exists o, es :: RunTo(o, es, OrderAt(w, r).sim)
  {
    hide WasPlaced, RunTo;
    var sc := StartsAndKeeps(ANYTHING, cfg, first, steps);
    var w := After(cfg, Started(first), steps);
    if Has(w, r) {
      OrderIsInv(sc, w, r);
    }
  }

  ghost predicate OpenAreLive(w: World) {
    forall r :: OpenIsLive(w, r)
  }

  ghost predicate OpenAreLiveThroughout(cfg: Config, w: World, steps: seq<Step>)
    requires cfg.limits.Positive() && ValidSteps(cfg, w, steps)
    decreases |steps|
  {
    OpenAreLive(w) && (steps != [] ==> OpenAreLiveThroughout(cfg, Next(cfg, w, steps[0]), steps[1..]))
  }

  const NONE_LOST := Scope(true, true, true, false)
  const NONE_LATE := Scope(true, true, false, false)

  /** At every point of an orderly run every open order is in the live orders, so that updates match and
      complete it, exactly if no update finds a live order open in a complete trade when it comes to
      complete orders. So it is if no order is placed in a trade that is complete, and then the trade of
      an open order is live. */
  lemma OpenOrdersAreLive(cfg: Config, first: Feed, steps: seq<Step>)
    requires cfg.limits.Positive() && ValidSteps(cfg, Started(first), steps) && AllOrderly(cfg, Started(first), steps)
    ensures OpenAreLiveThroughout(cfg, Started(first), steps) <==> AllWithin(NONE_LOST, cfg, Started(first), steps)
    ensures AllWithin(NONE_LATE, cfg, Started(first), steps) ==>
      && OpenAreLiveThroughout(cfg, Started(first), steps)
      && var w := After(cfg, Started(first), steps);
         forall r :: Has(w, r) && IsOpen(Status(w, r)) ==> r in w.live && w.trades[r.trade].trade.status == Live
  {
    hide WorldInv, AllWithin, OpenAreLiveThroughout;
    StartInv(ANYTHING, first);
    StartInv(NONE_LOST, first);
    StartInv(NONE_LATE, first);
    LiveWhileNoneLost(cfg, Started(first), steps);
    if AllWithin(NONE_LATE, cfg, Started(first), steps) {
      NoneLate(cfg, Started(first), steps);
      OpenAtTheEnd(After(cfg, Started(first), steps));
    }
  }

  lemma {:induction false} LiveWhileNoneLost(cfg: Config, w: World, steps: seq<Step>)
    requires cfg.limits.Positive() && ValidSteps(cfg, w, steps) && AllOrderly(cfg, w, steps)
    requires WorldInv(ANYTHING, w, FlightOf(w), true) && WorldInv(NONE_LOST, w, FlightOf(w), true)
    ensures OpenAreLiveThroughout(cfg, w, steps) <==> AllWithin(NONE_LOST, cfg, w, steps)
    decreases |steps|
  {
    hide WorldInv, Next, Admissible, Orderly, Within, OpenAreLive;
    OpenIn(NONE_LOST, w);
    if steps != [] {
      var s := steps[0];
      WithinAnything(cfg, w, s);
      StepKeeps(ANYTHING, cfg, w, s);
      if Within(NONE_LOST, cfg, w, s) {
        StepKeeps(NONE_LOST, cfg, w, s);
        LiveWhileNoneLost(cfg, Next(cfg, w, s), steps[1..]);
      } else {
        LossIsLasting(cfg, w, s);
        assert !OpenAreLiveThroughout(cfg, Next(cfg, w, s), steps[1..]);
      }
    }
  }

  lemma OpenIn(sc: Scope, w: World)
    requires WorldInv(sc, w, FlightOf(w), true) && !sc.losses
    ensures OpenAreLive(w)
  {
  }

  /** An order that an update finds open in a complete trade is off the live orders after it, and open. */
  lemma LossIsLasting(cfg: Config, w: World, s: Step)
    requires cfg.limits.Positive() && Admissible(cfg, w, s) && !Within(NONE_LOST, cfg, w, s)
    requires WorldInv(ANYTHING, w, FlightOf(w), true)
    ensures !OpenAreLive(Next(cfg, w, s))
  {
    hide WorldInv, MatchUpdate, CompleteAll, Done, TCInv, OrderInv, Sound;
    var f := s.f;
    var w1 := MatchUpdate(cfg, f, w).0;
    var m := MatchUpdateKeeps(ANYTHING, cfg, f, w);
    var r :| r in w1.live && Has(w1, r) && IsOpen(Status(w1, r)) && w1.trades[r.trade].trade.status == Complete;
    OpenInComplete(w1, m, r);
    WhenDone(OrderAt(w1, r).sim);
    WhenOpenOrderIsLost(w1, f.now, r);
    WhatOnePassCompletes(w1, w1.live, f.now);
    assert !OpenIsLive(Next(cfg, w, s), r);
  }

  lemma OpenInComplete(w: World, m: Counts, r: Ref)
    requires WorldInv(ANYTHING, w, m, false) && r in w.live
    requires Has(w, r) && IsOpen(Status(w, r)) && w.trades[r.trade].trade.status == Complete
    ensures Distinct(w.live) && (forall x :: x in w.live ==> Has(w, x)) && !Done(OrderAt(w, r).sim)
  {
    hide Done, OrdersInv, FlightIs;
    assert HeldInv(ANYTHING, w, r.trade) && LiveOrder(w, r, false);
    assert forall x :: x in w.live ==> LiveOrder(w, x, false);
  }

  lemma {:induction false} NoneLate(cfg: Config, w: World, steps: seq<Step>)
    requires cfg.limits.Positive() && ValidSteps(cfg, w, steps) && AllOrderly(cfg, w, steps)
    requires AllWithin(NONE_LATE, cfg, w, steps) && WorldInv(NONE_LATE, w, FlightOf(w), true)
    ensures OpenAreLiveThroughout(cfg, w, steps)
    ensures var w' := After(cfg, w, steps); WorldInv(NONE_LATE, w', FlightOf(w'), true)
    decreases |steps|
  {
    hide WorldInv, Next, Admissible, Orderly, Within, OpenAreLive;
    OpenIn(NONE_LATE, w);
    if steps != [] {
      StepKeeps(NONE_LATE, cfg, w, steps[0]);
      NoneLate(cfg, Next(cfg, w, steps[0]), steps[1..]);
    }
  }

  lemma OpenAtTheEnd(w: World)
    requires WorldInv(NONE_LATE, w, FlightOf(w), true)
    ensures forall r :: Has(w, r) && IsOpen(Status(w, r)) ==> r in w.live && w.trades[r.trade].trade.status == Live
  {
    hide TCInv;
    forall r | Has(w, r) && IsOpen(Status(w, r)) ensures r in w.live && w.trades[r.trade].trade.status == Live {
      assert OpenIsLive(w, r);
      if w.trades[r.trade].trade.status == Complete {
        NoneOpenInComplete(NONE_LATE, w, r);
      }
      BetweenSteps(NONE_LATE, w, r.trade);
    }
  }

  lemma BetweenSteps(sc: Scope, w: World, t: nat)
    requires TradesInv(sc, w) && t < |w.trades|
    ensures w.trades[t].trade.status == Live || w.trades[t].trade.status == Complete
  {
    assert HeldInv(sc, w, t);
    match w.trades[t].trade.status
    case TradePending =>
    case Live =>
    case Complete =>
  }

  // ----- replace

  /** The trade before a replace of its order k, and what of it the replace does not touch: the other
      orders and, as the trade never completes on the way, its place in the context. */
  ghost predicate KeepsTheRest(tc: TC, tc': TC, k: nat) {
    && |tc'.0.orders| == |tc.0.orders| + 1
    && (forall i :: 0 <= i < |tc.0.orders| && i != k ==> tc'.0.orders[i] == tc.0.orders[i])
    && tc'.0.log == tc.0.log + [TradePending, Live] && tc'.0.status == Live && tc'.1 == tc.1
  }

  /** Where the exchange takes the replacement the replace conserves stake: what the order had matched
      and left is what the two orders have matched and left together, nothing is left of the first,
      and the trade goes from live to pending and back without completing or leaving its context. */
  lemma ReplaceIsAtomic(sc: Scope, cfg: Config, f: Feed, r: RunnerBook, v: Option<int>, tc: TC, k: nat)
    requires k < |tc.0.orders| && OrderInv(sc, tc.0.orders[k]) && tc.0.orders[k].status == Some(Replacing)
    requires tc.0.orders[k].newPrice.Some? && Cancellable(tc.0.orders[k], f.book)
    requires Enterable(cfg, f.book, r, v, tc.0.orders[k].sim.side, tc.0.orders[k].newPrice.value)
    ensures var (tc', outcome) := ReplaceOne(cfg, f, r, v, tc, k);
      && outcome == Replaced && KeepsTheRest(tc, tc', k)
      && var n, o := |tc.0.orders|, tc.0.orders[k].sim;
         var cancelled, replacement := tc'.0.orders[k], tc'.0.orders[n];
         && cancelled.status == Some(ExecutionComplete) && replacement.status == Some(Executable)
         && cancelled.sim.sizeMatched == o.sizeMatched && Remaining(cancelled.sim) == 0
         && o.sizeMatched + Remaining(o)
            == cancelled.sim.sizeMatched + replacement.sim.sizeMatched + Remaining(replacement.sim)
  {
    hide PlaceStep, CancelStep, Sound, UpdateStatus, SetTradeStatus, ReplaceOne, ReplaceLeaves, Enterable;
    ReplaceLeftOpen(sc, cfg, f, r, v, tc, k);
  }

  /** Where it refuses the replacement the cancel is not undone: the order is executable again with
      nothing left to match, and the trade holds an order that was never placed, so that it cannot
      complete. */
  lemma RefusedReplaceReopens(sc: Scope, cfg: Config, f: Feed, r: RunnerBook, v: Option<int>, tc: TC, k: nat)
    requires k < |tc.0.orders| && OrderInv(sc, tc.0.orders[k]) && tc.0.orders[k].status == Some(Replacing)
    requires tc.0.orders[k].newPrice.Some? && Cancellable(tc.0.orders[k], f.book)
    requires !Enterable(cfg, f.book, r, v, tc.0.orders[k].sim.side, tc.0.orders[k].newPrice.value)
    ensures var (tc', outcome) := ReplaceOne(cfg, f, r, v, tc, k);
      && outcome == Refused && KeepsTheRest(tc, tc', k)
      && var n, o := |tc.0.orders|, tc.0.orders[k].sim;
         var reopened, created := tc'.0.orders[k], tc'.0.orders[n];
         && reopened.status == Some(Executable) && created.status == None && !WasPlaced(created)
         && reopened.sim.sizeMatched == o.sizeMatched && Remaining(reopened.sim) == 0
         && created.sim.sizeMatched == 0 && Remaining(created.sim) == 0
         && !OrdersComplete(tc'.0.orders[k := reopened.(status := Some(ExecutionComplete))])
  {
    hide PlaceStep, CancelStep, Sound, UpdateStatus, SetTradeStatus, ReplaceOne, ReplaceLeaves, Enterable, WasPlaced;
    ReplaceLeftOpen(sc, cfg, f, r, v, tc, k);
    var orders := ReplaceOne(cfg, f, r, v, tc, k).0.0.orders;
    assert orders[k := orders[k].(status := Some(ExecutionComplete))][|tc.0.orders|] == orders[|tc.0.orders|];
  }

  /** Either way one of the two orders is incomplete, so the block leaves the trade live. */
  lemma ReplaceLeftOpen(sc: Scope, cfg: Config, f: Feed, r: RunnerBook, v: Option<int>, tc: TC, k: nat)
    requires k < |tc.0.orders| && OrderInv(sc, tc.0.orders[k]) && tc.0.orders[k].status == Some(Replacing)
    requires tc.0.orders[k].newPrice.Some? && Cancellable(tc.0.orders[k], f.book)
    ensures var (first, second) := ReplaceLeaves(cfg, f, r, v, tc.0.orders[k]);
      var (tc', outcome) := ReplaceOne(cfg, f, r, v, tc, k);
      var ok := Enterable(cfg, f.book, r, v, tc.0.orders[k].sim.side, tc.0.orders[k].newPrice.value);
      && KeepsTheRest(tc, tc', k) && tc'.0.orders[k] == first && tc'.0.orders[|tc.0.orders|] == second
      && outcome == (if ok then Replaced else Refused)
      && first.status == Some(if ok then ExecutionComplete else Executable)
      && second.status == (if ok then Some(Executable) else None) && WasPlaced(second) == ok
      && Remaining(first.sim) == 0 && first.sim.sizeMatched == tc.0.orders[k].sim.sizeMatched
      && second.sim.sizeMatched + Remaining(second.sim) == (if ok then Remaining(tc.0.orders[k].sim) else 0)
      && (!ok ==> second.sim.sizeMatched == 0)
  {
    hide PlaceStep, CancelStep, Sound, UpdateStatus, SetTradeStatus, ReplaceOne, ReplaceLeaves, Enterable, WasPlaced;
    ReplaceOneLeaves(cfg, f, r, v, tc, k);
    WhenReplaced(cfg, f, r, v, tc, k);
    ReplacedOrders(sc, cfg, f, r, v, tc.0.orders[k]);
    var tc' := ReplaceOne(cfg, f, r, v, tc, k).0;
    var (first, second) := ReplaceLeaves(cfg, f, r, v, tc.0.orders[k]);
    assert tc'.0.orders[k] == first && tc'.0.orders[|tc.0.orders|] == second;
    assert !OrderComplete(first.status) || !OrderComplete(second.status);
    assert !OrdersComplete(tc'.0.orders);
    assert tc.0.log + [TradePending, Live] + [] == tc.0.log + [TradePending, Live];
  }

  /** As for a BACK of 10.00 at 2.00 whose replace to 2.10 is meant for a version the market has left:
      10.00 are cancelled, nothing is placed, and the order is executable with nothing left. */
  lemma ReplaceRefusedForItsVersion() returns (cfg: Config, f: Feed, tc: TC)
    ensures |tc.0.orders| == 1 && OrderInv(ANYTHING, tc.0.orders[0]) && tc.0.orders[0].status == Some(Replacing)
    ensures f.book.status == Open && f.book.version == 2 && Remaining(tc.0.orders[0].sim) == 1000
    ensures var (tc', outcome) := ReplaceOne(cfg, f, NoOffers, Some(1), tc, 0);
      && outcome == Refused && |tc'.0.orders| == 2
      && tc'.0.orders[0].status == Some(Executable) && tc'.0.orders[1].status == None
      && Remaining(tc'.0.orders[0].sim) == 0 && tc'.0.orders[1].sim.sizeMatched == 0
  {
    hide ReplaceOne, Sound, Reached;
    var s := Initial(Back, Limit(200, 1000, Lapse));
    InitialIsSound(s.side, s.otype);
    var price: Price := 210;
    var o := Order(s.(version := Some(1)), Some(Replacing), [Pending, Executable, Replacing], true, None, Some(price));
    StepKeepsSound(s, Event.Placed(None, true, PlainBook, NoOffers));
    PlaceQuietly(s);
    CreatedIsReached(s.side, s.otype);
    ReachedGoesOn(s, Event.Placed(None, true, PlainBook, NoOffers));
    cfg := Config(OrderLimits(1, 1, 1, 1), true, 0);
    f := Feed(0, PlainBook.(version := 2), _ => NoOffers, _ => []);
    tc := (Trade(0, Live, [], [o]), Context([0], [0], Some(0), None));
    RefusedReplaceReopens(ANYTHING, cfg, f, NoOffers, Some(1), tc, 0);
  }
}
