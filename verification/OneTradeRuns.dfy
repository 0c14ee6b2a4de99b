/**
 Three runs of a backtest with one trade of BACK orders of 10.00 at 2.00: a refusal that strands the
 trade, a pass that leaves a live order of a complete trade, and an open order that is lost. Each order
 is placed on a market with no offers and lapses when the market is suspended.
 */
module OneTradeRuns {
  import opened Lists
  import opened Exchange
  import opened Simulation
  import opened Accounting
  import opened Lifecycle
  import opened Packaging
  import opened Protocol
  import opened TradeSteps
  import opened Completion
  import opened BacktestRuns

  const CONFIG := Config(OrderLimits(1, 1, 1, 1), true, 0)
  const OFFERS: Runner -> RunnerBook := _ => NoOffers
  const TRADED: Runner -> seq<Level> := _ => []
  const SUSPENSION := PlainBook.(status := Suspended, version := 2)

  /** A market update with nothing on offer. */
  function Update(now: int, book: MarketBook): Feed { Feed(now, book, OFFERS, TRADED) }

  const START := Started(Update(0, PlainBook))

  const ORDER := NewOrder(Back, Limit(200, 1000, Lapse))

  const FIRST := Ref(0, 0)
  const SECOND := Ref(0, 1)

  /** The trade with its context, and what surrounds it. */
  function Market(tc: TC, live: seq<Ref>, queue: seq<Queued>, book: MarketBook): World {
    World([Held(tc.0, 0)], map[0 := tc.1], live, EmptyTxn(), queue, Quotes(book, OFFERS))
  }

  function With(tc: TC, os: seq<Order>): TC { (tc.0.(orders := os), tc.1) }

  lemma MarketWith(tc: TC, tc': TC, live: seq<Ref>, queue: seq<Queued>, book: MarketBook)
    ensures var w := Market(tc, live, queue, book);
      TCOf(w, 0) == tc && WithTC(w, 0, tc') == Market(tc', live, queue, book)
  {
  }

  // ----- running on

  /** The steps are admitted and orderly and lead there. */
  ghost predicate Reaches(steps: seq<Step>, w: World) {
    ValidSteps(CONFIG, START, steps) && AllOrderly(CONFIG, START, steps) && After(CONFIG, START, steps) == w
  }

  lemma {:induction false} RunOn(w: World, steps: seq<Step>, s: Step)
    requires ValidSteps(CONFIG, w, steps) && AllOrderly(CONFIG, w, steps)
    requires var t := After(CONFIG, w, steps); Admissible(CONFIG, t, s) && Orderly(t, s)
    ensures ValidSteps(CONFIG, w, steps + [s]) && AllOrderly(CONFIG, w, steps + [s])
    ensures After(CONFIG, w, steps + [s]) == Next(CONFIG, After(CONFIG, w, steps), s)
    decreases |steps|
  {
    hide Admissible, Orderly, Next;
    if steps == [] {
      assert [] + [s] == [s] && [s][1..] == [];
    } else {
      RunOn(Next(CONFIG, w, steps[0]), steps[1..], s);
      assert (steps + [s])[1..] == steps[1..] + [s];
    }
  }

  lemma Then(steps: seq<Step>, w: World, s: Step)
    requires Reaches(steps, w) && Admissible(CONFIG, w, s) && Orderly(w, s)
    ensures Reaches(steps + [s], Next(CONFIG, w, s))
  {
    hide Admissible, Orderly, Next;
    RunOn(START, steps, s);
  }

  lemma NoSteps()
    ensures Reaches([], START)
  {
  }

  // ----- creation

  lemma Opened() returns (steps: seq<Step>)
    ensures Reaches(steps, Market((Trade(0, Live, [], [ORDER]), FreshContext), [], [], PlainBook))
  {
    hide Reaches;
    var trade, create := CreateTrade(0), CreateOrder(0, Back, Limit(200, 1000, Lapse));
    NoSteps();
    Then([], START, trade);
    var w := Next(CONFIG, START, trade);
    Then([] + [trade], w, create);
    assert w.trades == [Held(Trade(0, Live, [], []), 0)];
    var t, empty := Next(CONFIG, w, create), Trade(0, Live, [], []);
    assert TCOf(w, 0) == (empty, FreshContext);
    assert empty.orders + [ORDER] == [ORDER];
    assert t == WithTC(w, 0, (empty.(orders := [ORDER]), FreshContext));
    assert t.trades == [Held(Trade(0, Live, [], [ORDER]), 0)];
    assert t.contexts == map[0 := FreshContext];
    assert t == Market((Trade(0, Live, [], [ORDER]), FreshContext), [], [], PlainBook);
    steps := [] + [trade] + [create];
  }

  lemma Another(steps: seq<Step>, tc: TC, live: seq<Ref>, queue: seq<Queued>, book: MarketBook)
    returns (next: seq<Step>)
    requires Reaches(steps, Market(tc, live, queue, book))
    ensures Reaches(next, Market(With(tc, tc.0.orders + [ORDER]), live, queue, book))
  {
    hide Reaches;
    var w, create := Market(tc, live, queue, book), CreateOrder(0, Back, Limit(200, 1000, Lapse));
    Then(steps, w, create);
    MarketWith(tc, With(tc, tc.0.orders + [ORDER]), live, queue, book);
    next := steps + [create];
  }

  // ----- placing

  function Asked(r: Ref, now: int): Queued { Queued(Package(Place, [r], None), now, 120) }

  const WAITING := UpdateStatus(ORDER, Pending)

  lemma Ask(steps: seq<Step>, tc: TC, live: seq<Ref>, queue: seq<Queued>, book: MarketBook, k: nat, now: int)
    returns (next: seq<Step>)
    requires Reaches(steps, Market(tc, live, queue, book)) && k < |tc.0.orders| && tc.0.orders[k] == ORDER
    requires tc.0.id == 0
    ensures var asked: TC := (tc.0.(orders := tc.0.orders[k := WAITING]), PlaceTrade(tc.1, 0, now));
      Reaches(next, Market(asked, live + [Ref(0, k)], queue + [Asked(Ref(0, k), now)], book))
  {
    hide Reaches, SetOrderStatus, Packages, PlaceTrade;
    var w, how, r := Market(tc, live, queue, book), How(now, 0, false), Ref(0, k);
    var ask, os := AskPlace(r, None, how), tc.0.orders[k := WAITING];
    Then(steps, w, ask);
    OrderUpdateOutcome(tc, k, Pending, now);
    assert !OrdersComplete(os) by { assert !OrderComplete(os[k].status); }
    assert tc.0.log + [] == tc.0.log;
    OnePackage(Place, Request(r, None), CONFIG.limits);
    var asked: TC := (tc.0.(orders := os), PlaceTrade(tc.1, 0, now));
    MarketWith(tc, asked, live, queue, book);
    assert ToQueue([Package(Place, [r], None)], how) == [Asked(r, now)];
    next := steps + [ask];
  }

  // ----- the parts of an update

  /** The market is open. */
  function OpenAt(version: int): MarketBook { PlainBook.(version := version) }

  function OnExchange(version: int): Order {
    UpdateStatus(WAITING.(sim := ORDER.sim.(version := Some(version)), hasBet := true), Executable)
  }

  const PLACED := OnExchange(1)

  /** A due package is delivered: the order is on the exchange, and its trade live. */
  function Delivered(tc: TC, k: nat, version: int): TC
    requires k < |tc.0.orders|
  {
    var os := tc.0.orders[k := OnExchange(version)];
    (tc.0.(orders := os, status := Live, log := tc.0.log + [TradePending, Live]), tc.1)
  }

  lemma Deliver(f: Feed, tc: TC, live: seq<Ref>, queue: seq<Queued>, k: nat, q: Queued, v: int)
    requires f.book == OpenAt(v) && f.runners == OFFERS && k < |tc.0.orders| && tc.0.orders[k] == WAITING
    requires q.package == Package(Place, [Ref(0, k)], None)
    ensures DeliverAll(CONFIG, f, q.package, Market(tc, live, queue, OpenAt(v)), q.package.orders)
         == (Market(Delivered(tc, k, v), live, queue, OpenAt(v)), true)
  {
    hide PlaceOne, PlaceStep, DeliverOne, Delivered;
    var w := Market(tc, live, queue, OpenAt(v));
    PlaceAlone(f, tc, k, v);
    MarketWith(tc, Delivered(tc, k, v), live, queue, OpenAt(v));
    DeliverThis(f, q.package, w, k);
    assert q.package.orders[1..] == [];
  }

  lemma DeliverThis(f: Feed, p: Package<Ref>, w: World, k: nat)
    requires p.kind == Place && Has(w, Ref(0, k)) && OrderAt(w, Ref(0, k)) == WAITING
    ensures DeliverOne(CONFIG, f, p, w, Ref(0, k))
         == (WithTC(w, 0, PlaceOne(CONFIG, f, f.runners(w.trades[0].runner), p.version, TCOf(w, 0), k)), true)
  {
    hide PlaceOne;
  }

  lemma PlaceAlone(f: Feed, tc: TC, k: nat, v: int)
    requires f.book == OpenAt(v) && k < |tc.0.orders| && tc.0.orders[k] == WAITING
    ensures PlaceOne(CONFIG, f, NoOffers, None, tc, k) == Delivered(tc, k, v)
  {
    hide PlaceOne, PlaceStep;
    Accepted(v);
    PlaceOneLeaves(CONFIG, f, NoOffers, None, tc, k);
    var os := tc.0.orders[k := OnExchange(v)];
    assert !OrdersComplete(os) by { assert !OrderComplete(os[k].status); }
    assert tc.0.log + [TradePending, Live] + [] == tc.0.log + [TradePending, Live];
  }

  lemma Accepted(v: int)
    ensures PlaceStep(WAITING.sim, None, true, OpenAt(v), NoOffers) == (ORDER.sim.(version := Some(v)), true)
  {
  }

  const LAPSED := PLACED.(sim := LapseRest(PLACED.sim.(version := Some(2))))

  /** The suspension lapses an order on the exchange. */
  lemma Match(f: Feed, tc: TC, live: seq<Ref>, queue: seq<Queued>, k: nat)
    requires f.book == SUSPENSION && k < |tc.0.orders| && tc.0.orders[k] == PLACED
    ensures MatchOne(CONFIG, f, Market(tc, live, queue, SUSPENSION), Ref(0, k))
         == Market(PutOrder(tc, k, LAPSED), live, queue, SUSPENSION)
  {
    hide TradeAll, SpStep;
    MarketWith(tc, PutOrder(tc, k, LAPSED), live, queue, SUSPENSION);
  }

  const OVER := UpdateStatus(LAPSED, ExecutionComplete)

  /** What the pass makes of a live trade when it finds an order lapsed. */
  function Ended(tc: TC, k: nat, now: int): TC
    requires k < |tc.0.orders|
  {
    var os := tc.0.orders[k := OVER];
    if OrdersComplete(os) then
      (tc.0.(orders := os, status := Complete, log := tc.0.log + [Complete]), ResetTrade(tc.1, tc.0.id, now))
    else With(tc, os)
  }

  lemma Finish(tc: TC, live: seq<Ref>, queue: seq<Queued>, k: nat, now: int)
    requires k < |tc.0.orders| && tc.0.orders[k] == LAPSED && tc.0.status == Live
    ensures var ended := Ended(tc, k, now);
      CompleteOne(Market(tc, live, queue, SUSPENSION), Ref(0, k), now)
      == Market(ended, if ended.0.status == Complete then Without(live, Ref(0, k)) else live, queue, SUSPENSION)
  {
    hide SetOrderStatus, Without, Ended, Done, UpdateStatus;
    var w, r := Market(tc, live, queue, SUSPENSION), Ref(0, k);
    EndedBy(tc, k, now);
    LapsedIsDone();
    MarketWith(tc, Ended(tc, k, now), live, queue, SUSPENSION);
    assert OrderAt(w, r) == LAPSED;
    assert CompleteIfDone(w, r, now) == Market(Ended(tc, k, now), live, queue, SUSPENSION);
  }

  lemma LapsedIsDone()
    ensures Done(LAPSED.sim)
  {
  }

  lemma EndedBy(tc: TC, k: nat, now: int)
    requires k < |tc.0.orders| && tc.0.orders[k] == LAPSED && tc.0.status == Live
    ensures SetOrderStatus(tc, k, ExecutionComplete, now) == Ended(tc, k, now)
  {
    hide SetOrderStatus, OrdersComplete, UpdateStatus;
    OrderUpdateOutcome(tc, k, ExecutionComplete, now);
    assert tc.0.log + [] == tc.0.log;
  }

  // ----- the suspension

  lemma CheckHead(f: Feed, w: World, q: Queued, rest: seq<Queued>, w1: World)
    requires Due(f, q) && DeliverAll(CONFIG, f, q.package, w, q.package.orders) == (w1, true)
    ensures var (w2, kept, ok) := Check(CONFIG, f, w1, rest);
      ok ==> Check(CONFIG, f, w, [q] + rest) == (w2, kept, true)
  {
    hide DeliverAll, Due;
    assert ([q] + rest)[1..] == rest;
  }

  /** The trade after the first order is delivered, lapsed and completed. */
  function AfterSuspension(tc: TC): TC
    requires tc.0.orders != []
  {
    Ended(PutOrder(Delivered(tc, 0, 1), 0, LAPSED), 0, 1000)
  }

  /** One order is waiting to be placed and nothing else is live. */
  lemma SuspendFirst(steps: seq<Step>, tc: TC) returns (next: seq<Step>)
    requires Reaches(steps, Market(tc, [FIRST], [Asked(FIRST, 0)], PlainBook))
    requires tc.0.orders != [] && tc.0.orders[0] == WAITING
    ensures var ended := AfterSuspension(tc);
      Reaches(next, Market(ended, if ended.0.status == Complete then [] else [FIRST], [], SUSPENSION))
  {
    hide Reaches, DeliverAll, CompleteOne, MatchOne, Ended, Delivered, UpdateStatus;
    var w, f := Market(tc, [FIRST], [Asked(FIRST, 0)], PlainBook), Update(1000, SUSPENSION);
    var g, q := AtExecution(f, w.quotes), Asked(FIRST, 0);
    DeliveredOrders(tc, 0, 1);
    var placed, lapsed := Delivered(tc, 0, 1), PutOrder(Delivered(tc, 0, 1), 0, LAPSED);
    var ended := Ended(lapsed, 0, 1000);
    Deliver(g, tc, [FIRST], [q], 0, q, 1);
    CheckHead(g, w, q, [], Market(placed, [FIRST], [q], PlainBook));
    assert [q] + [] == [q];
    var w2 := Market(placed, [FIRST], [], SUSPENSION);
    Match(f, placed, [FIRST], [], 0);
    assert MatchAll(CONFIG, f, w2, [FIRST]) == Market(lapsed, [FIRST], [], SUSPENSION) by {
      assert [FIRST][1..] == [];
    }
    Finish(lapsed, [FIRST], [], 0, 1000);
    assert [FIRST][1..] == [];
    assert MarketUpdate(CONFIG, f, w)
        == (Market(ended, if ended.0.status == Complete then [] else [FIRST], [], SUSPENSION), true);
    Then(steps, w, ProcessUpdate(f));
    next := steps + [ProcessUpdate(f)];
  }

  lemma DeliveredOrders(tc: TC, k: nat, v: int)
    requires k < |tc.0.orders|
    ensures Delivered(tc, k, v).0.orders == tc.0.orders[k := OnExchange(v)] && Delivered(tc, k, v).0.status == Live
    ensures Delivered(tc, k, v).1 == tc.1 && Delivered(tc, k, v).0.id == tc.0.id
  {
  }

  lemma FirstIsOver(tc: TC)
    requires tc.0.orders != []
    ensures var ended := AfterSuspension(tc);
      && ended.0.orders == tc.0.orders[0 := OVER] && ended.0.id == tc.0.id
      && ended.0.status == (if OthersComplete(tc.0.orders, 0) then Complete else Live)
      && (ended.0.status == Live ==> ended.1 == tc.1)
  {
    var os := AfterSuspension(tc).0.orders;
    assert os == tc.0.orders[0 := OVER];
    assert OrdersComplete(os) <==> OthersComplete(tc.0.orders, 0) by {
      assert forall i :: 0 <= i < |os| && i != 0 ==> os[i] == tc.0.orders[i];
    }
  }

  /** The first order placed and over, with the trade's other orders never requested. */
  lemma FirstAlone(others: seq<Order>, steps: seq<Step>) returns (next: seq<Step>, tc: TC)
    requires Reaches(steps, Market((Trade(0, Live, [], [ORDER] + others), FreshContext), [], [], PlainBook))
    requires forall o :: o in others ==> o == ORDER
    ensures Reaches(next, Market(tc, if others == [] then [] else [FIRST], [], SUSPENSION))
    ensures tc.0.id == 0 && tc.0.orders == [OVER] + others
    ensures tc.0.status == if others == [] then Complete else Live
    ensures others != [] ==> 0 in tc.1.liveTrades
  {
    hide Reaches, AfterSuspension, UpdateStatus, PlaceTrade;
    tc := (Trade(0, Live, [], [ORDER] + others), FreshContext);
    var asked := Ask(steps, tc, [], [], PlainBook, 0, 0);
    tc := (tc.0.(orders := tc.0.orders[0 := WAITING]), PlaceTrade(tc.1, 0, 0));
    assert [] + [FIRST] == [FIRST] && [] + [Asked(FIRST, 0)] == [Asked(FIRST, 0)];
    next := SuspendFirst(asked, tc);
    AloneOver(others, tc);
    tc := AfterSuspension(tc);
  }

  lemma AloneOver(others: seq<Order>, tc: TC)
    requires tc == (Trade(0, Live, [], ([ORDER] + others)[0 := WAITING]), PlaceTrade(FreshContext, 0, 0))
    requires forall o :: o in others ==> o == ORDER
    ensures var over := AfterSuspension(tc);
      && over.0.id == 0 && over.0.orders == [OVER] + others
      && over.0.status == (if others == [] then Complete else Live)
      && (others != [] ==> 0 in over.1.liveTrades)
  {
    hide AfterSuspension, UpdateStatus;
    FirstIsOver(tc);
    if others != [] {
      assert tc.0.orders[1] == others[0] && others[0] in others;
      assert ORDER.status == None;
    }
  }

  // ----- the runs

  /** The only trade is left live with nothing in it incomplete, and nothing is left to come. */
  lemma StrandedByRefusal() returns (steps: seq<Step>)
    ensures ValidSteps(CONFIG, START, steps) && AllOrderly(CONFIG, START, steps)
    ensures var w := After(CONFIG, START, steps);
      && |w.trades| == 1 && w.queue == [] && w.txn == EmptyTxn()
      && w.trades[0].trade.status == Live && OrdersComplete(w.trades[0].trade.orders)
      && w.trades[0].trade.id in ContextOf(w, w.trades[0].runner).liveTrades
  {
    hide Admissible, Orderly, Next, UpdateStatus, SetOrderStatus;
    var two := TwoCreated();
    assert [ORDER] + [ORDER] == [ORDER, ORDER];
    var suspended, tc := FirstAlone([ORDER], two);
    var w, refuse := Market(tc, [FIRST], [], SUSPENSION), Refuse(SECOND, 1000);
    RefusedLast(tc);
    Then(suspended, w, refuse);
    steps := suspended + [refuse];
  }

  lemma RefusedLast(tc: TC)
    requires tc.0.id == 0 && tc.0.status == Live && tc.0.orders == [OVER, ORDER] && 0 in tc.1.liveTrades
    ensures var w, refuse := Market(tc, [FIRST], [], SUSPENSION), Refuse(SECOND, 1000);
      && Admissible(CONFIG, w, refuse) && Orderly(w, refuse)
      && var w' := Next(CONFIG, w, refuse);
         && |w'.trades| == 1 && w'.queue == [] && w'.txn == EmptyTxn()
         && w'.trades[0].trade.status == Live && OrdersComplete(w'.trades[0].trade.orders)
         && w'.trades[0].trade.id in ContextOf(w', w'.trades[0].runner).liveTrades
  {
    hide SetOrderStatus;
    OrderUpdateOutcome(tc, 1, Violation, 1000);
    MarketWith(tc, SetOrderStatus(tc, 1, Violation, 1000), [FIRST], [], SUSPENSION);
  }

  /** Both orders of the trade lapse at the same update, and the pass at its end completes the trade when
      it looks at the second: the first is left. */
  lemma LeftByOnePass() returns (steps: seq<Step>)
    ensures ValidSteps(CONFIG, START, steps) && AllOrderly(CONFIG, START, steps)
    ensures var w := After(CONFIG, START, steps);
      w.live == [FIRST] && TradeStatusOf(w, 0) == Some(Complete)
  {
    hide Next, Admissible, Orderly, MarketUpdate;
    var asked, tc := AskBoth();
    var w, f := Market(tc, BOTH, ASKED, PlainBook), Update(1000, SUSPENSION);
    var left := SuspendBoth(w, f, tc);
    UpdateRuns(w, f);
    Then(asked, w, ProcessUpdate(f));
    steps := asked + [ProcessUpdate(f)];
  }

  /** An update that raises nothing is a step. */
  lemma UpdateRuns(w: World, f: Feed)
    requires f.book.status != Closed && f.runners == OFFERS && MarketUpdate(CONFIG, f, w).1
    ensures Admissible(CONFIG, w, ProcessUpdate(f)) && Orderly(w, ProcessUpdate(f))
    ensures Next(CONFIG, w, ProcessUpdate(f)) == MarketUpdate(CONFIG, f, w).0
  {
    hide MarketUpdate;
  }

  lemma TwoCreated() returns (steps: seq<Step>)
    ensures Reaches(steps, Market((Trade(0, Live, [], [ORDER, ORDER]), FreshContext), [], [], PlainBook))
  {
    hide Reaches;
    var one := Opened();
    steps := Another(one, (Trade(0, Live, [], [ORDER]), FreshContext), [], [], PlainBook);
    assert [ORDER] + [ORDER] == [ORDER, ORDER];
  }

  lemma AskBoth() returns (steps: seq<Step>, tc: TC)
    ensures tc.0.orders == [WAITING, WAITING] && Reaches(steps, Market(tc, BOTH, ASKED, PlainBook))
  {
    hide Reaches, PlaceTrade;
    var two := TwoCreated();
    tc := (Trade(0, Live, [], [ORDER, ORDER]), FreshContext);
    var three := Ask(two, tc, [], [], PlainBook, 0, 0);
    tc := (tc.0.(orders := tc.0.orders[0 := WAITING]), PlaceTrade(tc.1, 0, 0));
    assert [] + [FIRST] == [FIRST] && [] + [Asked(FIRST, 0)] == [Asked(FIRST, 0)];
    steps := Ask(three, tc, [FIRST], [Asked(FIRST, 0)], PlainBook, 1, 0);
    tc := (tc.0.(orders := tc.0.orders[1 := WAITING]), PlaceTrade(tc.1, 0, 0));
    assert [FIRST] + [SECOND] == BOTH && [Asked(FIRST, 0)] + [Asked(SECOND, 0)] == ASKED;
  }

  const BOTH := [FIRST, SECOND]
  const ASKED := [Asked(FIRST, 0), Asked(SECOND, 0)]

  lemma SuspendBoth(w: World, f: Feed, tc: TC) returns (left: TC)
    requires w == Market(tc, BOTH, ASKED, PlainBook) && f == Update(1000, SUSPENSION)
    requires tc.0.orders == [WAITING, WAITING]
    ensures left.0.status == Complete
    ensures MarketUpdate(CONFIG, f, w) == (Market(left, [FIRST], [], SUSPENSION), true)
  {
    hide Check, MatchAll, CompleteAll;
    var placed := DeliverBoth(w, AtExecution(f, w.quotes), tc);
    var lapsed := MatchBoth(f, placed);
    left := FinishBoth(lapsed);
  }

  lemma DeliverBoth(w: World, g: Feed, tc: TC) returns (placed: TC)
    requires w == Market(tc, BOTH, ASKED, PlainBook) && g == Update(1000, PlainBook)
    requires tc.0.orders == [WAITING, WAITING]
    ensures placed.0.orders == [PLACED, PLACED] && placed.0.status == Live
    ensures Check(CONFIG, g, w, ASKED) == (Market(placed, BOTH, ASKED, PlainBook), [], true)
  {
    hide Delivered, DeliverAll, Due;
    DeliveredOrders(tc, 0, 1);
    var one := Delivered(tc, 0, 1);
    DeliveredOrders(one, 1, 1);
    placed := Delivered(one, 1, 1);
    Deliver(g, tc, BOTH, ASKED, 0, Asked(FIRST, 0), 1);
    Deliver(g, one, BOTH, ASKED, 1, Asked(SECOND, 0), 1);
    var w1, w2 := Market(one, BOTH, ASKED, PlainBook), Market(placed, BOTH, ASKED, PlainBook);
    assert Due(g, Asked(FIRST, 0)) && Due(g, Asked(SECOND, 0)) by { AreDue(g); }
    CheckHead(g, w1, Asked(SECOND, 0), [], w2);
    CheckHead(g, w, Asked(FIRST, 0), [Asked(SECOND, 0)], w1);
    assert [Asked(SECOND, 0)] + [] == [Asked(SECOND, 0)];
    assert [Asked(FIRST, 0)] + [Asked(SECOND, 0)] == ASKED;
  }

  lemma AreDue(g: Feed)
    requires g.now == 1000
    ensures Due(g, Asked(FIRST, 0)) && Due(g, Asked(SECOND, 0))
  {
  }

  lemma InTurn(f: Feed, w: World, r: Ref, s: Ref)
    ensures MatchAll(CONFIG, f, w, [r, s]) == MatchOne(CONFIG, f, MatchOne(CONFIG, f, w, r), s)
    ensures CompleteAll(w, [r, s], f.now) == CompleteOne(CompleteOne(w, r, f.now), s, f.now)
  {
    hide MatchOne, CompleteOne;
    assert [r, s][1..] == [s] && [s][1..] == [];
    assert MatchAll(CONFIG, f, MatchOne(CONFIG, f, w, r), [s]) == MatchOne(CONFIG, f, MatchOne(CONFIG, f, w, r), s);
    assert CompleteAll(CompleteOne(w, r, f.now), [s], f.now) == CompleteOne(CompleteOne(w, r, f.now), s, f.now);
  }

  lemma MatchBoth(f: Feed, placed: TC) returns (lapsed: TC)
    requires f == Update(1000, SUSPENSION) && placed.0.orders == [PLACED, PLACED]
    ensures lapsed.0.orders == [LAPSED, LAPSED] && lapsed.0.status == placed.0.status
    ensures MatchAll(CONFIG, f, Market(placed, BOTH, [], SUSPENSION), BOTH) == Market(lapsed, BOTH, [], SUSPENSION)
  {
    hide MatchOne, MatchAll;
    var one := PutOrder(placed, 0, LAPSED);
    lapsed := PutOrder(one, 1, LAPSED);
    Match(f, placed, BOTH, [], 0);
    Match(f, one, BOTH, [], 1);
    InTurn(f, Market(placed, BOTH, [], SUSPENSION), FIRST, SECOND);
  }

  lemma FinishBoth(lapsed: TC) returns (left: TC)
    requires lapsed.0.orders == [LAPSED, LAPSED] && lapsed.0.status == Live
    ensures left.0.status == Complete
    ensures CompleteAll(Market(lapsed, BOTH, [], SUSPENSION), BOTH, 1000) == Market(left, [FIRST], [], SUSPENSION)
  {
    hide CompleteOne, CompleteAll, UpdateStatus;
    var one := Ended(lapsed, 0, 1000);
    left := Ended(one, 1, 1000);
    assert OrderComplete(OVER.status) && !OrderComplete(LAPSED.status) by { HowTheyStand(); }
    Finish(lapsed, BOTH, [], 0, 1000);
    Finish(one, BOTH, [], 1, 1000);
    InTurn(Update(1000, SUSPENSION), Market(lapsed, BOTH, [], SUSPENSION), FIRST, SECOND);
    assert Without(BOTH, SECOND) == [FIRST];
  }

  lemma HowTheyStand()
    ensures OrderComplete(OVER.status) && !OrderComplete(LAPSED.status)
  {
  }

  /** The second order is created and placed in the trade that the first has completed. The update before
      it is due takes it off the live orders, and the next makes it executable: it is never matched. */
  lemma OpenOrderIsLost() returns (steps: seq<Step>)
    ensures ValidSteps(CONFIG, START, steps) && AllOrderly(CONFIG, START, steps)
    ensures !AllWithin(NONE_LATE, CONFIG, START, steps)
    ensures var w := After(CONFIG, START, steps);
      && Has(w, SECOND) && Status(w, SECOND) == Some(Executable) && Remaining(OrderAt(w, SECOND).sim) == 1000
      && SECOND !in w.live && w.queue == []
  {
    hide Next, Admissible, Orderly, MarketUpdate, AllWithin, Reaches, Delivered, OnExchange;
    var waiting, tc := AskSecond();
    var w, f, g := Market(tc, [SECOND], LATE, SUSPENSION), Update(1001, OpenAt(3)), Update(2000, OpenAt(3));
    TooEarly(w, f, tc);
    UpdateRuns(w, f);
    Then(waiting, w, ProcessUpdate(f));
    var w1 := Market(tc, [], LATE, OpenAt(3));
    InTime(w1, g, tc);
    UpdateRuns(w1, g);
    Then(waiting + [ProcessUpdate(f)], w1, ProcessUpdate(g));
    steps := waiting + [ProcessUpdate(f)] + [ProcessUpdate(g)];
    DeliveredOrders(tc, 1, 3);
    var w2 := Market(Delivered(tc, 1, 3), [], [], OpenAt(3));
    IsLost(steps, w2);
  }

  lemma IsLost(steps: seq<Step>, w: World)
    requires Reaches(steps, w) && Has(w, SECOND) && OrderAt(w, SECOND) == OnExchange(3) && w.live == []
    ensures ValidSteps(CONFIG, START, steps) && AllOrderly(CONFIG, START, steps)
    ensures After(CONFIG, START, steps) == w && !AllWithin(NONE_LATE, CONFIG, START, steps)
    ensures Status(w, SECOND) == Some(Executable) && Remaining(OrderAt(w, SECOND).sim) == 1000
  {
    hide AllWithin, ValidSteps, AllOrderly, After;
    assert IsOpen(Status(w, SECOND));
    OpenOrdersAreLive(CONFIG, Update(0, PlainBook), steps);
  }

  const LATE := [Asked(SECOND, 1000)]

  lemma AskSecond() returns (steps: seq<Step>, tc: TC)
    ensures tc.0.orders == [OVER, WAITING] && tc.0.status == Complete
    ensures Reaches(steps, Market(tc, [SECOND], LATE, SUSPENSION))
  {
    hide Reaches, PlaceTrade;
    var one := Opened();
    assert [ORDER] + [] == [ORDER];
    var two, over := FirstAlone([], one);
    var three := Another(two, over, [], [], SUSPENSION);
    tc := With(over, over.0.orders + [ORDER]);
    steps := Ask(three, tc, [], [], SUSPENSION, 1, 1000);
    tc := (tc.0.(orders := tc.0.orders[1 := WAITING]), PlaceTrade(tc.1, 0, 1000));
    assert [] + [SECOND] == [SECOND] && [] + [Asked(SECOND, 1000)] == LATE;
  }

  lemma TooEarly(w: World, f: Feed, tc: TC)
    requires w == Market(tc, [SECOND], LATE, SUSPENSION) && f == Update(1001, OpenAt(3))
    requires tc.0.orders == [OVER, WAITING] && tc.0.status == Complete
    ensures MarketUpdate(CONFIG, f, w) == (Market(tc, [], LATE, OpenAt(3)), true)
  {
    hide SetOrderStatus, UpdateStatus;
    var g, w2 := AtExecution(f, w.quotes), Market(tc, [SECOND], LATE, OpenAt(3));
    assert LATE[1..] == [] && [SECOND][1..] == [];
    assert LATE + [] == LATE;
    assert Check(CONFIG, g, w, LATE) == (w, LATE, true);
    assert Status(w2, SECOND) == Some(Pending) && !Done(WAITING.sim) by { StillWaiting(); }
    assert MatchAll(CONFIG, f, w2, [SECOND]) == w2;
    MarketWith(tc, tc, [SECOND], LATE, OpenAt(3));
    assert Without([SECOND], SECOND) == [];
    assert CompleteAll(w2, [SECOND], 1001) == Market(tc, [], LATE, OpenAt(3));
  }

  lemma StillWaiting()
    ensures WAITING.status == Some(Pending) && !Done(WAITING.sim)
  {
  }

  lemma InTime(w: World, f: Feed, tc: TC)
    requires w == Market(tc, [], LATE, OpenAt(3)) && f == Update(2000, OpenAt(3))
    requires tc.0.orders == [OVER, WAITING]
    ensures MarketUpdate(CONFIG, f, w) == (Market(Delivered(tc, 1, 3), [], [], OpenAt(3)), true)
  {
    hide DeliverAll, Delivered;
    var g, w1 := AtExecution(f, w.quotes), Market(Delivered(tc, 1, 3), [], LATE, OpenAt(3));
    Deliver(g, tc, [], LATE, 1, LATE[0], 3);
    CheckHead(g, w, LATE[0], [], w1);
    assert [LATE[0]] + [] == LATE;
  }
}
