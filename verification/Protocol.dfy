/**
 The backtest of one market as a state machine (flumine/backtest/backtest.py, flumine/execution/
 simulatedexecution.py): strategies create and request, transactions send packages, and every
 market update first delivers the packages that are due, then matches orders, then completes them.
 */
module Protocol {
  import opened Lists
  import opened Exchange
  import opened Simulation
  import opened Accounting
  import opened Lifecycle
  import opened Packaging

  type Runner = int

  /** An order by its place in its trade. */
  datatype Ref = Ref(trade: nat, order: nat)

  datatype Held = Held(trade: Trade, runner: Runner)

  datatype Queued = Queued(package: Package<Ref>, created: int, delay: int)

  datatype World = World(
    trades: seq<Held>,
    contexts: map<Runner, Context>,
    live: seq<Ref>,       // the blotter's live orders
    txn: Txn<Ref>,        // requests batched and not yet executed
    queue: seq<Queued>,   // the handler queue
    quotes: Quotes)       // the market's book as last processed

  datatype Quotes = Quotes(book: MarketBook, runners: Runner -> RunnerBook)

  datatype Config = Config(limits: OrderLimits, bestPriceExecution: bool, minBspLiability: int)

  /** A market update: the book, and per runner its offers and what was traded since the last one. */
  datatype Feed = Feed(
    now: int,
    book: MarketBook,
    runners: Runner -> RunnerBook,
    traded: Runner -> seq<Level>)

  /** When and how a request is made: in the open transaction or in one of its own. */
  datatype How = How(now: int, betDelay: int, batched: bool)

  /** The market as its first update adds it. */
  function Started(first: Feed): World {
    World([], map[], [], EmptyTxn(), [], Quotes(first.book, first.runners))
  }

  predicate Has(w: World, r: Ref) {
    r.trade < |w.trades| && r.order < |w.trades[r.trade].trade.orders|
  }

  function OrderAt(w: World, r: Ref): Order
    requires Has(w, r)
  {
    w.trades[r.trade].trade.orders[r.order]
  }

  function Status(w: World, r: Ref): Option<OrderStatus> {
    if Has(w, r) then OrderAt(w, r).status else None
  }

  function ContextOf(w: World, r: Runner): Context {
    if r in w.contexts then w.contexts[r] else FreshContext
  }

  function TCOf(w: World, t: nat): TC
    requires t < |w.trades|
  {
    (w.trades[t].trade, ContextOf(w, w.trades[t].runner))
  }

  function WithTC(w: World, t: nat, tc: TC): World
    requires t < |w.trades|
  {
    var runner := w.trades[t].runner;
    w.(trades := w.trades[t := Held(tc.0, runner)], contexts := w.contexts[runner := tc.1])
  }

  function PutOrder(tc: TC, k: nat, o: Order): TC
    requires k < |tc.0.orders|
  {
    (tc.0.(orders := tc.0.orders[k := o]), tc.1)
  }

  // ----- execution of one order of a package, inside `with order.trade`

  ghost function PlaceOne(cfg: Config, f: Feed, r: RunnerBook, version: Option<int>, tc: TC, k: nat): TC
    requires k < |tc.0.orders|
  {
    var tc := SetTradeStatus(tc, TradePending, f.now);
    var o := tc.0.orders[k];
    var (sim, ok) := PlaceStep(o.sim, version, cfg.bestPriceExecution, f.book, r);
    var tc := PutOrder(tc, k, o.(sim := sim, hasBet := true));
    var tc := SetOrderStatus(tc, k, if ok then Executable else ExecutionComplete, f.now);
    SetTradeStatus(tc, Live, f.now)
  }

  ghost function CancelOne(f: Feed, tc: TC, k: nat): TC
    requires k < |tc.0.orders|
  {
    var tc := SetTradeStatus(tc, TradePending, f.now);
    var o := tc.0.orders[k];
    var (sim, size) := CancelStep(o.sim, f.book, o.reduction);
    var tc := PutOrder(tc, k, o.(sim := sim));
    var s := if size.Some? && Remaining(sim) == 0 then ExecutionComplete else Executable;
    SetTradeStatus(SetOrderStatus(tc, k, s, f.now), Live, f.now)
  }

  ghost function UpdateOne(f: Feed, tc: TC, k: nat): TC
    requires k < |tc.0.orders|
  {
    var tc := SetTradeStatus(tc, TradePending, f.now);
    var o := tc.0.orders[k];
    var persistence := if o.sim.otype.Limit? then o.sim.otype.persistence else Lapse;
    var tc := PutOrder(tc, k, o.(sim := UpdateStep(o.sim, f.book, persistence).0));
    SetTradeStatus(SetOrderStatus(tc, k, Executable, f.now), Live, f.now)
  }

  /** Raised where the cancel fails: it passes no size on to the replacement, and that raises. */
  datatype ReplaceOutcome = Replaced | Refused | Raised

  /** Cancels the order and places what was cancelled at the new price as a new order of the trade. */
  ghost function ReplaceOne(cfg: Config, f: Feed, r: RunnerBook, version: Option<int>, tc: TC, k: nat)
    : (TC, ReplaceOutcome)
    requires k < |tc.0.orders|
  {
    var o := tc.0.orders[k];
    var (tc, size) := CancelForReplace(f, tc, k);
    if o.newPrice.None? || size.None? then (tc, Raised)
    else
      var (tc, ok) := PlaceReplacement(cfg, f, r, version, tc, o.sim.side,
        Limit(o.newPrice.value, size.value, o.sim.otype.persistence));
      (FinishReplace(tc, k, |tc.0.orders| - 1, ok, f.now), if ok then Replaced else Refused)
  }

  /** A cancel within a replace completes the order whatever it leaves. */
  ghost function CancelForReplace(f: Feed, tc: TC, k: nat): (res: (TC, Option<int>))
    requires k < |tc.0.orders|
    ensures |res.0.0.orders| == |tc.0.orders|
    ensures res.1.Some? ==> tc.0.orders[k].sim.otype.Limit?
  {
    var tc := SetTradeStatus(tc, TradePending, f.now);
    var o := tc.0.orders[k];
    var (sim, size) := CancelStep(o.sim, f.book, o.reduction);
    var s := if size.Some? then ExecutionComplete else Executable;
    (SetOrderStatus(PutOrder(tc, k, o.(sim := sim)), k, s, f.now), size)
  }

  ghost function PlaceReplacement(cfg: Config, f: Feed, r: RunnerBook, version: Option<int>, tc: TC,
                                  side: Side, o: OrderType): (res: (TC, bool))
    ensures |res.0.0.orders| == |tc.0.orders| + 1
  {
    var created := NewOrder(side, o);
    var (sim, ok) := PlaceStep(created.sim, version, cfg.bestPriceExecution, f.book, r);
    ((tc.0.(orders := tc.0.orders + [created.(sim := sim, hasBet := ok)]), tc.1), ok)
  }

  /** The replacement n is put in the blotter, pending, and made executable; or else order k is. */
  function FinishReplace(tc: TC, k: nat, n: nat, ok: bool, now: int): TC
    requires k < |tc.0.orders| && n < |tc.0.orders|
  {
    var tc := if ok then SetOrderStatus(SetOrderStatus(tc, n, Pending, now), n, Executable, now)
              else SetOrderStatus(tc, k, Executable, now);
    SetTradeStatus(tc, Live, now)
  }

  // ----- packages

  /** One order of a package, unless a control has refused it since; false where execution raises. */
  ghost function DeliverOne(cfg: Config, f: Feed, p: Package<Ref>, w: World, r: Ref): (World, bool) {
    if !Has(w, r) || Status(w, r) == Some(Violation) then (w, true)
    else
      var tc, runner := TCOf(w, r.trade), f.runners(w.trades[r.trade].runner);
      match p.kind
      case Place => (WithTC(w, r.trade, PlaceOne(cfg, f, runner, p.version, tc, r.order)), true)
      case Cancel => (WithTC(w, r.trade, CancelOne(f, tc, r.order)), true)
      case Update => (WithTC(w, r.trade, UpdateOne(f, tc, r.order)), true)
      case Replace =>
        var (tc', outcome) := ReplaceOne(cfg, f, runner, p.version, tc, r.order);
        var w' := WithTC(w, r.trade, tc');
        (if outcome.Replaced? then w'.(live := w'.live + [Ref(r.trade, |tc.0.orders|)]) else w', !outcome.Raised?)
  }

  /** Up to the first order that raises. */
  ghost function DeliverAll(cfg: Config, f: Feed, p: Package<Ref>, w: World, rs: seq<Ref>): (World, bool)
    decreases |rs|
  {
    if rs == [] then (w, true)
    else
      var (w1, ok) := DeliverOne(cfg, f, p, w, rs[0]);
      if ok then DeliverAll(cfg, f, p, w1, rs[1..]) else (w1, false)
  }

  predicate Due(f: Feed, q: Queued) { f.now - q.created > q.delay }

  /** `_check_pending_packages`: delivers the due packages in queue order and keeps the rest, or all of
      the queue if one of them raises. */
  ghost function Check(cfg: Config, f: Feed, w: World, q: seq<Queued>): (World, seq<Queued>, bool)
    decreases |q|
  {
    if q == [] then (w, [], true)
    else if Due(f, q[0]) then
      var (w1, ok1) := DeliverAll(cfg, f, q[0].package, w, q[0].package.orders);
      if !ok1 then (w1, q, false)
      else
        var (w2, kept, ok2) := Check(cfg, f, w1, q[1..]);
        (w2, if ok2 then kept else q, ok2)
    else
      var (w2, kept, ok) := Check(cfg, f, w, q[1..]);
      (w2, [q[0]] + kept, ok)
  }

  // ----- matching and completion

  ghost function MatchOrder(cfg: Config, f: Feed, runner: Runner, tc: TC, k: nat): TC
    requires k < |tc.0.orders|
  {
    var o := tc.0.orders[k];
    var (sim, complete) := CallStep(o.sim, f.book, f.runners(runner).actualSp, f.traded(runner), cfg.minBspLiability);
    var tc := PutOrder(tc, k, o.(sim := sim));
    if complete then SetOrderStatus(tc, k, ExecutionComplete, f.now) else tc
  }

  ghost function MatchOne(cfg: Config, f: Feed, w: World, r: Ref): World {
    if Status(w, r) != Some(Executable) then w
    else WithTC(w, r.trade, MatchOrder(cfg, f, w.trades[r.trade].runner, TCOf(w, r.trade), r.order))
  }

  /** `_process_simulated_orders`. */
  ghost function MatchAll(cfg: Config, f: Feed, w: World, rs: seq<Ref>): World
    decreases |rs|
  {
    if rs == [] then w else MatchAll(cfg, f, MatchOne(cfg, f, w, rs[0]), rs[1..])
  }

  /** Nothing is left to match. */
  predicate Done(s: Sim) {
    if s.otype.Limit? then Remaining(s) == 0 else s.bspReconciled
  }

  function CompleteIfDone(w: World, r: Ref, now: int): World
    requires Has(w, r)
  {
    var tc := TCOf(w, r.trade);
    WithTC(w, r.trade, if Done(OrderAt(w, r).sim) then SetOrderStatus(tc, r.order, ExecutionComplete, now) else tc)
  }

  function CompleteOne(w: World, r: Ref, now: int): World {
    if !Has(w, r) then w
    else
      var w := CompleteIfDone(w, r, now);
      if w.trades[r.trade].trade.status == Complete then w.(live := Without(w.live, r)) else w
  }

  /** `_process_backtest_orders`, over the live orders as they were at its start. */
  function CompleteAll(w: World, rs: seq<Ref>, now: int): World
    decreases |rs|
  {
    if rs == [] then w else CompleteAll(CompleteOne(w, rs[0], now), rs[1..], now)
  }

  /** What due packages are executed against: the market's book before the update. */
  function AtExecution(f: Feed, q: Quotes): Feed {
    f.(book := q.book, runners := q.runners)
  }

  /** An update up to the pass that completes orders. */
  ghost function MatchUpdate(cfg: Config, f: Feed, w: World): (World, bool) {
    var (w1, kept, ok) := Check(cfg, AtExecution(f, w.quotes), w, w.queue);
    var w2 := w1.(queue := kept, quotes := Quotes(f.book, f.runners));
    (MatchAll(cfg, f, w2, w2.live), ok)
  }

  /** `_process_market_books` for a market that is not closed, up to the strategies. */
  ghost function MarketUpdate(cfg: Config, f: Feed, w: World): (World, bool) {
    var (w1, ok) := MatchUpdate(cfg, f, w);
    (CompleteAll(w1, w1.live, f.now), ok)
  }

  // ----- what strategies do

  /** Latency in milliseconds, and the bet delay in seconds for what enters the market anew. */
  function SimulatedDelay(kind: Kind, betDelay: int): int {
    match kind
    case Place => 120 + 1000 * betDelay
    case Cancel => 170
    case Update => 150
    case Replace => 280 + 1000 * betDelay
  }

  function ToQueue(ps: seq<Package<Ref>>, how: How): seq<Queued> {
    seq(|ps|, i requires 0 <= i < |ps| => Queued(ps[i], how.now, SimulatedDelay(ps[i].kind, how.betDelay)))
  }

  function InQueue(q: seq<Queued>): seq<Package<Ref>> {
    seq(|q|, i requires 0 <= i < |q| => q[i].package)
  }

  function Enqueue(cfg: Config, w: World, kind: Kind, r: Request<Ref>, how: How): World
    requires cfg.limits.Positive()
  {
    if how.batched then w.(txn := w.txn.Add(kind, r))
    else w.(queue := w.queue + ToQueue(Packages(EmptyTxn().Add(kind, r), cfg.limits), how))
  }

  datatype Step =
    | CreateTrade(runner: Runner)
    | CreateOrder(trade: nat, side: Side, otype: OrderType)
    | AskPlace(r: Ref, version: Option<int>, how: How)
    | PlaceAgain(r: Ref, now: int)  // an order placed before; it turns pending and then raises
    | Refuse(r: Ref, now: int)  // a control refuses a request of any kind
    | AskCancel(r: Ref, reduction: Option<int>, how: How)
    | AskUpdate(r: Ref, persistence: Persistence, how: How)
    | AskReplace(r: Ref, newPrice: Price, version: Option<int>, how: How)
    | ExecuteTransaction(how: How)
    | ProcessUpdate(f: Feed)

  /** A request that has passed the controls, with the order's new data, None where it raises. */
  function AskOrder(cfg: Config, w: World, r: Ref, o: Option<Order>, kind: Kind, version: Option<int>, how: How): World
    requires cfg.limits.Positive() && Has(w, r)
  {
    if o.None? then w
    else
      var tc := Requests(TCOf(w, r.trade), r.order, o, StatusOf(kind), how.now);
      Enqueue(cfg, WithTC(w, r.trade, tc), kind, Request(r, version), how)
  }

  function StatusOf(kind: Kind): OrderStatus {
    match kind
    case Place => Pending
    case Cancel => Cancelling
    case Update => Updating
    case Replace => Replacing
  }

  /** `place_order` once the controls have passed. */
  function PlaceRequest(cfg: Config, w: World, r: Ref, version: Option<int>, how: How): World
    requires cfg.limits.Positive() && Has(w, r)
  {
    var tc := SetOrderStatus(TCOf(w, r.trade), r.order, Pending, how.now);
    var tc := (tc.0, PlaceTrade(tc.1, tc.0.id, how.now));
    var w := WithTC(w, r.trade, tc);
    Enqueue(cfg, w.(live := w.live + [r]), Place, Request(r, version), how)
  }

  predicate InFlight(s: Option<OrderStatus>) {
    s == Some(Pending) || s == Some(Cancelling) || s == Some(Updating) || s == Some(Replacing)
  }

  /** The order has gone through the controls and into the blotter. */
  predicate WasPlaced(o: Order) {
    Pending in o.log
  }

  /** Never placed, nor created and put on the exchange by a replace that was then refused. */
  predicate Unplaced(o: Order) {
    !WasPlaced(o) && o.sim == Initial(o.sim.side, o.sim.otype)
  }

  /** What the model admits: order types the controls accept, no closed market, no removed runners and
      no replace whose cancel fails. A replacement that was refused is not placed by a strategy. */
  ghost predicate Admissible(cfg: Config, w: World, s: Step) {
    match s
    case CreateTrade(_) => true
    case CreateOrder(t, _, _) => t < |w.trades|
    case AskPlace(r, _, _) => Has(w, r) && Unplaced(OrderAt(w, r)) && ValidOrder(OrderAt(w, r).sim.otype)
    case PlaceAgain(r, _) => Has(w, r) && WasPlaced(OrderAt(w, r))
    case Refuse(r, _) => Has(w, r) && (WasPlaced(OrderAt(w, r)) || Unplaced(OrderAt(w, r)))
    case AskCancel(r, _, _) => Has(w, r)
    case AskUpdate(r, _, _) => Has(w, r)
    case AskReplace(r, _, _, _) => Has(w, r)
    case ExecuteTransaction(_) => true
    case ProcessUpdate(f) =>
      && f.book.status != Closed && (forall r :: !f.runners(r).removed)
      && MarketUpdate(cfg, f, w).1
  }

  ghost function Next(cfg: Config, w: World, s: Step): World
    requires cfg.limits.Positive() && Admissible(cfg, w, s)
  {
    match s
    case CreateTrade(runner) => w.(trades := w.trades + [Held(Trade(|w.trades|, Live, [], []), runner)])
    case CreateOrder(t, side, otype) =>
      var tc := TCOf(w, t);
      WithTC(w, t, (tc.0.(orders := tc.0.orders + [NewOrder(side, otype)]), tc.1))
    case AskPlace(r, version, how) => PlaceRequest(cfg, w, r, version, how)
    case PlaceAgain(r, now) => WithTC(w, r.trade, SetOrderStatus(TCOf(w, r.trade), r.order, Pending, now))
    case Refuse(r, now) => WithTC(w, r.trade, SetOrderStatus(TCOf(w, r.trade), r.order, Violation, now))
    case AskCancel(r, reduction, how) =>
      AskOrder(cfg, w, r, RequestCancel(OrderAt(w, r), reduction), Cancel, None, how)
    case AskUpdate(r, persistence, how) =>
      AskOrder(cfg, w, r, RequestUpdate(OrderAt(w, r), persistence), Update, None, how)
    case AskReplace(r, newPrice, version, how) =>
      AskOrder(cfg, w, r, RequestReplace(OrderAt(w, r), newPrice), Replace, version, how)
    case ExecuteTransaction(how) =>
      w.(txn := Executed(w.txn, cfg.limits), queue := w.queue + ToQueue(Packages(w.txn, cfg.limits), how))
    case ProcessUpdate(f) => MarketUpdate(cfg, f, w).0
  }
}
