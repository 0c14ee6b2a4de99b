/**
 A run of a backtest with an order on each of two runners, BACK 10.00 at 2.00: of one runner 40.00 are
 traded at 2.00, and only its order is filled.
 */
module TwoRunnersRun {
  import opened Exchange
  import opened Simulation
  import opened Fills
  import opened Accounting
  import opened Outcomes
  import opened Lifecycle
  import opened Packaging
  import opened Protocol
  import opened BacktestRuns
  import opened Matching
  import opened OneTradeRuns

  const OTHER := Ref(1, 0)

  /** Volume on runner 0 alone. */
  const VOLUME: Runner -> seq<Level> := runner => if runner == 0 then [Level(200, 4000)] else []

  const BUSY := Feed(1000, PlainBook, OFFERS, VOLUME)

  /** One order in the trade of each runner. */
  ghost predicate Stage(w: World, a: Order, b: Order, live: seq<Ref>, queue: seq<Queued>) {
    && |w.trades| == 2 && w.trades[0].runner == 0 && w.trades[1].runner == 1
    && w.trades[0].trade.orders == [a] && w.trades[1].trade.orders == [b]
    && w.live == live && w.queue == queue && w.quotes == Quotes(PlainBook, OFFERS)
  }

  lemma BothCreated() returns (steps: seq<Step>, w: World)
    ensures Reaches(steps, w) && Stage(w, ORDER, ORDER, [], [])
  {
    hide Reaches;
    var one := Opened();
    var w0 := Market((Trade(0, Live, [], [ORDER]), FreshContext), [], [], PlainBook);
    var trade, create := CreateTrade(1), CreateOrder(1, Back, Limit(200, 1000, Lapse));
    Then(one, w0, trade);
    var w1 := Next(CONFIG, w0, trade);
    assert w1.trades == w0.trades + [Held(Trade(1, Live, [], []), 1)];
    Then(one + [trade], w1, create);
    w := Next(CONFIG, w1, create);
    assert [] + [ORDER] == [ORDER];
    steps := one + [trade] + [create];
  }

  lemma AskOn(steps: seq<Step>, w: World, t: nat) returns (next: seq<Step>, w': World)
    requires Reaches(steps, w) && t < 2
    requires exists a, b :: Stage(w, a, b, w.live, w.queue) && (if t == 0 then a else b) == ORDER
    ensures Reaches(next, w')
    ensures forall a, b :: Stage(w, a, b, w.live, w.queue) ==>
      Stage(w', if t == 0 then WAITING else a, if t == 1 then WAITING else b,
        w.live + [Ref(t, 0)], w.queue + [OneTradeRuns.Asked(Ref(t, 0), 0)])
  {
    hide Reaches, SetOrderStatus, Packages, PlaceTrade;
    var r, how := Ref(t, 0), How(0, 0, false);
    var ask := AskPlace(r, None, how);
    Then(steps, w, ask);
    OrderUpdateOutcome(TCOf(w, t), 0, Pending, 0);
    OnePackage(Place, Request(r, None), CONFIG.limits);
    assert ToQueue([Package(Place, [r], None)], how) == [OneTradeRuns.Asked(r, 0)];
    next, w' := steps + [ask], Next(CONFIG, w, ask);
  }

  lemma BothAsked() returns (steps: seq<Step>, w: World)
    ensures Reaches(steps, w)
    ensures Stage(w, WAITING, WAITING, [FIRST, OTHER], [OneTradeRuns.Asked(FIRST, 0), OneTradeRuns.Asked(OTHER, 0)])
  {
    hide Reaches;
    var created, w0 := BothCreated();
    assert Stage(w0, ORDER, ORDER, w0.live, w0.queue);
    var one, w1 := AskOn(created, w0, 0);
    assert Stage(w1, WAITING, ORDER, w1.live, w1.queue);
    steps, w := AskOn(one, w1, 1);
  }

  lemma {:induction false} PlacesDoNotRaise(f: Feed, p: Package<Ref>, w: World, rs: seq<Ref>)
    requires p.kind == Place
    ensures DeliverAll(CONFIG, f, p, w, rs).1
    decreases |rs|
  {
    hide PlaceOne;
    if rs != [] { PlacesDoNotRaise(f, p, DeliverOne(CONFIG, f, p, w, rs[0]).0, rs[1..]); }
  }

  lemma {:induction false} PlacesPass(f: Feed, w: World, q: seq<Queued>)
    requires forall i :: 0 <= i < |q| ==> q[i].package.kind == Place
    ensures Check(CONFIG, f, w, q).2
    decreases |q|
  {
    hide DeliverAll;
    if q != [] {
      var p := q[0].package;
      PlacesDoNotRaise(f, p, w, p.orders);
      PlacesPass(f, if Due(f, q[0]) then DeliverAll(CONFIG, f, p, w, p.orders).0 else w, q[1..]);
    }
  }

  lemma BusyIsAdmitted(w: World)
    requires forall i :: 0 <= i < |w.queue| ==> w.queue[i].package.kind == Place
    ensures Admissible(CONFIG, w, ProcessUpdate(BUSY)) && Orderly(w, ProcessUpdate(BUSY))
  {
    hide Check;
    PlacesPass(AtExecution(BUSY, w.quotes), w, w.queue);
  }

  /** What the update makes of a placed order: filled by as much as half of the volume allows. */
  lemma FilledBy(s: Sim, traded: seq<Level>, h: nat)
    requires s == ORDER.sim.(version := Some(1)) && Halves(Back, 200, traded) == h
    ensures var t := Accounting.Step(s, Called(PlainBook, 0, traded, 0));
      t.sizeMatched == Min(1000, h) && t.otype == s.otype && Remaining(t) == 1000 - Min(1000, h)
      && !t.bspReconciled
  {
    hide CallStep, Halves, Eligible;
    InitialIsSound(Back, ORDER.sim.otype);
    UpdateOutcome(s, PlainBook, 0, traded, 0);
  }

  lemma HalvesOfVolume()
    ensures Halves(Back, 200, VOLUME(0)) == 2000 && Halves(Back, 200, VOLUME(1)) == 0
  {
    HalfOf();
    HalvesOfOne(Level(200, 4000));
  }

  lemma HalvesOfOne(l: Level)
    ensures Halves(Back, 200, [l]) == if l.price >= 200 then Rounding.RoundDiv(l.size, 2) else 0
  {
    WeighedOne(x => Rounding.RoundDiv(x, 2), l);
  }

  lemma WeighedOne(weight: int -> int, l: Level)
    ensures Weighed(weight, Back, 200, [l]) == if l.price >= 200 then weight(l.size) else 0
  {
    assert [l][1..] == [];
    assert Weighed(weight, Back, 200, []) == 0;
  }

  lemma HalfOf()
    ensures Rounding.RoundDiv(4000, 2) == 2000
  {
    Rounding.NearestIsUnique(4000, 2, 2000);
  }

  /** Both orders are placed and reached by the same update, and only the one on the runner that traded
      is filled. */
  lemma OnlyItsRunnerFills() returns (steps: seq<Step>)
    ensures ValidSteps(CONFIG, START, steps) && AllOrderly(CONFIG, START, steps)
    ensures var w := After(CONFIG, START, steps);
      && Has(w, FIRST) && OrderAt(w, FIRST).sim.sizeMatched == 1000 && Status(w, FIRST) == Some(ExecutionComplete)
      && Has(w, OTHER) && OrderAt(w, OTHER).sim.sizeMatched == 0 && Status(w, OTHER) == Some(Executable)
  {
    hide Next, Admissible, Orderly;
    var asked, w := BothAsked();
    BusyIsAdmitted(w);
    FilledInUpdate(asked, w, FIRST, 0, 2000);
    FilledInUpdate(asked, w, OTHER, 1, 0);
    Then(asked, w, ProcessUpdate(BUSY));
    steps := asked + [ProcessUpdate(BUSY)];
  }

  lemma FilledInUpdate(steps: seq<Step>, w: World, r: Ref, i: nat, h: nat)
    requires Reaches(steps, w) && Admissible(CONFIG, w, ProcessUpdate(BUSY))
    requires Stage(w, WAITING, WAITING, [FIRST, OTHER], [OneTradeRuns.Asked(FIRST, 0), OneTradeRuns.Asked(OTHER, 0)])
    requires i < 2 && r == Ref(i, 0) && h == (if i == 0 then 2000 else 0)
    ensures var w' := Next(CONFIG, w, ProcessUpdate(BUSY));
      && Has(w', r) && OrderAt(w', r).sim.sizeMatched == Min(1000, h)
      && Status(w', r) == Some(if h >= 1000 then ExecutionComplete else Executable)
  {
    hide Next, Admissible, ValidSteps, AllOrderly, Accounting.Step, Halves, PlaceStep;
    var o := WhatAnUpdateDoes(CONFIG, OneTradeRuns.Update(0, PlainBook), steps, BUSY, r);
    assert IsDue(BUSY, w, r, i);
    InitialIsSound(Back, ORDER.sim.otype);
    PlaceQuietly(ORDER.sim);
    OneTradeRuns.Accepted(1);
    assert o.sim == ORDER.sim.(version := Some(1)) && o.status == Some(Executable);
    HalvesOfVolume();
    FilledBy(o.sim, VOLUME(i), h);
  }
}
