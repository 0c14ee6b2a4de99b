/**
 What the exchange makes of an order, told by the order's own terms and by the levels it meets: where it
 queues, when it is taken on close, what a market update and a change of persistence do.
 */
module Outcomes {
  import opened Exchange
  import opened Wap
  import opened Simulation
  import opened Fills
  import opened Accounting

  // ----- placement

  /** The best offer is at the limit or better; with nothing on offer it counts as the lowest price for a
      BACK and the highest for a LAY. */
  predicate Meets(side: Side, price: Price, opposing: seq<Level>) {
    match side
    case Back => price <= if opposing == [] then 101 else opposing[0].price
    case Lay => price >= if opposing == [] then 100000 else opposing[0].price
  }

  /** An order that is placed without meeting an offer queues behind what is offered at its own price on
      the other side, half pence for pence: the first level shown there, or nothing. */
  lemma QueuePosition(s: Sim, v: Option<int>, bpe: bool, b: MarketBook, r: RunnerBook)
    requires Sound(s) && s == Initial(s.side, s.otype) && s.otype.Limit? && PlaceStep(s, v, bpe, b, r).1
    ensures var t, price := PlaceStep(s, v, bpe, b, r).0, s.otype.price;
      var (opposing, queue) := if s.side.Back? then (r.availableToBack, r.availableToLay)
                               else (r.availableToLay, r.availableToBack);
      && (Meets(s.side, price, opposing) ==> t.piq == 0)
      && (forall m :: m in t.matched ==> m.time == b.time)
      && (!Meets(s.side, price, opposing) ==>
          && t.matched == [] && t.sizeMatched == 0
          && (forall i :: FirstAt(queue, price, i) ==> t.piq == 2 * queue[i].size)
          && ((forall i :: 0 <= i < |queue| ==> queue[i].price != price) ==> t.piq == 0))
  {
    hide Average, AddMatch;
    var queue := if s.side.Back? then r.availableToLay else r.availableToBack;
    SizeIsShown(queue, s.otype.price, 0);
    var book := Opposing(s.side, r);
    WalkNeverOverfills(s.side, s.otype.price, s.otype.size, book);
    var fills := Walk(s.side, s.otype.price, s.otype.size, book);
    AddFillsEffect(s.(version := Some(b.version)), b.time, s.otype.price, fills);
    FillsAreTimed(s.(version := Some(b.version)), b.time, fills);
  }

  /** An order on close is taken on an open market that will have a starting price, has none yet and is
      not in play, if the runner is there and the version is the market's; it waits unmatched, placed or
      not. */
  lemma OnCloseAcceptance(s: Sim, v: Option<int>, bpe: bool, b: MarketBook, r: RunnerBook)
    requires Sound(s) && s == Initial(s.side, s.otype) && !s.otype.Limit?
    ensures var (t, ok) := PlaceStep(s, v, bpe, b, r);
      && (ok <==>
          && b.status == Open && b.bspMarket && !b.bspReconciled && !b.inplay && !r.removed
          && (v == None || v.value == 0 || v.value == b.version))
      && t == s.(version := t.version) && (ok ==> t.version == Some(b.version))
  {
  }

  // ----- a market update

  /** The order is due to be reconciled: on close or set to take the starting price, and not yet. */
  predicate AwaitsSp(s: Sim, b: MarketBook) {
    && b.bspReconciled && !s.bspReconciled
    && (s.otype.Limit? ==> s.otype.persistence == TakeStartingPrice)
  }

  /** Everything a market update can do to an order. While it awaits a starting price it is reconciled at
      it, and left alone until it is known. Otherwise an order on close, or with nothing left, is left
      alone; one with something left sees the version, lapses if it is a LAPSE order and the market is
      suspended at a version it had not seen, and else fills from the volume traded at its limit or
      better, after its queue, off by at most half a penny for each traded price. */
  lemma UpdateOutcome(s: Sim, b: MarketBook, sp: StartingPrice, traded: seq<Level>, min: int)
    requires Sound(s) && s.version.Some?
    ensures var (t, complete) := CallStep(s, b, sp, traded, min);
      var open := s.otype.Limit? && Remaining(s) > 0;
      var lapses := open && b.status == Suspended && s.version != Some(b.version) && s.otype.persistence == Lapse;
      && (complete <==> t.bspReconciled && !s.bspReconciled)
      && (AwaitsSp(s, b) ==>
          && (t, complete) == SpStep(s, b.time, sp, min)
          && (if sp == 0 then t == s else t.bspReconciled && Remaining(t) == 0))
      && (!AwaitsSp(s, b) && !open ==> t == s)
      && (!AwaitsSp(s, b) && lapses ==> t == s.(version := Some(b.version), lapsed := s.lapsed + Remaining(s)))
      && (!AwaitsSp(s, b) && open && !lapses ==>
          var h := Eligible(s.side, s.otype.price, traded);
          var share := Min(2 * Remaining(s), Max(0, h - s.piq));
          && OnlyTraded(s.(version := Some(b.version)), t)
          && (forall m :: m in t.matched ==> m in s.matched || (m.time == b.time && m.price == s.otype.price))
          && t.piq == Max(0, s.piq - h)
          && -|traded| <= 2 * (t.sizeMatched - s.sizeMatched) - share <= |traded|
          && (s.piq == 0 ==> t.sizeMatched == s.sizeMatched + Min(Remaining(s), Halves(s.side, s.otype.price, traded))))
  {
    hide Average, TradeAll, Weighed, SpStep;
    var u := s.(version := Some(b.version));
    if AwaitsSp(s, b) {
      SpOutcome(s, b.time, sp, min);
      SpKeeps(s, b.time, sp, min);
      StepKeepsSound(s, Called(b, sp, traded, min));
      SpFlag(s, Called(b, sp, traded, min));
    } else if s.otype.Limit? && Remaining(s) > 0 {
      QueueClosedForm(u, b.time, traded);
      TradesAreTimed(u, b.time, traded);
      if s.piq == 0 {
        FrontClosedForm(u, b.time, traded);
      }
    }
  }

  lemma {:induction false} TradesAreTimed(s: Sim, time: int, traded: seq<Level>)
    requires Tradable(s)
    ensures forall m :: m in TradeAll(s, time, traded).matched ==>
      m in s.matched || (m.time == time && m.price == s.otype.price)
    decreases |traded|
  {
    hide TradeOne, OneFill, Average, Reported;
    if traded != [] {
      var t := s;
      if AtLimitOrBetter(s.side, s.otype.price, traded[0].price) {
        t := TradeOne(s, time, traded[0].size);
        TradeOneEffect(s, time, traded[0].size);
      }
      TradesAreTimed(t, time, traded[1..]);
    }
  }

  lemma {:induction false} FillsAreTimed(s: Sim, time: int, fills: seq<Level>)
    ensures forall m :: m in AddFills(s, time, fills).matched ==> m in s.matched || m.time == time
    decreases fills
  {
    hide Average;
    if fills != [] { FillsAreTimed(AddMatch(s, Match(time, fills[0].price, fills[0].size)), time, fills[1..]); }
  }

  // ----- persistence

  /** The persistence an order has when a market update comes decides what becomes of it, and an update
      executed before changed it exactly if the market was open, let persistence change and something
      was left. */
  lemma PersistenceDecides(s: Sim, u: MarketBook, p: Persistence, b: MarketBook, sp: StartingPrice, traded: seq<Level>,
                           min: int)
    requires Sound(s) && s.version.Some? && s.otype.Limit? && !s.bspReconciled
    ensures var t := Step(Step(s, Updated(u, p)), Called(b, sp, traded, min));
      var changes := u.status == Open && u.persistenceEnabled && Remaining(s) > 0;
      var decides := if changes then p else s.otype.persistence;
      && (t.bspReconciled <==> b.bspReconciled && sp != 0 && decides == TakeStartingPrice)
      && (t.lapsed > s.lapsed && !t.bspReconciled <==>
          Remaining(s) > 0 && b.status == Suspended && s.version != Some(b.version) && decides == Lapse)
  {
    hide Average, CallStep, OnlyTraded, Weighed;
    var t := Step(s, Updated(u, p));
    StepKeepsSound(s, Updated(u, p));
    SpFlag(t, Called(b, sp, traded, min));
    UpdateOutcome(t, b, sp, traded, min);
    TradingLapsesNothing(t.(version := Some(b.version)), CallStep(t, b, sp, traded, min).0);
  }

  lemma TradingLapsesNothing(s: Sim, t: Sim)
    ensures OnlyTraded(s, t) ==> t.lapsed == s.lapsed
  {
  }

  /** Nothing in the run sets the order to take the starting price. */
  predicate NeverTakesSp(o: OrderType, es: seq<Event>) {
    && o.Limit? && o.persistence != TakeStartingPrice
    && forall e :: e in es && (e.UpdateRequested? || e.Updated?) ==> e.persistence != TakeStartingPrice
  }

  /** A LIMIT order whose persistence is never TakeStartingPrice is never reconciled, so its limit price
      is honoured without exception. */
  lemma NeverReconciled(side: Side, o: OrderType, es: seq<Event>)
    requires ValidOrder(o) && NeverTakesSp(o, es) && ValidRun(Initial(side, o), es)
    ensures var s := Run(Initial(side, o), es);
      && !s.bspReconciled && FilledAt(Initial(side, o), es) == 0
      && (forall m :: m in s.matched ==> AtLimitOrBetter(side, o.price, m.price))
      && (s.sizeMatched > 0 ==> AtLimitOrBetter(side, o.price, s.averagePrice))
  {
    RunNeverReconciles(Initial(side, o), es);
    RunKeepsTerms(Initial(side, o), es);
    RunHonoursLimit(Initial(side, o), es);
    if Run(Initial(side, o), es).sizeMatched > 0 {
      LimitPriceIsHonoured(side, o, es);
    }
  }

  lemma {:induction false} RunNeverReconciles(s: Sim, es: seq<Event>)
    requires Sound(s) && !s.bspReconciled && NeverTakesSp(s.otype, es) && ValidRun(s, es)
    ensures !Run(s, es).bspReconciled && FilledAt(s, es) == 0
    decreases es
  {
    hide Average, TradeAll, PlaceStep, SpStep;
    if es != [] {
      var e := es[0];
      assert e in es && forall x :: x in es[1..] ==> x in es;
      StepKeepsSound(s, e);
      SpFlag(s, e);
      PersistenceAfter(s, e);
      RunNeverReconciles(Step(s, e), es[1..]);
    }
  }

  lemma PersistenceAfter(s: Sim, e: Event)
    requires Sound(s) && Enabled(s, e) && s.otype.Limit? && s.otype.persistence != TakeStartingPrice
    requires e.UpdateRequested? || e.Updated? ==> e.persistence != TakeStartingPrice
    ensures var t := Step(s, e); t.otype.Limit? && t.otype.persistence != TakeStartingPrice
  {
    hide PlaceStep, TradeAll, SpStep, Average;
    match e
    case Placed(v, bpe, b, r) => PlaceKeeps(s, v, bpe, b, r);
    case Called(b, sp, traded, min) =>
      SpKeepsIfDue(s, b, sp, min);
      if Remaining(s) != 0 {
        TradeKeeps(s.(version := Some(b.version)), b.time, traded);
      }
    case _ =>
  }
}
