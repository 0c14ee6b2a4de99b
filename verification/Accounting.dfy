/**
 Runs of one simulated order: any sequence of a placement followed by market updates, cancels and
 persistence changes, and what every such run keeps.
 */
module Accounting {
  import opened Rounding
  import opened Exchange
  import opened Wap
  import opened Simulation
  import opened Fills

  datatype Event =
    | Placed(packageVersion: Option<int>, bestPriceExecution: bool, b: MarketBook, r: RunnerBook)
    | Called(b: MarketBook, sp: StartingPrice, traded: seq<Level>, minBspLiability: int)
    | Cancelled(b: MarketBook, reduction: Option<int>)
    | UpdateRequested(persistence: Persistence)
    | Updated(b: MarketBook, persistence: Persistence)

  /** What the order validation control demands of sizes and liabilities. */
  predicate ValidOrder(o: OrderType) {
    match o
    case Limit(_, size, _) => size > 0
    case LimitOnClose(liability, _) => liability > 0
    case MarketOnClose(liability) => liability > 0
  }

  /** What the exchange needs: a replacement may be for nothing at all. */
  predicate Sized(o: OrderType) {
    match o
    case Limit(_, size, _) => size >= 0
    case LimitOnClose(liability, _) => liability > 0
    case MarketOnClose(liability) => liability > 0
  }

  ghost function Step(s: Sim, e: Event): Sim {
    match e
    case Placed(v, bpe, b, r) => PlaceStep(s, v, bpe, b, r).0
    case Called(b, sp, traded, min) => CallStep(s, b, sp, traded, min).0
    case Cancelled(b, reduction) => CancelStep(s, b, reduction).0
    case UpdateRequested(p) => if s.otype.Limit? then s.(otype := s.otype.(persistence := p)) else s
    case Updated(b, p) => UpdateStep(s, b, p).0
  }

  /** A size reduction is None, zero (both cancel everything) or positive. Nothing in the code stops
      a negative one, which adds to what remains. */
  predicate Reducing(e: Event) {
    e.Cancelled? && e.reduction.Some? ==> e.reduction.value >= 0
  }

  predicate AllReducing(es: seq<Event>) {
    forall i :: 0 <= i < |es| ==> Reducing(es[i])
  }

  /** An order is placed once, before anything else happens to it. One that a starting price has
      reconciled is complete, and nothing can be added to it any more. */
  ghost predicate Enabled(s: Sim, e: Event) {
    match e
    case Placed(_, _, _, _) => s == Initial(s.side, s.otype)
    case _ => s.version.Some? && (s.bspReconciled ==> Reducing(e))
  }

  ghost predicate Sound(s: Sim) {
    && Sized(s.otype)
    && Reported(s)
    && s.piq >= 0 && s.lapsed >= 0 && s.voided >= 0
    && Remaining(s) >= 0
    && (s.version.None? ==>
        || s == Initial(s.side, s.otype)
        || (Remaining(s) == 0 && s.matched == [] && !s.bspReconciled && s.cancelled == 0))
    && if s.otype.Limit? then SoundLimit(s) else SoundOnClose(s)
  }

  ghost predicate SoundLimit(s: Sim)
    requires s.otype.Limit?
  {
    && (s.bspReconciled ==> Remaining(s) == 0)
    && (!s.bspReconciled ==> HonoursLimit(s))
  }

  /** Every match is at the limit or better. */
  ghost predicate HonoursLimit(s: Sim)
    requires s.otype.Limit?
  {
    forall m :: m in s.matched ==> AtLimitOrBetter(s.side, s.otype.price, m.price)
  }

  ghost predicate SoundOnClose(s: Sim)
    requires !s.otype.Limit?
  {
    && s.cancelled == 0 && s.lapsed == 0 && s.voided == 0 && s.piq == 0
    && (!s.bspReconciled ==> s.matched == [])
    && (s.matched != [] ==>
        var m := s.matched[0];
        && |s.matched| == 1 && m.size == SpSize(s.side, s.otype.liability, m.price)
        && (s.otype.LimitOnClose? ==> AtLimitOrBetter(s.side, s.otype.bound, m.price)))
  }

  lemma InitialIsSound(side: Side, o: OrderType)
    requires Sized(o)
    ensures Sound(Initial(side, o))
  {
  }

  lemma {:induction false} AddFillsEffect(s: Sim, time: int, limit: int, fills: seq<Level>)
    requires Reported(s)
    requires forall f :: f in fills ==> AtLimitOrBetter(s.side, limit, f.price)
    ensures var t := AddFills(s, time, fills);
      && Reported(t) && OnlyTraded(s, t) && t.piq == s.piq
      && t.sizeMatched == s.sizeMatched + Total(fills)
      && (forall m :: m in t.matched ==> m in s.matched || AtLimitOrBetter(s.side, limit, m.price))
    decreases fills
  {
    hide Average;
    if fills != [] {
      var m := Match(time, fills[0].price, fills[0].size);
      AddMatchAdds(s, m);
      AddFillsEffect(AddMatch(s, m), time, limit, fills[1..]);
      assert fills[0] in fills;
    }
  }

  lemma {:induction false} AddFillsValue(s: Sim, time: int, fills: seq<Level>)
    requires Reported(s)
    ensures Value(s.side, fills) == Signed(s.side, Turnover(AddFills(s, time, fills).matched) - Turnover(s.matched))
    decreases fills
  {
    hide Average, AddMatch;
    if fills != [] {
      var m := Match(time, fills[0].price, fills[0].size);
      AddMatchAdds(s, m);
      AddMatchKeepsSide(s, m);
      AddFillsValue(AddMatch(s, m), time, fills[1..]);
      SignedIsLinear(s.side, m.price, m.size);
    }
  }

  lemma AddMatchKeepsSide(s: Sim, m: Match)
    ensures AddMatch(s, m).side == s.side
  {
  }

  lemma SignedIsLinear(side: Side, price: int, size: int)
    ensures Signed(side, price) * size == Signed(side, price * size)
  {
  }

  /** Placement fills at most the size, at the limit or better, or fails and leaves nothing. */
  lemma PlaceKeeps(s: Sim, v: Option<int>, bpe: bool, b: MarketBook, r: RunnerBook)
    requires Sound(s) && s == Initial(s.side, s.otype)
    ensures var (t, ok) := PlaceStep(s, v, bpe, b, r);
      && Sound(t) && !t.bspReconciled && t.otype == s.otype && t.side == s.side
      && t.cancelled == 0
      && (ok ==> t.version == Some(b.version) && t.lapsed == 0 && t.voided == 0)
      && (!ok ==> Remaining(t) == 0 && t.matched == [] && t.sizeMatched == 0)
  {
    hide Average;
    if s.otype.Limit? {
      var book := Opposing(s.side, r);
      WalkNeverOverfills(s.side, s.otype.price, s.otype.size, book);
      var fills := Walk(s.side, s.otype.price, s.otype.size, book);
      AddFillsEffect(s.(version := Some(b.version)), b.time, s.otype.price, fills);
      QueueIsNatural(Queueing(s.side, r), s.otype.price);
    }
  }

  lemma {:induction false} QueueIsNatural(book: seq<Level>, price: int)
    ensures SizeAt(book, price, 0) >= 0 && SizeAt(book, price, 0) % 2 == 0
  {
    if book != [] { QueueIsNatural(book[1..], price); }
  }

  /** A starting price fill completes the order, and a LAY risks what it set out to risk to the
      nearest penny of stake. */
  lemma SpKeeps(s: Sim, time: int, sp: StartingPrice, min: int)
    requires Sound(s) && !s.bspReconciled && s.version.Some?
    ensures Sound(SpStep(s, time, sp, min).0)
  {
    hide Average;
    if sp != 0 {
      var size := match s.otype
        case Limit(price, _, _) =>
          if s.side.Back? then Remaining(s) else RoundDiv((price - 100) * Remaining(s), sp - 100)
        case _ => SpSize(s.side, s.otype.liability, sp);
      if s.otype.Limit? {
        MulOrder(0, s.otype.price - 100, Remaining(s));
        RoundKeepsBounds((s.otype.price - 100) * Remaining(s), sp - 100, 0);
      } else {
        RoundKeepsBounds(100 * s.otype.liability, sp - 100, 0);
      }
      AddMatchAdds(s, Match(time, sp, size));
      AddMatchAdds(s.(bspReconciled := true, cancelled := s.cancelled + Remaining(s) - size), Match(time, sp, size));
    }
  }

  lemma TradeKeeps(s: Sim, time: int, traded: seq<Level>)
    requires Sound(s) && s.otype.Limit? && s.version.Some? && Remaining(s) != 0
    ensures var t := TradeAll(s, time, traded); Sound(t) && OnlyTraded(s, t)
  {
    hide TradeAll, Share, Average;
    QueueClosedForm(s, time, traded);
    TradesFillAtTheLimit(s, time, traded);
  }

  /** Nothing but the persistence of an order's terms ever changes. */
  predicate SameTerms(o: OrderType, p: OrderType) {
    p == o || (o.Limit? && p.Limit? && p == o.(persistence := p.persistence))
  }

  /** The update is one at which the order is reconciled at a starting price. */
  predicate TakesSpNow(s: Sim, e: Event) {
    e.Called? && !s.bspReconciled && e.b.bspReconciled && TakesSp(s) && e.sp != 0
  }

  /** And it fills the order. */
  ghost predicate FillsAtSp(s: Sim, e: Event) {
    TakesSpNow(s, e) && Step(s, e).matched != s.matched
  }

  lemma StepKeepsSound(s: Sim, e: Event)
    requires Sound(s) && Enabled(s, e)
    ensures Sound(Step(s, e))
    ensures Step(s, e).side == s.side
    ensures SameTerms(s.otype, Step(s, e).otype)
    ensures s.bspReconciled ==> Step(s, e).bspReconciled && Step(s, e).matched == s.matched
    ensures Reducing(e) && (s.bspReconciled || !FillsAtSp(s, e)) ==> Step(s, e).cancelled >= s.cancelled
  {
    hide Average, TradeAll, SpStep, PlaceStep;
    match e
    case Placed(v, bpe, b, r) => PlaceKeeps(s, v, bpe, b, r);
    case Called(b, sp, traded, min) =>
      SpKeepsIfDue(s, b, sp, min);
      if s.otype.Limit? && Remaining(s) != 0 {
        TradeKeeps(s.(version := Some(b.version)), b.time, traded);
      }
    case Cancelled(b, reduction) =>
    case UpdateRequested(p) =>
    case Updated(b, p) =>
  }

  lemma SpKeepsIfDue(s: Sim, b: MarketBook, sp: StartingPrice, min: int)
    requires Sound(s) && s.version.Some?
    ensures !s.bspReconciled ==> Sound(SpStep(s, b.time, sp, min).0)
    ensures var t := SpStep(s, b.time, sp, min).0;
      && t.side == s.side && t.otype == s.otype && (t.matched == s.matched ==> t.cancelled == s.cancelled)
      && (sp == 0 ==> t == s)
  {
    if !s.bspReconciled {
      SpKeeps(s, b.time, sp, min);
    }
  }

  // ----- what placement does

  /** When placement succeeds, what it fills and where it queues; when it fails, whether the size is
      void or, for a price better than the client accepts, lapsed. */
  lemma PlaceOutcome(s: Sim, v: Option<int>, bpe: bool, b: MarketBook, r: RunnerBook)
    requires Sound(s) && s == Initial(s.side, s.otype) && s.otype.Limit? && s.otype.size > 0
    requires BestFirst(Back, r.availableToBack) && BestFirst(Lay, r.availableToLay)
    ensures var (t, ok) := PlaceStep(s, v, bpe, b, r);
      var price, book := s.otype.price, Opposing(s.side, r);
      var best := BestPrice(book, if s.side.Back? then 101 else 100000);
      && (ok <==> (&& b.status == Open && !r.removed
                   && (v == None || v.value == 0 || v.value == b.version)
                   && (bpe || Signed(s.side, best) <= Signed(s.side, price))))
      && (ok ==> t.sizeMatched == Min(s.otype.size, Offered(s.side, price, book)))
      && (!ok ==> t.voided + t.lapsed == s.otype.size && (t.lapsed > 0 <==> t.voided == 0))
      && (!ok ==> (t.lapsed > 0 <==>
          b.status == Open && !r.removed && (v == None || v.value == 0 || v.value == b.version)))
      && (ok && Signed(s.side, best) >= Signed(s.side, price) ==> t.piq == 0)
      && (ok && Signed(s.side, best) < Signed(s.side, price) ==> t.piq == SizeAt(Queueing(s.side, r), price, 0))
  {
    hide Average;
    var book := Opposing(s.side, r);
    var price, size := s.otype.price, s.otype.size;
    WalkNeverOverfills(s.side, price, size, book);
    WalkFillsAllItCan(s.side, price, size, book);
    AddFillsEffect(s.(version := Some(b.version)), b.time, price, Walk(s.side, price, size, book));
    if book == [] || !AtLimitOrBetter(s.side, price, book[0].price) {
      NothingAcceptable(s.side, price, book);
    }
  }

  /** No other way of taking the same total from the acceptable levels gives the side a better
      price-weighted sum than the matches of an immediate fill. */
  lemma ImmediateFillIsOptimal(s: Sim, v: Option<int>, bpe: bool, b: MarketBook, r: RunnerBook, alloc: seq<Level>)
    requires Sound(s) && s == Initial(s.side, s.otype) && s.otype.Limit? && s.otype.size > 0
    requires BestFirst(Back, r.availableToBack) && BestFirst(Lay, r.availableToLay)
    requires Allocation(s.side, s.otype.price, Opposing(s.side, r), alloc)
    requires PlaceStep(s, v, bpe, b, r).1
    ensures var t := PlaceStep(s, v, bpe, b, r).0;
      && (Total(alloc) <= s.otype.size ==> Total(alloc) <= t.sizeMatched)
      && (Total(alloc) == t.sizeMatched ==> Value(s.side, alloc) <= Signed(s.side, Turnover(t.matched)))
  {
    var price, size, book := s.otype.price, s.otype.size, Opposing(s.side, r);
    PlaceOutcome(s, v, bpe, b, r);
    WalkIsOptimal(s.side, price, book, alloc);
    WalkFillsAllItCan(s.side, price, Total(alloc), book);
    ImmediateFillIsTheWalk(s, v, bpe, b, r);
    WalkIsCapped(s.side, price, size, book);
  }

  lemma ImmediateFillIsTheWalk(s: Sim, v: Option<int>, bpe: bool, b: MarketBook, r: RunnerBook)
    requires Sound(s) && s == Initial(s.side, s.otype) && s.otype.Limit?
    requires BestFirst(Back, r.availableToBack) && BestFirst(Lay, r.availableToLay)
    requires PlaceStep(s, v, bpe, b, r).1
    ensures var book := Opposing(s.side, r);
      var t, w := PlaceStep(s, v, bpe, b, r).0, Walk(s.side, s.otype.price, s.otype.size, book);
      t.sizeMatched == Total(w) && Signed(s.side, Turnover(t.matched)) == Value(s.side, w)
  {
    hide Average;
    var book := Opposing(s.side, r);
    WalkNeverOverfills(s.side, s.otype.price, s.otype.size, book);
    var fills := Walk(s.side, s.otype.price, s.otype.size, book);
    AddFillsEffect(s.(version := Some(b.version)), b.time, s.otype.price, fills);
    AddFillsValue(s.(version := Some(b.version)), b.time, fills);
  }

  /** A walk for more than it can fill is the walk for what it can fill. */
  lemma {:induction false} WalkIsCapped(side: Side, limit: int, size: nat, book: seq<Level>)
    ensures var w := Walk(side, limit, size, book);
      Total(w) >= 0 && Value(side, Walk(side, limit, Total(w), book)) == Value(side, w)
    decreases |book|
  {
    WalkNeverOverfills(side, limit, size, book);
    if book != [] && AtLimitOrBetter(side, limit, book[0].price) {
      var f := Min(size, book[0].size);
      WalkIsCapped(side, limit, size - f, book[1..]);
      WalkHead(side, limit, size, book);
      WalkNeverOverfills(side, limit, size - f, book[1..]);
      WalkHead(side, limit, Total(Walk(side, limit, size, book)), book);
    }
  }

  // ----- runs

  ghost predicate ValidRun(s: Sim, es: seq<Event>)
    requires Sound(s)
    decreases es
  {
    es != [] ==> Enabled(s, es[0]) && (StepKeepsSound(s, es[0]); ValidRun(Step(s, es[0]), es[1..]))
  }

  ghost function Run(s: Sim, es: seq<Event>): Sim
    requires Sound(s) && ValidRun(s, es)
    ensures Sound(Run(s, es))
    decreases es
  {
    if es == [] then s else (StepKeepsSound(s, es[0]); Run(Step(s, es[0]), es[1..]))
  }

  /** Some run of the exchange from an order's creation leads to this state. */
  ghost predicate Reached(s: Sim) {
    exists o, es :: RunTo(o, es, s)
  }

  ghost predicate RunTo(o: OrderType, es: seq<Event>, s: Sim) {
    Sized(o) && Sound(Initial(s.side, o)) && ValidRun(Initial(s.side, o), es) && Run(Initial(s.side, o), es) == s
  }

  lemma CreatedIsReached(side: Side, o: OrderType)
    requires Sized(o)
    ensures Reached(Initial(side, o))
  {
    InitialIsSound(side, o);
    assert RunTo(o, [], Initial(side, o));
  }

  lemma ReachedGoesOn(s: Sim, e: Event)
    requires Reached(s) && Enabled(s, e)
    ensures Reached(Step(s, e))
  {
    hide Step, Enabled, Sound, Run, ValidRun;
    var o, es :| RunTo(o, es, s);
    RunGoesOn(Initial(s.side, o), es, e);
    StepKeepsSound(s, e);
    assert RunTo(o, es + [e], Step(s, e));
  }

  lemma {:induction false} RunGoesOn(s: Sim, es: seq<Event>, e: Event)
    requires Sound(s) && ValidRun(s, es) && Enabled(Run(s, es), e)
    ensures ValidRun(s, es + [e]) && Run(s, es + [e]) == Step(Run(s, es), e)
    decreases |es|
  {
    hide Step, Enabled, Sound;
    if es == [] {
      assert [] + [e] == [e];
      OneStep(s, e);
    } else {
      StepKeepsSound(s, es[0]);
      RunGoesOn(Step(s, es[0]), es[1..], e);
      assert (es + [e])[1..] == es[1..] + [e];
    }
  }

  /** The starting price a run fills the order at, 0 if it does not. */
  ghost function FilledAt(s: Sim, es: seq<Event>): StartingPrice
    requires Sound(s) && ValidRun(s, es)
    decreases es
  {
    if es == [] then 0
    else
      StepKeepsSound(s, es[0]);
      if FillsAtSp(s, es[0]) then es[0].sp else FilledAt(Step(s, es[0]), es[1..])
  }

  /** Size accounting over every run of an order. Nothing is cancelled below zero or matched beyond
      the size while size reductions are not negative, but for a LAY order that a starting price
      below its limit filled. */
  lemma SizeAccounting(side: Side, o: OrderType, es: seq<Event>)
    requires ValidOrder(o) && ValidRun(Initial(side, o), es)
    ensures var s, sp := Run(Initial(side, o), es), FilledAt(Initial(side, o), es);
      && s.sizeMatched == Volume(s.matched) >= 0
      && Remaining(s) >= 0 && s.lapsed >= 0 && s.voided >= 0
      && (o.Limit? ==> s.sizeMatched + s.cancelled + s.lapsed + s.voided + Remaining(s) == o.size)
      && (o.Limit? && AllReducing(es) && (s.cancelled < 0 || s.sizeMatched > o.size) ==> side.Lay? && 0 < sp < o.price)
      && (o.Limit? && s.bspReconciled ==> Remaining(s) == 0)
      && (!o.Limit? ==> s.cancelled == s.lapsed == s.voided == 0)
  {
    RunKeepsTerms(Initial(side, o), es);
    AverageIsClose(Run(Initial(side, o), es).matched);
    if o.Limit? && AllReducing(es) {
      RunKeepsCancelled(Initial(side, o), es);
    }
  }

  lemma {:induction false} RunKeepsCancelled(s: Sim, es: seq<Event>)
    requires Sound(s) && s.otype.Limit? && ValidRun(s, es) && AllReducing(es)
    ensures Run(s, es).cancelled >= s.cancelled
      || (s.side.Lay? && !s.bspReconciled && 0 < FilledAt(s, es) < s.otype.price)
    decreases es
  {
    hide Step, CallStep;
    if es != [] {
      var t := Step(s, es[0]);
      StepKeepsSound(s, es[0]);
      assert Reducing(es[0]);
      RunKeepsCancelled(t, es[1..]);
      if FillsAtSp(s, es[0]) {
        SpFillCancels(s, es[0]);
      }
    }
  }

  /** A starting price at the limit or above cancels some of a LAY order, or nothing of it. */
  lemma SpFillCancels(s: Sim, e: Event)
    requires Sound(s) && s.otype.Limit? && Enabled(s, e) && FillsAtSp(s, e)
    ensures Step(s, e).bspReconciled
    ensures s.side.Back? || e.sp >= s.otype.price ==> Step(s, e).cancelled >= s.cancelled
  {
    hide Average;
    var r, gain := Remaining(s), s.otype.price - 100;
    if s.side.Lay? && e.sp >= s.otype.price {
      MulOrder(gain, e.sp - 100, r);
      RoundKeepsBounds(gain * r, e.sp - 100, r);
    }
  }

  /** Nothing cancelled below zero, but for what a LAY starting price fill may do. */
  predicate NotOversold(s: Sim) {
    s.otype.Limit? && (s.side.Back? || !s.bspReconciled) ==> s.cancelled >= 0
  }

  lemma StepKeepsNotOversold(s: Sim, e: Event)
    requires Sound(s) && Enabled(s, e) && Reducing(e) && NotOversold(s)
    ensures NotOversold(Step(s, e))
  {
    hide Step;
    StepKeepsSound(s, e);
    if s.otype.Limit? && FillsAtSp(s, e) {
      SpFillCancels(s, e);
    }
  }

  lemma {:induction false} RunKeepsTerms(s: Sim, es: seq<Event>)
    requires Sound(s) && ValidRun(s, es)
    ensures Run(s, es).side == s.side && SameTerms(s.otype, Run(s, es).otype)
    ensures s.bspReconciled ==> Run(s, es).bspReconciled && Run(s, es).matched == s.matched
    decreases es
  {
    if es != [] {
      StepKeepsSound(s, es[0]);
      RunKeepsTerms(Step(s, es[0]), es[1..]);
    }
  }

  /** Unless a starting price fills it, an order's average matched price is at its limit or better;
      reconciling it at a starting price without filling it changes nothing about that. */
  lemma LimitPriceIsHonoured(side: Side, o: OrderType, es: seq<Event>)
    requires ValidOrder(o) && o.Limit? && ValidRun(Initial(side, o), es)
    requires FilledAt(Initial(side, o), es) == 0 && Run(Initial(side, o), es).sizeMatched > 0
    ensures AtLimitOrBetter(side, o.price, Run(Initial(side, o), es).averagePrice)
  {
    var s := Run(Initial(side, o), es);
    RunKeepsTerms(Initial(side, o), es);
    RunHonoursLimit(Initial(side, o), es);
    AverageIsClose(s.matched);
    AverageHonoursLimit(side, o.price, s.matched);
  }

  lemma {:induction false} RunHonoursLimit(s: Sim, es: seq<Event>)
    requires Sound(s) && s.otype.Limit? && HonoursLimit(s) && ValidRun(s, es) && FilledAt(s, es) == 0
    ensures Run(s, es).otype.Limit? && HonoursLimit(Run(s, es))
    decreases es
  {
    hide CallStep, SpStep, PlaceStep;
    if es != [] {
      StepKeepsSound(s, es[0]);
      SpFlag(s, es[0]);
      RunHonoursLimit(Step(s, es[0]), es[1..]);
    }
  }

  /** An order on close matches at most once, at a starting price its bound accepts, for its whole
      liability: until then it is unmatched, and once reconciled it stays as it is. */
  lemma OnCloseMatchesOnce(side: Side, o: OrderType, es: seq<Event>)
    requires ValidOrder(o) && !o.Limit? && ValidRun(Initial(side, o), es)
    ensures var s, sp := Run(Initial(side, o), es), FilledAt(Initial(side, o), es);
      && (s.matched != [] <==> sp != 0)
      && (sp != 0 ==>
          |s.matched| == 1 && s.matched[0].price == sp && s.matched[0].size == SpSize(side, o.liability, sp))
      && (sp != 0 && o.LimitOnClose? ==> AtLimitOrBetter(side, o.bound, sp))
  {
    RunKeepsTerms(Initial(side, o), es);
    OnCloseRun(Initial(side, o), es);
  }

  lemma {:induction false} OnCloseRun(s: Sim, es: seq<Event>)
    requires Sound(s) && !s.otype.Limit? && s.matched == [] && ValidRun(s, es)
    ensures var t, sp := Run(s, es), FilledAt(s, es);
      && (t.matched != [] <==> sp != 0) && (sp != 0 ==> t.matched[0].price == sp)
    decreases es
  {
    hide Average;
    if es != [] {
      var t := Step(s, es[0]);
      StepKeepsSound(s, es[0]);
      if t.matched == [] {
        OnCloseRun(t, es[1..]);
      } else {
        RunKeepsTerms(t, es[1..]);
      }
    }
  }

  ghost function SpFills(s: Sim, es: seq<Event>): nat
    requires Sound(s) && ValidRun(s, es)
    decreases es
  {
    if es == [] then 0
    else
      StepKeepsSound(s, es[0]);
      (if TakesSpNow(s, es[0]) then 1 else 0) + SpFills(Step(s, es[0]), es[1..])
  }

  /** Over any run an order is reconciled at most once, and then never matches again. */
  lemma {:induction false} SpAtMostOnce(s: Sim, es: seq<Event>)
    requires Sound(s) && ValidRun(s, es)
    ensures SpFills(s, es) + (if s.bspReconciled then 1 else 0) == if Run(s, es).bspReconciled then 1 else 0
    decreases es
  {
    if es != [] {
      StepKeepsSound(s, es[0]);
      SpFlag(s, es[0]);
      SpAtMostOnce(Step(s, es[0]), es[1..]);
    }
  }

  /** An order is reconciled by an update of a market that is, once a price is known, if it is on close
      or its persistence takes the starting price; LAPSE and PERSIST orders never are. */
  lemma SpFlag(s: Sim, e: Event)
    requires Sound(s) && Enabled(s, e)
    ensures !s.bspReconciled ==>
      (Step(s, e).bspReconciled <==>
        e.Called? && e.b.bspReconciled && e.sp != 0 && (s.otype.Limit? ==> s.otype.persistence == TakeStartingPrice))
    ensures Step(s, e).bspReconciled == (s.bspReconciled || TakesSpNow(s, e))
  {
    hide Average, TradeAll, PlaceStep;
    match e
    case Placed(v, bpe, b, r) => PlaceKeeps(s, v, bpe, b, r);
    case Called(b, sp, traded, min) =>
      if s.otype.Limit? && Remaining(s) != 0 {
        TradeKeeps(s.(version := Some(b.version)), b.time, traded);
      }
    case Cancelled(b, reduction) =>
    case UpdateRequested(p) =>
    case Updated(b, p) =>
  }

  /** What a starting price fill risks: a BACK order its whole remainder or liability, a LAY order
      its risk or liability to within half a penny of stake. */
  lemma SpFillRisk(s: Sim, time: int, sp: StartingPrice, min: int)
    requires Sound(s) && s.version.Some? && !s.bspReconciled && sp != 0
    requires SpStep(s, time, sp, min).0.matched != s.matched
    ensures var t := SpStep(s, time, sp, min).0; var fill := t.sizeMatched - s.sizeMatched;
      && (s.side.Back? ==> fill == if s.otype.Limit? then Remaining(s) else s.otype.liability)
      && (s.side.Lay? ==>
          var risk := if s.otype.Limit? then (s.otype.price - 100) * Remaining(s) else 100 * s.otype.liability;
          -(sp - 100) <= 2 * (fill * (sp - 100) - risk) <= sp - 100)
      && Turnover(t.matched) - Turnover(s.matched) == sp * fill
      && t.matched == s.matched + [Match(time, sp, fill)]
  {
    hide Average;
    SpKeeps(s, time, sp, min);
    var t := SpStep(s, time, sp, min).0;
    var m := t.matched[|t.matched| - 1];
    assert t.matched == s.matched + [m];
    Append(s.matched, m);
    AverageIsClose(s.matched);
    AverageIsClose(t.matched);
  }

  /** When a starting price fills an order at all, and what becomes of one it does not fill: a LAY
      order at a limit lapses if its risk is below the minimum, an order on close with a bound stays
      unmatched if the price is beyond it. Either way the order is told it is complete. */
  lemma SpOutcome(s: Sim, time: int, sp: StartingPrice, min: int)
    requires Sound(s) && s.version.Some? && !s.bspReconciled
    ensures var (t, complete) := SpStep(s, time, sp, min);
      var fills := match s.otype
        case Limit(price, _, _) => s.side.Back? || (price - 100) * Remaining(s) >= 100 * min
        case LimitOnClose(_, bound) => AtLimitOrBetter(s.side, bound, sp)
        case MarketOnClose(_) => true;
      && complete == t.bspReconciled == (sp != 0)
      && (t.matched != s.matched <==> sp != 0 && fills)
      && (t.lapsed != s.lapsed <==> sp != 0 && !fills && Remaining(s) > 0)
      && (t.lapsed != s.lapsed ==> Remaining(t) == 0)
      && (sp == 0 ==> t == s)
  {
    hide Average;
  }

  /** Rounding r * gain / odds, the stake with the same risk at the starting price, gives more
      than k: beyond the tie above k, or on it for odd k. */
  predicate BuysMoreThan(r: int, gain: int, odds: int, k: int) {
    var risk, tie := 2 * (gain * r), (2 * k + 1) * odds;
    risk > tie || (risk == tie && k % 2 != 0)
  }

  /** A LAY order at a limit is matched beyond its size exactly when its risk buys more stake at the
      starting price than the size still unmatched, and its cancelled size goes negative exactly when
      it buys more than what remains and what was cancelled before. */
  lemma LayOverfillsBelowLimit(s: Sim, time: int, sp: StartingPrice, min: int)
    requires Sound(s) && s.version.Some? && !s.bspReconciled && sp != 0
    requires s.otype.Limit? && s.side.Lay? && (s.otype.price - 100) * Remaining(s) >= 100 * min
    ensures var t, r, gain := SpStep(s, time, sp, min).0, Remaining(s), s.otype.price - 100;
      && (t.sizeMatched > s.otype.size <==> BuysMoreThan(r, gain, sp - 100, s.otype.size - s.sizeMatched))
      && (t.cancelled < 0 <==> BuysMoreThan(r, gain, sp - 100, r + s.cancelled))
  {
    hide Average;
    var risk := (s.otype.price - 100) * Remaining(s);
    RoundExceeds(risk, sp - 100, s.otype.size - s.sizeMatched);
    RoundExceeds(risk, sp - 100, Remaining(s) + s.cancelled);
    SpKeeps(s, time, sp, min);
    AverageIsClose(SpStep(s, time, sp, min).0.matched);
  }

  const PlainBook := MarketBook(Open, 1, 0, true, false, false, true)
  const NoOffers := RunnerBook(false, [], [], 0)

  /** So a LAY of 10.00 at 3.00 that takes a starting price of 2.00 is matched for 20.00. */
  lemma LayOverfills() returns (es: seq<Event>)
    ensures ValidRun(Initial(Lay, Limit(300, 1000, TakeStartingPrice)), es) && AllReducing(es)
    ensures var s := Run(Initial(Lay, Limit(300, 1000, TakeStartingPrice)), es);
      s.sizeMatched == 2000 && s.cancelled == -1000
  {
    hide Run, ValidRun, SpStep, PlaceStep, TradeAll, CancelStep, UpdateStep;
    var s := Initial(Lay, Limit(300, 1000, TakeStartingPrice));
    var book := PlainBook.(bspReconciled := true);
    var place, reconcile := Placed(None, true, PlainBook, NoOffers), Called(book, 200, [], 0);
    es := [place, reconcile];
    PlaceQuietly(s);
    LayAtTwo(s.(version := Some(1)));
    assert Step(s.(version := Some(1)), reconcile) == SpStep(s.(version := Some(1)), 0, 200, 0).0;
    TwoSteps(s, place, reconcile);
  }

  lemma LayAtTwo(s: Sim)
    requires s == Initial(Lay, Limit(300, 1000, TakeStartingPrice)).(version := Some(1))
    ensures var t := SpStep(s, 0, 200, 0).0; t.sizeMatched == 2000 && t.cancelled == -1000
  {
    InitialIsSound(s.side, s.otype);
    NearestIsUnique(200000, 100, 2000);
    AddMatchAdds(s.(bspReconciled := true, cancelled := -1000), Match(0, 200, 2000));
  }

  /** Placing a fresh order while nothing is on offer only accepts it. */
  lemma PlaceQuietly(s: Sim)
    requires Sound(s) && s == Initial(s.side, s.otype)
    ensures Step(s, Placed(None, true, PlainBook, NoOffers)) == s.(version := Some(1))
  {
  }

  lemma OneStep(s: Sim, e: Event)
    requires Sound(s) && Enabled(s, e)
    ensures Sound(Step(s, e)) && ValidRun(s, [e]) && Run(s, [e]) == Step(s, e)
  {
    StepKeepsSound(s, e);
    assert [e][1..] == [];
  }

  lemma TwoSteps(s: Sim, e: Event, f: Event)
    requires Sound(s) && Enabled(s, e) && Enabled(Step(s, e), f)
    ensures Sound(Step(s, e)) && ValidRun(s, [e, f]) && Run(s, [e, f]) == Step(Step(s, e), f)
  {
    hide Step, Enabled, Sound;
    StepKeepsSound(s, e);
    OneStep(Step(s, e), f);
    assert [e, f][1..] == [f];
  }

  /** A penny queue is enough for the order of the traded map to matter: behind it, one penny and
      three fill a penny, three and one nothing. */
  lemma IterationOrderMatters() returns (placed: Event, xs: seq<Level>, ys: seq<Level>)
    ensures multiset(xs) == multiset(ys) && DistinctPrices(xs)
    ensures var s := Initial(Back, Limit(200, 1000, Lapse));
      && ValidRun(s, [placed, Called(PlainBook, 0, xs, 0)]) && ValidRun(s, [placed, Called(PlainBook, 0, ys, 0)])
      && Run(s, [placed, Called(PlainBook, 0, xs, 0)]).sizeMatched == 1
      && Run(s, [placed, Called(PlainBook, 0, ys, 0)]).sizeMatched == 0
  {
    hide Run, ValidRun, TradeAll;
    var s, x, y := Initial(Back, Limit(200, 1000, Lapse)), Level(200, 1), Level(201, 3);
    placed, xs, ys := Placed(None, true, PlainBook, NoOffers.(availableToLay := [x])), [x, y], [y, x];
    var t := s.(version := Some(1), piq := 2);
    assert Step(s, placed) == t;
    CrossingInEitherOrder(t, 0, x, y);
    TwoSteps(s, placed, Called(PlainBook, 0, xs, 0));
    TwoSteps(s, placed, Called(PlainBook, 0, ys, 0));
    assert multiset(xs) == multiset(ys);
  }

  // ----- cancel and suspension

  /** A cancel by minus 5.00 leaves 15.00 of an order of 10.00, and all of it can be matched. */
  lemma NegativeReductionOverfills() returns (es: seq<Event>)
    ensures ValidRun(Initial(Back, Limit(200, 1000, Lapse)), es) && !AllReducing(es)
    ensures Run(Initial(Back, Limit(200, 1000, Lapse)), es).sizeMatched == 1500
  {
    hide Run, ValidRun, Step;
    var s := Initial(Back, Limit(200, 1000, Lapse));
    var place, add := Placed(None, true, PlainBook, NoOffers), Cancelled(PlainBook, Some(-500));
    var fill := Called(PlainBook, 0, [Level(200, 3000)], 0);
    es := [place, add, fill];
    PlaceQuietly(s);
    assert !Reducing(es[1]);
    AddThenFill(s.(version := Some(1)), add, fill);
    StepKeepsSound(s, place);
    TwoSteps(s.(version := Some(1)), add, fill);
    assert es[1..] == [add, fill];
    FirstStep(s, es);
  }

  lemma AddThenFill(s: Sim, add: Event, fill: Event)
    requires s == Initial(Back, Limit(200, 1000, Lapse)).(version := Some(1))
    requires add == Cancelled(PlainBook, Some(-500)) && fill == Called(PlainBook, 0, [Level(200, 3000)], 0)
    ensures Sound(s) && Enabled(Step(s, add), fill) && Step(Step(s, add), fill).sizeMatched == 1500
  {
    hide TradeAll, Average;
    InitialIsSound(s.side, s.otype);
    var t := s.(cancelled := -500);
    NearestIsUnique(3000, 2, 1500);
    FrontClosedForm(t, 0, [Level(200, 3000)]);
    assert [Level(200, 3000)][1..] == [];
  }

  lemma FirstStep(s: Sim, es: seq<Event>)
    requires Sound(s) && es != [] && Enabled(s, es[0])
    requires Sound(Step(s, es[0])) && ValidRun(Step(s, es[0]), es[1..])
    ensures ValidRun(s, es) && Run(s, es) == Run(Step(s, es[0]), es[1..])
  {
  }

  /** A LAPSE order loses its remainder, unmatched, at the first suspended update whose version it
      has not seen, and only there. */
  lemma SuspensionLapses(s: Sim, b: MarketBook, sp: StartingPrice, traded: seq<Level>, min: int)
    requires Sound(s) && s.otype.Limit? && s.version.Some? && s.otype.persistence == Lapse && Remaining(s) > 0
    ensures var t := CallStep(s, b, sp, traded, min).0;
      && (t.lapsed != s.lapsed <==> b.status == Suspended && Some(b.version) != s.version)
      && (t.lapsed != s.lapsed ==> Remaining(t) == 0 && t.matched == s.matched)
      && t.version == Some(b.version)
  {
    hide Average, TradeAll;
    TradeKeeps(s.(version := Some(b.version)), b.time, traded);
  }
}
