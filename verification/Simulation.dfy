/**
 The simulated exchange for one order (flumine/backtest/simulated.py): first the effect of every
 operation as a function on the order's state, then the class that updates that state in place.
 */
module Simulation {
  import opened Rounding
  import opened Exchange
  import opened Wap

  /** All fields of a simulated order; `piq`, the position in the queue, is in half pence. */
  datatype Sim = Sim(
    side: Side,
    otype: OrderType,
    sizeMatched: int,
    averagePrice: int,
    matched: seq<Match>,
    cancelled: int,
    lapsed: int,
    voided: int,
    version: Option<int>,
    piq: int,
    bspReconciled: bool)

  function Initial(side: Side, otype: OrderType): Sim {
    Sim(side, otype, 0, 0, [], 0, 0, 0, None, 0, false)
  }

  function Remaining(s: Sim): int {
    match s.otype
    case Limit(_, size, _) => size - s.sizeMatched - s.cancelled - s.lapsed - s.voided
    case _ => 0
  }

  predicate TakesSp(s: Sim) {
    s.otype.Limit? ==> s.otype.persistence == TakeStartingPrice
  }

  ghost function AddMatch(s: Sim, m: Match): Sim {
    var ms := s.matched + [m];
    s.(matched := ms, sizeMatched := Average(ms).0, averagePrice := Average(ms).1)
  }

  function VoidRest(s: Sim): Sim { s.(voided := s.voided + Remaining(s)) }

  function LapseRest(s: Sim): Sim { s.(lapsed := s.lapsed + Remaining(s)) }

  function Min(a: int, b: int): int { if a <= b then a else b }

  function Max(a: int, b: int): int { if a >= b then a else b }

  // ----- immediate execution against the book

  /** What a walk down the book takes, best level first, until the size is filled or a level is
      beyond the limit. */
  function Walk(side: Side, limit: int, size: int, book: seq<Level>): seq<Level> {
    if book == [] || size <= 0 || !AtLimitOrBetter(side, limit, book[0].price) then []
    else
      var taken := Min(size, book[0].size);
      [Level(book[0].price, taken)] + Walk(side, limit, size - taken, book[1..])
  }

  ghost function AddFills(s: Sim, time: int, fills: seq<Level>): Sim
    decreases fills
  {
    if fills == [] then s
    else AddFills(AddMatch(s, Match(time, fills[0].price, fills[0].size)), time, fills[1..])
  }

  /** The offers an order is matched against, and those it queues behind. */
  function Opposing(side: Side, r: RunnerBook): seq<Level> {
    if side.Back? then r.availableToBack else r.availableToLay
  }

  function Queueing(side: Side, r: RunnerBook): seq<Level> {
    if side.Back? then r.availableToLay else r.availableToBack
  }

  function BestPrice(book: seq<Level>, default: int): int {
    if book == [] then default else book[0].price
  }

  /** The size shown at a price, or what was there before when the price is not quoted. */
  function SizeAt(book: seq<Level>, price: int, default: int): int {
    if book == [] then default
    else if book[0].price == price then 2 * book[0].size
    else SizeAt(book[1..], price, default)
  }

  /** Level i is the first at the price. */
  ghost predicate FirstAt(book: seq<Level>, price: int, i: int) {
    0 <= i < |book| && book[i].price == price && forall j :: 0 <= j < i ==> book[j].price != price
  }

  /** What q is if it is taken over from a book: twice the size of the first level at the price, or as
      before when no level has it. */
  ghost predicate Shown(book: seq<Level>, price: int, before: int, q: int) {
    && (forall i :: FirstAt(book, price, i) ==> q == 2 * book[i].size)
    && ((forall i :: 0 <= i < |book| ==> book[i].price != price) ==> q == before)
  }

  lemma {:induction false} SizeIsShown(book: seq<Level>, price: int, before: int)
    ensures Shown(book, price, before, SizeAt(book, price, before))
  {
    if book != [] && book[0].price != price {
      SizeIsShown(book[1..], price, before);
      var q := SizeAt(book, price, before);
      forall i | FirstAt(book, price, i) ensures q == 2 * book[i].size {
        assert FirstAt(book[1..], price, i - 1);
      }
      if forall i :: 0 <= i < |book| ==> book[i].price != price {
        assert forall i :: 0 <= i < |book[1..]| ==> book[1..][i] == book[i + 1];
      }
    }
  }

  /** `place`: the new state and whether the request succeeded. */
  ghost function PlaceStep(s: Sim, packageVersion: Option<int>, bestPriceExecution: bool,
                           b: MarketBook, r: RunnerBook): (Sim, bool) {
    if b.status != Open then (VoidRest(s), false)
    else
      var s := s.(version := Some(b.version));
      if packageVersion.Some? && packageVersion.value != 0 && packageVersion.value != b.version then
        (VoidRest(s), false)
      else if r.removed then (VoidRest(s), false)
      else if s.otype.Limit? then PlaceLimit(s, bestPriceExecution, b.time, r)
      else if !b.bspMarket || b.bspReconciled || b.inplay then (VoidRest(s), false)
      else (s, true)
  }

  /** A LIMIT order on an open market: lapse on price improvement the client refuses, match at
      once what the book offers, or join the queue at the limit. */
  ghost function PlaceLimit(s: Sim, bestPriceExecution: bool, time: int, r: RunnerBook): (Sim, bool)
    requires s.otype.Limit?
  {
    var price := s.otype.price;
    var best := BestPrice(Opposing(s.side, r), if s.side.Back? then 101 else 100000);
    if !bestPriceExecution && best != price && AtLimitOrBetter(s.side, price, best) then
      (LapseRest(s), false)
    else if AtLimitOrBetter(s.side, price, best) then
      (AddFills(s, time, Walk(s.side, price, s.otype.size, Opposing(s.side, r))), true)
    else (s.(piq := SizeAt(Queueing(s.side, r), price, s.piq)), true)
  }

  lemma {:induction false} AddFillsKeepsTerms(s: Sim, time: int, fills: seq<Level>)
    ensures AddFills(s, time, fills).otype == s.otype
    decreases fills
  {
    hide Average;
    if fills != [] {
      AddFillsKeepsTerms(AddMatch(s, Match(time, fills[0].price, fills[0].size)), time, fills[1..]);
    }
  }

  lemma PlaceKeepsTerms(s: Sim, v: Option<int>, bestPriceExecution: bool, b: MarketBook, r: RunnerBook)
    ensures PlaceStep(s, v, bestPriceExecution, b, r).0.otype == s.otype
  {
    hide AddFills;
    if s.otype.Limit? {
      var fills := Walk(s.side, s.otype.price, s.otype.size, Opposing(s.side, r));
      AddFillsKeepsTerms(s.(version := Some(b.version)), b.time, fills);
    }
  }

  // ----- starting price

  /** `_process_sp`: the new state and whether the order was told that its execution is complete. */
  ghost function SpStep(s: Sim, time: int, sp: StartingPrice, minBspLiability: int): (Sim, bool) {
    if sp == 0 then (s, false)
    else
      var s := s.(bspReconciled := true);
      match s.otype
      case Limit(price, _, _) =>
        var risk := (price - 100) * Remaining(s);
        if s.side.Back? then (AddMatch(s, Match(time, sp, Remaining(s))), true)
        else if risk >= 100 * minBspLiability then
          var size := RoundDiv(risk, sp - 100);
          (AddMatch(s.(cancelled := s.cancelled + Remaining(s) - size), Match(time, sp, size)), true)
        else (LapseRest(s), true)
      case LimitOnClose(liability, bound) =>
        if !AtLimitOrBetter(s.side, bound, sp) then (s, true)
        else (AddMatch(s, Match(time, sp, SpSize(s.side, liability, sp))), true)
      case MarketOnClose(liability) =>
        (AddMatch(s, Match(time, sp, SpSize(s.side, liability, sp))), true)
  }

  /** A BACK stakes its liability; a LAY the stake whose risk is its liability. */
  ghost function SpSize(side: Side, liability: int, sp: StartingPrice): int
    requires sp != 0
  {
    if side.Back? then liability else RoundDiv(100 * liability, sp - 100)
  }

  // ----- volume traded since the last update

  /** `_calculate_process_traded`: half of the traded size works off the queue, then the order. */
  ghost function TradeOne(s: Sim, time: int, traded: int): Sim
    requires s.otype.Limit?
  {
    if s.piq - traded < 0 then
      var size := RoundDiv(Min(2 * Remaining(s), traded - s.piq), 2);
      var s := if size != 0 then AddMatch(s, Match(time, s.otype.price, size)) else s;
      s.(piq := 0)
    else s.(piq := s.piq - traded)
  }

  ghost function TradeAll(s: Sim, time: int, traded: seq<Level>): Sim
    requires s.otype.Limit?
    decreases traded
  {
    if traded == [] then s
    else
      var s' := if AtLimitOrBetter(s.side, s.otype.price, traded[0].price)
                then TradeOne(s, time, traded[0].size) else s;
      TradeAll(s', time, traded[1..])
  }

  /** `__call__`: one market update. */
  ghost function CallStep(s: Sim, b: MarketBook, sp: StartingPrice, traded: seq<Level>, minBspLiability: int)
    : (Sim, bool)
  {
    if !s.bspReconciled && b.bspReconciled && TakesSp(s) then SpStep(s, b.time, sp, minBspLiability)
    else if s.otype.Limit? && Remaining(s) != 0 then
      var changed := Some(b.version) != s.version;
      var s := s.(version := Some(b.version));
      if changed && b.status == Suspended && s.otype.persistence == Lapse then (LapseRest(s), false)
      else (TradeAll(s, b.time, traded), false)
    else (s, false)
  }

  // ----- cancel and update

  /** `cancel`: the new state and the size cancelled, None on failure. */
  function CancelStep(s: Sim, b: MarketBook, reduction: Option<int>): (Sim, Option<int>) {
    if b.status != Open || !s.otype.Limit? then (s, None)
    else
      var wanted := if reduction.Some? && reduction.value != 0 then reduction.value else Remaining(s);
      var size := Min(wanted, Remaining(s));
      (s.(cancelled := s.cancelled + size), Some(size))
  }

  function UpdateStep(s: Sim, b: MarketBook, persistence: Persistence): (Sim, bool) {
    if b.status == Open && b.persistenceEnabled && s.otype.Limit? && Remaining(s) > 0 then
      (s.(otype := s.otype.(persistence := persistence)), true)
    else (s, false)
  }

  // ----- settlement

  function Winners(o: Outcome): int
    requires o.Winner?
  {
    if o.deadHeatWinners == 0 then 1 else o.deadHeatWinners
  }

  /** `profit` in pence: n winners pay 1/n of a win and cost (n - 1)/n of a loss. */
  ghost function ProfitOf(s: Sim, o: Outcome): int {
    match o
    case Winner(_) =>
      var n := Winners(o);
      RoundDiv(Signed(s.side, s.sizeMatched * (s.averagePrice - 100) - (n - 1) * (100 * s.sizeMatched)), 100 * n)
    case Loser => Signed(s.side, -s.sizeMatched)
    case Unsettled => 0
  }

  // ----- the class

  class Simulated {
    const side: Side
    var orderType: OrderType
    var sizeMatched: int
    var averagePriceMatched: int
    var matched: seq<Match>
    var sizeCancelled: int
    var sizeLapsed: int
    var sizeVoided: int
    var marketVersion: Option<int>
    var piq: int
    var bspReconciled: bool

    function View(): Sim
      reads this
    {
      Sim(side, orderType, sizeMatched, averagePriceMatched, matched, sizeCancelled, sizeLapsed,
          sizeVoided, marketVersion, piq, bspReconciled)
    }

    constructor (side: Side, orderType: OrderType)
      ensures View() == Initial(side, orderType)
    {
      this.side, this.orderType := side, orderType;
      sizeMatched, averagePriceMatched, matched := 0, 0, [];
      sizeCancelled, sizeLapsed, sizeVoided := 0, 0, 0;
      marketVersion, piq, bspReconciled := None, 0, false;
    }

    function SizeRemaining(): int
      reads this
      ensures SizeRemaining() == Remaining(View())
    {
      match orderType
      case Limit(_, size, _) => size - sizeMatched - sizeCancelled - sizeLapsed - sizeVoided
      case _ => 0
    }

    predicate TakeSp()
      reads this
      ensures TakeSp() == TakesSp(View())
    {
      match orderType
      case Limit(_, _, persistence) => persistence == TakeStartingPrice
      case _ => true
    }

    method UpdateMatched(m: Match)
      modifies this
      ensures View() == AddMatch(old(View()), m)
    {
      matched := matched + [m];
      sizeMatched, averagePriceMatched := ComputeAverage(matched);
    }

    method Call(b: MarketBook, sp: StartingPrice, traded: seq<Level>, minBspLiability: int)
      returns (complete: bool)
      modifies this
      ensures (View(), complete) == CallStep(old(View()), b, sp, traded, minBspLiability)
    {
      complete := false;
      if !bspReconciled && b.bspReconciled && TakeSp() {
        complete := ProcessSp(b.time, sp, minBspLiability);
      } else if orderType.Limit? && SizeRemaining() != 0 {
        if Some(b.version) != marketVersion {
          marketVersion := Some(b.version);
          if b.status == Suspended && orderType.persistence == Lapse {
            sizeLapsed := sizeLapsed + SizeRemaining();
            return;
          }
        }
        ProcessTraded(b.time, traded);
      }
    }

    method Place(packageVersion: Option<int>, bestPriceExecution: bool, b: MarketBook, r: RunnerBook)
      returns (ok: bool)
      requires orderType.Limit? ==> orderType.size >= 0
      modifies this
      ensures (View(), ok) == PlaceStep(old(View()), packageVersion, bestPriceExecution, b, r)
    {
      if b.status != Open {
        sizeVoided := sizeVoided + SizeRemaining();
        return false;
      }
      marketVersion := Some(b.version);
      if packageVersion.Some? && packageVersion.value != 0 && packageVersion.value != b.version {
        sizeVoided := sizeVoided + SizeRemaining();
        return false;
      }
      if r.removed {
        sizeVoided := sizeVoided + SizeRemaining();
        return false;
      }
      if orderType.Limit? {
        ok := MatchOrQueue(bestPriceExecution, b.time, r);
        return;
      }
      if !b.bspMarket || b.bspReconciled || b.inplay {
        sizeVoided := sizeVoided + SizeRemaining();
        return false;
      }
      return true;
    }

    method MatchOrQueue(bestPriceExecution: bool, time: int, r: RunnerBook) returns (ok: bool)
      requires orderType.Limit? && orderType.size >= 0
      modifies this
      ensures (View(), ok) == PlaceLimit(old(View()), bestPriceExecution, time, r)
    {
      var availableToBack := if |r.availableToBack| > 0 then r.availableToBack[0].price else 101;
      var availableToLay := if |r.availableToLay| > 0 then r.availableToLay[0].price else 100000;
      var price, size := orderType.price, orderType.size;
      var available;
      if side == Back {
        if !bestPriceExecution && availableToBack > price {
          sizeLapsed := sizeLapsed + SizeRemaining();
          return false;
        } else if availableToBack >= price {
          ProcessPriceMatched(time, price, size, r.availableToBack);
          return true;
        }
        available := r.availableToLay;
      } else {
        if !bestPriceExecution && availableToLay < price {
          sizeLapsed := sizeLapsed + SizeRemaining();
          return false;
        } else if availableToLay <= price {
          ProcessPriceMatched(time, price, size, r.availableToLay);
          return true;
        }
        available := r.availableToBack;
      }
      JoinQueue(price, available);
      return true;
    }

    /** Behind everything already offered at the order's own price. */
    method JoinQueue(price: Price, available: seq<Level>)
      modifies this
      ensures View() == old(View()).(piq := SizeAt(available, price, old(piq)))
      ensures Shown(available, price, old(piq), piq)
    {
      SizeIsShown(available, price, piq);
      for i := 0 to |available|
        invariant View() == old(View())
        invariant SizeAt(available, price, piq) == SizeAt(available[i..], price, piq)
      {
        if available[i].price == price {
          piq := 2 * available[i].size;
          return;
        }
        assert available[i..][1..] == available[i + 1..];
      }
    }

    method ProcessPriceMatched(time: int, price: Price, size: int, available: seq<Level>)
      requires size >= 0
      modifies this
      ensures View() == AddFills(old(View()), time, Walk(side, price, size, available))
    {
      hide Average, AddMatch;
      var remaining := size;
      var i := 0;
      while i < |available|
        invariant 0 <= i <= |available| && remaining >= 0
        invariant AddFills(View(), time, Walk(side, price, remaining, available[i..]))
               == AddFills(old(View()), time, Walk(side, price, size, available))
      {
        if remaining == 0 {
          break;
        } else if (side == Back && price <= available[i].price) || (side == Lay && price >= available[i].price) {
          var before := remaining;
          remaining := if remaining - available[i].size > 0 then remaining - available[i].size else 0;
          var taken := if remaining == 0 then before else available[i].size;
          assert available[i..][1..] == available[i + 1..];
          UpdateMatched(Match(time, available[i].price, taken));
        } else {
          break;
        }
        i := i + 1;
      }
    }

    method ProcessSp(time: int, sp: StartingPrice, minBspLiability: int) returns (complete: bool)
      modifies this
      ensures (View(), complete) == SpStep(old(View()), time, sp, minBspLiability)
    {
      if sp == 0 {
        return false;
      }
      bspReconciled := true;
      var size;
      match orderType {
        case Limit(price, _, _) =>
          if side == Back {
            size := SizeRemaining();
          } else {
            var risk := (price - 100) * SizeRemaining();
            if risk >= 100 * minBspLiability {
              size := Round(risk, sp - 100);
              sizeCancelled := sizeCancelled + (SizeRemaining() - size);
            } else {
              sizeLapsed := sizeLapsed + SizeRemaining();
              return true;
            }
          }
        case LimitOnClose(liability, bound) =>
          if side == Back {
            if sp < bound {
              return true;
            }
            size := liability;
          } else {
            if sp > bound {
              return true;
            }
            size := Round(100 * liability, sp - 100);
          }
        case MarketOnClose(liability) =>
          if side == Back {
            size := liability;
          } else {
            size := Round(100 * liability, sp - 100);
          }
      }
      UpdateMatched(Match(time, sp, size));
      return true;
    }

    method ProcessTraded(time: int, traded: seq<Level>)
      requires orderType.Limit?
      modifies this
      ensures View() == TradeAll(old(View()), time, traded)
    {
      var price := orderType.price;
      for i := 0 to |traded|
        invariant orderType == old(orderType)
        invariant TradeAll(View(), time, traded[i..]) == TradeAll(old(View()), time, traded)
      {
        assert traded[i..][1..] == traded[i + 1..];
        if side == Back && traded[i].price >= price {
          CalculateProcessTraded(time, traded[i].size);
        } else if side == Lay && traded[i].price <= price {
          CalculateProcessTraded(time, traded[i].size);
        }
      }
    }

    method CalculateProcessTraded(time: int, traded: int)
      requires orderType.Limit?
      modifies this
      ensures View() == TradeOne(old(View()), time, traded)
    {
      if piq - traded < 0 {
        var size := Round(Min(2 * SizeRemaining(), traded - piq), 2);
        if size != 0 {
          UpdateMatched(Match(time, orderType.price, size));
        }
        piq := 0;
      } else {
        piq := piq - traded;
      }
    }

    method Cancel(b: MarketBook, reduction: Option<int>) returns (cancelled: Option<int>)
      modifies this
      ensures (View(), cancelled) == CancelStep(old(View()), b, reduction)
    {
      if b.status != Open {
        return None;
      }
      if orderType.Limit? {
        var wanted := if reduction.Some? && reduction.value != 0 then reduction.value else SizeRemaining();
        var size := Min(wanted, SizeRemaining());
        sizeCancelled := sizeCancelled + size;
        return Some(size);
      }
      return None;
    }

    method Update(b: MarketBook, persistence: Persistence) returns (ok: bool)
      modifies this
      ensures (View(), ok) == UpdateStep(old(View()), b, persistence)
    {
      if b.status != Open {
        return false;
      }
      if !b.persistenceEnabled {
        return false;
      }
      if orderType.Limit? && SizeRemaining() > 0 {
        orderType := orderType.(persistence := persistence);
        return true;
      }
      return false;
    }

    method Profit(o: Outcome) returns (profit: int)
      ensures profit == ProfitOf(View(), o)
    {
      hide IsNearest;
      match o {
        case Winner(_) =>
          var n := Winners(o);
          // n times the profit, in hundredths of a penny
          var scaled := sizeMatched * (averagePriceMatched - 100);
          if n == 2 {
            scaled := scaled - 100 * sizeMatched;
          } else if n > 2 {
            scaled := scaled - (n - 1) * (100 * sizeMatched);
          }
          if side == Lay {
            scaled := -scaled;
          }
          profit := Round(scaled, 100 * n);
        case Loser =>
          profit := if side == Back then -sizeMatched else sizeMatched;
        case Unsettled =>
          profit := 0;
      }
    }
  }
}
