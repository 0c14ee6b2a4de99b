/** What a single matching operation achieves: the walk down a book and the queue. */
module Fills {
  import opened Rounding
  import opened Exchange
  import opened Wap
  import opened Simulation

  // ----- the walk is the best execution the book allows

  function Total(ls: seq<Level>): int {
    if ls == [] then 0 else ls[0].size + Total(ls[1..])
  }

  /** Price-weighted size, signed so that more is better for the side. */
  function Value(side: Side, ls: seq<Level>): int {
    if ls == [] then 0 else Signed(side, ls[0].price) * ls[0].size + Value(side, ls[1..])
  }

  ghost predicate BestFirst(side: Side, book: seq<Level>) {
    forall i, j :: 0 <= i < j < |book| ==> AtLimitOrBetter(side, book[j].price, book[i].price)
  }

  /** Everything the book offers at the limit or better. */
  function Offered(side: Side, limit: int, book: seq<Level>): int {
    if book == [] then 0
    else
      var head := if AtLimitOrBetter(side, limit, book[0].price) then book[0].size else 0;
      head + Offered(side, limit, book[1..])
  }

  /** Any way at all of taking from the acceptable levels of a book. */
  ghost predicate Allocation(side: Side, limit: int, book: seq<Level>, alloc: seq<Level>) {
    && |alloc| == |book|
    && forall i :: 0 <= i < |book| ==>
      && alloc[i].price == book[i].price
      && alloc[i].size <= book[i].size
      && (alloc[i].size > 0 ==> AtLimitOrBetter(side, limit, book[i].price))
  }

  lemma {:induction false} NothingAcceptable(side: Side, limit: int, book: seq<Level>)
    requires BestFirst(side, book)
    requires book != [] ==> !AtLimitOrBetter(side, limit, book[0].price)
    ensures Offered(side, limit, book) == 0
  {
    if |book| > 1 {
      NothingAcceptable(side, limit, book[1..]);
    }
  }

  lemma {:induction false} OfferedIsNatural(side: Side, limit: int, book: seq<Level>)
    ensures Offered(side, limit, book) >= 0
  {
    if book != [] { OfferedIsNatural(side, limit, book[1..]); }
  }

  /** On a book sorted best first the walk fills the smaller of the size and what is offered. */
  lemma {:induction false} WalkFillsAllItCan(side: Side, limit: int, size: nat, book: seq<Level>)
    requires BestFirst(side, book)
    ensures Total(Walk(side, limit, size, book)) == Min(size, Offered(side, limit, book))
    decreases |book|
  {
    OfferedIsNatural(side, limit, book);
    if book == [] || size == 0 {
    } else if !AtLimitOrBetter(side, limit, book[0].price) {
      NothingAcceptable(side, limit, book);
    } else {
      var taken := Min(size, book[0].size);
      OfferedIsNatural(side, limit, book[1..]);
      WalkFillsAllItCan(side, limit, size - taken, book[1..]);
      assert Walk(side, limit, size, book)[1..] == Walk(side, limit, size - taken, book[1..]);
    }
  }

  lemma {:induction false} WalkNeverOverfills(side: Side, limit: int, size: nat, book: seq<Level>)
    ensures 0 <= Total(Walk(side, limit, size, book)) <= size
    ensures forall f :: f in Walk(side, limit, size, book) ==> AtLimitOrBetter(side, limit, f.price)
    decreases |book|
  {
    if book != [] && size != 0 && AtLimitOrBetter(side, limit, book[0].price) {
      var taken := Min(size, book[0].size);
      WalkNeverOverfills(side, limit, size - taken, book[1..]);
      assert Walk(side, limit, size, book)[1..] == Walk(side, limit, size - taken, book[1..]);
    }
  }

  lemma WalkHead(side: Side, limit: int, size: nat, book: seq<Level>)
    requires book != [] && AtLimitOrBetter(side, limit, book[0].price)
    ensures var f, w := Min(size, book[0].size), Walk(side, limit, size, book);
      var rest := Walk(side, limit, size - f, book[1..]);
      && Total(w) == f + Total(rest)
      && Value(side, w) == Signed(side, book[0].price) * f + Value(side, rest)
  {
    var f := Min(size, book[0].size);
    if size != 0 {
      assert Walk(side, limit, size, book)[1..] == Walk(side, limit, size - f, book[1..]);
    }
  }

  lemma ScaleGap(p: int, w: int, f: int, g: int, vx: int, vy: int, tx: int, ty: int)
    requires p <= w && f <= g && vy - vx <= w * (ty - tx)
    ensures (p * g + vy) - (p * f + vx) <= w * ((g + ty) - (f + tx))
  {
    MulOrder(p, w, g - f);
    assert p * g - p * f == p * (g - f);
    assert w * (g - f) + w * (ty - tx) == w * ((g + ty) - (f + tx));
  }

  /** The extra fills of a longer walk are worth no more per unit than any bound on the book. */
  lemma {:induction false} MarginalWorth(side: Side, limit: int, a: nat, b: nat, book: seq<Level>, w: int)
    requires a <= b
    requires forall l :: l in book ==> Signed(side, l.price) <= w
    ensures var x, y := Walk(side, limit, a, book), Walk(side, limit, b, book);
      Value(side, y) - Value(side, x) <= w * (Total(y) - Total(x))
    decreases |book|
  {
    if book == [] || !AtLimitOrBetter(side, limit, book[0].price) {
    } else {
      var f, g := Min(a, book[0].size), Min(b, book[0].size);
      MarginalWorth(side, limit, a - f, b - g, book[1..], w);
      WalkHead(side, limit, a, book);
      WalkHead(side, limit, b, book);
      var x', y' := Walk(side, limit, a - f, book[1..]), Walk(side, limit, b - g, book[1..]);
      assert book[0] in book;
      ScaleGap(Signed(side, book[0].price), w, f, g, Value(side, x'), Value(side, y'), Total(x'), Total(y'));
    }
  }

  lemma {:induction false} NoAllocation(side: Side, limit: int, book: seq<Level>, alloc: seq<Level>)
    requires BestFirst(side, book) && Allocation(side, limit, book, alloc)
    requires book != [] ==> !AtLimitOrBetter(side, limit, book[0].price)
    ensures Total(alloc) == 0 && Value(side, alloc) == 0
  {
    if book != [] {
      assert alloc[0].size == 0;
      NoAllocation(side, limit, book[1..], alloc[1..]);
    }
  }

  lemma {:induction false} TotalIsNatural(ls: seq<Level>)
    ensures Total(ls) >= 0
  {
    if ls != [] { TotalIsNatural(ls[1..]); }
  }

  /** No way of taking a total from the acceptable levels can be completed to more than the walk
      takes, or is worth more to the side than the walk for that total. */
  lemma {:induction false} WalkIsOptimal(side: Side, limit: int, book: seq<Level>, alloc: seq<Level>)
    requires BestFirst(side, book) && Allocation(side, limit, book, alloc)
    ensures Total(alloc) >= 0
    ensures Total(Walk(side, limit, Total(alloc), book)) == Total(alloc)
    ensures Value(side, alloc) <= Value(side, Walk(side, limit, Total(alloc), book))
    decreases |book|
  {
    TotalIsNatural(alloc);
    if book == [] {
    } else if !AtLimitOrBetter(side, limit, book[0].price) {
      NoAllocation(side, limit, book, alloc);
    } else {
      HeadIsBest(side, limit, book, alloc);
      TotalIsNatural(alloc[1..]);
      WalkIsOptimal(side, limit, book[1..], alloc[1..]);
      HeadTakesMost(side, limit, Total(alloc), alloc[0].size, book);
    }
  }

  lemma HeadIsBest(side: Side, limit: int, book: seq<Level>, alloc: seq<Level>)
    requires book != [] && BestFirst(side, book) && Allocation(side, limit, book, alloc)
    ensures BestFirst(side, book[1..]) && Allocation(side, limit, book[1..], alloc[1..])
    ensures forall l :: l in book[1..] ==> Signed(side, l.price) <= Signed(side, book[0].price)
  {
    forall l | l in book[1..] ensures Signed(side, l.price) <= Signed(side, book[0].price) {
      var i :| 1 <= i < |book| && book[i] == l;
      assert AtLimitOrBetter(side, book[i].price, book[0].price);
    }
  }

  /** Taking a from the best level and walking on for the rest is no better than the walk. */
  lemma HeadTakesMost(side: Side, limit: int, t: nat, a: nat, book: seq<Level>)
    requires book != [] && BestFirst(side, book[1..]) && AtLimitOrBetter(side, limit, book[0].price)
    requires a <= t && a <= book[0].size
    requires forall l :: l in book[1..] ==> Signed(side, l.price) <= Signed(side, book[0].price)
    requires Total(Walk(side, limit, t - a, book[1..])) == t - a
    ensures Total(Walk(side, limit, t, book)) == t
    ensures Signed(side, book[0].price) * a + Value(side, Walk(side, limit, t - a, book[1..]))
         <= Value(side, Walk(side, limit, t, book))
  {
    hide Walk, Value, Total, Signed, BestFirst, Offered, AtLimitOrBetter;
    var f, p := Min(t, book[0].size), Signed(side, book[0].price);
    WalkHead(side, limit, t, book);
    MarginalWorth(side, limit, t - f, t - a, book[1..], p);
    WalkPrefixFills(side, limit, t - f, t - a, book[1..]);
    assert p * ((t - a) - (t - f)) == p * f - p * a;
  }

  /** What can be filled in full can be filled in part. */
  lemma WalkPrefixFills(side: Side, limit: int, a: nat, b: nat, book: seq<Level>)
    requires BestFirst(side, book) && a <= b
    requires Total(Walk(side, limit, b, book)) == b
    ensures Total(Walk(side, limit, a, book)) == a
  {
    WalkFillsAllItCan(side, limit, a, book);
    WalkFillsAllItCan(side, limit, b, book);
  }

  // ----- the queue

  /** A weight summed over the sizes traded at the limit or better. */
  ghost function Weighed(weight: int -> int, side: Side, limit: int, traded: seq<Level>): int {
    if traded == [] then 0
    else
      var head := if AtLimitOrBetter(side, limit, traded[0].price) then weight(traded[0].size) else 0;
      head + Weighed(weight, side, limit, traded[1..])
  }

  /** Volume traded at the limit or better: as pounds halved it counts half pence. */
  ghost function Eligible(side: Side, limit: int, traded: seq<Level>): int {
    Weighed((x: int) => x, side, limit, traded)
  }

  /** The same volume with each size halved to the nearest penny, ties to even. */
  ghost function Halves(side: Side, limit: int, traded: seq<Level>): int {
    Weighed(x => RoundDiv(x, 2), side, limit, traded)
  }

  /** Queue and fill change nothing else of an order. */
  ghost predicate OnlyTraded(s: Sim, t: Sim) {
    t == s.(sizeMatched := t.sizeMatched, averagePrice := t.averagePrice, matched := t.matched, piq := t.piq)
  }

  /** An order with a limit whose totals are those of its list of matches. */
  ghost predicate Tradable(s: Sim) {
    && s.otype.Limit?
    && Reported(s)
    && Remaining(s) >= 0 && s.piq >= 0
  }

  ghost predicate Reported(s: Sim) {
    NonNegative(s.matched) && (s.sizeMatched, s.averagePrice) == Average(s.matched)
  }

  lemma AddMatchAdds(s: Sim, m: Match)
    requires Reported(s) && m.size >= 0
    ensures var t := AddMatch(s, m);
      && Reported(t) && t.sizeMatched == s.sizeMatched + m.size
      && Turnover(t.matched) == Turnover(s.matched) + m.price * m.size
  {
    Append(s.matched, m);
    AverageIsClose(s.matched);
    AverageIsClose(AddMatch(s, m).matched);
  }

  /** What one traded level of a size fills. */
  ghost function OneFill(s: Sim, traded: int): int {
    RoundDiv(Min(2 * Remaining(s), Max(0, traded - s.piq)), 2)
  }

  /** One traded level: the queue shrinks first, the rest fills the order at its own limit. */
  lemma TradeOneEffect(s: Sim, time: int, traded: nat)
    requires Tradable(s)
    ensures var t, fill := TradeOne(s, time, traded), OneFill(s, traded);
      && Tradable(t) && OnlyTraded(s, t)
      && t.piq == Max(0, s.piq - traded)
      && 0 <= fill <= Remaining(s) && t.sizeMatched == s.sizeMatched + fill
      && Turnover(t.matched) == Turnover(s.matched) + s.otype.price * fill
      && (t.matched == s.matched || t.matched == s.matched + [Match(time, s.otype.price, fill)])
  {
    var x := Min(2 * Remaining(s), Max(0, traded - s.piq));
    RoundKeepsBounds(x, 2, 0);
    RoundKeepsBounds(x, 2, Remaining(s));
    if OneFill(s, traded) != 0 {
      AddMatchAdds(s, Match(time, s.otype.price, OneFill(s, traded)));
    }
  }

  /** The orders' share, in half pence, of an eligible volume h behind the queue. */
  function Share(s: Sim, h: int): int {
    Min(2 * Remaining(s), Max(0, h - s.piq))
  }

  lemma ShareSplits(s: Sim, t: Sim, x: nat, h: nat, fill: int)
    requires s.piq >= 0 && Remaining(s) >= 0
    requires t.piq == Max(0, s.piq - x) && Remaining(t) == Remaining(s) - fill
    requires -1 <= 2 * fill - Share(s, x) <= 1 && fill <= Remaining(s)
    ensures -1 <= 2 * fill + Share(t, h) - Share(s, x + h) <= 1
    ensures 2 * fill == Share(s, x) ==> 2 * fill + Share(t, h) == Share(s, x + h)
  {
  }

  lemma EmptyShare(s: Sim)
    requires s.piq >= 0 && Remaining(s) >= 0
    ensures Share(s, 0) == 0
  {
  }

  lemma TradeOneShare(s: Sim, time: int, traded: nat)
    requires Tradable(s)
    ensures -1 <= 2 * OneFill(s, traded) - Share(s, traded) <= 1
    ensures s.piq % 2 == 0 && traded % 2 == 0 ==> 2 * OneFill(s, traded) == Share(s, traded)
  {
    if s.piq % 2 == 0 && traded % 2 == 0 {
      RoundKeepsBounds(Share(s, traded), 2, Share(s, traded) / 2);
    }
  }

  /** A pass over the traded map leaves the queue short by the eligible volume and fills the order
      at its own limit, out by at most half a penny for each traded price, and not out at all when
      the queue and the traded sizes are in even pence. */
  lemma {:induction false} QueueClosedForm(s: Sim, time: int, traded: seq<Level>)
    requires Tradable(s)
    ensures var t, h := TradeAll(s, time, traded), Eligible(s.side, s.otype.price, traded);
      && Tradable(t) && OnlyTraded(s, t) && h >= 0
      && t.piq == Max(0, s.piq - h)
      && s.sizeMatched <= t.sizeMatched
      && -|traded| <= 2 * (t.sizeMatched - s.sizeMatched) - Share(s, h) <= |traded|
      && (s.piq % 2 == 0 && (forall l :: l in traded ==> l.size % 2 == 0) ==>
          2 * (t.sizeMatched - s.sizeMatched) == Share(s, h))
    decreases |traded|
  {
    hide TradeOne, OneFill, Average, Share, Reported, AtLimitOrBetter;
    if traded == [] {
      EmptyShare(s);
    } else {
      assert traded[0] in traded;
      var x := traded[0].size;
      if AtLimitOrBetter(s.side, s.otype.price, traded[0].price) {
        var s' := TradeOne(s, time, x);
        TradeOneEffect(s, time, x);
        TradeOneShare(s, time, x);
        QueueClosedForm(s', time, traded[1..]);
        ShareSplits(s, s', x, Eligible(s.side, s.otype.price, traded[1..]), OneFill(s, x));
      } else {
        QueueClosedForm(s, time, traded[1..]);
      }
    }
  }

  /** Every fill of a pass is at the order's own limit. */
  lemma {:induction false} TradesFillAtTheLimit(s: Sim, time: int, traded: seq<Level>)
    requires Tradable(s)
    ensures var t := TradeAll(s, time, traded);
      && Tradable(t)
      && Turnover(t.matched) - Turnover(s.matched) == s.otype.price * (t.sizeMatched - s.sizeMatched)
      && (forall m :: m in t.matched ==> m in s.matched || m.price == s.otype.price)
    decreases |traded|
  {
    hide TradeOne, OneFill, Average;
    if traded != [] {
      var s' := s;
      if AtLimitOrBetter(s.side, s.otype.price, traded[0].price) {
        s' := TradeOne(s, time, traded[0].size);
        TradeOneEffect(s, time, traded[0].size);
      }
      TradesFillAtTheLimit(s', time, traded[1..]);
      var t, p := TradeAll(s, time, traded), s.otype.price;
      assert p * (t.sizeMatched - s'.sizeMatched) + p * (s'.sizeMatched - s.sizeMatched)
          == p * (t.sizeMatched - s.sizeMatched);
    }
  }

  lemma {:induction false} WeighedAt(weight: int -> int, side: Side, limit: int, ls: seq<Level>, i: nat)
    requires i < |ls|
    ensures Weighed(weight, side, limit, ls)
         == Weighed(weight, side, limit, [ls[i]]) + Weighed(weight, side, limit, ls[..i] + ls[i + 1..])
  {
    if i == 0 {
      assert ls[..0] + ls[1..] == ls[1..];
    } else {
      WeighedAt(weight, side, limit, ls[1..], i - 1);
      var cut := ls[..i] + ls[i + 1..];
      assert cut[1..] == ls[1..][..i - 1] + ls[1..][i..];
    }
  }

  lemma SameRest<T>(xs: seq<T>, ys: seq<T>) returns (i: nat)
    requires xs != [] && multiset(xs) == multiset(ys)
    ensures i < |ys| && ys[i] == xs[0]
    ensures multiset(xs[1..]) == multiset(ys[..i] + ys[i + 1..])
  {
    assert xs[0] in multiset(ys);
    i :| 0 <= i < |ys| && ys[i] == xs[0];
    assert xs == [xs[0]] + xs[1..];
    var a, b := ys[..i], ys[i + 1..];
    assert ys == a + [ys[i]] + b;
    assert multiset(ys) == multiset(a) + multiset{ys[i]} + multiset(b);
    assert multiset(xs) == multiset{xs[0]} + multiset(xs[1..]);
    var one := multiset{xs[0]};
    assert multiset(xs) - one == multiset(xs[1..]);
    assert multiset(ys) - one == multiset(a) + multiset(b);
  }

  lemma {:induction false} WeighedIgnoresOrder(weight: int -> int, side: Side, limit: int,
                                               xs: seq<Level>, ys: seq<Level>)
    requires multiset(xs) == multiset(ys)
    ensures Weighed(weight, side, limit, xs) == Weighed(weight, side, limit, ys)
    decreases |xs|
  {
    if xs == [] {
      assert |multiset(ys)| == |ys|;
    } else {
      var i := SameRest(xs, ys);
      WeighedAt(weight, side, limit, xs, 0);
      WeighedAt(weight, side, limit, ys, i);
      assert xs[..0] + xs[1..] == xs[1..];
      WeighedIgnoresOrder(weight, side, limit, xs[1..], ys[..i] + ys[i + 1..]);
    }
  }

  /** At the front of the queue each traded size fills its half, rounded on its own, until nothing
      is left. */
  lemma {:induction false} FrontClosedForm(s: Sim, time: int, traded: seq<Level>)
    requires Tradable(s) && s.piq == 0
    ensures var t, h := TradeAll(s, time, traded), Halves(s.side, s.otype.price, traded);
      h >= 0 && Tradable(t) && OnlyTraded(s, t) && t.piq == 0 && t.sizeMatched == s.sizeMatched + Min(Remaining(s), h)
    decreases |traded|
  {
    hide TradeOne, OneFill, Average, Reported, AtLimitOrBetter;
    if traded != [] {
      var x := traded[0].size;
      HalfIsNatural(x);
      if AtLimitOrBetter(s.side, s.otype.price, traded[0].price) {
        TradeOneEffect(s, time, x);
        HalfFill(s, x);
        FrontClosedForm(TradeOne(s, time, x), time, traded[1..]);
      } else {
        FrontClosedForm(s, time, traded[1..]);
      }
    }
  }

  lemma HalfIsNatural(x: nat)
    ensures RoundDiv(x, 2) >= 0
  {
    RoundKeepsBounds(x, 2, 0);
  }

  lemma HalfFill(s: Sim, x: nat)
    requires s.piq == 0 && Remaining(s) >= 0
    ensures OneFill(s, x) == Min(Remaining(s), RoundDiv(x, 2))
  {
    RoundKeepsBounds(2 * Remaining(s), 2, Remaining(s));
    RoundMonotone(Min(2 * Remaining(s), x), Max(2 * Remaining(s), x), 2);
  }

  /** Two results that agree on all but the list of matches: on queue, size, remainder and price. */
  ghost predicate Agree(t: Sim, u: Sim) {
    t == u.(matched := t.matched)
  }

  /** The order in which the traded map is iterated makes no difference at the front of the queue,
      with nothing left to fill, and anywhere as long as queue and sizes are in even pence. */
  lemma IterationOrderIsIrrelevant(s: Sim, time: int, xs: seq<Level>, ys: seq<Level>)
    requires Tradable(s) && multiset(xs) == multiset(ys)
    requires s.piq == 0 || Remaining(s) == 0 || (s.piq % 2 == 0 && forall l :: l in xs ==> l.size % 2 == 0)
    ensures Agree(TradeAll(s, time, xs), TradeAll(s, time, ys))
  {
    hide TradeAll, Share, Weighed;
    forall l | l in ys ensures l in xs {
      assert l in multiset(xs);
    }
    WeighedIgnoresOrder((x: int) => x, s.side, s.otype.price, xs, ys);
    WeighedIgnoresOrder(x => RoundDiv(x, 2), s.side, s.otype.price, xs, ys);
    QueueClosedForm(s, time, xs);
    QueueClosedForm(s, time, ys);
    if s.piq == 0 {
      FrontClosedForm(s, time, xs);
      FrontClosedForm(s, time, ys);
    }
    SameSizeAgrees(s, time, xs, ys);
  }

  /** Fills are all at the limit, so equal sizes have equal average prices. */
  lemma SameSizeAgrees(s: Sim, time: int, xs: seq<Level>, ys: seq<Level>)
    requires Tradable(s)
    requires TradeAll(s, time, xs).sizeMatched == TradeAll(s, time, ys).sizeMatched
    requires TradeAll(s, time, xs).piq == TradeAll(s, time, ys).piq
    ensures Agree(TradeAll(s, time, xs), TradeAll(s, time, ys))
  {
    hide TradeAll, Share;
    QueueClosedForm(s, time, xs);
    QueueClosedForm(s, time, ys);
    TradesFillAtTheLimit(s, time, xs);
    TradesFillAtTheLimit(s, time, ys);
    AverageIsClose(TradeAll(s, time, xs).matched);
    AverageIsClose(TradeAll(s, time, ys).matched);
  }

  /** The keys of a map are distinct. */
  ghost predicate DistinctPrices(ls: seq<Level>) {
    forall i, j :: 0 <= i < j < |ls| ==> ls[i].price != ls[j].price
  }

  /** Exactly where an order stands out of reach of the map's order, whatever has traded: at the
      front of the queue, with nothing left, or as a LAY at the lowest price there is, which only one
      traded price can reach. */
  lemma WhenOrderIsIrrelevant(s: Sim, time: int)
    requires Tradable(s)
    ensures (forall xs, ys :: DistinctPrices(xs) && multiset(xs) == multiset(ys) ==>
              Agree(TradeAll(s, time, xs), TradeAll(s, time, ys)))
      <==> s.piq == 0 || Remaining(s) == 0 || (s.side.Lay? && s.otype.price == 101)
  {
    hide TradeAll, Agree, Reported;
    if s.piq == 0 || Remaining(s) == 0 || (s.side.Lay? && s.otype.price == 101) {
      forall xs, ys | DistinctPrices(xs) && multiset(xs) == multiset(ys)
        ensures Agree(TradeAll(s, time, xs), TradeAll(s, time, ys))
      {
        if s.piq == 0 || Remaining(s) == 0 {
          IterationOrderIsIrrelevant(s, time, xs, ys);
        } else {
          LowestLayAgrees(s, time, xs, ys);
        }
      }
    } else {
      var p := s.otype.price;
      var x, y := Level(p, 1), Level(if s.side.Back? then p + 1 else p - 1, s.piq + 1);
      CrossingInEitherOrder(s, time, x, y);
      assert DistinctPrices([x, y]);
      assert multiset([x, y]) == multiset([y, x]);
      assert !Agree(TradeAll(s, time, [x, y]), TradeAll(s, time, [y, x]));
    }
  }

  /** A penny and then one more than the queue fill a penny; the other way round they fill nothing. */
  lemma CrossingInEitherOrder(s: Sim, time: int, x: Level, y: Level)
    requires Tradable(s) && s.piq > 0 && Remaining(s) > 0
    requires x.size == 1 && y.size == s.piq + 1
    requires AtLimitOrBetter(s.side, s.otype.price, x.price) && AtLimitOrBetter(s.side, s.otype.price, y.price)
    ensures TradeAll(s, time, [x, y]).sizeMatched == s.sizeMatched + 1
    ensures TradeAll(s, time, [y, x]).sizeMatched == s.sizeMatched
    ensures !Agree(TradeAll(s, time, [x, y]), TradeAll(s, time, [y, x]))
  {
    hide TradeOne, Tradable;
    NearestIsUnique(2, 2, 1);
    NearestIsUnique(1, 2, 0);
    NearestIsUnique(0, 2, 0);
    TradeOneEffect(s, time, 1);
    TradeOneEffect(TradeOne(s, time, 1), time, y.size);
    TradeOneEffect(s, time, y.size);
    TradeOneEffect(TradeOne(s, time, y.size), time, 1);
    TwoTrades(s, time, x, y);
    TwoTrades(s, time, y, x);
  }

  lemma TwoTrades(s: Sim, time: int, x: Level, y: Level)
    requires s.otype.Limit? && AtLimitOrBetter(s.side, s.otype.price, x.price)
    requires AtLimitOrBetter(s.side, s.otype.price, y.price)
    requires var t := TradeOne(s, time, x.size); t.side == s.side && t.otype == s.otype
    ensures TradeAll(s, time, [x, y]) == TradeOne(TradeOne(s, time, x.size), time, y.size)
  {
    hide TradeOne;
    var t := TradeOne(s, time, x.size);
    assert [x, y][1..] == [y];
    assert TradeAll(t, time, [y]) == TradeOne(t, time, y.size);
  }

  lemma LowestLayAgrees(s: Sim, time: int, xs: seq<Level>, ys: seq<Level>)
    requires Tradable(s) && s.side.Lay? && s.otype.price == 101
    requires DistinctPrices(xs) && multiset(xs) == multiset(ys)
    ensures Agree(TradeAll(s, time, xs), TradeAll(s, time, ys))
  {
    hide TradeAll, Weighed, TradeOne;
    SameKeys(xs, ys);
    OneEligible(s, time, xs);
    OneEligible(s, time, ys);
    WeighedIgnoresOrder((x: int) => x, s.side, s.otype.price, xs, ys);
  }

  lemma SameKeys(xs: seq<Level>, ys: seq<Level>)
    requires DistinctPrices(xs) && multiset(xs) == multiset(ys)
    ensures DistinctPrices(ys)
  {
    forall i, j | 0 <= i < j < |ys| ensures ys[i].price != ys[j].price {
      var a, b := ys[i], ys[j];
      assert ys == ys[..i] + [a] + ys[i + 1..j] + [b] + ys[j + 1..];
      assert multiset{a, b} <= multiset(ys);
      assert a in multiset(xs) && b in multiset(xs);
      var k :| 0 <= k < |xs| && xs[k] == a;
      if b == a {
        TwiceIn(xs, a, k);
      }
    }
  }

  /** Distinct prices hold no level twice. */
  lemma TwiceIn(xs: seq<Level>, a: Level, k: nat)
    requires DistinctPrices(xs) && k < |xs| && xs[k] == a
    ensures multiset(xs)[a] == 1
  {
    assert xs == xs[..k] + [a] + xs[k + 1..];
    assert a !in xs[..k] && a !in xs[k + 1..];
  }

  /** At most one of the prices of a map is 1.01, so a LAY there meets at most one of them. */
  lemma {:induction false} OneEligible(s: Sim, time: int, ls: seq<Level>)
    requires Tradable(s) && s.side.Lay? && s.otype.price == 101 && DistinctPrices(ls)
    ensures var h := Eligible(s.side, s.otype.price, ls);
      h >= 0 && ((forall l :: l in ls ==> l.price != 101) ==> h == 0) && TradeAll(s, time, ls) == TradeOne(s, time, h)
    decreases |ls|
  {
    hide Average;
    if ls != [] {
      assert DistinctPrices(ls[1..]);
      if ls[0].price == 101 {
        assert forall l :: l in ls[1..] ==> l.price != 101;
        var t := TradeOne(s, time, ls[0].size);
        TradeOneEffect(s, time, ls[0].size);
        OneEligible(t, time, ls[1..]);
        assert TradeOne(t, time, 0) == t;
      } else {
        OneEligible(s, time, ls[1..]);
      }
    }
  }
}
