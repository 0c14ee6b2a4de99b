/**
 A market's trades, orders and runner contexts as the objects an update finds, and their value. Orders
 may share a trade and trades a context; an operation on one order leaves the rest alone.
 */
module Market {
  import opened Lists
  import opened Simulation
  import opened Lifecycle
  import opened Protocol

  /** The market's trades as an update finds them, each with its runner, and the runners' contexts. */
  datatype Objects = Objects(
    trades: seq<TradeObject>,
    runners: seq<Runner>,
    contexts: map<Runner, RunnerContext>)

  ghost function TradeState(t: TradeObject): TC
    reads t, t.context, t.orders, set o | o in t.orders :: o.simulated
  {
    (t.View(), t.context.View())
  }

  /** Order k of its trade. */
  ghost predicate IsOrder(order: OrderObject, k: nat)
    reads order.trade, order.trade.orders
  {
    order.trade.Valid() && k < |order.trade.orders| && order.trade.orders[k] == order
  }

  type Orders = seq<OrderObject>

  ghost function OrdersOf(m: Objects): (ls: seq<Orders>)
    reads m.trades
    ensures |ls| == |m.trades| && forall i :: 0 <= i < |ls| ==> ls[i] == m.trades[i].orders
  {
    seq(|m.trades|, i requires 0 <= i < |m.trades| reads m.trades => m.trades[i].orders)
  }

  ghost predicate Valid(m: Objects)
    reads m.trades
  {
    |m.runners| == |m.trades| && ValidWith(m, OrdersOf(m))
  }

  /** Everything hangs together while the trades hold these orders: an order is in one trade, and no
      two share a simulated order; a trade is found by its id and a context by its runner. */
  ghost predicate ValidWith(m: Objects, ls: seq<Orders>)
    requires |ls| == |m.trades| == |m.runners|
  {
    && (forall i :: 0 <= i < |m.trades| ==> TradeHolds(m, i, ls[i]))
    && (forall i, j :: 0 <= i < j < |m.trades| ==> m.trades[i] != m.trades[j] && Apart(ls[i], ls[j]))
    && (forall r, s :: r in m.contexts && s in m.contexts && r != s ==> m.contexts[r] != m.contexts[s])
  }

  ghost predicate TradeHolds(m: Objects, i: nat, os: Orders)
    requires i < |m.trades| == |m.runners|
  {
    var t := m.trades[i];
    && (forall k :: 0 <= k < |os| ==> os[k].trade == t)
    && (forall j, k :: 0 <= j < k < |os| ==> os[j] != os[k] && os[j].simulated != os[k].simulated)
    && t.id == i && m.runners[i] in m.contexts && m.contexts[m.runners[i]] == t.context
  }

  ghost predicate Apart(os: Orders, ps: Orders) {
    forall a, b :: a in os && b in ps ==> a.simulated != b.simulated
  }

  ghost function AllOrders(m: Objects): (os: set<OrderObject>)
    reads m.trades
    ensures forall t, o :: t in m.trades && o in t.orders ==> o in os
  {
    set t, o | t in m.trades && o in t.orders :: o
  }

  ghost function AllSims(m: Objects): (ss: set<Simulated>)
    reads m.trades
    ensures forall t, o :: t in m.trades && o in t.orders ==> o.simulated in ss
  {
    set o | o in AllOrders(m) :: o.simulated
  }

  /** The market as a value; what the loops over orders do not touch is that of rest. */
  ghost function View(m: Objects, rest: World): World
    requires |m.runners| == |m.trades|
    reads m.trades, AllOrders(m), AllSims(m), m.contexts.Values
  {
    rest.(trades := HeldViews(m), contexts := map r | r in m.contexts :: m.contexts[r].View())
  }

  ghost function HeldViews(m: Objects): (hs: seq<Held>)
    requires |m.runners| == |m.trades|
    reads m.trades, AllOrders(m), AllSims(m)
    ensures |hs| == |m.trades| && forall i :: 0 <= i < |hs| ==> hs[i] == Held(m.trades[i].View(), m.runners[i])
  {
    seq(|m.trades|, i requires 0 <= i < |m.trades| reads m.trades, AllOrders(m), AllSims(m) =>
      assert m.trades[i] in m.trades; Held(m.trades[i].View(), m.runners[i]))
  }

  /** The order is where the reference says. */
  ghost predicate IsAt(m: Objects, order: OrderObject, r: Ref, ls: seq<Orders>) {
    && r.trade < |m.trades| == |ls| && order.trade == m.trades[r.trade]
    && r.order < |ls[r.trade]| && ls[r.trade][r.order] == order
  }

  lemma TradeIsValid(m: Objects, i: nat)
    requires Valid(m) && i < |m.trades|
    ensures m.trades[i].Valid()
  {
    assert TradeHolds(m, i, OrdersOf(m)[i]);
  }

  /** A value in which only trade t and its context are out of date. */
  lemma ViewAfter(m: Objects, rest: World, was: World, t: nat)
    requires Valid(m) && t < |m.trades| == |was.trades|
    requires forall i :: 0 <= i < |m.trades| && i != t ==> was.trades[i] == Held(m.trades[i].View(), m.runners[i])
    requires was.trades[t].runner == m.runners[t]
    requires was.contexts.Keys == m.contexts.Keys
    requires forall r :: r in m.contexts && r != m.runners[t] ==> was.contexts[r] == m.contexts[r].View()
    requires was == rest.(trades := was.trades, contexts := was.contexts)
    ensures View(m, rest) == WithTC(was, t, TradeState(m.trades[t]))
  {
    var tc := TradeState(m.trades[t]);
    assert TradeHolds(m, t, OrdersOf(m)[t]);
    assert HeldViews(m) == was.trades[t := Held(tc.0, m.runners[t])];
    assert View(m, rest).contexts == was.contexts[m.runners[t] := tc.1];
  }

  lemma ViewWithLive(m: Objects, rest: World, live: seq<Ref>)
    requires |m.runners| == |m.trades|
    ensures View(m, rest).live == rest.live && View(m, rest.(live := live)) == View(m, rest).(live := live)
  {
  }

  /** What the value says of an order and its trade. */
  lemma ViewAt(m: Objects, rest: World, order: OrderObject, r: Ref)
    requires Valid(m) && IsAt(m, order, r, OrdersOf(m))
    ensures IsOrder(order, r.order) && order.trade.id == r.trade
    ensures var w := View(m, rest);
      && Has(w, r) && OrderAt(w, r) == order.View() && TCOf(w, r.trade) == TradeState(order.trade)
      && w.trades[r.trade].runner == m.runners[r.trade]
  {
    assert TradeHolds(m, r.trade, OrdersOf(m)[r.trade]);
    TradeIsValid(m, r.trade);
  }

  /** What an operation on order of trade t does not touch. */
  lemma OthersApart(m: Objects, t: nat, order: OrderObject)
    requires Valid(m) && t < |m.trades| && order in m.trades[t].orders
    ensures forall r :: r in m.contexts && r != m.runners[t] ==> m.contexts[r] != m.trades[t].context
    ensures forall i, o :: 0 <= i < |m.trades| && i != t && o in m.trades[i].orders ==>
      o != order && o.simulated != order.simulated
    ensures forall i :: 0 <= i < |m.trades| && i != t ==> m.trades[i] != m.trades[t]
  {
    var ls := OrdersOf(m);
    assert TradeHolds(m, t, ls[t]);
    forall i, o | 0 <= i < |m.trades| && i != t && o in m.trades[i].orders
      ensures o != order && o.simulated != order.simulated
    {
      assert TradeHolds(m, i, ls[i]);
      assert if i < t then Apart(ls[i], ls[t]) else Apart(ls[t], ls[i]);
    }
  }

  /** A LIMIT size is not negative. */
  ghost predicate NaturalSize(o: OrderObject)
    reads o.simulated
  {
    o.simulated.orderType.Limit? ==> o.simulated.orderType.size >= 0
  }

  ghost predicate AllAt(m: Objects, orders: seq<OrderObject>, rs: seq<Ref>, ls: seq<Orders>) {
    |orders| == |rs| && forall i :: 0 <= i < |rs| ==> IsAt(m, orders[i], rs[i], ls)
  }

  /** What an operation on an order may change belongs to the market. */
  lemma InMarket(m: Objects, order: OrderObject, r: Ref)
    requires Valid(m) && IsAt(m, order, r, OrdersOf(m))
    ensures order in AllOrders(m) && order.simulated in AllSims(m)
    ensures order.trade in m.trades && order.trade.context in m.contexts.Values
  {
    assert TradeHolds(m, r.trade, OrdersOf(m)[r.trade]);
    assert order in m.trades[r.trade].orders;
  }

  lemma AllInMarket(m: Objects, orders: seq<OrderObject>, rs: seq<Ref>)
    requires Valid(m) && AllAt(m, orders, rs, OrdersOf(m))
    ensures |rs| == |orders|
    ensures forall i :: 0 <= i < |orders| ==>
      && orders[i] in AllOrders(m) && orders[i].simulated in AllSims(m)
      && orders[i].trade in m.trades && orders[i].trade.context in m.contexts.Values
  {
    forall i | 0 <= i < |orders| ensures
      && orders[i] in AllOrders(m) && orders[i].simulated in AllSims(m)
      && orders[i].trade in m.trades && orders[i].trade.context in m.contexts.Values
    {
      InMarket(m, orders[i], rs[i]);
    }
  }

  lemma OneAt(m: Objects, orders: seq<OrderObject>, rs: seq<Ref>, ls: seq<Orders>, i: nat)
    requires AllAt(m, orders, rs, ls) && i < |orders|
    ensures i < |rs| && IsAt(m, orders[i], rs[i], ls)
  {
  }

  /** Orders may have been added at the end of a trade. */
  ghost predicate Extends(ls: seq<Orders>, was: seq<Orders>) {
    |ls| == |was| && forall i :: 0 <= i < |was| ==> was[i] <= ls[i]
  }

  lemma StillAt(m: Objects, orders: seq<OrderObject>, rs: seq<Ref>, ls: seq<Orders>, was: seq<Orders>)
    requires AllAt(m, orders, rs, was) && Extends(ls, was)
    ensures AllAt(m, orders, rs, ls)
  {
  }

  /** Neither the order nor its simulated order is among these. */
  ghost predicate Absent(os: Orders, x: OrderObject) {
    forall o :: o in os ==> o != x && o.simulated != x.simulated
  }

  lemma TradeGrows(m: Objects, i: nat, os: Orders, x: OrderObject)
    requires i < |m.trades| == |m.runners| && TradeHolds(m, i, os) && x.trade == m.trades[i] && Absent(os, x)
    ensures TradeHolds(m, i, os + [x])
  {
    var ps := os + [x];
    forall j, k | 0 <= j < k < |ps| ensures ps[j] != ps[k] && ps[j].simulated != ps[k].simulated {
      if k == |os| {
        assert ps[j] in os;
      }
    }
  }

  lemma ApartIsSymmetric(os: Orders, ps: Orders)
    requires Apart(os, ps)
    ensures Apart(ps, os)
  {
  }

  lemma ApartGrows(os: Orders, ps: Orders, x: OrderObject)
    requires Apart(os, ps) && Absent(ps, x)
    ensures Apart(os + [x], ps) && Apart(ps, os + [x])
  {
  }

  /** A new order at the end of trade t, whose simulated order is new as well. */
  lemma OrderAdded(m: Objects, ls: seq<Orders>, t: nat, x: OrderObject)
    requires |ls| == |m.trades| == |m.runners| && ValidWith(m, ls) && t < |m.trades| && x.trade == m.trades[t]
    requires forall i :: 0 <= i < |ls| ==> Absent(ls[i], x)
    ensures ValidWith(m, ls[t := ls[t] + [x]]) && IsAt(m, x, Ref(t, |ls[t]|), ls[t := ls[t] + [x]])
    ensures Extends(ls[t := ls[t] + [x]], ls)
  {
    hide TradeHolds, Apart, Absent;
    var ks := ls[t := ls[t] + [x]];
    forall i | 0 <= i < |m.trades| ensures TradeHolds(m, i, ks[i]) {
      assert TradeHolds(m, i, ls[i]);
      if i == t {
        TradeGrows(m, i, ls[i], x);
      }
    }
    forall i, j | 0 <= i < j < |m.trades| ensures Apart(ks[i], ks[j]) {
      assert Apart(ls[i], ls[j]);
      if i == t {
        ApartGrows(ls[i], ls[j], x);
      } else if j == t {
        ApartIsSymmetric(ls[i], ls[j]);
        ApartGrows(ls[j], ls[i], x);
      }
    }
  }

  /** Distinct orders have distinct simulated orders. */
  lemma SimsApart(m: Objects, orders: seq<OrderObject>, rs: seq<Ref>, i: nat)
    requires Valid(m) && AllAt(m, orders, rs, OrdersOf(m)) && Distinct(orders) && i < |orders|
    ensures IsAt(m, orders[i], rs[i], OrdersOf(m))
    ensures forall j :: 0 <= j < |orders| && j != i ==>
      orders[j] != orders[i] && orders[j].simulated != orders[i].simulated
  {
    var ls := OrdersOf(m);
    forall j | 0 <= j < |orders| && j != i
      ensures orders[j] != orders[i] && orders[j].simulated != orders[i].simulated
    {
      var t := rs[i].trade;
      assert IsAt(m, orders[i], rs[i], ls) && IsAt(m, orders[j], rs[j], ls);
      assert TradeHolds(m, t, ls[t]);
      OthersApart(m, t, orders[i]);
      assert orders[j] in m.trades[rs[j].trade].orders;
    }
  }

  /** The live orders of the market's blotter, with the reference of each. */
  class LiveOrders {
    var orders: seq<OrderObject>
    ghost var refs: seq<Ref>

    ghost predicate RefersTo(m: Objects)
      reads this, m.trades
    {
      AllAt(m, orders, refs, OrdersOf(m))
    }

    constructor ()
      ensures orders == [] && refs == []
    {
      orders, refs := [], [];
    }

    method Add(m: Objects, order: OrderObject, ghost r: Ref)
      requires RefersTo(m) && IsAt(m, order, r, OrdersOf(m))
      modifies this
      ensures RefersTo(m) && refs == old(refs) + [r]
    {
      orders, refs := orders + [order], refs + [r];
    }

    method Remove(m: Objects, order: OrderObject, ghost r: Ref)
      requires Valid(m) && RefersTo(m) && IsAt(m, order, r, OrdersOf(m))
      modifies this
      ensures RefersTo(m) && refs == Without(old(refs), r)
    {
      WithoutAligned(m, orders, refs, order, r);
      orders, refs := Without(orders, order), Without(refs, r);
    }
  }

  /** Equal orders have equal references, so both lists lose the same place. */
  lemma {:induction false} WithoutAligned(m: Objects, orders: seq<OrderObject>, rs: seq<Ref>,
                                          order: OrderObject, r: Ref)
    requires Valid(m) && AllAt(m, orders, rs, OrdersOf(m)) && IsAt(m, order, r, OrdersOf(m))
    ensures AllAt(m, Without(orders, order), Without(rs, r), OrdersOf(m))
    decreases |orders|
  {
    hide ValidWith;
    if orders != [] {
      SameRef(m, orders[0], rs[0], order, r);
      assert AllAt(m, orders[1..], rs[1..], OrdersOf(m));
      WithoutAligned(m, orders[1..], rs[1..], order, r);
    }
  }

  lemma SameRef(m: Objects, a: OrderObject, x: Ref, b: OrderObject, y: Ref)
    requires Valid(m) && IsAt(m, a, x, OrdersOf(m)) && IsAt(m, b, y, OrdersOf(m))
    ensures a == b <==> x == y
  {
    assert TradeHolds(m, x.trade, OrdersOf(m)[x.trade]);
    assert TradeHolds(m, y.trade, OrdersOf(m)[y.trade]);
  }
}
