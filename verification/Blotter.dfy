/** The blotter's indexes of a market's orders (flumine/markets/blotter.py). */
module Blotter {
  import opened Lists

  type Id = nat

  /** What an order is filed under; it never changes. */
  datatype Filed = Filed(id: Id, trade: nat, strategy: nat, selection: int, handicap: int)

  type Selection = (nat, int, int)  // (strategy, selection, handicap)

  function SelectionOf(o: Filed): Selection { (o.strategy, o.selection, o.handicap) }

  /** What an index is keyed by. */
  datatype Key = OfTrade(trade: nat) | OfStrategy(strategy: nat) | OfSelection(selection: Selection)

  predicate Matches(o: Filed, k: Key) {
    match k
    case OfTrade(t) => o.trade == t
    case OfStrategy(s) => o.strategy == s
    case OfSelection(s) => SelectionOf(o) == s
  }

  /** The orders with a key, in the order they were added. */
  function Filter(os: seq<Filed>, k: Key): seq<Filed> {
    if os == [] then []
    else
      var init, last := Filter(os[..|os| - 1], k), os[|os| - 1];
      if Matches(last, k) then init + [last] else init
  }

  lemma FilterAppend(os: seq<Filed>, o: Filed)
    ensures forall k :: Filter(os + [o], k) == Filter(os, k) + if Matches(o, k) then [o] else []
  {
    assert (os + [o])[..|os|] == os;
  }

  /** Told by the fields of an order. */
  lemma {:induction false} FilterSelects(os: seq<Filed>, k: Key)
    ensures forall o :: o in Filter(os, k) <==> o in os && match k
      case OfTrade(t) => o.trade == t
      case OfStrategy(s) => o.strategy == s
      case OfSelection(s) => o.strategy == s.0 && o.selection == s.1 && o.handicap == s.2
  {
    if os != [] { FilterSelects(os[..|os| - 1], k); }
  }

  function Under<K>(index: map<K, seq<Filed>>, k: K): seq<Filed> {
    if k in index then index[k] else []
  }

  function FileUnder<K>(index: map<K, seq<Filed>>, k: K, o: Filed): map<K, seq<Filed>> {
    index[k := Under(index, k) + [o]]
  }

  lemma FiledUnder<K>(index: map<K, seq<Filed>>, k: K, o: Filed)
    ensures forall j :: Under(FileUnder(index, k, o), j) == Under(index, j) + if j == k then [o] else []
  {
  }

  lemma KeysUnder<K>(index: map<K, seq<Filed>>, k: K, o: Filed)
    ensures FileUnder(index, k, o).Keys == index.Keys + {k}
  {
  }

  class BlotterIndex {
    var orders: seq<Filed>  // the dictionary's values, in insertion order
    var trades: map<nat, seq<Filed>>
    var liveOrders: seq<Filed>
    var strategyOrders: map<nat, seq<Filed>>
    var strategySelectionOrders: map<Selection, seq<Filed>>

    /** Every index is the filter of all orders by its key; ids are unique; live orders are orders,
        without duplicates. */
    ghost predicate Valid()
      reads this
    {
      && (forall i, j :: 0 <= i < j < |orders| ==> orders[i].id != orders[j].id)
      && (forall t :: Under(trades, t) == Filter(orders, OfTrade(t)))
      && (forall s :: Under(strategyOrders, s) == Filter(orders, OfStrategy(s)))
      && (forall k :: Under(strategySelectionOrders, k) == Filter(orders, OfSelection(k)))
      && Distinct(liveOrders) && (forall o :: o in liveOrders ==> o in orders)
    }

    constructor ()
      ensures Valid() && orders == [] && liveOrders == []
    {
      orders, liveOrders := [], [];
      trades, strategyOrders, strategySelectionOrders := map[], map[], map[];
    }

    predicate HasOrder(id: Id)
      reads this
    {
      exists i :: 0 <= i < |orders| && orders[i].id == id
    }

    method SetItem(o: Filed)
      requires Valid() && !HasOrder(o.id)
      modifies this
      ensures Valid() && orders == old(orders) + [o] && liveOrders == old(liveOrders) + [o]
      ensures trades.Keys == old(trades.Keys) + {o.trade}
    {
      hide Filter, Under, FileUnder;
      FilterAppend(orders, o);
      assert forall i :: 0 <= i < |orders| ==> orders[i].id != o.id;
      assert o !in liveOrders;
      orders := orders + [o];
      liveOrders := liveOrders + [o];
      FiledUnder(trades, o.trade, o);
      trades := FileUnder(trades, o.trade, o);
      FiledUnder(strategyOrders, o.strategy, o);
      strategyOrders := FileUnder(strategyOrders, o.strategy, o);
      FiledUnder(strategySelectionOrders, SelectionOf(o), o);
      strategySelectionOrders := FileUnder(strategySelectionOrders, SelectionOf(o), o);
      assert forall t :: Under(trades, t) == Filter(orders, OfTrade(t));
      assert forall t :: Under(strategyOrders, t) == Filter(orders, OfStrategy(t));
      assert forall t :: Under(strategySelectionOrders, t) == Filter(orders, OfSelection(t));
      assert trades.Keys == old(trades.Keys) + {o.trade} by { KeysUnder(old(trades), o.trade, o); }
    }

    method CompleteOrder(o: Filed)
      requires Valid() && o in liveOrders
      modifies this`liveOrders
      ensures Valid() && liveOrders == Without(old(liveOrders), o)
      ensures forall x :: x in liveOrders <==> x in old(liveOrders) && x != o
    {
      WithoutRemoves(liveOrders, o);
      liveOrders := Without(liveOrders, o);
    }

    method StrategySelectionOrders(strategy: nat, selection: int, handicap: int) returns (os: seq<Filed>)
      requires Valid()
      ensures os == Filter(orders, OfSelection((strategy, selection, handicap)))
      ensures forall o :: o in os <==>
        o in orders && o.strategy == strategy && o.selection == selection && o.handicap == handicap
    {
      FilterSelects(orders, OfSelection((strategy, selection, handicap)));
      os := Under(strategySelectionOrders, (strategy, selection, handicap));
    }
  }
}
