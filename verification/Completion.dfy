/**
 One pass over the live orders at the end of an update (`_process_backtest_orders` of
 flumine/backtest/backtest.py): which trades it completes, which orders it takes off, and which it
 leaves or loses.
 */
module Completion {
  import opened Lists
  import opened Exchange
  import opened Simulation
  import opened Accounting
  import opened Lifecycle
  import opened Protocol
  import opened TradeSteps

  /** An order that is done counts as complete, and its trade has been completed if that was all. */
  ghost predicate Settled(w: World, r: Ref) {
    && Has(w, r)
    && var s := OrderAt(w, r).sim; var done := if s.otype.Limit? then Remaining(s) == 0 else s.bspReconciled;
       done ==> OrderComplete(Status(w, r)) && !TradeComplete(w.trades[r.trade].trade)
  }

  function TradeStatusOf(w: World, t: nat): Option<TradeStatus> {
    if t < |w.trades| then Some(w.trades[t].trade.status) else None
  }

  /** Looking at a live order settles it and unsettles none; a settled one's trade stays as it is. */
  lemma CompleteOneSettles(w: World, r: Ref, now: int)
    requires Has(w, r)
    ensures var w' := CompleteOne(w, r, now);
      && (forall x :: Has(w', x) <==> Has(w, x))
      && (forall x :: x == r || Settled(w, x) ==> Has(w, x) ==> Settled(w', x))
      && (Settled(w, r) ==> forall t :: TradeStatusOf(w', t) == TradeStatusOf(w, t))
      && w'.live == if TradeStatusOf(w', r.trade) == Some(Complete) then Without(w.live, r) else w.live
  {
    hide SetOrderStatus, UpdateStatus, Done, Without;
    hide SomeOpen, SomePlaced, OnlyPendingOpen, OthersOpen, OthersPlaced, OthersOnlyPending, WasPlaced, OrdersComplete;
    var tc, k := TCOf(w, r.trade), r.order;
    var o, w' := OrderAt(w, r), CompleteOne(w, r, now);
    WhenDone(o.sim);
    if Done(o.sim) {
      OrderUpdateOutcome(tc, k, ExecutionComplete, now);
      StatusAfter(o, ExecutionComplete);
      SimAfter(o, ExecutionComplete);
      var os, ps := tc.0.orders, SetOrderStatus(tc, k, ExecutionComplete, now).0.orders;
      Apart(os, k);
      Apart(ps, k);
      OthersSame(os, ps, k);
      forall x | Settled(w, x) && x != r ensures Settled(w', x) {
        assert OrderAt(w', x) == OrderAt(w, x);
      }
    }
  }

  lemma {:induction false} PassSettles(w: World, rs: seq<Ref>, now: int)
    requires forall r :: r in rs ==> Has(w, r)
    ensures var w' := CompleteAll(w, rs, now);
      && (forall x :: Has(w', x) <==> Has(w, x))
      && (forall x :: x in rs || Settled(w, x) ==> Settled(w', x))
      && (forall x :: x in w'.live ==> x in w.live)
      && (Distinct(w.live) ==> Distinct(w'.live))
    decreases |rs|
  {
    hide CompleteOne, Settled;
    if rs != [] {
      var w1 := CompleteOne(w, rs[0], now);
      CompleteOneSettles(w, rs[0], now);
      HasOfSettled(w);
      PassSettles(w1, rs[1..], now);
      if Distinct(w.live) {
        WithoutRemoves(w.live, rs[0]);
      }
      LiveShrinks(w.live, rs[0]);
    }
  }

  lemma HasOfSettled(w: World)
    ensures forall x :: Settled(w, x) ==> Has(w, x)
  {
  }

  lemma {:induction false} LiveShrinks(s: seq<Ref>, r: Ref)
    ensures forall x :: x in Without(s, r) ==> x in s
  {
    if s != [] { LiveShrinks(s[1..], r); }
  }

  /** A pass over settled orders takes off exactly those of complete trades. */
  lemma {:induction false} PassClears(w: World, rs: seq<Ref>, now: int)
    requires Distinct(w.live) && forall r :: r in rs ==> Settled(w, r)
    ensures var w' := CompleteAll(w, rs, now);
      && (forall t :: TradeStatusOf(w', t) == TradeStatusOf(w, t))
      && forall x :: x in w'.live <==> x in w.live && !(x in rs && TradeStatusOf(w, x.trade) == Some(Complete))
    decreases |rs|
  {
    hide CompleteOne, Settled, TradeStatusOf;
    if rs != [] {
      HasOfSettled(w);
      var w1 := CompleteOne(w, rs[0], now);
      CompleteOneSettles(w, rs[0], now);
      WithoutRemoves(w.live, rs[0]);
      PassClears(w1, rs[1..], now);
    }
  }

  /** One pass completes every order that is done but may leave a live order whose trade a sibling
      completed after it was looked at. The next pass takes off exactly those. */
  lemma TwoPassesClear(w: World, now: int, later: int)
    requires Distinct(w.live) && forall r :: r in w.live ==> Has(w, r)
    ensures var w1 := CompleteAll(w, w.live, now);
      && (forall r :: r in w.live ==> Settled(w1, r))
      && var w2 := CompleteAll(w1, w1.live, later);
         forall r :: r in w2.live <==> r in w1.live && TradeStatusOf(w1, r.trade) != Some(Complete)
  {
    hide CompleteAll, Settled, TradeStatusOf;
    var w1 := CompleteAll(w, w.live, now);
    PassSettles(w, w.live, now);
    PassClears(w1, w1.live, later);
  }

  lemma CompleteOneDone(w: World, r: Ref, now: int)
    requires Has(w, r) && Done(OrderAt(w, r).sim)
    ensures var w', t := CompleteOne(w, r, now), w.trades[r.trade].trade;
      var orders := t.orders[r.order := UpdateStatus(t.orders[r.order], ExecutionComplete)];
      && |w'.trades| == |w.trades| && w'.trades[r.trade].trade.orders == orders
      && w'.trades[r.trade].trade.status == (if t.status == Live && OrdersComplete(orders) then Complete else t.status)
      && w'.live == if w'.trades[r.trade].trade.status == Complete then Without(w.live, r) else w.live
  {
    hide SetOrderStatus, UpdateStatus, OrdersComplete, Done, Without;
    OrderUpdateOutcome(TCOf(w, r.trade), r.order, ExecutionComplete, now);
  }

  /** Whether a pass over these orders completes the trade can be told before it: the trade is complete,
      or it is live, the pass finds one of its orders done, and each of them is complete or found done. */
  ghost predicate WillComplete(w: World, rs: seq<Ref>, t: nat) {
    t < |w.trades| &&
    var trade := w.trades[t].trade;
    || trade.status == Complete
    || (&& trade.status == Live
        && (exists r :: r in rs && FoundDone(w, r, t))
        && forall k :: 0 <= k < |trade.orders| ==> Settles(w, rs, t, k))
  }

  /** Nothing is left of an order at a limit; one on close is reconciled. */
  ghost predicate FoundDone(w: World, r: Ref, t: nat) {
    r.trade == t && Has(w, r) &&
    var s := OrderAt(w, r).sim; if s.otype.Limit? then Remaining(s) == 0 else s.bspReconciled
  }

  lemma WhenDone(s: Sim)
    ensures Done(s) <==> if s.otype.Limit? then Remaining(s) == 0 else s.bspReconciled
    ensures Sound(s) && !Done(s) && s.otype.Limit? ==> Remaining(s) > 0
  {
  }

  ghost predicate Settles(w: World, rs: seq<Ref>, t: nat, k: nat)
    requires t < |w.trades| && k < |w.trades[t].trade.orders|
  {
    OrderComplete(w.trades[t].trade.orders[k].status) || (Ref(t, k) in rs && FoundDone(w, Ref(t, k), t))
  }

  /** Looking at one order moves it from what will complete a trade to what has. */
  lemma WillCompleteNext(w: World, rs: seq<Ref>, now: int, t: nat)
    requires rs != [] && Has(w, rs[0])
    ensures WillComplete(CompleteOne(w, rs[0], now), rs[1..], t) <==> WillComplete(w, rs, t)
  {
    hide UpdateStatus, Done, CompleteOne, OrdersComplete, Sound;
    var r, w1 := rs[0], CompleteOne(w, rs[0], now);
    CompleteOneSims(w, r, now);
    assert forall x :: x in rs[1..] ==> x in rs;
    assert forall x :: x in rs ==> x == r || x in rs[1..];
    if t < |w.trades| {
      var os, ps := w.trades[t].trade.orders, w1.trades[t].trade.orders;
      WhenDone(OrderAt(w, r).sim);
      if r.trade != t || !Done(OrderAt(w, r).sim) {
        SameOutlook(w, w1, rs, t);
      } else {
        CompleteOneDone(w, r, now);
        StatusAfter(os[r.order], ExecutionComplete);
        SettledByOne(w, w1, rs, t);
      }
    }
  }

  /** What the pass does not touch: everything but the status of one order that is done. */
  lemma CompleteOneSims(w: World, r: Ref, now: int)
    requires Has(w, r)
    ensures var w' := CompleteOne(w, r, now);
      && |w'.trades| == |w.trades|
      && (forall t :: 0 <= t < |w.trades| ==> |w'.trades[t].trade.orders| == |w.trades[t].trade.orders|)
      && (forall x :: Has(w', x) <==> Has(w, x))
      && (forall x :: Has(w, x) ==> OrderAt(w', x).sim == OrderAt(w, x).sim)
      && (forall x :: Has(w, x) && (x != r || !Done(OrderAt(w, r).sim)) ==> OrderAt(w', x) == OrderAt(w, x))
      && (forall t :: t != r.trade || !Done(OrderAt(w, r).sim) ==> TradeStatusOf(w', t) == TradeStatusOf(w, t))
  {
    hide SetOrderStatus, UpdateStatus, Done, Without;
    SimAfter(OrderAt(w, r), ExecutionComplete);
  }

  /** The first order says nothing about the trade. */
  lemma SameOutlook(w: World, w1: World, rs: seq<Ref>, t: nat)
    requires rs != [] && t < |w.trades| == |w1.trades|
    requires forall x :: Has(w1, x) <==> Has(w, x)
    requires forall x :: Has(w, x) ==> OrderAt(w1, x).sim == OrderAt(w, x).sim
    requires forall x :: Has(w, x) && x.trade == t ==> OrderAt(w1, x) == OrderAt(w, x)
    requires TradeStatusOf(w1, t) == TradeStatusOf(w, t) && !FoundDone(w, rs[0], t)
    requires |w1.trades[t].trade.orders| == |w.trades[t].trade.orders|
    ensures WillComplete(w1, rs[1..], t) <==> WillComplete(w, rs, t)
  {
    hide Done;
    var os, ps := w.trades[t].trade.orders, w1.trades[t].trade.orders;
    forall k | 0 <= k < |os| ensures Settles(w1, rs[1..], t, k) <==> Settles(w, rs, t, k) {
      assert ps[k] == OrderAt(w1, Ref(t, k)) && os[k] == OrderAt(w, Ref(t, k));
      assert Ref(t, k) in rs ==> Ref(t, k) == rs[0] || Ref(t, k) in rs[1..];
    }
    forall x ensures x in rs[1..] && FoundDone(w1, x, t) <==> x in rs && FoundDone(w, x, t) {
      assert x in rs ==> x == rs[0] || x in rs[1..];
    }
    if exists r :: r in rs && FoundDone(w, r, t) {
      var r :| r in rs && FoundDone(w, r, t);
      assert r in rs[1..] && FoundDone(w1, r, t);
    }
  }

  /** The first order is done and of the trade: it is complete from now on. */
  lemma SettledByOne(w: World, w1: World, rs: seq<Ref>, t: nat)
    requires rs != [] && t < |w.trades| == |w1.trades| && FoundDone(w, rs[0], t)
    requires forall x :: Has(w1, x) <==> Has(w, x)
    requires forall x :: Has(w, x) ==> OrderAt(w1, x).sim == OrderAt(w, x).sim
    requires forall x :: Has(w, x) && x != rs[0] ==> OrderAt(w1, x) == OrderAt(w, x)
    requires OrderComplete(OrderAt(w1, rs[0]).status)
    requires |w1.trades[t].trade.orders| == |w.trades[t].trade.orders|
    requires var trade, ps := w.trades[t].trade, w1.trades[t].trade.orders;
      w1.trades[t].trade.status == (if trade.status == Live && OrdersComplete(ps) then Complete else trade.status)
    ensures WillComplete(w1, rs[1..], t) <==> WillComplete(w, rs, t)
  {
    hide Done;
    var os, ps := w.trades[t].trade.orders, w1.trades[t].trade.orders;
    forall k | 0 <= k < |os| ensures Settles(w1, rs[1..], t, k) <==> Settles(w, rs, t, k) {
      assert ps[k] == OrderAt(w1, Ref(t, k)) && os[k] == OrderAt(w, Ref(t, k));
      assert Ref(t, k) in rs ==> Ref(t, k) == rs[0] || Ref(t, k) in rs[1..];
    }
    assert rs[0] in rs;
    if w.trades[t].trade.status == Live && !OrdersComplete(ps)
       && forall k :: 0 <= k < |ps| ==> Settles(w1, rs[1..], t, k)
    {
      var k :| 0 <= k < |ps| && !OrderComplete(ps[k].status);
      assert Settles(w1, rs[1..], t, k);
      assert Ref(t, k) in rs[1..] && FoundDone(w1, Ref(t, k), t);
    }
    if OrdersComplete(ps) {
      forall k | 0 <= k < |ps| ensures Settles(w1, rs[1..], t, k) {
        assert OrderComplete(ps[k].status);
      }
    }
  }

  lemma {:induction false} StatusAfterPass(w: World, rs: seq<Ref>, now: int, t: nat)
    requires forall r :: r in rs ==> Has(w, r)
    ensures TradeStatusOf(CompleteAll(w, rs, now), t) == Some(Complete) <==> WillComplete(w, rs, t)
    decreases |rs|
  {
    hide CompleteOne;
    if rs != [] {
      CompleteOneSims(w, rs[0], now);
      WillCompleteNext(w, rs, now, t);
      StatusAfterPass(CompleteOne(w, rs[0], now), rs[1..], now, t);
    }
  }

  lemma {:induction false} PassAppend(w: World, rs: seq<Ref>, r: Ref, now: int)
    ensures CompleteAll(w, rs + [r], now) == CompleteOne(CompleteAll(w, rs, now), r, now)
    decreases |rs|
  {
    hide CompleteOne;
    if rs == [] {
      assert [] + [r] == [r] && [r][1..] == [];
    } else {
      assert (rs + [r])[1..] == rs[1..] + [r];
      PassAppend(CompleteOne(w, rs[0], now), rs[1..], r, now);
    }
  }

  /** A pass takes an order off where the orders up to it complete its trade. */
  ghost predicate Dropped(w: World, rs: seq<Ref>, x: Ref) {
    exists i :: 0 <= i < |rs| && rs[i] == x && WillComplete(w, rs[..i + 1], x.trade)
  }

  lemma {:induction false} PassDrops(w: World, rs: seq<Ref>, now: int)
    requires Distinct(w.live) && forall r :: r in rs ==> Has(w, r)
    ensures var w' := CompleteAll(w, rs, now);
      && Distinct(w'.live) && (forall x :: Has(w', x) <==> Has(w, x))
      && forall x :: x in w'.live <==> x in w.live && !Dropped(w, rs, x)
    decreases |rs|
  {
    hide CompleteOne, WillComplete;
    if rs != [] {
      var n := |rs| - 1;
      var init, last := rs[..n], rs[n];
      assert init + [last] == rs;
      PassDrops(w, init, now);
      PassAppend(w, init, last, now);
      var w1, w2 := CompleteAll(w, init, now), CompleteAll(w, rs, now);
      CompleteOneSettles(w1, last, now);
      WithoutRemoves(w1.live, last);
      StatusAfterPass(w, rs, now, last.trade);
      forall x ensures Dropped(w, rs, x) <==> Dropped(w, init, x) || (x == last && WillComplete(w, rs, x.trade)) {
        DroppedLast(w, rs, x);
      }
    }
  }

  lemma DroppedLast(w: World, rs: seq<Ref>, x: Ref)
    requires rs != []
    ensures var n := |rs| - 1;
      Dropped(w, rs, x) <==> Dropped(w, rs[..n], x) || (x == rs[n] && WillComplete(w, rs, x.trade))
  {
    hide WillComplete;
    var n := |rs| - 1;
    assert rs[..n + 1] == rs;
    if Dropped(w, rs, x) {
      var i :| 0 <= i < |rs| && rs[i] == x && WillComplete(w, rs[..i + 1], x.trade);
      if i < n {
        assert rs[..n][..i + 1] == rs[..i + 1];
        assert rs[..n][i] == x && WillComplete(w, rs[..n][..i + 1], x.trade);
      }
    }
    if Dropped(w, rs[..n], x) {
      var i :| 0 <= i < n && rs[..n][i] == x && WillComplete(w, rs[..n][..i + 1], x.trade);
      assert rs[..n][..i + 1] == rs[..i + 1];
      assert rs[i] == x && WillComplete(w, rs[..i + 1], x.trade);
    }
  }

  /** What one pass over the live orders does, told before it: a trade is complete after it exactly if it
      will complete, and a live order is taken off exactly if its trade will have completed by the time
      the pass has looked at it. */
  lemma WhatOnePassLeaves(w: World, now: int, i: nat)
    requires Distinct(w.live) && (forall r :: r in w.live ==> Has(w, r)) && i < |w.live|
    ensures var w1, r := CompleteAll(w, w.live, now), w.live[i];
      && (TradeStatusOf(w1, r.trade) == Some(Complete) <==> WillComplete(w, w.live, r.trade))
      && (r in w1.live <==> !WillComplete(w, w.live[..i + 1], r.trade))
  {
    hide CompleteAll, WillComplete;
    var r := w.live[i];
    StatusAfterPass(w, w.live, now, r.trade);
    PassDrops(w, w.live, now);
    if Dropped(w, w.live, r) {
      var j :| 0 <= j < |w.live| && w.live[j] == r && WillComplete(w, w.live[..j + 1], r.trade);
      assert j == i;
    }
  }

  /** So one pass leaves no live order of a complete trade exactly if no order that will be completed by
      the pass comes before the one that completes its trade. */
  lemma WhenOnePassClears(w: World, now: int)
    requires Distinct(w.live) && forall r :: r in w.live ==> Has(w, r)
    ensures var w1 := CompleteAll(w, w.live, now);
      (forall r :: r in w1.live ==> TradeStatusOf(w1, r.trade) != Some(Complete))
      <==> forall i :: 0 <= i < |w.live| ==>
        WillComplete(w, w.live, w.live[i].trade) ==> WillComplete(w, w.live[..i + 1], w.live[i].trade)
  {
    hide CompleteAll, WillComplete;
    var w1 := CompleteAll(w, w.live, now);
    PassSettles(w, w.live, now);
    forall i | 0 <= i < |w.live|
      ensures w.live[i] in w1.live <==> !WillComplete(w, w.live[..i + 1], w.live[i].trade)
      ensures TradeStatusOf(w1, w.live[i].trade) == Some(Complete) <==> WillComplete(w, w.live, w.live[i].trade)
    {
      WhatOnePassLeaves(w, now, i);
    }
    if forall r :: r in w1.live ==> TradeStatusOf(w1, r.trade) != Some(Complete) {
    } else {
      var r :| r in w1.live && TradeStatusOf(w1, r.trade) == Some(Complete);
      var i :| 0 <= i < |w.live| && w.live[i] == r;
      assert !WillComplete(w, w.live[..i + 1], w.live[i].trade);
    }
  }

  /** An open order with something left leaves the live orders in a pass exactly if its trade was complete
      before it, which takes an order placed in a complete trade. */
  lemma WhenOpenOrderIsLost(w: World, now: int, r: Ref)
    requires Distinct(w.live) && (forall x :: x in w.live ==> Has(w, x)) && r in w.live
    requires IsOpen(Status(w, r))
    requires var s := OrderAt(w, r).sim; if s.otype.Limit? then Remaining(s) != 0 else !s.bspReconciled
    ensures r !in CompleteAll(w, w.live, now).live <==> w.trades[r.trade].trade.status == Complete
  {
    hide CompleteAll, Done;
    var i :| 0 <= i < |w.live| && w.live[i] == r;
    WhatOnePassLeaves(w, now, i);
    assert !Settles(w, w.live[..i + 1], r.trade, r.order);
  }

  /** The pass finds none of these orders open in a trade that is complete. */
  ghost predicate LosesNone(w: World, rs: seq<Ref>) {
    forall x :: x in rs && Has(w, x) && IsOpen(Status(w, x)) ==> w.trades[x.trade].trade.status != Complete
  }

  /** A trade that the pass completes has nothing open. */
  lemma LosesNoneAfter(w: World, rs: seq<Ref>, now: int)
    requires rs != [] && Has(w, rs[0]) && LosesNone(w, rs)
    ensures LosesNone(w, [rs[0]])
    ensures rs[0] !in rs[1..] ==> LosesNone(CompleteOne(w, rs[0], now), rs[1..])
  {
    hide CompleteOne, Done, UpdateStatus;
    var r, w1 := rs[0], CompleteOne(w, rs[0], now);
    CompleteOneSims(w, r, now);
    if Done(OrderAt(w, r).sim) {
      CompleteOneDone(w, r, now);
    }
    forall x | r !in rs[1..] && x in rs[1..] && Has(w1, x) && IsOpen(Status(w1, x))
      ensures w1.trades[x.trade].trade.status != Complete
    {
      assert OrderAt(w1, x) == OrderAt(w, x) && x in rs;
      assert TradeStatusOf(w1, x.trade) == Some(w1.trades[x.trade].trade.status);
    }
  }

  /** What a pass does to the orders it looks at, told by what is left of them: one at a limit of which
      nothing is left, or on close and reconciled, becomes execution complete, and any other stays as it
      is. What is matched never changes. */
  lemma {:induction false} WhatOnePassCompletes(w: World, rs: seq<Ref>, now: int)
    requires forall r :: r in rs ==> Has(w, r)
    ensures var w' := CompleteAll(w, rs, now);
      forall x :: Has(w, x) ==>
        && Has(w', x) && OrderAt(w', x).sim == OrderAt(w, x).sim
        && var s := OrderAt(w, x).sim;
           if x in rs && (if s.otype.Limit? then Remaining(s) == 0 else s.bspReconciled)
           then Status(w', x) == Some(ExecutionComplete) else OrderAt(w', x) == OrderAt(w, x)
    decreases |rs|
  {
    hide CompleteOne, UpdateStatus;
    if rs != [] {
      var w1 := CompleteOne(w, rs[0], now);
      CompleteOneSims(w, rs[0], now);
      if Done(OrderAt(w, rs[0]).sim) {
        CompleteOneDone(w, rs[0], now);
        StatusAfter(OrderAt(w, rs[0]), ExecutionComplete);
        assert OrderAt(w1, rs[0]).status == Some(ExecutionComplete);
      }
      WhatOnePassCompletes(w1, rs[1..], now);
      var w' := CompleteAll(w, rs, now);
      forall x | Has(w, x) ensures
        && Has(w', x) && OrderAt(w', x).sim == OrderAt(w, x).sim
        && var s := OrderAt(w, x).sim;
           if x in rs && (if s.otype.Limit? then Remaining(s) == 0 else s.bspReconciled)
           then Status(w', x) == Some(ExecutionComplete) else OrderAt(w', x) == OrderAt(w, x)
      {
        assert x in rs <==> x == rs[0] || x in rs[1..];
      }
    }
  }
}
