/**
 The exposure control (flumine/controls/tradingcontrols.py) as an invariant of every run of one
 selection: orders are placed only when the control accepts them, and anything may then happen to
 them, replaces, cancels that add and violations that hide them from the control included.
 */
module Cap {
  import opened Rounding
  import opened Exchange
  import opened Wap
  import opened Simulation
  import opened Fills
  import opened Accounting
  import opened Settlement
  import opened Exposure

  /** Limits in hundredths of a penny. */
  datatype Limits = Limits(maxOrderExposure: int, maxSelectionExposure: nat)

  /** What a new order can lose on its own, in hundredths of a penny. */
  function OrderExposure(side: Side, o: OrderType): int {
    match o
    case Limit(price, size, _) => if side.Back? then 100 * size else (price - 100) * size
    case LimitOnClose(liability, _) => 100 * liability
    case MarketOnClose(liability) => 100 * liability
  }

  /** `StrategyExposure._validate` for a PLACE, after the strategy's own validation. */
  ghost predicate Accepts(l: Limits, ss: seq<Sim>, side: Side, o: OrderType) {
    var e := ExposuresOf(ss);
    var current := if side.Back? then -e.worstOnLose else -e.worstOnWin;
    && OrderExposure(side, o) <= l.maxOrderExposure
    && 100 * current + OrderExposure(side, o) <= l.maxSelectionExposure
  }

  method ValidateExposure(l: Limits, entries: seq<Entry>, side: Side, o: OrderType) returns (ok: bool)
    ensures ok == Accepts(l, Counted(entries, None), side, o)
  {
    var orderExposure := OrderExposure(side, o);
    if orderExposure > l.maxOrderExposure {
      return false;
    }
    var e := GetExposures(entries, None);
    var current := if side == Back then -e.worstOnLose else -e.worstOnWin;
    var potential := 100 * current + orderExposure;
    if potential > l.maxSelectionExposure {
      return false;
    }
    return true;
  }

  /** The control accepts what keeps the worst cases within its limits and nothing else: for BACK
      exactly, for LAY but for the rounding of the reported worst case. */
  lemma AcceptsIsTheCap(l: Limits, ss: seq<Sim>, side: Side, o: OrderType)
    requires AllSound(ss) && ValidOrder(o)
    ensures var after, alone := ss + [Initial(side, o)], OrderExposure(side, o) <= l.maxOrderExposure;
      var slack := Sum(Size, ss) + 200;
      var cap, win := 2 * l.maxSelectionExposure, 2 * Sum(WinFloor, after);
      && (side.Back? ==> (Accepts(l, ss, side, o) <==> alone && 2 * Sum(LoseFloor, after) >= -cap))
      && (side.Lay? ==> (Accepts(l, ss, side, o) ==> alone && win >= -cap - slack))
      && (side.Lay? ==> (alone && win >= -cap + slack ==> Accepts(l, ss, side, o)))
  {
    hide Sum, ExposuresOf;
    var s := Initial(side, o);
    SumAppend(LoseFloor, ss, s);
    SumAppend(WinFloor, ss, s);
    ExposuresAreFloors(ss);
    NewOrderFloors(side, o);
  }

  /** An order of the selection; one a control marked in violation no longer counts for the control. */
  datatype Held = Held(sim: Sim, violated: bool)

  function Sims(hs: seq<Held>): (ss: seq<Sim>)
    ensures |ss| == |hs| && forall i :: 0 <= i < |ss| ==> ss[i] == hs[i].sim
  {
    seq(|hs|, i requires 0 <= i < |hs| => hs[i].sim)
  }

  function Entries(hs: seq<Held>): (es: seq<Entry>)
    ensures |es| == |hs| && forall i :: 0 <= i < |es| ==> es[i] == Entry(i, hs[i].violated, hs[i].sim)
  {
    seq(|hs|, i requires 0 <= i < |hs| => Entry(i, hs[i].violated, hs[i].sim))
  }

  /** What the control sees, an order that is being replaced left out. */
  function Seen(hs: seq<Held>, exclusion: Option<nat>): seq<Sim> {
    Counted(Entries(hs), exclusion)
  }

  predicate NoneViolated(hs: seq<Held>) {
    forall i :: 0 <= i < |hs| ==> !hs[i].violated
  }

  lemma SeesLast(hs: seq<Held>, exclusion: Option<nat>)
    requires hs != []
    ensures var n := |hs| - 1;
      && Seen(hs, exclusion) == Seen(hs[..n], exclusion)
        + (if exclusion == Some(n) || hs[n].violated then [] else [hs[n].sim])
      && Sims(hs) == Sims(hs[..n]) + [hs[n].sim]
  {
    assert Entries(hs)[..|hs| - 1] == Entries(hs[..|hs| - 1]);
  }

  lemma {:induction false} SeesAll(hs: seq<Held>)
    requires NoneViolated(hs)
    ensures Seen(hs, None) == Sims(hs)
  {
    hide Seen;
    if hs == [] {
      SeesNothing(None);
    } else {
      SeesLast(hs, None);
      SeesAll(hs[..|hs| - 1]);
    }
  }

  lemma SeesNothing(exclusion: Option<nat>)
    ensures Seen([], exclusion) == []
  {
  }

  lemma {:induction false} SeesOthers(hs: seq<Held>, i: nat)
    requires NoneViolated(hs)
    ensures Seen(hs, Some(i)) == if i < |hs| then Sims(hs)[..i] + Sims(hs)[i + 1..] else Sims(hs)
  {
    hide Seen;
    if hs == [] {
      SeesNothing(Some(i));
    } else {
      var n := |hs| - 1;
      SeesLast(hs, Some(i));
      SeesOthers(hs[..n], i);
      if i < n {
        assert Sims(hs[..n])[i + 1..] + [hs[n].sim] == Sims(hs)[i + 1..];
      } else if i == n {
        assert Sims(hs)[..n] == Sims(hs[..n]);
      }
    }
  }

  /** A request to place a new order; a control that refuses something for an order placed before; a
      replace when it is executed, on an order the exchange has and for what remains of it; or anything
      else the exchange does to an order. The other controls and the strategy may refuse an order this
      one accepts. */
  datatype Action =
    | Request(side: Side, o: OrderType, otherControls: bool)
    | Violate(i: nat)
    | Replace(i: nat, price: Price, b: MarketBook)
    | Exchange(i: nat, e: Event)

  ghost predicate ValidAction(hs: seq<Held>, a: Action) {
    match a
    case Request(_, _, _) => true
    case Violate(i) => i < |hs|
    case Replace(i, _, b) => i < |hs| && Replaceable(hs[i].sim) && b.status == Open
    case Exchange(i, e) => i < |hs| && Enabled(hs[i].sim, e)
  }

  predicate Replaceable(s: Sim) {
    s.otype.Limit? && s.version.Some? && !s.bspReconciled
  }

  /** The request is for an order the control accepts. */
  ghost predicate Placing(l: Limits, hs: seq<Held>, a: Action) {
    a.Request? && a.otherControls && ValidOrder(a.o) && Accepts(l, Seen(hs, None), a.side, a.o)
  }

  ghost function Act(l: Limits, hs: seq<Held>, a: Action): seq<Held>
    requires ValidAction(hs, a)
  {
    match a
    case Request(side, o, _) => if Placing(l, hs, a) then hs + [Held(Initial(side, o), false)] else hs
    case Violate(i) => hs[i := hs[i].(violated := true)]
    case Replace(i, price, b) => AfterReplace(hs, i, price, b)
    case Exchange(i, e) => hs[i := hs[i].(sim := Step(hs[i].sim, e))]
  }

  /** The order is cancelled and what was cancelled becomes a new order at the new price. */
  function AfterReplace(hs: seq<Held>, i: nat, price: Price, b: MarketBook): seq<Held>
    requires i < |hs| && Replaceable(hs[i].sim) && b.status == Open
  {
    var (cancelled, size) := CancelStep(hs[i].sim, b, None);
    var replacement := Initial(cancelled.side, Limit(price, size.value, cancelled.otype.persistence));
    hs[i := hs[i].(sim := cancelled)] + [Held(replacement, false)]
  }

  ghost predicate ValidActions(l: Limits, hs: seq<Held>, acts: seq<Action>)
    decreases acts
  {
    acts != [] ==> ValidAction(hs, acts[0]) && ValidActions(l, Act(l, hs, acts[0]), acts[1..])
  }

  ghost function ActAll(l: Limits, hs: seq<Held>, acts: seq<Action>): seq<Held>
    requires ValidActions(l, hs, acts)
    decreases acts
  {
    if acts == [] then hs else ActAll(l, Act(l, hs, acts[0]), acts[1..])
  }

  /** Both worst cases are within the cap: exactly for a loss; for a win up to the rounding of the
      prices matched so far and of two sums, however many orders were placed. */
  ghost predicate WithinCap(l: Limits, ss: seq<Sim>) {
    AllSound(ss) && LoseRoom(l, ss) >= 0 && WinRoom(l, ss) >= 0
  }

  /** What is left of the cap if the selection loses, and, doubled, if it wins. */
  ghost function LoseRoom(l: Limits, ss: seq<Sim>): int {
    l.maxSelectionExposure + Sum(LoseFloor, ss)
  }

  ghost function WinRoom(l: Limits, ss: seq<Sim>): int {
    2 * l.maxSelectionExposure + 2 * Sum(WinFloor, ss) + Sum(SpSlack, ss) + Sum(Size, ss) + 200
  }

  // ----- what an action takes

  /** At most what the action can lose more if the selection wins, and if it loses: an accepted order's
      exposure, the rise of a LAY's price on what remains, what a cancel by a negative size adds. */
  ghost function WinTake(l: Limits, hs: seq<Held>, a: Action): int
    requires ValidAction(hs, a)
  {
    match a
    case Request(side, o, _) => if Placing(l, hs, a) && side.Lay? then OrderExposure(side, o) else 0
    case Violate(_) => 0
    case Replace(i, price, _) =>
      var s := hs[i].sim;
      if s.side.Lay? then (price - s.otype.price) * Remaining(s) else 0
    case Exchange(i, e) => WinRisk(hs[i].sim, Adds(hs[i].sim, e))
  }

  ghost function LoseTake(l: Limits, hs: seq<Held>, a: Action): int
    requires ValidAction(hs, a)
  {
    match a
    case Request(side, o, _) => if Placing(l, hs, a) && side.Back? then OrderExposure(side, o) else 0
    case Violate(_) => 0
    case Replace(_, _, _) => 0
    case Exchange(i, e) => LoseRisk(hs[i].sim, Adds(hs[i].sim, e))
  }

  /** What it takes is left of the cap; what takes nothing has room whatever is left. */
  ghost predicate HasRoom(l: Limits, hs: seq<Held>, a: Action)
    requires ValidAction(hs, a)
  {
    && (WinTake(l, hs, a) > 0 ==> 2 * WinTake(l, hs, a) <= WinRoom(l, Sims(hs)))
    && (LoseTake(l, hs, a) > 0 ==> LoseTake(l, hs, a) <= LoseRoom(l, Sims(hs)))
  }

  /** Room after an action: no less than what the action leaves, and just that if it takes anything. */
  ghost predicate Leaves(l: Limits, hs: seq<Held>, a: Action)
    requires ValidAction(hs, a)
  {
    var ss, ts := Sims(hs), Sims(Act(l, hs, a));
    && AllSound(ts)
    && WinRoom(l, ts) >= WinRoom(l, ss) - 2 * WinTake(l, hs, a)
    && LoseRoom(l, ts) >= LoseRoom(l, ss) - LoseTake(l, hs, a)
    && (WinTake(l, hs, a) > 0 || LoseTake(l, hs, a) > 0 ==>
        && WinRoom(l, ts) == WinRoom(l, ss) - 2 * WinTake(l, hs, a)
        && LoseRoom(l, ts) == LoseRoom(l, ss) - LoseTake(l, hs, a))
  }

  lemma NewOrderFloors(side: Side, o: OrderType)
    requires Sized(o)
    ensures var s := Initial(side, o);
      && Sound(s) && SpSlack(s) == 0 && Size(s) == 0
      && WinFloor(s) == (if side.Lay? then -OrderExposure(side, o) else 0)
      && LoseFloor(s) == (if side.Back? then -OrderExposure(side, o) else 0)
  {
    InitialIsSound(side, o);
  }

  /** One order's state changes. */
  lemma RoomMoves(l: Limits, ss: seq<Sim>, i: nat, t: Sim)
    requires AllSound(ss) && i < |ss| && Sound(t)
    ensures var ts, s := ss[i := t], ss[i];
      && AllSound(ts)
      && LoseRoom(l, ts) == LoseRoom(l, ss) - LoseFloor(s) + LoseFloor(t)
      && WinRoom(l, ts)
         == WinRoom(l, ss) + 2 * (WinFloor(t) - WinFloor(s)) + (SpSlack(t) - SpSlack(s)) + (Size(t) - Size(s))
  {
    hide Sum, Sound, WinFloor, LoseFloor, SpSlack, Size;
    SumUpdate(LoseFloor, ss, i, t);
    SumUpdate(WinFloor, ss, i, t);
    SumUpdate(SpSlack, ss, i, t);
    SumUpdate(Size, ss, i, t);
  }

  lemma RoomAfterNew(l: Limits, ss: seq<Sim>, side: Side, o: OrderType)
    requires AllSound(ss) && Sized(o)
    ensures var ts := ss + [Initial(side, o)];
      && AllSound(ts)
      && LoseRoom(l, ts) == LoseRoom(l, ss) - (if side.Back? then OrderExposure(side, o) else 0)
      && WinRoom(l, ts) == WinRoom(l, ss) - 2 * (if side.Lay? then OrderExposure(side, o) else 0)
  {
    hide Sum, Sound, WinFloor, LoseFloor, SpSlack, Size;
    var s := Initial(side, o);
    NewOrderFloors(side, o);
    SumAppend(LoseFloor, ss, s);
    SumAppend(WinFloor, ss, s);
    SumAppend(SpSlack, ss, s);
    SumAppend(Size, ss, s);
  }

  lemma ExchangeLeaves(l: Limits, hs: seq<Held>, i: nat, e: Event)
    requires AllSound(Sims(hs)) && i < |hs| && Enabled(hs[i].sim, e)
    ensures Leaves(l, hs, Exchange(i, e))
  {
    hide Step, WinFloor, LoseFloor, SpSlack, Sound, WinRoom, LoseRoom, Enabled;
    var s := hs[i].sim;
    assert Sound(s) by { assert s == Sims(hs)[i]; }
    var t := Step(s, e);
    StepKeepsSound(s, e);
    StepNoWorse(s, e);
    RiskOf(s, Adds(s, e));
    RoomMoves(l, Sims(hs), i, t);
    assert Sims(hs[i := hs[i].(sim := t)]) == Sims(hs)[i := t];
    if Adds(s, e) > 0 {
      AddingIsCancelling(s, e);
      CancelMovesFloors(s, e.b, e.reduction);
      RiskOf(s, -(Adds(s, e) as int));
    }
  }

  lemma AddingIsCancelling(s: Sim, e: Event)
    requires Adds(s, e) > 0
    ensures e.Cancelled? && Step(s, e) == CancelStep(s, e.b, e.reduction).0
    ensures Sound(s) ==> CancelStep(s, e.b, e.reduction).1 == Some(-(Adds(s, e) as int))
  {
  }

  lemma RequestLeaves(l: Limits, hs: seq<Held>, a: Action)
    requires AllSound(Sims(hs)) && a.Request?
    ensures Leaves(l, hs, a)
  {
    hide WinRoom, LoseRoom, Accepts, Sound;
    if Placing(l, hs, a) {
      RoomAfterNew(l, Sims(hs), a.side, a.o);
      assert Sims(hs + [Held(Initial(a.side, a.o), false)]) == Sims(hs) + [Initial(a.side, a.o)];
    }
  }

  lemma ViolateLeaves(l: Limits, hs: seq<Held>, i: nat)
    requires AllSound(Sims(hs)) && i < |hs|
    ensures Leaves(l, hs, Violate(i))
  {
    hide WinRoom, LoseRoom, Sound;
    assert Sims(hs[i := hs[i].(violated := true)]) == Sims(hs);
  }

  /** Only a LAY whose price rises takes from the cap, by the rise on what remains of it. */
  lemma ReplaceLeaves(l: Limits, hs: seq<Held>, a: Action)
    requires AllSound(Sims(hs)) && a.Replace? && ValidAction(hs, a)
    ensures Leaves(l, hs, a)
    ensures WinRoom(l, Sims(Act(l, hs, a))) == WinRoom(l, Sims(hs)) - 2 * WinTake(l, hs, a)
    ensures LoseRoom(l, Sims(Act(l, hs, a))) == LoseRoom(l, Sims(hs))
  {
    hide WinRoom, LoseRoom, Sound, WinFloor, LoseFloor, SpSlack;
    var ss, s := Sims(hs), hs[a.i].sim;
    assert Sound(s) by { assert s == ss[a.i]; }
    var cancelled, r := CancelStep(s, a.b, None).0, Remaining(s);
    var o := Limit(a.price, r, s.otype.persistence);
    SoundReplacement(s, a.price, a.b);
    CancelMovesFloors(s, a.b, None);
    RoomMoves(l, ss, a.i, cancelled);
    RoomAfterNew(l, ss[a.i := cancelled], s.side, o);
    assert Sims(Act(l, hs, a)) == ss[a.i := cancelled] + [Initial(s.side, o)];
    var p, q := s.otype.price, a.price;
    assert (q - p) * r == (q - 100) * r - (p - 100) * r;
  }

  lemma SoundReplacement(s: Sim, price: Price, b: MarketBook)
    requires Sound(s) && Replaceable(s) && b.status == Open
    ensures Sound(CancelStep(s, b, None).0) && Sized(Limit(price, Remaining(s), s.otype.persistence))
    ensures CancelStep(s, b, None).1 == Some(Remaining(s))
  {
    StepKeepsSound(s, Cancelled(b, None));
  }

  lemma ActLeaves(l: Limits, hs: seq<Held>, a: Action)
    requires AllSound(Sims(hs)) && ValidAction(hs, a)
    ensures Leaves(l, hs, a)
  {
    hide Leaves, ValidAction, AllSound;
    match a
    case Request(_, _, _) => RequestLeaves(l, hs, a);
    case Violate(i) => ViolateLeaves(l, hs, i) by { ActionIndex(hs, a); }
    case Replace(_, _, _) => ReplaceLeaves(l, hs, a);
    case Exchange(i, e) => ExchangeLeaves(l, hs, i, e) by { ActionIndex(hs, a); }
  }

  lemma ActionIndex(hs: seq<Held>, a: Action)
    requires ValidAction(hs, a)
    ensures a.Violate? || a.Replace? || a.Exchange? ==> a.i < |hs|
    ensures a.Exchange? ==> Enabled(hs[a.i].sim, a.e)
  {
  }

  /** An action keeps the cap exactly when what it takes is left of it. */
  lemma ActKeepsCap(l: Limits, hs: seq<Held>, a: Action)
    requires WithinCap(l, Sims(hs)) && ValidAction(hs, a)
    ensures WithinCap(l, Sims(Act(l, hs, a))) <==> HasRoom(l, hs, a)
  {
    hide Act, WinTake, LoseTake, WinRoom, LoseRoom, Sound;
    ActLeaves(l, hs, a);
  }

  // ----- when an action has room

  predicate RaisesLay(hs: seq<Held>, a: Action)
  {
    a.Replace? && a.i < |hs| && hs[a.i].sim.side.Lay? && hs[a.i].sim.otype.Limit? && a.price > hs[a.i].sim.otype.price
  }

  /** Nothing the control does not see: no violation of an order placed before, no LAY whose price
      rises, no cancel that adds. */
  predicate Plain(hs: seq<Held>, a: Action) {
    !a.Violate? && !RaisesLay(hs, a) && (a.Exchange? && a.i < |hs| ==> Adds(hs[a.i].sim, a.e) == 0)
  }

  /** While no order is in violation every plain action has room: what the control accepts, it accepts
      for the whole selection. */
  lemma PlainHasRoom(l: Limits, hs: seq<Held>, a: Action)
    requires WithinCap(l, Sims(hs)) && NoneViolated(hs) && ValidAction(hs, a) && Plain(hs, a)
    ensures HasRoom(l, hs, a) && NoneViolated(Act(l, hs, a))
  {
    hide Sum, ExposuresOf, Sound, Enabled, Step, CancelStep;
    match a
    case Request(side, o, _) =>
      if Placing(l, hs, a) {
        SeesAll(hs);
        ExposuresAreFloors(Sims(hs));
        SumIsNatural(Sims(hs));
      }
    case Replace(i, price, _) =>
      var s := hs[i].sim;
      assert Sound(s) by { assert s == Sims(hs)[i]; }
      SoundRemainder(s);
      if s.side.Lay? {
        MulOrder(price - s.otype.price, 0, Remaining(s));
      }
    case Exchange(i, e) => RiskOf(hs[i].sim, 0);
  }

  lemma SoundRemainder(s: Sim)
    requires Sound(s)
    ensures Remaining(s) >= 0
  {
  }

  // ----- runs

  ghost predicate AllHaveRoom(l: Limits, hs: seq<Held>, acts: seq<Action>)
    requires ValidActions(l, hs, acts)
    decreases acts
  {
    acts != [] ==> HasRoom(l, hs, acts[0]) && AllHaveRoom(l, Act(l, hs, acts[0]), acts[1..])
  }

  ghost predicate AllPlain(l: Limits, hs: seq<Held>, acts: seq<Action>)
    requires ValidActions(l, hs, acts)
    decreases acts
  {
    acts != [] ==> Plain(hs, acts[0]) && AllPlain(l, Act(l, hs, acts[0]), acts[1..])
  }

  /** The cap holds at every point of a run. */
  ghost predicate CapHolds(l: Limits, hs: seq<Held>, acts: seq<Action>)
    requires ValidActions(l, hs, acts)
    decreases acts
  {
    WithinCap(l, Sims(hs)) && (acts != [] ==> CapHolds(l, Act(l, hs, acts[0]), acts[1..]))
  }

  /** The cap holds at every point of a run that starts without orders exactly when every action has
      room for what it takes, and so in every run of plain actions. */
  lemma CapIsInvariant(l: Limits, acts: seq<Action>)
    requires ValidActions(l, [], acts)
    ensures CapHolds(l, [], acts) <==> AllHaveRoom(l, [], acts)
    ensures AllPlain(l, [], acts) ==> CapHolds(l, [], acts)
    ensures CapHolds(l, [], acts) ==> WithinCap(l, Sims(ActAll(l, [], acts)))
  {
    EmptyWithinCap(l);
    CapIsKept(l, [], acts);
    CapOfPlain(l, [], acts);
    CapAtTheEnd(l, [], acts);
  }

  lemma EmptyWithinCap(l: Limits)
    ensures WithinCap(l, Sims([]))
  {
  }

  lemma {:induction false} CapIsKept(l: Limits, hs: seq<Held>, acts: seq<Action>)
    requires WithinCap(l, Sims(hs)) && ValidActions(l, hs, acts)
    ensures CapHolds(l, hs, acts) <==> AllHaveRoom(l, hs, acts)
    decreases acts
  {
    hide WithinCap, Act, HasRoom, ValidAction;
    if acts != [] {
      var ts := Act(l, hs, acts[0]);
      ActKeepsCap(l, hs, acts[0]);
      if WithinCap(l, Sims(ts)) {
        CapIsKept(l, ts, acts[1..]);
      } else {
        assert !CapHolds(l, ts, acts[1..]);
      }
    }
  }

  lemma {:induction false} CapOfPlain(l: Limits, hs: seq<Held>, acts: seq<Action>)
    requires WithinCap(l, Sims(hs)) && NoneViolated(hs) && ValidActions(l, hs, acts)
    ensures AllPlain(l, hs, acts) ==> CapHolds(l, hs, acts)
    decreases acts
  {
    hide WithinCap, Act, HasRoom, ValidAction, Plain, NoneViolated;
    if acts != [] && AllPlain(l, hs, acts) {
      PlainHasRoom(l, hs, acts[0]);
      ActKeepsCap(l, hs, acts[0]);
      CapOfPlain(l, Act(l, hs, acts[0]), acts[1..]);
    }
  }

  lemma {:induction false} CapAtTheEnd(l: Limits, hs: seq<Held>, acts: seq<Action>)
    requires ValidActions(l, hs, acts)
    ensures CapHolds(l, hs, acts) ==> WithinCap(l, Sims(ActAll(l, hs, acts)))
    decreases acts
  {
    hide WithinCap, ValidAction, Act;
    if acts != [] { CapAtTheEnd(l, Act(l, hs, acts[0]), acts[1..]); }
  }

  /** End to end: whatever was placed and matched, the selection settles within the cap, exactly if
      it loses and up to the stated rounding if it wins or dead-heats. */
  lemma CapBoundsSettlement(l: Limits, acts: seq<Action>, o: Outcome)
    requires ValidActions(l, [], acts) && AllHaveRoom(l, [], acts)
    ensures var fs := Sims(ActAll(l, [], acts));
      var slack := 2 * Sum(Size, fs) + 2 * Sum(SpSlack, fs) + 100 * |fs| + 200;
      && (o == Loser ==> 100 * TotalProfit(fs, o) + l.maxSelectionExposure >= 0)
      && (o.Winner? ==> 200 * TotalProfit(fs, o) + 2 * l.maxSelectionExposure + slack >= 0)
  {
    hide ActAll, TotalProfit, Sum;
    var fs := Sims(ActAll(l, [], acts));
    CapIsInvariant(l, acts);
    SettleNow(fs);
    ProfitsAreTheMix(fs, o);
    FloorsAreSums(fs);
    SumIsNatural(fs);
    if o.Winner? {
      SettlementArithmetic(Winners(o), |fs|, TotalProfit(fs, o), l.maxSelectionExposure, Sum(WinExact, fs),
        Sum(LoseExact, fs), Sum(Size, fs), Sum(Size, fs), 2 * Sum(SpSlack, fs));
    }
  }

  lemma {:induction false} SettleNow(ss: seq<Sim>)
    requires AllSound(ss)
    ensures 2 * Sum(WinExact, ss) >= 2 * Sum(WinFloor, ss) - Sum(SpSlack, ss)
    ensures Sum(LoseExact, ss) >= Sum(LoseFloor, ss)
  {
    hide WinExact, WinFloor, LoseExact, LoseFloor, SpSlack;
    if ss != [] {
      SettleNow(ss[..|ss| - 1]);
      SettlesAboveFloor(ss[|ss| - 1]);
    }
  }

  // ----- between the request of a replace and its execution

  ghost function WinTaken(l: Limits, hs: seq<Held>, acts: seq<Action>): int
    requires ValidActions(l, hs, acts)
    decreases acts
  {
    if acts == [] then 0 else WinTake(l, hs, acts[0]) + WinTaken(l, Act(l, hs, acts[0]), acts[1..])
  }

  /** By how much cancels grow order i. */
  ghost function Grown(l: Limits, hs: seq<Held>, i: nat, acts: seq<Action>): int
    requires i < |hs| && ValidActions(l, hs, acts)
    decreases acts
  {
    if acts == [] then 0
    else
      var a := acts[0];
      (if a.Exchange? && a.i == i then Adds(hs[i].sim, a.e) else 0) + Grown(l, Act(l, hs, a), i, acts[1..])
  }

  lemma StepRemaining(s: Sim, e: Event)
    requires Sound(s) && Enabled(s, e)
    ensures Remaining(Step(s, e)) <= Remaining(s) + Adds(s, e)
  {
    hide SpStep, TradeAll, PlaceStep;
    match e
    case Placed(v, bpe, b, r) =>
      PlaceKeeps(s, v, bpe, b, r);
      AverageIsClose(Step(s, e).matched);
      SoundRemainder(s);
    case Called(b, sp, traded, min) =>
      StepKeepsSound(s, e);
      CalledRemaining(s, b, sp, traded, min);
    case Cancelled(_, _) =>
    case UpdateRequested(_) =>
    case Updated(_, _) =>
  }

  lemma CalledRemaining(s: Sim, b: MarketBook, sp: StartingPrice, traded: seq<Level>, min: int)
    requires Sound(s) && s.version.Some? && Enabled(s, Called(b, sp, traded, min))
    ensures Remaining(CallStep(s, b, sp, traded, min).0) <= Remaining(s)
  {
    hide TradeAll, Share, Average;
    if !s.bspReconciled && b.bspReconciled && TakesSp(s) {
      SpKeeps(s, b.time, sp, min);
    } else if s.otype.Limit? && Remaining(s) != 0 {
      QueueClosedForm(s.(version := Some(b.version)), b.time, traded);
    }
  }

  /** An order keeps its place, side and price through an action, and no more of it remains than what
      the action adds. */
  lemma OrderAfter(l: Limits, hs: seq<Held>, i: nat, a: Action)
    requires AllSound(Sims(hs)) && i < |hs| && ValidAction(hs, a) && hs[i].sim.otype.Limit?
    ensures var ts := Act(l, hs, a);
      && i < |ts| && ts[i].sim.otype.Limit? && ts[i].sim.side == hs[i].sim.side
      && ts[i].sim.otype.price == hs[i].sim.otype.price
      && Remaining(ts[i].sim) <= Remaining(hs[i].sim)
        + if a.Exchange? && a.i == i then Adds(hs[i].sim, a.e) else 0
  {
    hide Step, Sound, Accepts, Enabled;
    var s := hs[i].sim;
    assert Sound(s) by { assert s == Sims(hs)[i]; }
    if a.Exchange? && a.i == i {
      StepKeepsSound(s, a.e);
      StepRemaining(s, a.e);
    }
    SoundRemainder(s);
  }

  /** What is left of the cap when a replace is executed is no less than what was left when it was
      requested, less what was taken in between; so a replace that had room for what its order then had,
      and could still grow to, and for all that, has room. */
  lemma {:induction false} RoomAtRequest(l: Limits, hs: seq<Held>, i: nat, price: Price, acts: seq<Action>)
    requires AllSound(Sims(hs)) && ValidActions(l, hs, acts)
    requires i < |hs| && hs[i].sim.otype.Limit? && price >= hs[i].sim.otype.price
    ensures var ts, rise := ActAll(l, hs, acts), price - hs[i].sim.otype.price;
      && i < |ts| && ts[i].sim.otype.Limit? && ts[i].sim.otype.price == hs[i].sim.otype.price
      && WinRoom(l, Sims(ts)) >= WinRoom(l, Sims(hs)) - 2 * WinTaken(l, hs, acts)
      && rise * Remaining(ts[i].sim) <= rise * (Remaining(hs[i].sim) + Grown(l, hs, i, acts))
    ensures var ts, rise := ActAll(l, hs, acts), price - hs[i].sim.otype.price;
      2 * (rise * (Remaining(hs[i].sim) + Grown(l, hs, i, acts))) + 2 * WinTaken(l, hs, acts) <= WinRoom(l, Sims(hs))
      ==> forall b :: ValidAction(ts, Replace(i, price, b)) ==> HasRoom(l, ts, Replace(i, price, b))
    decreases acts
  {
    hide Act, ValidAction, WinRoom, LoseRoom, Sound, WinTake, LoseTake;
    var rise := price - hs[i].sim.otype.price;
    if acts != [] {
      var ts := Act(l, hs, acts[0]);
      ActLeaves(l, hs, acts[0]);
      OrderAfter(l, hs, i, acts[0]);
      RoomAtRequest(l, ts, i, price, acts[1..]);
      var grown := Grown(l, ts, i, acts[1..]);
      var adds := Grown(l, hs, i, acts) - grown;
      MulOrder(Remaining(ts[i].sim) + grown, Remaining(hs[i].sim) + adds + grown, rise);
      assert (Remaining(ts[i].sim) + grown) * rise == rise * (Remaining(ts[i].sim) + grown);
      assert (Remaining(hs[i].sim) + adds + grown) * rise == rise * (Remaining(hs[i].sim) + Grown(l, hs, i, acts));
    }
    var end := ActAll(l, hs, acts);
    forall b | ValidAction(end, Replace(i, price, b))
      ensures 2 * (rise * (Remaining(hs[i].sim) + Grown(l, hs, i, acts))) + 2 * WinTaken(l, hs, acts)
        <= WinRoom(l, Sims(hs))
        ==> HasRoom(l, end, Replace(i, price, b))
    {
      TakeOfReplace(l, end, i, price, b);
    }
  }

  lemma TakeOfReplace(l: Limits, hs: seq<Held>, i: nat, price: Price, b: MarketBook)
    requires ValidAction(hs, Replace(i, price, b))
    ensures LoseTake(l, hs, Replace(i, price, b)) == 0
    ensures WinTake(l, hs, Replace(i, price, b))
         == if hs[i].sim.side.Lay? then (price - hs[i].sim.otype.price) * Remaining(hs[i].sim) else 0
  {
  }

  // ----- the control's check of a replace

  /** `StrategyExposure._validate` for a REPLACE: the order itself is left out of the selection and
      counted again in full, at the price it still has. */
  ghost predicate AcceptsReplace(l: Limits, hs: seq<Held>, i: nat)
    requires i < |hs|
  {
    Accepts(l, Seen(hs, Some(i)), hs[i].sim.side, hs[i].sim.otype)
  }

  /** Where the price does not rise against it and nothing is hidden, a replace the control accepted
      keeps the worst case the control looked at within the cap, wherever it was before, but for what
      cancels have added to the order beyond its size. */
  lemma AcceptedReplaceIsSafe(l: Limits, hs: seq<Held>, i: nat, price: Price, b: MarketBook)
    requires AllSound(Sims(hs)) && NoneViolated(hs) && ValidAction(hs, Replace(i, price, b))
    requires AcceptsReplace(l, hs, i) && (hs[i].sim.side.Back? || price <= hs[i].sim.otype.price)
    ensures var ts, s := Sims(AfterReplace(hs, i, price, b)), hs[i].sim;
      var added := Max(0, -s.cancelled);
      && (s.side.Back? ==> LoseRoom(l, ts) >= -LoseRisk(s, added))
      && (s.side.Lay? ==> WinRoom(l, ts) >= -2 * WinRisk(s, added))
  {
    hide Sum, Sound, ExposuresOf, AfterReplace, WinFloor, LoseFloor, SpSlack, Size;
    var ss, s := Sims(hs), hs[i].sim;
    assert Sound(s) by { assert s == ss[i]; }
    var rest := ss[..i] + ss[i + 1..];
    ReplaceLeaves(l, hs, Replace(i, price, b));
    TakeOfReplace(l, hs, i, price, b);
    SeesOthers(hs, i);
    SumWithout(LoseFloor, ss, i);
    SumWithout(WinFloor, ss, i);
    SumWithout(SpSlack, ss, i);
    SumWithout(Size, ss, i);
    ExposuresAreFloors(rest);
    FloorOfLimit(s);
    FreshFloors(s.side, s.otype);
    SoundRemainder(s);
    SumIsNatural(rest);
    SizeIsNatural(s);
    if s.side.Lay? {
      MulOrder(price - s.otype.price, 0, Remaining(s));
    }
  }

  lemma SizeIsNatural(s: Sim)
    requires Sound(s)
    ensures Size(s) >= 0 && SpSlack(s) >= 0
  {
    AverageIsClose(s.matched);
  }

  lemma FreshFloors(side: Side, o: OrderType)
    requires o.Limit?
    ensures var s := Initial(side, o);
      && WinFloor(s) == (if side.Lay? then -OrderExposure(side, o) else 0)
      && LoseFloor(s) == (if side.Back? then -OrderExposure(side, o) else 0)
  {
  }

  lemma {:induction false} SumWithout(f: Sim -> int, ss: seq<Sim>, i: nat)
    requires i < |ss|
    ensures Sum(f, ss[..i] + ss[i + 1..]) == Sum(f, ss) - f(ss[i])
  {
    var n := |ss| - 1;
    if i == n {
      assert ss[..i] + ss[i + 1..] == ss[..n];
    } else {
      SumWithout(f, ss[..n], i);
      assert ss[..n][..i] + ss[..n][i + 1..] == ss[..i] + ss[i + 1..n];
      assert ss[..i] + ss[i + 1..] == (ss[..i] + ss[i + 1..n]) + [ss[n]];
      SumAppend(f, ss[..i] + ss[i + 1..n], ss[n]);
    }
  }
}
