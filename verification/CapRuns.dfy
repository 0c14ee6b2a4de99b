/**
 Runs that break the exposure cap, each by what the control does not look at: a replace at its new
 price, a cancel, an order marked in violation. The first order of each is a LAY of 10.00 at 2.00 that
 uses up a cap of 10.00.
 */
module CapRuns {
  import opened Rounding
  import opened Exchange
  import opened Simulation
  import opened Accounting
  import opened Settlement
  import opened Exposure
  import opened Cap

  const CAP := Limits(100000, 100000)

  function LayAtTwo(size: int): OrderType { Limit(200, size, Lapse) }

  const ASK := Request(Lay, LayAtTwo(1000), true)
  const PLACE := Action.Exchange(0, Placed(None, true, PlainBook, NoOffers))

  /** The run keeps the cap up to its last action, which breaks it. */
  ghost predicate Breaks(l: Limits, acts: seq<Action>, last: Action) {
    && ValidActions(l, [], acts) && CapHolds(l, [], acts)
    && ValidAction(ActAll(l, [], acts), last)
    && !WithinCap(l, Sims(Act(l, ActAll(l, [], acts), last)))
  }

  /** A LAY at 2.00, placed or not, as far as the cap is concerned. */
  ghost predicate IsLay(s: Sim, size: int) {
    s == Initial(Lay, LayAtTwo(size)).(version := s.version) && (s.version.Some? || s == Initial(Lay, LayAtTwo(size)))
  }

  lemma LayFloors(s: Sim, size: nat)
    requires IsLay(s, size)
    ensures Sound(s) && WinFloor(s) == -100 * size && LoseFloor(s) == SpSlack(s) == Size(s) == 0
  {
    InitialIsSound(s.side, s.otype);
    NewOrderFloors(s.side, LayAtTwo(size));
  }

  lemma OneLay(s: Sim, size: nat)
    requires IsLay(s, size)
    ensures AllSound([s])
    ensures WinRoom(CAP, [s]) == 200000 - 200 * size + 200 && LoseRoom(CAP, [s]) == 100000
  {
    hide Sound, WinFloor, LoseFloor, SpSlack, Size, Sum;
    LayFloors(s, size);
    OneOrder(WinFloor, s);
    OneOrder(LoseFloor, s);
    OneOrder(SpSlack, s);
    OneOrder(Size, s);
  }

  lemma FirstLayAccepted(size: nat)
    requires 0 < size <= 1000
    ensures Placing(CAP, [], Request(Lay, LayAtTwo(size), true))
  {
    NearestIsUnique(0, 100, 0);
    SeesNothing(None);
  }

  lemma FirstAct(l: Limits, hs: seq<Held>, a: Action, rest: seq<Action>)
    requires ValidAction(hs, a) && ValidActions(l, Act(l, hs, a), rest)
    ensures ValidActions(l, hs, [a] + rest) && ActAll(l, hs, [a] + rest) == ActAll(l, Act(l, hs, a), rest)
    ensures CapHolds(l, hs, [a] + rest) <==> WithinCap(l, Sims(hs)) && CapHolds(l, Act(l, hs, a), rest)
  {
    hide ValidAction, Act, WithinCap;
    assert ([a] + rest)[1..] == rest;
  }

  /** The first LAY is accepted and placed, and the cap holds. */
  lemma FullyLaid(size: nat) returns (t: Sim)
    requires 0 < size <= 1000
    ensures IsLay(t, size) && t.version.Some?
    ensures var acts := [Request(Lay, LayAtTwo(size), true), PLACE];
      && ValidActions(CAP, [], acts) && CapHolds(CAP, [], acts)
      && ActAll(CAP, [], acts) == [Held(t, false)]
  {
    hide WithinCap, Placing, Sound, Step, CapHolds, ValidActions, ActAll;
    var s := Initial(Lay, LayAtTwo(size));
    t := s.(version := Some(1));
    var ask := Request(Lay, LayAtTwo(size), true);
    FirstLayAccepted(size);
    PlaceQuietly(s) by { InitialIsSound(s.side, s.otype); }
    assert Act(CAP, [], ask) == [Held(s, false)];
    assert Act(CAP, [Held(s, false)], PLACE) == [Held(t, false)];
    LayWithinCap(s, size, false);
    LayWithinCap(t, size, false);
    EmptyWithinCap(CAP);
    NoActs(CAP, [Held(t, false)]);
    FirstAct(CAP, [Held(s, false)], PLACE, []);
    assert [PLACE] + [] == [PLACE];
    FirstAct(CAP, [], ask, [PLACE]);
    assert [ask] + [PLACE] == [ask, PLACE];
  }

  lemma LayWithinCap(s: Sim, size: nat, violated: bool)
    requires IsLay(s, size) && size <= 1000
    ensures var ss := Sims([Held(s, violated)]);
      ss == [s] && WithinCap(CAP, ss) && WinRoom(CAP, ss) == 200000 - 200 * size + 200
  {
    OneLay(s, size);
    assert Sims([Held(s, violated)]) == [s];
  }

  lemma NoActs(l: Limits, hs: seq<Held>)
    ensures ValidActions(l, hs, []) && ActAll(l, hs, []) == hs && (CapHolds(l, hs, []) <==> WithinCap(l, Sims(hs)))
  {
  }

  /** The control accepts a replace of the LAY to 3.00, at its old price, and 20.00 are at risk. */
  lemma RaisedReplaceBreaksCap() returns (acts: seq<Action>)
    ensures acts == [ASK, PLACE] && ValidActions(CAP, [], acts)
    ensures var hs := ActAll(CAP, [], acts); |hs| == 1 && AcceptsReplace(CAP, hs, 0)
    ensures Breaks(CAP, acts, Replace(0, 300, PlainBook))
  {
    hide CapHolds, ActAll, ValidActions, WithinCap, Sound, Act;
    var t := FullyLaid(1000);
    acts := [ASK, PLACE];
    var hs := [Held(t, false)];
    SeesOthers(hs, 0);
    assert Sims(hs)[..0] + Sims(hs)[1..] == [];
    SeesOthers([], 0);
    FirstLayAccepted(1000);
    SeesNothing(None);
    LayWithinCap(t, 1000, false);
    NoRoomBreaks(hs, Replace(0, 300, PlainBook), 100000);
  }

  /** A cancel by minus 10.00, which no exposure control sees, puts another 10.00 at risk. */
  lemma NegativeCancelBreaksCap() returns (acts: seq<Action>)
    ensures acts == [ASK, PLACE]
    ensures Breaks(CAP, acts, Action.Exchange(0, Cancelled(PlainBook, Some(-1000))))
  {
    hide CapHolds, ActAll, ValidActions, WithinCap, Sound, Act;
    var t := FullyLaid(1000);
    acts := [ASK, PLACE];
    LayWithinCap(t, 1000, false);
    NoRoomBreaks([Held(t, false)], Action.Exchange(0, Cancelled(PlainBook, Some(-1000))), 100000);
  }

  /** With the first LAY marked in violation the control accepts it a second time. */
  lemma ViolationBreaksCap() returns (acts: seq<Action>)
    ensures acts == [ASK, PLACE, Violate(0)] && Breaks(CAP, acts, ASK)
  {
    hide CapHolds, ActAll, ValidActions, WithinCap, Sound;
    var t := FullyLaid(1000);
    acts := [ASK, PLACE, Violate(0)];
    var hs := [Held(t, true)];
    assert Act(CAP, [Held(t, false)], Violate(0)) == hs;
    LayWithinCap(t, 1000, true);
    LastAct([ASK, PLACE], Violate(0));
    assert acts == [ASK, PLACE] + [Violate(0)];
    ViolatedSees(t);
    FirstLayAccepted(1000);
    SeesNothing(None);
    NoRoomBreaks(hs, ASK, 100000);
  }

  lemma ViolatedSees(t: Sim)
    ensures Seen([Held(t, true)], None) == Seen([], None)
  {
    SeesLast([Held(t, true)], None);
    assert [Held(t, true)][..0] == [];
  }

  /** A LAY of 5.00 is to be replaced from 2.00 to 3.00, which the cap has room for; a second LAY of
      5.00 is accepted before that is executed, and the replace breaks the cap. */
  lemma RoomIsLost() returns (acts: seq<Action>)
    ensures acts == [Request(Lay, LayAtTwo(500), true), PLACE] && ValidActions(CAP, [], acts)
    ensures var hs, raise := ActAll(CAP, [], acts), Replace(0, 300, PlainBook);
      && ValidAction(hs, raise) && HasRoom(CAP, hs, raise)
      && Breaks(CAP, acts + [Request(Lay, LayAtTwo(500), true)], raise)
  {
    hide CapHolds, ActAll, ValidActions, WithinCap, Sound, Act, HasRoom, WinTake, WinRoom, LoseRoom;
    var t := FullyLaid(500);
    var ask := Request(Lay, LayAtTwo(500), true);
    acts := [ask, PLACE];
    var hs, raise := [Held(t, false)], Replace(0, 300, PlainBook);
    RiseHasRoom(t);
    SecondLay(t);
    LastAct(acts, ask);
    NoRoomBreaks(Act(CAP, hs, ask), raise, 50000);
  }

  lemma RiseHasRoom(t: Sim)
    requires IsLay(t, 500) && t.version.Some?
    ensures var hs, raise := [Held(t, false)], Replace(0, 300, PlainBook);
      ValidAction(hs, raise) && HasRoom(CAP, hs, raise) && WinTake(CAP, hs, raise) == 50000
  {
    LayWithinCap(t, 500, false);
  }

  /** The second LAY is accepted, leaves nothing of the cap and does not change what the raise takes. */
  lemma SecondLay(t: Sim)
    requires IsLay(t, 500) && t.version.Some?
    ensures var hs, raise := [Held(t, false)], Replace(0, 300, PlainBook);
      var ts := Act(CAP, hs, Request(Lay, LayAtTwo(500), true));
      && WithinCap(CAP, Sims(ts)) && WinRoom(CAP, Sims(ts)) == 200
      && ValidAction(ts, raise) && WinTake(CAP, ts, raise) == 50000
  {
    hide Sum, Placing, Sound, WinRoom, LoseRoom;
    var hs, n := [Held(t, false)], Initial(Lay, LayAtTwo(500));
    SecondLayAccepted(t);
    var ts := Act(CAP, hs, Request(Lay, LayAtTwo(500), true));
    assert ts == hs + [Held(n, false)];
    OneLay(t, 500);
    RoomAfterNew(CAP, [t], Lay, LayAtTwo(500));
    assert Sims(ts) == [t] + [n];
  }

  lemma SecondLayAccepted(t: Sim)
    requires IsLay(t, 500)
    ensures Placing(CAP, [Held(t, false)], Request(Lay, LayAtTwo(500), true))
  {
    hide Sum;
    SeesAll([Held(t, false)]);
    assert Sims([Held(t, false)]) == [t];
    LayExposure(t);
  }

  lemma LayExposure(t: Sim)
    requires IsLay(t, 500)
    ensures ExposuresOf([t]).worstOnWin == -500
  {
    NearestIsUnique(0, 100, 0);
    NearestIsUnique(-50000, 100, -500);
    OneOrder(MatchedWin, t);
    OneOrder(UnmatchedWin, t);
    OneOrder(CloseWin, t);
  }

  lemma OneOrder(f: Sim -> int, s: Sim)
    ensures Sum(f, [s]) == f(s)
  {
    assert [s][..0] == [];
  }

  lemma LastAct(acts: seq<Action>, a: Action)
    requires ValidActions(CAP, [], acts) && CapHolds(CAP, [], acts) && ValidAction(ActAll(CAP, [], acts), a)
    requires WithinCap(CAP, Sims(Act(CAP, ActAll(CAP, [], acts), a)))
    ensures ValidActions(CAP, [], acts + [a]) && CapHolds(CAP, [], acts + [a])
    ensures ActAll(CAP, [], acts + [a]) == Act(CAP, ActAll(CAP, [], acts), a)
  {
    LastActFrom([], acts, a);
  }

  lemma {:induction false} LastActFrom(hs: seq<Held>, acts: seq<Action>, a: Action)
    requires ValidActions(CAP, hs, acts) && CapHolds(CAP, hs, acts) && ValidAction(ActAll(CAP, hs, acts), a)
    requires WithinCap(CAP, Sims(Act(CAP, ActAll(CAP, hs, acts), a)))
    ensures ValidActions(CAP, hs, acts + [a]) && CapHolds(CAP, hs, acts + [a])
    ensures ActAll(CAP, hs, acts + [a]) == Act(CAP, ActAll(CAP, hs, acts), a)
    decreases acts
  {
    hide Act, WithinCap, ValidAction;
    if acts == [] {
      assert [] + [a] == [a] && [a][1..] == [];
    } else {
      LastActFrom(Act(CAP, hs, acts[0]), acts[1..], a);
      assert (acts + [a])[1..] == acts[1..] + [a];
    }
  }

  /** What takes more than is left breaks the cap. */
  lemma NoRoomBreaks(hs: seq<Held>, a: Action, take: int)
    requires WithinCap(CAP, Sims(hs)) && ValidAction(hs, a)
    requires WinTake(CAP, hs, a) == take > 0 && 2 * take > WinRoom(CAP, Sims(hs))
    ensures !WithinCap(CAP, Sims(Act(CAP, hs, a)))
  {
    hide Act, WinTake, WinRoom, LoseRoom;
    ActKeepsCap(CAP, hs, a);
  }
}
