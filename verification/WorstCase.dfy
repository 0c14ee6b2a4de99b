/**
 The worst case is not only a bound: some run of the exchange reaches it. Any partial fill of what
 remains of a LIMIT order is one market update away, and so is the starting price that makes an order
 on close risk just its liability, so the floor of a selection is the exact minimum over everything the
 exchange can still do; and so is what a cancel by a negative size adds to lose.
 */
module WorstCase {
  import opened Rounding
  import opened Exchange
  import opened Wap
  import opened Simulation
  import opened Fills
  import opened Accounting
  import opened Settlement
  import opened Exposure

  /** Enough volume at the limit to work off the queue and then fill a size. */
  function FillUpdate(s: Sim, fill: nat): Event
    requires s.otype.Limit? && s.piq >= 0
  {
    Called(PlainBook, 0, [Level(s.otype.price, s.piq + 2 * fill)], 0)
  }

  ghost predicate FilledAtLimit(s: Sim, t: Sim, fill: int)
    requires s.otype.Limit?
  {
    && t.otype == s.otype && t.side == s.side && t.bspReconciled == s.bspReconciled
    && t.sizeMatched == s.sizeMatched + fill
    && Turnover(t.matched) == Turnover(s.matched) + s.otype.price * fill
    && Remaining(t) == Remaining(s) - fill
  }

  lemma FillUpdateFills(s: Sim, fill: nat)
    requires Sound(s) && s.otype.Limit? && s.version.Some? && 0 < fill <= Remaining(s)
    ensures FilledAtLimit(s, Step(s, FillUpdate(s, fill)), fill)
  {
    hide Average;
    var t := s.(version := Some(1));
    var traded := s.piq + 2 * fill;
    TradeOneEffect(t, 0, traded);
    RoundKeepsBounds(2 * fill, 2, fill);
    assert TradeAll(t, 0, [Level(s.otype.price, traded)]) == TradeOne(t, 0, traded) by {
      assert [Level(s.otype.price, traded)][1..] == [];
    }
  }

  /** Any partial fill of what remains, all of it at the limit, is reachable. */
  lemma FillIsReachable(s: Sim, fill: nat) returns (es: seq<Event>)
    requires Sound(s) && s.otype.Limit? && fill <= Remaining(s)
    ensures ValidRun(s, es) && AllReducing(es) && FilledAtLimit(s, Run(s, es), fill)
  {
    if fill == 0 {
      es := [];
    } else if s.version.Some? {
      var e := FillUpdate(s, fill);
      es := [e];
      OneStep(s, e);
      FillUpdateFills(s, fill);
    } else {
      var e := Placed(None, true, PlainBook, NoOffers);
      PlaceQuietly(s);
      StepKeepsSound(s, e);
      var s' := s.(version := Some(1));
      var f := FillUpdate(s', fill);
      TwoSteps(s, e, f);
      FillUpdateFills(s', fill);
      es := [e, f];
    }
  }

  /** An order whose future is still open: at a limit, or on close and not yet reconciled. */
  predicate Undecided(s: Sim) {
    s.otype.Limit? || !s.bspReconciled
  }

  /** A starting price an order on close accepts and whose stake needs no rounding. */
  function RoundPrice(s: Sim): StartingPrice
    requires !s.otype.Limit?
  {
    if s.side.Back? && s.otype.LimitOnClose? then s.otype.bound else 101
  }

  lemma CloseFills(s: Sim)
    requires Sound(s) && !s.otype.Limit? && !s.bspReconciled && s.version.Some?
    ensures var t := Step(s, Called(PlainBook.(bspReconciled := true), RoundPrice(s), [], 0));
      && (s.side.Lay? ==> WinExact(t) == WinFloor(s))
      && (s.side.Back? ==> LoseExact(t) == LoseFloor(s))
  {
    hide Average, Turnover;
    var sp := RoundPrice(s);
    var size := SpSize(s.side, s.otype.liability, sp);
    if s.side.Lay? {
      NearestIsUnique(100 * s.otype.liability, 1, 100 * s.otype.liability);
    }
    AddMatchAdds(s.(bspReconciled := true), Match(0, sp, size));
    NothingTurnsOver();
    AverageIsClose(s.matched);
  }

  /** A fresh or placed order on close, reconciled at that price. */
  lemma CloseIsReachable(s: Sim) returns (es: seq<Event>)
    requires Sound(s) && !s.otype.Limit? && !s.bspReconciled
    ensures ValidRun(s, es) && AllReducing(es)
    ensures s.side.Lay? ==> WinExact(Run(s, es)) == WinFloor(s)
    ensures s.side.Back? ==> LoseExact(Run(s, es)) == LoseFloor(s)
  {
    hide WinExact, LoseExact, WinFloor, LoseFloor, Step;
    var f := Called(PlainBook.(bspReconciled := true), RoundPrice(s), [], 0);
    if s.version.Some? {
      CloseFills(s);
      OneStep(s, f);
      es := [f];
    } else {
      var e := Placed(None, true, PlainBook, NoOffers);
      FreshOnClose(s);
      PlaceQuietly(s);
      StepKeepsSound(s, e);
      var t := s.(version := Some(1));
      CloseFills(t);
      SameFloors(s, t);
      TwoSteps(s, e, f);
      es := [e, f];
    }
  }

  lemma FreshOnClose(s: Sim)
    requires Sound(s) && !s.otype.Limit? && s.version.None? && !s.bspReconciled
    ensures s == Initial(s.side, s.otype)
  {
    hide Turnover;
  }

  lemma SameFloors(s: Sim, t: Sim)
    requires t == s.(version := t.version)
    ensures WinFloor(t) == WinFloor(s) && LoseFloor(t) == LoseFloor(s)
  {
  }

  /** What an order that is decided has made of it, and otherwise its floor. */
  function WinEnd(s: Sim): int { if Undecided(s) then WinFloor(s) else WinExact(s) }

  function LoseEnd(s: Sim): int { if Undecided(s) then LoseFloor(s) else LoseExact(s) }

  /** A cancel by a negative size can reach the order: it is, or can be, on the exchange at a limit. */
  predicate CanGrow(s: Sim) {
    s.otype.Limit? && !s.bspReconciled && (s.version.Some? || s == Initial(s.side, s.otype))
  }

  /** The run puts all of what remains, and k more, where it hurts most on each outcome: all of a LAY
      if the selection wins, all of a BACK if it loses, nothing of the other side. */
  ghost predicate Attains(s: Sim, k: nat, ifWin: seq<Event>, ifLose: seq<Event>)
    requires Sound(s)
  {
    && ValidRun(s, ifWin) && Added(s, ifWin) == k && WinExact(Run(s, ifWin)) == WinEnd(s) - WinRisk(s, k)
    && ValidRun(s, ifLose) && Added(s, ifLose) == k && LoseExact(Run(s, ifLose)) == LoseEnd(s) - LoseRisk(s, k)
  }

  lemma EndsAreReached(s: Sim, k: nat) returns (ifWin: seq<Event>, ifLose: seq<Event>)
    requires Sound(s) && (k > 0 ==> CanGrow(s))
    ensures Attains(s, k, ifWin, ifLose)
  {
    hide Turnover, Step, WinExact, LoseExact, WinFloor, LoseFloor, Added;
    RiskOf(s, 0);
    if k > 0 {
      ifWin, ifLose := GrownEndsAreReached(s, k);
    } else if s.otype.Limit? {
      ifWin, ifLose := LimitFloorsAreReached(s);
      NothingAdded(s, ifWin);
      NothingAdded(s, ifLose);
    } else if s.bspReconciled {
      ifWin, ifLose := [], [];
      NothingAdded(s, []);
    } else {
      ifWin, ifLose := CloseFloorsAreReached(s);
      NothingAdded(s, ifWin);
      NothingAdded(s, ifLose);
    }
  }

  lemma NothingAdded(s: Sim, es: seq<Event>)
    requires Sound(s) && ValidRun(s, es) && AllReducing(es)
    ensures Added(s, es) == 0
  {
  }

  lemma CloseFloorsAreReached(s: Sim) returns (ifWin: seq<Event>, ifLose: seq<Event>)
    requires Sound(s) && !s.otype.Limit? && !s.bspReconciled
    ensures ValidRun(s, ifWin) && AllReducing(ifWin) && WinExact(Run(s, ifWin)) == WinFloor(s)
    ensures ValidRun(s, ifLose) && AllReducing(ifLose) && LoseExact(Run(s, ifLose)) == LoseFloor(s)
  {
    hide Turnover, Step;
    NothingTurnsOver();
    AverageIsClose(s.matched);
    var es := CloseIsReachable(s);
    ifWin, ifLose := if s.side.Lay? then es else [], if s.side.Back? then es else [];
  }

  lemma LimitFloorsAreReached(s: Sim) returns (ifWin: seq<Event>, ifLose: seq<Event>)
    requires Sound(s) && s.otype.Limit?
    ensures ValidRun(s, ifWin) && AllReducing(ifWin) && WinExact(Run(s, ifWin)) == WinFloor(s)
    ensures ValidRun(s, ifLose) && AllReducing(ifLose) && LoseExact(Run(s, ifLose)) == LoseFloor(s)
  {
    hide Run, ValidRun, Turnover, Reported, SoundLimit, SoundOnClose;
    ifWin := FillIsReachable(s, if s.side.Lay? then Remaining(s) else 0);
    ifLose := FillIsReachable(s, if s.side.Back? then Remaining(s) else 0);
    assert s.otype.price * Remaining(s) == (s.otype.price - 100) * Remaining(s) + 100 * Remaining(s);
  }

  /** The order is placed if it was not, then cancelled by minus k, then filled. */
  lemma GrownEndsAreReached(s: Sim, k: nat) returns (ifWin: seq<Event>, ifLose: seq<Event>)
    requires Sound(s) && k > 0 && CanGrow(s)
    ensures Attains(s, k, ifWin, ifLose)
    decreases s.version.None?
  {
    hide Turnover, Step, WinExact, LoseExact, WinFloor, LoseFloor, Added, PlaceStep, CancelStep;
    var e := if s.version.Some? then Cancelled(PlainBook, Some(Minus(k))) else Placed(None, true, PlainBook, NoOffers);
    var t := Step(s, e);
    StepKeepsSound(s, e);
    if s.version.Some? {
      CancelMovesFloors(s, PlainBook, Some(Minus(k)));
      AddsAll(s, k);
      RiskOf(s, k);
      SameRisk(s, t, k);
      ifWin, ifLose := LimitFloorsAreReached(t);
      NothingAdded(t, ifWin);
      NothingAdded(t, ifLose);
    } else {
      PlaceQuietly(s);
      SameFloors(s, t);
      SameRisk(s, t, k);
      ifWin, ifLose := GrownEndsAreReached(t, k);
    }
    AddedFirst(s, e, ifWin);
    AddedFirst(s, e, ifLose);
    ifWin, ifLose := [e] + ifWin, [e] + ifLose;
  }

  function Minus(k: int): int { -k }

  lemma AddsAll(s: Sim, k: nat)
    requires s.otype.Limit? && k > 0 && s.version.Some?
    ensures Adds(s, Cancelled(PlainBook, Some(Minus(k)))) == k
    ensures Step(s, Cancelled(PlainBook, Some(Minus(k)))) == CancelStep(s, PlainBook, Some(Minus(k))).0
    ensures var t := Step(s, Cancelled(PlainBook, Some(Minus(k))));
      Undecided(t) && t.otype == s.otype && t.side == s.side
  {
  }

  lemma SameRisk(s: Sim, t: Sim, k: int)
    requires t.side == s.side && t.otype == s.otype
    ensures WinRisk(t, k) == WinRisk(s, k) && LoseRisk(t, k) == LoseRisk(s, k)
  {
  }

  lemma AddedFirst(s: Sim, e: Event, es: seq<Event>)
    requires Sound(s) && Enabled(s, e) && Sound(Step(s, e)) && ValidRun(Step(s, e), es)
    ensures ValidRun(s, [e] + es) && Run(s, [e] + es) == Run(Step(s, e), es)
    ensures Added(s, [e] + es) == Adds(s, e) + Added(Step(s, e), es)
  {
    hide Step, Adds;
    assert ([e] + es)[1..] == es;
    FirstStep(s, [e] + es);
  }

  /** No run goes below the end, less what its cancels added. */
  lemma RunSettlesAboveEnd(s: Sim, es: seq<Event>)
    requires Sound(s) && ValidRun(s, es)
    ensures var f := Run(s, es);
      && 2 * WinExact(f) >= 2 * WinEnd(s) - SpSlack(f) - 2 * WinRisk(s, Added(s, es))
      && LoseExact(f) >= LoseEnd(s) - LoseRisk(s, Added(s, es))
  {
    hide Run, Added, WinFloor, LoseFloor;
    RunSettlesAboveFloor(s, es);
    RunKeepsTerms(s, es);
    RiskOf(s, Added(s, es));
  }

  ghost function AddedSizes(ss: seq<Sim>, ess: seq<seq<Event>>): (ks: seq<nat>)
    requires ValidRuns(ss, ess)
    ensures |ks| == |ss| && forall i :: 0 <= i < |ss| ==> ks[i] == Added(ss[i], ess[i])
  {
    seq(|ss|, i requires 0 <= i < |ss| => Added(ss[i], ess[i]))
  }

  /** The reported worst cases of a selection against the minima over all runs of its orders. What
      cancels by a negative size add counts as their risk, whatever its size, and an order on close that
      is reconciled counts as what it matched instead of its liability; then on a loss no run loses
      more, and for any sizes added one loses just that. On a win the same holds but for the rounding of
      what is reported and of LAY starting price fills. */
  lemma WorstCaseIsExact(ss: seq<Sim>, ks: seq<nat>) returns (ifWin: seq<seq<Event>>, ifLose: seq<seq<Event>>)
    requires AllSound(ss) && |ks| == |ss| && forall i :: 0 <= i < |ss| ==> ks[i] > 0 ==> CanGrow(ss[i])
    ensures ValidRuns(ss, ifWin) && AddedSizes(ss, ifWin) == ks
    ensures ValidRuns(ss, ifLose) && AddedSizes(ss, ifLose) == ks
    ensures var worst := 100 * ExposuresOf(ss).worstOnLose + Sum(LoseEnd, ss) - Sum(LoseFloor, ss);
      && Sum(LoseExact, RunAll(ss, ifLose)) == worst - AddedRisk(LoseRisk, ss, ifLose)
      && forall ess :: ValidRuns(ss, ess) ==>
          Sum(LoseExact, RunAll(ss, ess)) >= worst - AddedRisk(LoseRisk, ss, ess)
    ensures var worst := 200 * ExposuresOf(ss).worstOnWin + 2 * Sum(WinEnd, ss) - 2 * Sum(WinFloor, ss);
      var slack := Sum(Size, ss) + 200;
      && -slack <= worst - 2 * AddedRisk(WinRisk, ss, ifWin) - 2 * Sum(WinExact, RunAll(ss, ifWin)) <= slack
      && forall ess :: ValidRuns(ss, ess) ==>
          2 * Sum(WinExact, RunAll(ss, ess))
          >= worst - slack - 2 * AddedRisk(WinRisk, ss, ess) - Sum(SpSlack, RunAll(ss, ess))
  {
    hide RunAll, ExposuresOf, Sum, ValidRuns, AddedRisk;
    ifWin, ifLose := EndsAreMinima(ss, ks);
    ExposuresAreFloors(ss);
    forall ess | ValidRuns(ss, ess)
      ensures Sum(LoseExact, RunAll(ss, ess)) >= Sum(LoseEnd, ss) - AddedRisk(LoseRisk, ss, ess)
      ensures 2 * Sum(WinExact, RunAll(ss, ess))
           >= 2 * Sum(WinEnd, ss) - 2 * AddedRisk(WinRisk, ss, ess) - Sum(SpSlack, RunAll(ss, ess))
    {
      RunsSettleAboveEnds(ss, ess);
    }
  }

  lemma {:induction false} RunsSettleAboveEnds(ss: seq<Sim>, ess: seq<seq<Event>>)
    requires ValidRuns(ss, ess)
    ensures Sum(LoseExact, RunAll(ss, ess)) >= Sum(LoseEnd, ss) - AddedRisk(LoseRisk, ss, ess)
    ensures 2 * Sum(WinExact, RunAll(ss, ess))
         >= 2 * Sum(WinEnd, ss) - 2 * AddedRisk(WinRisk, ss, ess) - Sum(SpSlack, RunAll(ss, ess))
  {
    hide Run, WinExact, WinEnd, LoseExact, LoseEnd, SpSlack, WinRisk, LoseRisk, Added;
    var n := |ss| - 1;
    if ss != [] {
      RunsSettleAboveEnds(ss[..n], ess[..n]);
      RunSettlesAboveEnd(ss[n], ess[n]);
      assert RunAll(ss, ess)[..n] == RunAll(ss[..n], ess[..n]);
    }
  }

  /** For any sizes added the ends, less their risk, are reached. */
  lemma {:induction false} EndsAreMinima(ss: seq<Sim>, ks: seq<nat>)
    returns (ifWin: seq<seq<Event>>, ifLose: seq<seq<Event>>)
    requires AllSound(ss) && |ks| == |ss| && forall i :: 0 <= i < |ss| ==> ks[i] > 0 ==> CanGrow(ss[i])
    ensures ValidRuns(ss, ifWin) && AddedSizes(ss, ifWin) == ks
    ensures Sum(WinExact, RunAll(ss, ifWin)) == Sum(WinEnd, ss) - AddedRisk(WinRisk, ss, ifWin)
    ensures ValidRuns(ss, ifLose) && AddedSizes(ss, ifLose) == ks
    ensures Sum(LoseExact, RunAll(ss, ifLose)) == Sum(LoseEnd, ss) - AddedRisk(LoseRisk, ss, ifLose)
  {
    hide Run, ValidRun, WinExact, WinEnd, LoseExact, LoseEnd, WinRisk, LoseRisk, Added, Sound, CanGrow, ValidRuns,
      AddedRisk, AllSound;
    EmptyRuns();
    if ss == [] {
      ifWin, ifLose := [], [];
    } else {
      var n := |ss| - 1;
      assert AllSound(ss[..n]) && Sound(ss[n]) by { SoundParts(ss); }
      var a, b := EndsAreMinima(ss[..n], ks[..n]);
      var w, l := EndsAreReached(ss[n], ks[n]);
      ifWin, ifLose := a + [w], b + [l];
      OneMoreRun(WinRisk, ss, a, w);
      OneMoreRun(LoseRisk, ss, b, l);
      assert ks == ks[..n] + [ks[n]];
    }
  }

  lemma SoundParts(ss: seq<Sim>)
    requires ss != [] && AllSound(ss)
    ensures AllSound(ss[..|ss| - 1]) && Sound(ss[|ss| - 1])
  {
    hide Sound;
  }

  lemma EmptyRuns()
    ensures ValidRuns([], []) && RunAll([], []) == [] && AddedSizes([], []) == []
    ensures AddedRisk(WinRisk, [], []) == 0 && AddedRisk(LoseRisk, [], []) == 0
  {
  }

  lemma OneMoreRun(risk: (Sim, int) -> int, ss: seq<Sim>, ess: seq<seq<Event>>, es: seq<Event>)
    requires ss != [] && AllSound(ss) && ValidRuns(ss[..|ss| - 1], ess) && ValidRun(ss[|ss| - 1], es)
    ensures var n := |ss| - 1;
      && ValidRuns(ss, ess + [es])
      && RunAll(ss, ess + [es]) == RunAll(ss[..n], ess) + [Run(ss[n], es)]
      && AddedSizes(ss, ess + [es]) == AddedSizes(ss[..n], ess) + [Added(ss[n], es)]
      && AddedRisk(risk, ss, ess + [es]) == AddedRisk(risk, ss[..n], ess) + risk(ss[n], Added(ss[n], es))
  {
    hide Run, ValidRun, Added, Sound;
    assert (ess + [es])[..|ss| - 1] == ess;
  }

  lemma {:induction false} NothingAddedAtAll(ss: seq<Sim>, ess: seq<seq<Event>>)
    requires ValidRuns(ss, ess) && forall i :: 0 <= i < |ss| ==> Added(ss[i], ess[i]) == 0
    ensures AddedRisk(WinRisk, ss, ess) == 0 && AddedRisk(LoseRisk, ss, ess) == 0
  {
    hide Added, Sound, ValidRun, WinRisk, LoseRisk;
    if ss != [] {
      var n := |ss| - 1;
      NothingAddedAtAll(ss[..n], ess[..n]);
      RiskOf(ss[n], 0);
    }
  }

  lemma {:induction false} OpenEndsAreFloors(ss: seq<Sim>)
    requires forall i :: 0 <= i < |ss| ==> Undecided(ss[i])
    ensures Sum(WinEnd, ss) == Sum(WinFloor, ss) && Sum(LoseEnd, ss) == Sum(LoseFloor, ss)
  {
    hide WinFloor, LoseFloor;
    if ss != [] { OpenEndsAreFloors(ss[..|ss| - 1]); }
  }

  /** The exposure of a selection whose orders on close are still open is no more than can be lost: it is
      zero exactly if neither reported worst case is a loss, and otherwise some run in which no cancel adds
      anything loses just that on the outcome with the worse one, up to the rounding of what is reported
      if that is a win. */
  lemma SelectionExposureIsExact(ss: seq<Sim>) returns (ess: seq<seq<Event>>)
    requires AllSound(ss) && forall i :: 0 <= i < |ss| ==> Undecided(ss[i])
    ensures ValidRuns(ss, ess) && forall i :: 0 <= i < |ss| ==> Added(ss[i], ess[i]) == 0
    ensures var exposure, e := SelectionExposure(ss), ExposuresOf(ss);
      && exposure >= 0 && (exposure == 0 <==> e.worstOnWin >= 0 && e.worstOnLose >= 0)
      && (exposure > 0 && e.worstOnLose <= e.worstOnWin ==> Sum(LoseExact, RunAll(ss, ess)) == -100 * exposure)
      && (exposure > 0 && e.worstOnWin < e.worstOnLose ==>
          var slack := Sum(Size, ss) + 200;
          -slack <= 2 * Sum(WinExact, RunAll(ss, ess)) + 200 * exposure <= slack)
  {
    hide RunAll, ExposuresOf, Sum, AddedRisk, Added, Undecided, Sound, ValidRun;
    var ks := seq(|ss|, i => 0);
    var ifWin, ifLose := WorstCaseIsExact(ss, ks);
    var e := ExposuresOf(ss);
    ess := if e.worstOnLose <= e.worstOnWin then ifLose else ifWin;
    assert forall i :: 0 <= i < |ss| ==> Added(ss[i], ess[i]) == AddedSizes(ss, ess)[i];
    NothingAddedAtAll(ss, ess);
    OpenEndsAreFloors(ss);
  }
}
