/**
 What an order can lose. Its floor on either outcome counts what is matched as it stands and what
 is not yet matched as filled whenever that hurts. A step of the exchange lowers a floor exactly if
 it is a cancel by a negative size, by what that adds, so a run settles no lower than the floor it
 started from less what its cancels added. All amounts are in hundredths of a penny.
 */
module Settlement {
  import opened Rounding
  import opened Exchange
  import opened Wap
  import opened Simulation
  import opened Fills
  import opened Accounting

  /** Exact profit of the matches if the selection wins, and if it loses. */
  function WinExact(s: Sim): int { Signed(s.side, Turnover(s.matched) - 100 * s.sizeMatched) }

  function LoseExact(s: Sim): int { Signed(s.side, -100 * s.sizeMatched) }

  function WinFloor(s: Sim): int {
    match s.otype
    case Limit(price, _, _) => WinExact(s) - if s.side.Lay? then (price - 100) * Remaining(s) else 0
    case _ => if s.side.Lay? then -100 * s.otype.liability else 0
  }

  function LoseFloor(s: Sim): int {
    match s.otype
    case Limit(_, _, _) => LoseExact(s) - if s.side.Back? then 100 * Remaining(s) else 0
    case _ => if s.side.Back? then -100 * s.otype.liability else 0
  }

  /** Twice what rounding the stake of a LAY starting price fill to the penny can add to its risk. */
  function SpSlack(s: Sim): (slack: int)
    ensures slack >= 0
  {
    if s.side.Lay? && s.bspReconciled && s.matched != [] then s.matched[|s.matched| - 1].price - 100 else 0
  }

  /** What a further size at an order's limit can lose on either outcome. */
  function WinRisk(s: Sim, size: int): int {
    if s.otype.Limit? && s.side.Lay? then (s.otype.price - 100) * size else 0
  }

  function LoseRisk(s: Sim, size: int): int {
    if s.otype.Limit? && s.side.Back? then 100 * size else 0
  }

  /** No floor is lower but for the risk of an added size. */
  ghost predicate WorseBy(s: Sim, t: Sim, added: int) {
    && 2 * WinFloor(t) + SpSlack(t) >= 2 * WinFloor(s) + SpSlack(s) - 2 * WinRisk(s, added)
    && LoseFloor(t) >= LoseFloor(s) - LoseRisk(s, added)
    && t.sizeMatched >= s.sizeMatched
  }

  ghost predicate NoWorse(s: Sim, t: Sim) {
    && 2 * WinFloor(t) + SpSlack(t) >= 2 * WinFloor(s) + SpSlack(s)
    && LoseFloor(t) >= LoseFloor(s)
    && t.sizeMatched >= s.sizeMatched
  }

  lemma FloorOfLimit(s: Sim)
    requires Sound(s) && s.otype.Limit? && !s.bspReconciled
    ensures var i, added := Initial(s.side, s.otype), Max(0, -s.cancelled);
      WinFloor(s) >= WinFloor(i) - WinRisk(s, added) && LoseFloor(s) >= LoseFloor(i) - LoseRisk(s, added)
  {
    hide Average, Turnover, NonNegative;
    AverageIsClose(s.matched);
    TurnoverAboveVolume(s.matched);
    TurnoverAtLimit(s.side, s.otype.price, s.matched);
    NothingTurnsOver();
    if s.side.Lay? {
      var added := Max(0, -s.cancelled);
      LayFloor(s.otype.price, s.sizeMatched, Remaining(s), s.otype.size + added, Turnover(s.matched));
      assert (s.otype.price - 100) * (s.otype.size + added)
          == (s.otype.price - 100) * s.otype.size + (s.otype.price - 100) * added;
    }
  }

  lemma NothingTurnsOver()
    ensures Turnover([]) == 0
  {
  }

  lemma LayFloor(p: Price, v: nat, r: nat, size: int, t: int)
    requires v + r <= size && t <= p * v
    ensures -(t - 100 * v) - (p - 100) * r >= -((p - 100) * size)
  {
    MulOrder(v + r, size, p - 100);
    assert (v + r) * (p - 100) == p * v - 100 * v + (p - 100) * r;
    assert size * (p - 100) == (p - 100) * size;
  }

  lemma PlaceNoWorse(s: Sim, v: Option<int>, bpe: bool, b: MarketBook, r: RunnerBook)
    requires Sound(s) && s == Initial(s.side, s.otype)
    ensures NoWorse(s, PlaceStep(s, v, bpe, b, r).0)
  {
    hide PlaceStep, Average;
    var t := PlaceStep(s, v, bpe, b, r).0;
    PlaceKeeps(s, v, bpe, b, r);
    AverageIsClose(t.matched);
    if s.otype.Limit? {
      FloorOfLimit(t);
    }
  }

  lemma SpNoWorse(s: Sim, time: int, sp: StartingPrice, min: int)
    requires Sound(s) && s.version.Some? && !s.bspReconciled
    ensures NoWorse(s, SpStep(s, time, sp, min).0)
  {
    var t := SpStep(s, time, sp, min).0;
    if t.matched != s.matched {
      SpFillRisk(s, time, sp, min);
      SpFillSize(s, time, sp, min);
      SpKeeps(s, time, sp, min);
      SpFillNoWorse(s, t, sp, t.sizeMatched - s.sizeMatched, time);
    } else {
      SpNoFillNoWorse(s, time, sp, min);
    }
  }

  lemma SpNoFillNoWorse(s: Sim, time: int, sp: StartingPrice, min: int)
    requires Sound(s) && !s.bspReconciled
    requires SpStep(s, time, sp, min).0.matched == s.matched
    ensures NoWorse(s, SpStep(s, time, sp, min).0)
  {
    hide Average, Turnover, NonNegative;
    if s.otype.Limit? {
      MulOrder(0, s.otype.price - 100, Remaining(s));
    }
  }

  lemma SpFillNoWorse(s: Sim, t: Sim, sp: StartingPrice, fill: int, time: int)
    requires !s.bspReconciled && t.bspReconciled && t.otype == s.otype && t.side == s.side && sp != 0
    requires fill >= 0 && t.sizeMatched == s.sizeMatched + fill
    requires s.otype.Limit? ==> Remaining(t) == 0
    requires t.matched == s.matched + [Match(time, sp, fill)]
    requires Turnover(t.matched) - Turnover(s.matched) == sp * fill
    requires s.otype.Limit? && s.side.Back? ==> fill == Remaining(s)
    requires s.otype.Limit? && s.side.Lay? ==>
      2 * (fill * (sp - 100) - (s.otype.price - 100) * Remaining(s)) <= sp - 100
    ensures NoWorse(s, t)
  {
    hide Turnover;
    MulOrder(0, fill, sp - 100);
    assert fill * (sp - 100) == sp * fill - 100 * fill;
  }

  lemma SpFillSize(s: Sim, time: int, sp: StartingPrice, min: int)
    requires Sound(s) && s.version.Some? && !s.bspReconciled
    ensures SpStep(s, time, sp, min).0.sizeMatched >= s.sizeMatched
  {
    hide Average;
    var t := SpStep(s, time, sp, min).0;
    SpKeeps(s, time, sp, min);
    if t.matched != s.matched {
      SpFillRisk(s, time, sp, min);
      assert t.matched[|t.matched| - 1] in t.matched;
    }
  }

  lemma TradeNoWorse(s: Sim, time: int, traded: seq<Level>)
    requires Sound(s) && s.otype.Limit? && s.version.Some? && Remaining(s) != 0
    ensures NoWorse(s, TradeAll(s, time, traded))
  {
    hide TradeAll, Average, Share;
    var t := TradeAll(s, time, traded);
    QueueClosedForm(s, time, traded);
    TradesFillAtTheLimit(s, time, traded);
    FillAtLimitNoWorse(s, t);
  }

  lemma FillAtLimitNoWorse(s: Sim, t: Sim)
    requires s.otype.Limit? && !s.bspReconciled && OnlyTraded(s, t)
    requires t.sizeMatched >= s.sizeMatched
    requires Turnover(t.matched) - Turnover(s.matched) == s.otype.price * (t.sizeMatched - s.sizeMatched)
    ensures NoWorse(s, t)
  {
    hide Turnover;
    var p, fill := s.otype.price, t.sizeMatched - s.sizeMatched;
    MulOrder(0, fill, p - 100);
    assert (p - 100) * (Remaining(s) - fill) == (p - 100) * Remaining(s) - (p - 100) * fill;
    assert fill * (p - 100) == p * fill - 100 * fill;
  }

  lemma CallNoWorse(s: Sim, b: MarketBook, sp: StartingPrice, traded: seq<Level>, min: int)
    requires Sound(s) && s.version.Some?
    ensures NoWorse(s, CallStep(s, b, sp, traded, min).0)
  {
    hide Average, TradeAll, SpStep, Turnover;
    if !s.bspReconciled && b.bspReconciled && TakesSp(s) {
      SpNoWorse(s, b.time, sp, min);
    } else if s.otype.Limit? && Remaining(s) != 0 {
      MulOrder(0, s.otype.price - 100, Remaining(s));
      TradeNoWorse(s.(version := Some(b.version)), b.time, traded);
    }
  }

  /** How much a step adds to what remains: a cancel by a negative size, on an open market. */
  function Adds(s: Sim, e: Event): (k: nat)
    ensures Reducing(e) ==> k == 0
  {
    if e.Cancelled? && e.reduction.Some? && e.reduction.value < 0 && e.b.status == Open && s.otype.Limit?
    then -e.reduction.value else 0
  }

  /** A cancel takes off, or adds, just its risk. */
  lemma CancelMovesFloors(s: Sim, b: MarketBook, reduction: Option<int>)
    requires Sound(s)
    ensures var (t, size) := CancelStep(s, b, reduction); var taken := if size.Some? then size.value else 0;
      && WinFloor(t) == WinFloor(s) + WinRisk(s, taken) && LoseFloor(t) == LoseFloor(s) + LoseRisk(s, taken)
      && SpSlack(t) == SpSlack(s) && t.sizeMatched == s.sizeMatched
      && (taken >= 0 <==> Adds(s, Cancelled(b, reduction)) == 0)
      && (taken < 0 ==> Adds(s, Cancelled(b, reduction)) == -taken)
  {
    hide Average, Turnover, NonNegative;
    if s.otype.Limit? {
      var p, r, taken := s.otype.price - 100, Remaining(s), Remaining(s) - Remaining(CancelStep(s, b, reduction).0);
      assert p * (r - taken) == p * r - p * taken;
    }
  }

  lemma CancelWorseBy(s: Sim, b: MarketBook, reduction: Option<int>)
    requires Sound(s)
    ensures WorseBy(s, CancelStep(s, b, reduction).0, Adds(s, Cancelled(b, reduction)))
  {
    hide CancelStep, WinFloor, LoseFloor, SpSlack, Sound, Adds;
    CancelMovesFloors(s, b, reduction);
    var size := CancelStep(s, b, reduction).1;
    RiskOf(s, if size.Some? then size.value else 0);
    RiskOf(s, Adds(s, Cancelled(b, reduction)));
  }

  /** Risk has the sign of the size, and is linear in it. */
  lemma RiskOf(s: Sim, size: int)
    ensures size >= 0 ==> WinRisk(s, size) >= 0 && LoseRisk(s, size) >= 0
    ensures size > 0 && s.otype.Limit? ==> WinRisk(s, size) > 0 || LoseRisk(s, size) > 0
    ensures WinRisk(s, -size) == -WinRisk(s, size) && LoseRisk(s, -size) == -LoseRisk(s, size)
  {
    if s.otype.Limit? {
      var p := s.otype.price - 100;
      assert p * -size == -(p * size);
      if size > 0 {
        MulOrder(1, p, size);
      }
    }
  }

  /** A step lowers a floor by no more than the risk of what it adds, and lowers one at all exactly if
      it adds something. */
  lemma StepNoWorse(s: Sim, e: Event)
    requires Sound(s) && Enabled(s, e)
    ensures WorseBy(s, Step(s, e), Adds(s, e))
    ensures NoWorse(s, Step(s, e)) <==> Adds(s, e) == 0
  {
    hide Average, CallStep, CancelStep, PlaceStep, Turnover;
    hide Sound, SoundLimit, SoundOnClose, WinFloor, LoseFloor, SpSlack;
    RiskOf(s, Adds(s, e));
    match e
    case Placed(v, bpe, b, r) => PlaceNoWorse(s, v, bpe, b, r);
    case Called(b, sp, traded, min) => CallNoWorse(s, b, sp, traded, min);
    case Cancelled(b, reduction) =>
      CancelMovesFloors(s, b, reduction);
      CancelWorseBy(s, b, reduction);
    case UpdateRequested(p) => PersistenceIsFree(s, Step(s, e));
    case Updated(b, p) => PersistenceIsFree(s, Step(s, e));
  }

  lemma PersistenceIsFree(s: Sim, t: Sim)
    requires t == s || (s.otype.Limit? && t == s.(otype := t.otype) && SameTerms(s.otype, t.otype))
    ensures WinFloor(t) == WinFloor(s) && LoseFloor(t) == LoseFloor(s) && SpSlack(t) == SpSlack(s)
  {
  }

  /** Over a run. */
  ghost function Added(s: Sim, es: seq<Event>): (k: nat)
    requires Sound(s) && ValidRun(s, es)
    ensures AllReducing(es) ==> k == 0
    decreases es
  {
    if es == [] then 0
    else
      StepKeepsSound(s, es[0]);
      assert AllReducing(es) ==> Reducing(es[0]) && AllReducing(es[1..]);
      Adds(s, es[0]) + Added(Step(s, es[0]), es[1..])
  }

  lemma {:induction false} RunWorseBy(s: Sim, es: seq<Event>)
    requires Sound(s) && ValidRun(s, es)
    ensures WorseBy(s, Run(s, es), Added(s, es))
    decreases es
  {
    hide Step, WinFloor, LoseFloor, Adds;
    if es != [] {
      var t := Step(s, es[0]);
      StepKeepsSound(s, es[0]);
      StepNoWorse(s, es[0]);
      RunWorseBy(t, es[1..]);
      RisksAdd(s, t, Adds(s, es[0]), Added(t, es[1..]));
    }
  }

  lemma RisksAdd(s: Sim, t: Sim, a: int, b: int)
    requires t.side == s.side && SameTerms(s.otype, t.otype)
    ensures WinRisk(s, a) + WinRisk(t, b) == WinRisk(s, a + b) && LoseRisk(s, a) + LoseRisk(t, b) == LoseRisk(s, a + b)
  {
    if s.otype.Limit? {
      var p := s.otype.price - 100;
      assert p * (a + b) == p * a + p * b;
    }
  }

  /** An order settles at or above its floor; only the rounded stake of a closing LAY gives way. */
  lemma SettlesAboveFloor(s: Sim)
    requires Sound(s)
    ensures LoseExact(s) >= LoseFloor(s)
    ensures s.otype.Limit? ==> WinExact(s) >= WinFloor(s)
    ensures !s.otype.Limit? ==> 2 * WinExact(s) >= 2 * WinFloor(s) - SpSlack(s)
  {
    hide Average;
    AverageIsClose(s.matched);
    if s.otype.Limit? {
      MulOrder(0, s.otype.price - 100, Remaining(s));
    } else if s.matched != [] {
      var m := s.matched[0];
      assert s.matched == [] + [m];
      Append([], m);
      assert m in s.matched;
      MulOrder(0, m.size, m.price - 100);
      assert m.size * (m.price - 100) == m.price * m.size - 100 * m.size;
    }
  }

  /** However a run of the exchange goes on from s, it settles no lower than the floor of s, less the
      risk of what its cancels added. */
  lemma RunSettlesAboveFloor(s: Sim, es: seq<Event>)
    requires Sound(s) && ValidRun(s, es)
    ensures var f := Run(s, es);
      && 2 * WinExact(f) >= 2 * WinFloor(s) - SpSlack(f) - 2 * WinRisk(s, Added(s, es))
      && LoseExact(f) >= LoseFloor(s) - LoseRisk(s, Added(s, es))
  {
    hide Run, Sound;
    var f := Run(s, es);
    RunWorseBy(s, es);
    RunKeepsTerms(s, es);
    SettlesAboveFloor(f);
  }

  /** The reported profit is the dead-heat mix of a win and a loss, to within the rounding of the
      average price and of the result; a losing selection's is exact. */
  lemma ProfitIsTheMix(s: Sim, o: Outcome)
    requires Sound(s)
    ensures o.Winner? ==>
      var n, m := if o.deadHeatWinners > 1 then o.deadHeatWinners else 1, s.sizeMatched;
      var gap := 2 * (100 * n * ProfitOf(s, o) - (WinExact(s) + (n - 1) * LoseExact(s)));
      -(100 * n + m) <= gap <= 100 * n + m
    ensures o == Loser ==> 100 * ProfitOf(s, o) == LoseExact(s)
    ensures o == Unsettled ==> ProfitOf(s, o) == 0
  {
    hide Average;
    AverageIsClose(s.matched);
    if o.Winner? {
      MixArithmetic(s.side, s.sizeMatched, s.averagePrice, Turnover(s.matched), Winners(o), ProfitOf(s, o));
    }
  }

  lemma MixArithmetic(side: Side, m: int, avg: int, t: int, n: int, profit: int)
    requires n >= 1 && -m <= 2 * (avg * m - t) <= m
    requires IsNearest(Signed(side, m * (avg - 100) - (n - 1) * (100 * m)), 100 * n, profit)
    ensures var gap := 2 * (100 * n * profit - (Signed(side, t - 100 * m) + (n - 1) * Signed(side, -100 * m)));
      -(100 * n + m) <= gap <= 100 * n + m
  {
    var x := (n - 1) * (100 * m);
    assert (n - 1) * (-100 * m) == -x;
    assert m * (avg - 100) == avg * m - 100 * m;
    assert profit * (100 * n) == 100 * n * profit;
  }
}
