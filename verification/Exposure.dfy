/**
 A selection's exposure as the blotter reports it (flumine/markets/blotter.py and the exposure
 functions of flumine/utils.py), and why it bounds every settlement.
 */
module Exposure {
  import opened Rounding
  import opened Exchange
  import opened Wap
  import opened Simulation
  import opened Accounting
  import opened Settlement

  function Sum(f: Sim -> int, ss: seq<Sim>): int {
    if ss == [] then 0 else Sum(f, ss[..|ss| - 1]) + f(ss[|ss| - 1])
  }

  lemma SumAppend(f: Sim -> int, ss: seq<Sim>, s: Sim)
    ensures Sum(f, ss + [s]) == Sum(f, ss) + f(s)
  {
    assert (ss + [s])[..|ss|] == ss;
  }

  lemma {:induction false} SumUpdate(f: Sim -> int, ss: seq<Sim>, i: nat, s: Sim)
    requires i < |ss|
    ensures Sum(f, ss[i := s]) == Sum(f, ss) - f(ss[i]) + f(s)
  {
    var n := |ss| - 1;
    if i < n {
      SumUpdate(f, ss[..n], i, s);
      assert ss[i := s][..n] == ss[..n][i := s];
    } else {
      assert ss[i := s][..n] == ss[..n];
    }
  }

  // ----- what an order contributes

  /** Profit of what is matched, at the reported average price. */
  function MatchedWin(s: Sim): int {
    if s.otype.Limit? then Signed(s.side, (s.averagePrice - 100) * s.sizeMatched) else 0
  }

  /** In pence. */
  function MatchedLose(s: Sim): int {
    if s.otype.Limit? then Signed(s.side, -s.sizeMatched) else 0
  }

  function UnmatchedWin(s: Sim): int {
    if s.otype.Limit? && s.side.Lay? then -(s.otype.price - 100) * Remaining(s) else 0
  }

  /** In pence. */
  function UnmatchedLose(s: Sim): int {
    if s.otype.Limit? && s.side.Back? then -Remaining(s) else 0
  }

  /** In pence. */
  function CloseWin(s: Sim): int {
    if !s.otype.Limit? && s.side.Lay? then -s.otype.liability else 0
  }

  /** In pence. */
  function CloseLose(s: Sim): int {
    if !s.otype.Limit? && s.side.Back? then -s.otype.liability else 0
  }

  datatype Exposures = Exposures(
    matchedIfWin: int,
    matchedIfLose: int,
    unmatchedIfWin: int,
    unmatchedIfLose: int,
    worstOnWin: int,
    worstOnLose: int)

  ghost function ExposuresOf(ss: seq<Sim>): Exposures {
    var mw, ml := RoundDiv(Sum(MatchedWin, ss), 100), Sum(MatchedLose, ss);
    var uw, ul := RoundDiv(Sum(UnmatchedWin, ss), 100), Sum(UnmatchedLose, ss);
    Exposures(mw, ml, uw, ul, mw + uw + Sum(CloseWin, ss), ml + ul + Sum(CloseLose, ss))
  }

  /** The loss on the worse outcome, zero when neither loses. */
  ghost function SelectionExposure(ss: seq<Sim>): int {
    var e := ExposuresOf(ss);
    Max(-Min(e.worstOnWin, e.worstOnLose), 0)
  }

  // ----- the computation

  /** An order as the blotter holds it. */
  datatype Entry = Entry(id: nat, violation: bool, sim: Sim)

  /** The orders that count: neither excluded nor in violation of a control. */
  function Counted(entries: seq<Entry>, exclusion: Option<nat>): seq<Sim> {
    if entries == [] then []
    else
      var init, last := Counted(entries[..|entries| - 1], exclusion), entries[|entries| - 1];
      if exclusion == Some(last.id) || last.violation then init else init + [last.sim]
  }

  type Bet = (int, int)  // (price, size)

  function Stake(bets: seq<Bet>): int {
    if bets == [] then 0 else Stake(bets[..|bets| - 1]) + bets[|bets| - 1].1
  }

  function Winnings(bets: seq<Bet>): int {
    if bets == [] then 0
    else Winnings(bets[..|bets| - 1]) + (bets[|bets| - 1].0 - 100) * bets[|bets| - 1].1
  }

  lemma BetAppend(bets: seq<Bet>, bet: Bet)
    ensures Stake(bets + [bet]) == Stake(bets) + bet.1
    ensures Winnings(bets + [bet]) == Winnings(bets) + (bet.0 - 100) * bet.1
  {
    assert (bets + [bet])[..|bets|] == bets;
  }

  method SumBets(bets: seq<Bet>) returns (stake: int, winnings: int)
    ensures stake == Stake(bets) && winnings == Winnings(bets)
  {
    stake, winnings := 0, 0;
    for i := 0 to |bets|
      invariant stake == Stake(bets[..i]) && winnings == Winnings(bets[..i])
    {
      assert bets[..i + 1][..i] == bets[..i];
      stake := stake + bets[i].1;
      winnings := winnings + (bets[i].0 - 100) * bets[i].1;
    }
    assert bets[..|bets|] == bets;
  }

  method CalculateMatchedExposure(mb: seq<Bet>, ml: seq<Bet>) returns (win: int, lose: int)
    ensures win == RoundDiv(Winnings(mb) - Winnings(ml), 100)
    ensures lose == Stake(ml) - Stake(mb)
  {
    if mb == [] && ml == [] {
      RoundKeepsBounds(0, 100, 0);
      return 0, 0;
    }
    var backStake, backProfit := SumBets(mb);
    var layStake, layProfit := SumBets(ml);
    win := Round(backProfit - layProfit, 100);
    lose := layStake - backStake;
  }

  method CalculateUnmatchedExposure(ub: seq<Bet>, ul: seq<Bet>) returns (win: int, lose: int)
    ensures win == RoundDiv(-Winnings(ul), 100)
    ensures lose == -Stake(ub)
  {
    if ub == [] && ul == [] {
      RoundKeepsBounds(0, 100, 0);
      return 0, 0;
    }
    var backStake, backProfit := SumBets(ub);
    var layStake, layProfit := SumBets(ul);
    win := Round(-layProfit, 100);
    lose := -backStake;
  }

  method GetExposures(entries: seq<Entry>, exclusion: Option<nat>) returns (r: Exposures)
    ensures r == ExposuresOf(Counted(entries, exclusion))
  {
    hide Sum, Winnings, Stake;
    GatherNone();
    var mb: seq<Bet>, ml: seq<Bet>, ub: seq<Bet>, ul: seq<Bet> := [], [], [], [];
    var closeWin, closeLose := 0, 0;
    for i := 0 to |entries|
      invariant Gathered(Counted(entries[..i], exclusion), mb, ml, ub, ul, closeWin, closeLose)
    {
      var e := entries[i];
      assert entries[..i + 1][..i] == entries[..i];
      if exclusion == Some(e.id) || e.violation {
        continue;
      }
      var s := e.sim;
      ghost var sofar := Counted(entries[..i], exclusion);
      GatherOne(sofar, s, mb, ml, ub, ul, closeWin, closeLose);
      match s.otype {
        case Limit(price, _, _) =>
          if s.sizeMatched != 0 {
            if s.side == Back {
              mb := mb + [(s.averagePrice, s.sizeMatched)];
            } else {
              ml := ml + [(s.averagePrice, s.sizeMatched)];
            }
          }
          var remaining := Remaining(s);
          if remaining != 0 {
            if s.side == Back {
              ub := ub + [(price as int, remaining)];
            } else {
              ul := ul + [(price as int, remaining)];
            }
          }
        case _ =>
          if s.side == Back {
            closeLose := closeLose - s.otype.liability;
          } else {
            closeWin := closeWin - s.otype.liability;
          }
      }
    }
    assert entries[..|entries|] == entries;
    var matchedWin, matchedLose := CalculateMatchedExposure(mb, ml);
    var unmatchedWin, unmatchedLose := CalculateUnmatchedExposure(ub, ul);
    r := Exposures(matchedWin, matchedLose, unmatchedWin, unmatchedLose,
                   matchedWin + unmatchedWin + closeWin, matchedLose + unmatchedLose + closeLose);
  }

  /** `selection_exposure`: the least that is not negative and covers what either outcome can lose. */
  method GetSelectionExposure(entries: seq<Entry>) returns (exposure: int)
    ensures var e := ExposuresOf(Counted(entries, None));
      && exposure >= 0 && exposure >= -e.worstOnWin && exposure >= -e.worstOnLose
      && (exposure == 0 || exposure == -e.worstOnWin || exposure == -e.worstOnLose)
    ensures exposure == SelectionExposure(Counted(entries, None))
  {
    var e := GetExposures(entries, None);
    exposure := -Min(e.worstOnWin, e.worstOnLose);
    exposure := Max(exposure, 0);
  }

  /** The lists and liabilities stand for the orders they were gathered from. */
  ghost predicate Gathered(ss: seq<Sim>, mb: seq<Bet>, ml: seq<Bet>, ub: seq<Bet>, ul: seq<Bet>,
                           closeWin: int, closeLose: int)
  {
    && Winnings(mb) - Winnings(ml) == Sum(MatchedWin, ss) && Stake(ml) - Stake(mb) == Sum(MatchedLose, ss)
    && -Winnings(ul) == Sum(UnmatchedWin, ss) && -Stake(ub) == Sum(UnmatchedLose, ss)
    && closeWin == Sum(CloseWin, ss) && closeLose == Sum(CloseLose, ss)
  }

  lemma GatherNone()
    ensures Gathered([], [], [], [], [], 0, 0)
  {
  }

  lemma GatherOne(ss: seq<Sim>, s: Sim, mb: seq<Bet>, ml: seq<Bet>, ub: seq<Bet>, ul: seq<Bet>,
                  closeWin: int, closeLose: int)
    requires Gathered(ss, mb, ml, ub, ul, closeWin, closeLose)
    ensures var m, back, lay := s.otype.Limit? && s.sizeMatched != 0, s.side.Back?, s.side.Lay?;
      var u, c := s.otype.Limit? && Remaining(s) != 0, !s.otype.Limit?;
      var matched: Bet := (s.averagePrice, s.sizeMatched);
      var unmatched: Bet := (if s.otype.Limit? then s.otype.price else 0, Remaining(s));
      Gathered(ss + [s],
        if m && back then mb + [matched] else mb, if m && lay then ml + [matched] else ml,
        if u && back then ub + [unmatched] else ub, if u && lay then ul + [unmatched] else ul,
        closeWin - (if c && lay then s.otype.liability else 0),
        closeLose - (if c && back then s.otype.liability else 0))
  {
    hide Sum, Winnings, Stake;
    SumAppend(MatchedWin, ss, s);
    SumAppend(MatchedLose, ss, s);
    SumAppend(UnmatchedWin, ss, s);
    SumAppend(UnmatchedLose, ss, s);
    SumAppend(CloseWin, ss, s);
    SumAppend(CloseLose, ss, s);
    var matched: Bet := (s.averagePrice, s.sizeMatched);
    var unmatched: Bet := (if s.otype.Limit? then s.otype.price else 0, Remaining(s));
    BetAppend(mb, matched);
    BetAppend(ml, matched);
    BetAppend(ub, unmatched);
    BetAppend(ul, unmatched);
  }

  // ----- the reported exposure against the exact floors

  ghost predicate AllSound(ss: seq<Sim>) { forall i :: 0 <= i < |ss| ==> Sound(ss[i]) }

  function Size(s: Sim): int { s.sizeMatched }

  lemma {:induction false} FloorsAreSums(ss: seq<Sim>)
    requires AllSound(ss)
    ensures 100 * (Sum(MatchedLose, ss) + Sum(UnmatchedLose, ss) + Sum(CloseLose, ss)) == Sum(LoseFloor, ss)
    ensures Sum(Size, ss) >= 0
    ensures var reported := Sum(MatchedWin, ss) + Sum(UnmatchedWin, ss) + 100 * Sum(CloseWin, ss);
      -Sum(Size, ss) <= 2 * (reported - Sum(WinFloor, ss)) <= Sum(Size, ss)
  {
    if ss != [] {
      FloorsAreSums(ss[..|ss| - 1]);
      FloorIsSum(ss[|ss| - 1]);
    }
  }

  lemma FloorIsSum(s: Sim)
    requires Sound(s)
    ensures 100 * (MatchedLose(s) + UnmatchedLose(s) + CloseLose(s)) == LoseFloor(s)
    ensures Size(s) >= 0
    ensures -Size(s) <= 2 * (MatchedWin(s) + UnmatchedWin(s) + 100 * CloseWin(s) - WinFloor(s)) <= Size(s)
  {
    hide Average;
    AverageIsClose(s.matched);
    assert (s.averagePrice - 100) * s.sizeMatched == s.averagePrice * s.sizeMatched - 100 * s.sizeMatched;
    if s.otype.Limit? {
      assert -(s.otype.price - 100) * Remaining(s) == -((s.otype.price - 100) * Remaining(s));
    }
  }

  /** The reported worst case on a loss is the exact floor; on a win it is off by no more than the
      rounding of the average prices and of two sums. */
  lemma ExposuresAreFloors(ss: seq<Sim>)
    requires AllSound(ss)
    ensures 100 * ExposuresOf(ss).worstOnLose == Sum(LoseFloor, ss)
    ensures var slack := Sum(Size, ss) + 200;
      -slack <= 200 * ExposuresOf(ss).worstOnWin - 2 * Sum(WinFloor, ss) <= slack
  {
    FloorsAreSums(ss);
  }

  /** What the orders at a limit have matched, and what of them can still hurt. */
  function LimitWin(s: Sim): int { if s.otype.Limit? then WinExact(s) else 0 }

  function LimitLose(s: Sim): int { if s.otype.Limit? then LoseExact(s) else 0 }

  /** The other reported figures: the matched ones are the exact profit of the orders at a limit, rounded
      on a win, and the unmatched ones are what the floors add to that but for orders on close. */
  lemma ReportedParts(ss: seq<Sim>)
    requires AllSound(ss)
    ensures var e := ExposuresOf(ss);
      && 100 * e.matchedIfLose == Sum(LimitLose, ss)
      && 100 * (e.matchedIfLose + e.unmatchedIfLose + Sum(CloseLose, ss)) == Sum(LoseFloor, ss)
      && -Sum(Size, ss) - 100 <= 200 * e.matchedIfWin - 2 * Sum(LimitWin, ss) <= Sum(Size, ss) + 100
      && e.worstOnWin == e.matchedIfWin + e.unmatchedIfWin + Sum(CloseWin, ss)
      && e.worstOnLose == e.matchedIfLose + e.unmatchedIfLose + Sum(CloseLose, ss)
  {
    FloorsAreSums(ss);
    MatchedSums(ss);
  }

  lemma {:induction false} MatchedSums(ss: seq<Sim>)
    requires AllSound(ss)
    ensures 100 * Sum(MatchedLose, ss) == Sum(LimitLose, ss)
    ensures -Sum(Size, ss) <= 2 * Sum(MatchedWin, ss) - 2 * Sum(LimitWin, ss) <= Sum(Size, ss)
  {
    hide Average, Turnover;
    if ss != [] {
      var s := ss[|ss| - 1];
      MatchedSums(ss[..|ss| - 1]);
      AverageIsClose(s.matched);
      assert (s.averagePrice - 100) * s.sizeMatched == s.averagePrice * s.sizeMatched - 100 * s.sizeMatched;
    }
  }

  // ----- runs of all orders of a selection

  /** Any run of the exchange for each order. */
  ghost predicate ValidRuns(ss: seq<Sim>, ess: seq<seq<Event>>) {
    |ess| == |ss| && AllSound(ss) && forall i :: 0 <= i < |ss| ==> ValidRun(ss[i], ess[i])
  }

  /** The risk of what cancels by a negative size add over the runs. */
  ghost function AddedRisk(risk: (Sim, int) -> int, ss: seq<Sim>, ess: seq<seq<Event>>): int
    requires ValidRuns(ss, ess)
  {
    if ss == [] then 0
    else
      var n := |ss| - 1;
      AddedRisk(risk, ss[..n], ess[..n]) + risk(ss[n], Added(ss[n], ess[n]))
  }

  /** On the worse outcome. */
  ghost function AddedLoss(ss: seq<Sim>, ess: seq<seq<Event>>): int
    requires ValidRuns(ss, ess)
  {
    Max(AddedRisk(WinRisk, ss, ess), AddedRisk(LoseRisk, ss, ess))
  }

  lemma {:induction false} AddedRiskIsNatural(ss: seq<Sim>, ess: seq<seq<Event>>)
    requires ValidRuns(ss, ess)
    ensures AddedRisk(WinRisk, ss, ess) >= 0 && AddedRisk(LoseRisk, ss, ess) >= 0
    ensures (forall es :: es in ess ==> AllReducing(es)) ==> AddedLoss(ss, ess) == 0
  {
    hide Added, Sound, ValidRun, AllReducing, WinRisk, LoseRisk;
    if ss != [] {
      var n := |ss| - 1;
      AddedRiskIsNatural(ss[..n], ess[..n]);
      RiskOf(ss[n], Added(ss[n], ess[n]));
      RiskOf(ss[n], 0);
      assert ess[n] in ess;
    }
  }

  ghost function RunAll(ss: seq<Sim>, ess: seq<seq<Event>>): (fs: seq<Sim>)
    requires ValidRuns(ss, ess)
    ensures |fs| == |ss| && AllSound(fs)
    ensures forall i :: 0 <= i < |ss| ==> fs[i] == Run(ss[i], ess[i])
  {
    seq(|ss|, i requires 0 <= i < |ss| => Run(ss[i], ess[i]))
  }

  lemma {:induction false} RunsSettleAboveFloors(ss: seq<Sim>, ess: seq<seq<Event>>)
    requires ValidRuns(ss, ess)
    ensures var fs := RunAll(ss, ess);
      && 2 * Sum(WinExact, fs) >= 2 * Sum(WinFloor, ss) - Sum(SpSlack, fs) - 2 * AddedRisk(WinRisk, ss, ess)
      && Sum(LoseExact, fs) >= Sum(LoseFloor, ss) - AddedRisk(LoseRisk, ss, ess)
  {
    hide Run, WinExact, WinFloor, LoseExact, LoseFloor, SpSlack, WinRisk, LoseRisk, Added;
    var n := |ss| - 1;
    if ss != [] {
      RunsSettleAboveFloors(ss[..n], ess[..n]);
      RunSettlesAboveFloor(ss[n], ess[n]);
      assert RunAll(ss, ess)[..n] == RunAll(ss[..n], ess[..n]);
    }
  }

  /** What the exact floors leave to lose on the worse outcome, in hundredths of a penny. */
  function ExactExposure(ss: seq<Sim>): int {
    Max(-Min(Sum(WinFloor, ss), Sum(LoseFloor, ss)), 0)
  }

  /** Exact profit times the number of winners n: one win and n - 1 losses. */
  function Mix(ss: seq<Sim>, n: int): int {
    Sum(WinExact, ss) + (n - 1) * Sum(LoseExact, ss)
  }

  /** Before anything reported is rounded the exposure and what cancels add to it bound the settlement
      without slack, for any number of winners and on a loss, but for the stakes of LAY starting price
      fills. */
  lemma ExactExposureBoundsSettlement(ss: seq<Sim>, ess: seq<seq<Event>>, n: int)
    requires ValidRuns(ss, ess) && n >= 1
    ensures var fs, loss := RunAll(ss, ess), ExactExposure(ss) + AddedLoss(ss, ess);
      && 2 * Mix(fs, n) >= -2 * n * loss - Sum(SpSlack, fs)
      && Sum(LoseExact, fs) >= -loss
    ensures (forall es :: es in ess ==> AllReducing(es)) ==> AddedLoss(ss, ess) == 0
  {
    hide Sum, RunAll, AddedRisk, AllReducing;
    var fs, e := RunAll(ss, ess), ExactExposure(ss) + AddedLoss(ss, ess);
    AddedRiskIsNatural(ss, ess);
    RunsSettleAboveFloors(ss, ess);
    MixAbove(Sum(WinExact, fs), Sum(LoseExact, fs), e, Sum(SpSlack, fs), n);
  }

  lemma MixAbove(win: int, lose: int, e: int, slack: int, n: int)
    requires 2 * win >= -2 * e - slack && lose >= -e && n >= 1
    ensures 2 * (win + (n - 1) * lose) >= -2 * n * e - slack
  {
    MulOrder(-e, lose, n - 1);
    assert -e * (n - 1) == e - n * e;
    assert lose * (n - 1) == (n - 1) * lose;
    assert -2 * n * e == -2 * (n * e);
  }

  ghost function TotalProfit(ss: seq<Sim>, o: Outcome): int {
    Sum(s => ProfitOf(s, o), ss)
  }

  lemma {:induction false} ProfitsAreTheMix(ss: seq<Sim>, o: Outcome)
    requires AllSound(ss)
    ensures o.Winner? ==>
      var n, rounding := Winners(o), Sum(Size, ss) + 100 * Winners(o) * |ss|;
      200 * n * TotalProfit(ss, o) >= 2 * Sum(WinExact, ss) + 2 * (n - 1) * Sum(LoseExact, ss) - rounding
    ensures o == Loser ==> 100 * TotalProfit(ss, o) == Sum(LoseExact, ss)
  {
    hide ProfitOf, WinExact, LoseExact;
    if ss != [] {
      var k := |ss| - 1;
      var s := ss[k];
      ProfitsAreTheMix(ss[..k], o);
      ProfitIsTheMix(s, o);
      assert TotalProfit(ss, o) == TotalProfit(ss[..k], o) + ProfitOf(s, o);
      if o.Winner? {
        MixAdds(Winners(o), TotalProfit(ss[..k], o), ProfitOf(s, o), Sum(LoseExact, ss[..k]), LoseExact(s), k);
      }
    }
  }

  lemma MixAdds(n: int, p: int, q: int, l: int, m: int, k: int)
    ensures 200 * n * (p + q) == 200 * n * p + 2 * (100 * n * q)
    ensures 2 * (n - 1) * (l + m) == 2 * (n - 1) * l + 2 * ((n - 1) * m)
    ensures 100 * n * (k + 1) == 100 * n * k + 100 * n
  {
  }

  /** Everything rounding can cost between an exposure and a settlement, in half hundredths of a
      penny: both average prices, LAY starting price stakes, each reported profit, two sums. */
  function Slack(ss: seq<Sim>, fs: seq<Sim>): int {
    Sum(Size, ss) + Sum(Size, fs) + Sum(SpSlack, fs) + 100 * |fs| + 200
  }

  /** Whatever the exchange does to a selection's orders after its exposure was computed, they lose
      no more than that exposure and the risk of what cancels added to it, nothing where no reduction is
      negative: exactly so if the selection loses, up to rounding if it wins, alone or in a dead heat of
      any number. */
  lemma ExposureBoundsSettlement(ss: seq<Sim>, ess: seq<seq<Event>>, o: Outcome)
    requires ValidRuns(ss, ess)
    ensures var fs, loss := RunAll(ss, ess), 100 * SelectionExposure(ss) + AddedLoss(ss, ess);
      && (o == Loser ==> 100 * TotalProfit(fs, o) >= -loss)
      && (o.Winner? ==> 200 * TotalProfit(fs, o) >= -2 * loss - Slack(ss, fs))
    ensures (forall es :: es in ess ==> AllReducing(es)) ==> AddedLoss(ss, ess) == 0
  {
    hide Sum, RunAll, TotalProfit, AddedRisk, AllReducing;
    var fs, loss := RunAll(ss, ess), 100 * SelectionExposure(ss) + AddedLoss(ss, ess);
    AddedRiskIsNatural(ss, ess);
    RunsSettleAboveFloors(ss, ess);
    ExposuresAreFloors(ss);
    ProfitsAreTheMix(fs, o);
    if o.Winner? {
      FloorsAreSums(ss);
      FloorsAreSums(fs);
      SumIsNatural(fs);
      SettlementArithmetic(Winners(o), |fs|, TotalProfit(fs, o), loss, Sum(WinExact, fs),
        Sum(LoseExact, fs), Sum(Size, ss), Sum(Size, fs), Sum(SpSlack, fs));
    }
  }

  lemma {:induction false} SumIsNatural(ss: seq<Sim>)
    ensures Sum(SpSlack, ss) >= 0
  {
    if ss != [] { SumIsNatural(ss[..|ss| - 1]); }
  }

  lemma SettlementArithmetic(n: int, k: nat, profit: int, loss: int, win: int, lose: int, m0: nat, m1: nat, sp: nat)
    requires n >= 1
    requires 200 * n * profit >= 2 * win + 2 * (n - 1) * lose - m1 - 100 * n * k
    requires 2 * win >= -2 * loss - m0 - 200 - sp
    requires lose >= -loss
    ensures 200 * profit >= -2 * loss - (m0 + m1 + sp + 100 * k + 200)
  {
    var rest := m0 + m1 + sp + 200;
    MulOrder(-loss, lose, n - 1);
    assert 2 * (n - 1) * lose == 2 * (lose * (n - 1));
    assert -loss * (n - 1) == loss - loss * n;
    MulOrder(1, n, rest);
    var total := 200 * profit + 2 * loss + rest + 100 * k;
    assert n * total == 200 * n * profit + 2 * (loss * n) + rest * n + 100 * n * k;
    if total < 0 {
      MulOrder(total, -1, n);
    }
  }
}
