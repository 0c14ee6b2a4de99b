/** The weighted average price of a list of matches. */
module Wap {
  import opened Rounding
  import opened Exchange

  /** Total size matched. */
  function Volume(ms: seq<Match>): int {
    if ms == [] then 0 else Volume(ms[..|ms| - 1]) + ms[|ms| - 1].size
  }

  /** Total price * size matched. */
  function Turnover(ms: seq<Match>): int {
    if ms == [] then 0
    else Turnover(ms[..|ms| - 1]) + ms[|ms| - 1].price * ms[|ms| - 1].size
  }

  lemma Append(ms: seq<Match>, m: Match)
    ensures Volume(ms + [m]) == Volume(ms) + m.size
    ensures Turnover(ms + [m]) == Turnover(ms) + m.price * m.size
  {
    assert (ms + [m])[..|ms|] == ms;
  }

  /** Size and rounded average price; a list that totals nothing has neither. */
  ghost function Average(ms: seq<Match>): (int, int) {
    var a, b := Turnover(ms), Volume(ms);
    if b == 0 || a == 0 then (0, 0)
    else (b, if b > 0 then RoundDiv(a, b) else RoundDiv(-a, -b))
  }

  method ComputeAverage(ms: seq<Match>) returns (size: int, price: int)
    ensures (size, price) == Average(ms)
  {
    var a, b := 0, 0;
    for i := 0 to |ms|
      invariant a == Turnover(ms[..i]) && b == Volume(ms[..i])
    {
      assert ms[..i + 1][..i] == ms[..i];
      a := a + ms[i].price * ms[i].size;
      b := b + ms[i].size;
    }
    assert ms[..|ms|] == ms;
    if b == 0 || a == 0 {
      return 0, 0;
    }
    size := b;
    if b > 0 {
      price := Round(a, b);
    } else {
      price := Round(-a, -b);
    }
  }

  /** Every match has a size that is not negative. */
  ghost predicate NonNegative(ms: seq<Match>) {
    forall m :: m in ms ==> m.size >= 0
  }

  lemma {:induction false} TurnoverAboveVolume(ms: seq<Match>)
    requires NonNegative(ms)
    ensures 0 <= Volume(ms)
    ensures 100 * Volume(ms) <= Turnover(ms)
    ensures Volume(ms) > 0 ==> 100 * Volume(ms) < Turnover(ms)
  {
    if ms != [] {
      var init, last := ms[..|ms| - 1], ms[|ms| - 1];
      assert last in ms;
      TurnoverAboveVolume(init);
      MulOrder(101, last.price, last.size);
    }
  }

  /** On sizes that are not negative the reported size is the exact total, and the reported price
      is off by at most half a hundredth. */
  lemma AverageIsClose(ms: seq<Match>)
    requires NonNegative(ms)
    ensures Average(ms).0 == Volume(ms) >= 0
    ensures -Volume(ms) <= 2 * (Average(ms).1 * Volume(ms) - Turnover(ms)) <= Volume(ms)
    ensures Volume(ms) > 0 ==> 100 <= Average(ms).1
  {
    TurnoverAboveVolume(ms);
    if Volume(ms) > 0 {
      RoundKeepsBounds(Turnover(ms), Volume(ms), 100);
    }
  }

  /** p is at the limit or better for the side. */
  predicate AtLimitOrBetter(side: Side, limit: int, p: int) {
    if side.Back? then p >= limit else p <= limit
  }

  lemma {:induction false} TurnoverAtLimit(side: Side, limit: int, ms: seq<Match>)
    requires NonNegative(ms)
    requires forall m :: m in ms ==> AtLimitOrBetter(side, limit, m.price)
    ensures if side.Back? then Turnover(ms) >= limit * Volume(ms) else Turnover(ms) <= limit * Volume(ms)
  {
    if ms != [] {
      var init, last := ms[..|ms| - 1], ms[|ms| - 1];
      assert last in ms;
      TurnoverAtLimit(side, limit, init);
      if side.Back? {
        MulOrder(limit, last.price, last.size);
      } else {
        MulOrder(last.price, limit, last.size);
      }
    }
  }

  /** If every match honours a limit, so does the average, even after rounding. */
  lemma AverageHonoursLimit(side: Side, limit: int, ms: seq<Match>)
    requires NonNegative(ms) && Volume(ms) > 0
    requires forall m :: m in ms ==> AtLimitOrBetter(side, limit, m.price)
    ensures AtLimitOrBetter(side, limit, Average(ms).1)
  {
    TurnoverAboveVolume(ms);
    TurnoverAtLimit(side, limit, ms);
    RoundKeepsBounds(Turnover(ms), Volume(ms), limit);
  }
}
