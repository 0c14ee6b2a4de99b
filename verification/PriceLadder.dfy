/** The exchange's price ladder (flumine/utils.py): its construction and rounding onto it. */
module PriceLadder {
  import opened Exchange

  /** Below its cutoff a band's prices are the multiples of its tick, in hundredths. */
  datatype Band = Band(cutoff: int, tick: int)

  datatype Table = Table(min: int, bands: seq<Band>)

  predicate IsMultiple(v: int, tick: int)
    requires tick > 0
  {
    v % tick == 0
  }

  /** Cutoffs increase from the minimum and are multiples of the ticks on both sides. */
  ghost predicate Valid(t: Table) {
    && t.bands != []
    && forall i :: 0 <= i < |t.bands| ==>
      && t.bands[i].tick > 0 && Lower(t, i) < t.bands[i].cutoff
      && IsMultiple(Lower(t, i), t.bands[i].tick) && IsMultiple(t.bands[i].cutoff, t.bands[i].tick)
  }

  /** Where band i begins. */
  function Lower(t: Table, i: int): int
    requires 0 <= i < |t.bands|
  {
    if i == 0 then t.min else t.bands[i - 1].cutoff
  }

  function Top(t: Table): int
    requires t.bands != []
  {
    t.bands[|t.bands| - 1].cutoff
  }

  predicate InBand(t: Table, i: int, v: int)
    requires 0 <= i < |t.bands| && t.bands[i].tick > 0
  {
    Lower(t, i) <= v < t.bands[i].cutoff && IsMultiple(v, t.bands[i].tick)
  }

  /** The ladder: the tick multiples of every band, and the maximum price. */
  ghost predicate OnLadder(t: Table, v: int)
    requires Valid(t)
  {
    v == Top(t) || OnBands(t, v)
  }

  ghost predicate OnBands(t: Table, v: int)
    requires Valid(t)
  {
    exists i :: 0 <= i < |t.bands| && InBand(t, i, v)
  }

  const CUTOFFS := [
    Band(200, 1), Band(300, 2), Band(400, 5), Band(600, 10), Band(1000, 20),
    Band(2000, 50), Band(3000, 100), Band(5000, 200), Band(10000, 500), Band(100000, 1000)]
  const MIN_PRICE := 101
  const MAX_PRICE := 100000

  /** The exchange's own table ends at the prices the code clamps at. */
  lemma OwnTableIsValid()
    ensures var t := Table(MIN_PRICE, CUTOFFS);
      Valid(t) && Top(t) == MAX_PRICE && OnLadder(t, MIN_PRICE) && OnLadder(t, MAX_PRICE)
  {
    assert InBand(Table(MIN_PRICE, CUTOFFS), 0, MIN_PRICE);
  }

  /** The own table's bands, in hundredths. */
  predicate InOwnBand(i: int, v: int) {
    match i
    case 0 => 101 <= v < 200
    case 1 => 200 <= v < 300 && v % 2 == 0
    case 2 => 300 <= v < 400 && v % 5 == 0
    case 3 => 400 <= v < 600 && v % 10 == 0
    case 4 => 600 <= v < 1000 && v % 20 == 0
    case 5 => 1000 <= v < 2000 && v % 50 == 0
    case 6 => 2000 <= v < 3000 && v % 100 == 0
    case 7 => 3000 <= v < 5000 && v % 200 == 0
    case 8 => 5000 <= v < 10000 && v % 500 == 0
    case 9 => 10000 <= v < 100000 && v % 1000 == 0
    case _ => false
  }

  /** The ladder of the own table, written out: steps of a penny up to 2.00, of two up to 3.00, and so on up
      to steps of 10.00 below 1000, and 1000. */
  lemma OwnLadder(v: int)
    ensures Valid(Table(MIN_PRICE, CUTOFFS))
    ensures OnLadder(Table(MIN_PRICE, CUTOFFS), v) <==> v == 100000 || exists i :: InOwnBand(i, v)
  {
    hide InBand, InOwnBand;
    OwnTableIsValid();
    var t := Table(MIN_PRICE, CUTOFFS);
    forall i ensures InOwnBand(i, v) <==> 0 <= i < 10 && InBand(t, i, v) {
      OwnBand(i, v);
    }
  }

  lemma OwnBand(i: int, v: int)
    ensures var t := Table(MIN_PRICE, CUTOFFS);
      InOwnBand(i, v) <==> 0 <= i < |t.bands| && t.bands[i].tick > 0 && InBand(t, i, v)
  {
  }

  ghost predicate Increasing(s: seq<int>) {
    forall i, j :: 0 <= i < j < |s| ==> s[i] < s[j]
  }

  lemma IncreasingAppend(a: seq<int>, b: seq<int>)
    requires Increasing(a) && Increasing(b)
    requires forall x, y :: x in a && y in b ==> x < y
    ensures Increasing(a + b)
  {
    forall i, j | 0 <= i < j < |a + b| ensures (a + b)[i] < (a + b)[j] {
      if i < |a| <= j {
        assert a[i] in a && b[j - |a|] in b;
      }
    }
  }

  method Arange(start: int, stop: int, step: int) returns (r: seq<int>)
    requires step > 0 && IsMultiple(start, step)
    ensures Increasing(r)
    ensures forall v :: v in r <==> start <= v < stop && IsMultiple(v, step)
  {
    hide IsMultiple;
    r := [];
    var cursor := start;
    while cursor < stop
      invariant start <= cursor && IsMultiple(cursor, step)
      invariant Increasing(r)
      invariant forall v :: v in r <==> start <= v < stop && v < cursor && IsMultiple(v, step)
    {
      NextMultiple(cursor, step);
      IncreasingAppend(r, [cursor]);
      r := r + [cursor];
      cursor := cursor + step;
    }
  }

  lemma NextMultiple(cursor: int, step: int)
    requires step > 0 && IsMultiple(cursor, step)
    ensures IsMultiple(cursor + step, step)
    ensures forall v :: cursor < v < cursor + step ==> !IsMultiple(v, step)
  {
    var q := cursor / step;
    assert (q + 1) * step == q * step + step;
    ProductIsMultiple(q + 1, step);
    forall v | cursor < v < cursor + step ensures !IsMultiple(v, step) {
      var k := v / step;
      assert v == k * step + v % step;
      NoMultipleBetween(q, k, step);
    }
  }

  lemma ProductIsMultiple(k: int, t: int)
    requires t > 0
    ensures IsMultiple(k * t, t)
  {
    var r, d := (k * t) % t, (k * t) / t;
    assert (k - d) * t == r;
    assert (k - d - 1) * t == (k - d) * t - t;
    assert (d - k - 1) * t == -((k - d) * t) - t;
    if k - d >= 1 {
      MulNatural(k - d - 1, t);
    } else if k - d <= -1 {
      MulNatural(d - k - 1, t);
    }
  }

  lemma MulNatural(a: int, b: int)
    requires a >= 0 && b >= 0
    ensures a * b >= 0
  {
  }

  lemma NoMultipleBetween(q: int, k: int, t: int)
    requires t > 0
    ensures !(q * t < k * t < (q + 1) * t)
  {
    if k <= q {
      MulNatural(q - k, t);
      assert (q - k) * t == q * t - k * t;
    } else {
      MulNatural(k - q - 1, t);
      assert (k - q - 1) * t == k * t - (q + 1) * t;
    }
  }

  /** `make_prices` lists the tick multiples of every band in increasing order and without omissions,
      and then the maximum price whatever the table: the whole is increasing exactly when that lies
      above them, and the ladder when the table ends there. */
  method MakePrices(t: Table, max: int) returns (prices: seq<int>, ghost bands: seq<int>)
    requires Valid(t)
    ensures prices == bands + [max]
    ensures Increasing(bands) && forall v :: v in bands <==> OnBands(t, v)
    ensures Increasing(prices) <==> forall v :: v in bands ==> v < max
    ensures max == Top(t) ==> Increasing(prices) && forall v :: v in prices <==> OnLadder(t, v)
  {
    hide IsMultiple, InBand;
    prices := [];
    var cursor := t.min;
    for i := 0 to |t.bands|
      invariant cursor == if i == 0 then t.min else t.bands[i - 1].cutoff
      invariant Increasing(prices)
      invariant forall v :: v in prices ==> v < cursor
      invariant forall v :: v in prices <==> exists j :: 0 <= j < i && InBand(t, j, v)
    {
      var r := Arange(cursor, t.bands[i].cutoff, t.bands[i].tick);
      assert forall v :: v in r <==> InBand(t, i, v) by { BandIs(t, i); }
      IncreasingAppend(prices, r);
      prices := prices + r;
      cursor := t.bands[i].cutoff;
    }
    bands := prices;
    prices := prices + [max];
    LastIsAbove(bands, max);
  }

  lemma BandIs(t: Table, i: int)
    requires Valid(t) && 0 <= i < |t.bands|
    ensures forall v :: InBand(t, i, v) <==> Lower(t, i) <= v < t.bands[i].cutoff && IsMultiple(v, t.bands[i].tick)
  {
  }

  lemma LastIsAbove(s: seq<int>, max: int)
    requires Increasing(s)
    ensures Increasing(s + [max]) <==> forall v :: v in s ==> v < max
  {
    if forall v :: v in s ==> v < max {
      IncreasingAppend(s, [max]);
    }
    if Increasing(s + [max]) {
      forall v | v in s ensures v < max {
        var j :| 0 <= j < |s| && s[j] == v;
        assert (s + [max])[j] < (s + [max])[|s|];
      }
    }
  }

  // ----- rounding to the nearest price

  /** The first band whose cutoff is above the price, else the last one. */
  function BandFor(t: Table, price: real): (i: int)
    requires t.bands != []
    ensures 0 <= i < |t.bands|
    ensures forall j :: 0 <= j < i ==> t.bands[j].cutoff as real <= price
    ensures i < |t.bands| - 1 ==> price < t.bands[i].cutoff as real
  {
    BandFrom(t, price, 0)
  }

  function BandFrom(t: Table, price: real, k: int): (i: int)
    requires 0 <= k < |t.bands|
    ensures k <= i < |t.bands|
    ensures forall j :: k <= j < i ==> t.bands[j].cutoff as real <= price
    ensures i < |t.bands| - 1 ==> price < t.bands[i].cutoff as real
    decreases |t.bands| - k
  {
    if price < t.bands[k].cutoff as real || k == |t.bands| - 1 then k else BandFrom(t, price, k + 1)
  }

  /** To the nearest multiple, halves up. */
  function ToMultiple(price: real, tick: int): int
    requires tick > 0
  {
    (price / tick as real + 0.5).Floor * tick
  }

  /** `get_nearest_price`: the code clamps at its own lowest and highest price, whatever the table. */
  function NearestPrice(t: Table, lo: int, hi: int, price: real): int
    requires Valid(t)
  {
    if price <= lo as real then lo
    else if price > hi as real then hi
    else ToMultiple(price, t.bands[BandFor(t, price)].tick)
  }

  lemma MultipleIsNear(price: real, tick: int)
    requires tick > 0
    ensures var n, r := ToMultiple(price, tick), tick as real;
      IsMultiple(n, tick) && 2.0 * (n as real) - r <= 2.0 * price && 2.0 * price < 2.0 * (n as real) + r
  {
    var x, r := price / tick as real, tick as real;
    var k := (x + 0.5).Floor;
    var n := ToMultiple(price, tick);
    assert n == k * tick;
    assert n as real == k as real * r;
    ScaleFloor(x, r, k as real, price, n as real);
    ProductIsMultiple(k, tick);
  }

  lemma ScaleFloor(x: real, r: real, k: real, xr: real, kr: real)
    requires r > 0.0 && k <= x + 0.5 < k + 1.0
    requires xr == x * r && kr == k * r
    ensures 2.0 * kr - r <= 2.0 * xr && 2.0 * xr < 2.0 * kr + r
  {
    var below, above := x - (k - 0.5), (k + 0.5) - x;
    Positive(below, r, below * r);
    Positive(above, r, above * r);
    assert below * r == xr - kr + 0.5 * r;
    assert above * r == kr + 0.5 * r - xr;
  }

  lemma Positive(a: real, b: real, ab: real)
    requires a >= 0.0 && b > 0.0 && ab == a * b
    ensures ab >= 0.0 && (a > 0.0 ==> ab > 0.0)
  {
  }

  /** Distinct multiples are a tick apart, so a near one stays within bounds that are multiples. */
  lemma MultiplesApart(a: int, b: int, tick: int)
    requires tick > 0 && IsMultiple(a, tick) && IsMultiple(b, tick) && a < b
    ensures a + tick <= b
  {
    var i, j := a / tick, b / tick;
    assert a == i * tick && b == j * tick;
    NoMultipleBetween(i, j, tick);
    assert (i + 1) * tick == i * tick + tick;
  }

  /** Within one band: rounding stays between the band's ends. */
  lemma NearestInBand(t: Table, price: real)
    requires Valid(t) && t.min as real <= price <= Top(t) as real
    ensures var i, n := BandFor(t, price), ToMultiple(price, t.bands[BandFor(t, price)].tick);
      && Lower(t, i) as real <= price <= t.bands[i].cutoff as real
      && Lower(t, i) <= n <= t.bands[i].cutoff
  {
    hide IsMultiple, ToMultiple;
    var i := BandFor(t, price);
    var tick := t.bands[i].tick;
    var n := ToMultiple(price, tick);
    assert i > 0 ==> t.bands[i - 1].cutoff as real <= price;
    MultipleIsNear(price, tick);
    if n < Lower(t, i) { MultiplesApart(n, Lower(t, i), tick); }
    if t.bands[i].cutoff < n { MultiplesApart(t.bands[i].cutoff, n, tick); }
  }

  lemma {:induction false} LowerIsMonotone(t: Table, i: int, j: int)
    requires Valid(t) && 0 <= i < j < |t.bands|
    ensures t.bands[i].cutoff <= Lower(t, j)
    decreases j
  {
    hide IsMultiple, ToMultiple;
    if i < j - 1 { LowerIsMonotone(t, i, j - 1); }
  }

  /** Within the table the nearest multiple of the band's tick is a ladder price. */
  lemma MultipleIsOnLadder(t: Table, price: real)
    requires Valid(t) && t.min as real <= price <= Top(t) as real
    ensures OnLadder(t, ToMultiple(price, t.bands[BandFor(t, price)].tick))
  {
    hide IsMultiple, ToMultiple;
    NearestInBand(t, price);
    var i := BandFor(t, price);
    var n := ToMultiple(price, t.bands[i].tick);
    MultipleIsNear(price, t.bands[i].tick);
    if n == t.bands[i].cutoff && i + 1 < |t.bands| {
      assert Lower(t, i + 1) == n;
      assert InBand(t, i + 1, n);
    } else if n < t.bands[i].cutoff {
      assert InBand(t, i, n);
    }
  }

  lemma NearestOnLadder(t: Table, lo: int, hi: int, price: real)
    requires Valid(t) && OnLadder(t, lo) && OnLadder(t, hi)
    ensures OnLadder(t, NearestPrice(t, lo, hi, price))
  {
    hide IsMultiple, ToMultiple, OnLadder;
    LadderIsBounded(t, lo);
    LadderIsBounded(t, hi);
    if lo as real < price <= hi as real {
      MultipleIsOnLadder(t, price);
    }
  }

  /** Every price is rounded to a ladder price exactly if the two prices it is clamped at are. */
  lemma NearestIsOnLadder(t: Table, lo: int, hi: int)
    requires Valid(t)
    ensures (forall price :: OnLadder(t, NearestPrice(t, lo, hi, price))) <==> OnLadder(t, lo) && OnLadder(t, hi)
  {
    hide IsMultiple, ToMultiple, OnLadder;
    if OnLadder(t, lo) && OnLadder(t, hi) {
      forall price ensures OnLadder(t, NearestPrice(t, lo, hi, price)) {
        NearestOnLadder(t, lo, hi, price);
      }
    }
    var above := (if lo < hi then hi else lo) as real + 1.0;
    assert NearestPrice(t, lo, hi, lo as real) == lo && NearestPrice(t, lo, hi, above) == hi;
  }

  function Distance(price: real, v: int): real {
    if price <= v as real then v as real - price else price - v as real
  }

  lemma LadderIsBounded(t: Table, v: int)
    requires Valid(t) && OnLadder(t, v)
    ensures t.min <= v <= Top(t)
  {
    hide IsMultiple, ToMultiple;
    var last := |t.bands| - 1;
    if last > 0 { LowerIsMonotone(t, 0, last); }
    if v != Top(t) {
      var i :| 0 <= i < |t.bands| && InBand(t, i, v);
      if i > 0 { LowerIsMonotone(t, 0, i); }
      if i < last { LowerIsMonotone(t, i, last); }
    }
  }

  /** A ladder price between the ends of a band is a multiple of that band's tick. */
  lemma LadderWithinBand(t: Table, i: int, v: int)
    requires Valid(t) && OnLadder(t, v) && 0 <= i < |t.bands|
    requires Lower(t, i) <= v <= t.bands[i].cutoff
    ensures IsMultiple(v, t.bands[i].tick)
  {
    hide IsMultiple, ToMultiple;
    if v != t.bands[i].cutoff {
      var last := |t.bands| - 1;
      if i < last { LowerIsMonotone(t, i, last); }
      var j :| 0 <= j < |t.bands| && InBand(t, j, v);
      if i < j { LowerIsMonotone(t, i, j); }
      if j < i { LowerIsMonotone(t, j, i); }
    }
  }

  /** For every real price, no ladder price between the two ends is nearer than the one chosen, which
      lies between them and is the higher of two that are equally near. */
  lemma NearestIsNearest(t: Table, lo: int, hi: int, price: real, v: int)
    requires Valid(t) && OnLadder(t, lo) && OnLadder(t, hi) && OnLadder(t, v) && lo <= v <= hi
    ensures Distance(price, NearestPrice(t, lo, hi, price)) <= Distance(price, v)
    ensures NearestPrice(t, lo, hi, price) < v ==> Distance(price, NearestPrice(t, lo, hi, price)) < Distance(price, v)
    ensures lo <= NearestPrice(t, lo, hi, price) <= hi
  {
    hide IsMultiple, ToMultiple, OnLadder;
    LadderIsBounded(t, lo);
    LadderIsBounded(t, hi);
    if lo as real < price <= hi as real {
      MultipleIsNearestOnLadder(t, price, v);
      MultipleIsNearestOnLadder(t, price, lo);
      MultipleIsNearestOnLadder(t, price, hi);
    }
  }

  lemma MultipleIsNearestOnLadder(t: Table, price: real, v: int)
    requires Valid(t) && OnLadder(t, v) && t.min as real <= price <= Top(t) as real
    ensures var n := ToMultiple(price, t.bands[BandFor(t, price)].tick);
      Distance(price, n) <= Distance(price, v) && (n < v ==> Distance(price, n) < Distance(price, v))
  {
    hide IsMultiple, ToMultiple;
    NearestInBand(t, price);
    var i := BandFor(t, price);
    var tick := t.bands[i].tick;
    MultipleIsNear(price, tick);
    var c := Clamp(v, Lower(t, i), t.bands[i].cutoff);
    if c == v {
      LadderWithinBand(t, i, v);
    }
    MultipleIsNearest(price, tick, c);
  }

  function Clamp(v: int, lo: int, hi: int): int {
    if v < lo then lo else if hi < v then hi else v
  }

  lemma MultipleIsNearest(price: real, tick: int, m: int)
    requires tick > 0 && IsMultiple(m, tick)
    ensures Distance(price, ToMultiple(price, tick)) <= Distance(price, m)
    ensures ToMultiple(price, tick) < m ==> Distance(price, ToMultiple(price, tick)) < Distance(price, m)
  {
    hide IsMultiple, ToMultiple;
    MultipleIsNear(price, tick);
    var n := ToMultiple(price, tick);
    if n < m { MultiplesApart(n, m, tick); }
    if m < n { MultiplesApart(m, n, tick); }
  }

  /** Rounding to the ladder keeps order. */
  lemma NearestIsMonotone(t: Table, lo: int, hi: int, p: real, q: real)
    requires Valid(t) && OnLadder(t, lo) && OnLadder(t, hi) && lo <= hi && p <= q
    ensures NearestPrice(t, lo, hi, p) <= NearestPrice(t, lo, hi, q)
  {
    hide IsMultiple, ToMultiple, OnLadder;
    NearestIsNearest(t, lo, hi, p, lo);
    NearestIsNearest(t, lo, hi, q, lo);
    if lo as real < p && q <= hi as real {
      LadderIsBounded(t, lo);
      LadderIsBounded(t, hi);
      NearestInBand(t, p);
      NearestInBand(t, q);
      var i, j := BandFor(t, p), BandFor(t, q);
      if i < j {
        LowerIsMonotone(t, i, j);
      } else if i == j {
        MultipleIsMonotone(p, q, t.bands[i].tick);
      }
    }
  }

  lemma MultipleIsMonotone(p: real, q: real, tick: int)
    requires tick > 0 && p <= q
    ensures ToMultiple(p, tick) <= ToMultiple(q, tick)
  {
    hide IsMultiple, ToMultiple;
    MultipleIsNear(p, tick);
    MultipleIsNear(q, tick);
    if ToMultiple(q, tick) < ToMultiple(p, tick) {
      MultiplesApart(ToMultiple(q, tick), ToMultiple(p, tick), tick);
    }
  }

  /** Ladder prices between the ends, and only those, are their own nearest price: what the order
      validation control accepts is exactly what rounding leaves alone. */
  lemma NearestFixesTheLadder(t: Table, lo: int, hi: int, v: int)
    requires Valid(t) && OnLadder(t, lo) && OnLadder(t, hi) && lo <= hi
    ensures OnLadder(t, v) && lo <= v <= hi <==> NearestPrice(t, lo, hi, v as real) == v
  {
    hide OnLadder, NearestPrice;
    NearestOnLadder(t, lo, hi, v as real);
    NearestIsNearest(t, lo, hi, v as real, lo);
    if OnLadder(t, v) && lo <= v <= hi {
      NearestIsNearest(t, lo, hi, v as real, v);
    }
  }

  // ----- ticks

  /** None where the price is not listed, which is an error to the caller. */
  function TicksAway(prices: seq<int>, price: int, n: int): Option<int> {
    if price !in prices then None
    else
      var i := IndexOf(prices, price) + n;
      if i < 0 then Some(101) else if i >= |prices| then Some(100000) else Some(prices[i])
  }

  function IndexOf(s: seq<int>, v: int): (i: int)
    requires v in s
    ensures 0 <= i < |s| && s[i] == v
  {
    if s[0] == v then 0 else 1 + IndexOf(s[1..], v)
  }

  /** On the ladder, moving is undone by moving back unless an end was passed, more ticks never lead
      to a lower price, and a move that passes an end stops there, which undoes it only from the
      opposite end. */
  lemma TicksAwayMoves(prices: seq<int>, price: int, n: int, m: int)
    requires Increasing(prices) && prices != [] && prices[0] == 101 && prices[|prices| - 1] == 100000
    requires price in prices && n <= m
    ensures var there := TicksAway(prices, price, n);
      && there.Some? && there.value in prices
      && there.value <= TicksAway(prices, price, m).value
      && (TicksAway(prices, there.value, -n) == Some(price) <==>
          (var i, last := IndexOf(prices, price), |prices| - 1;
           0 <= i + n <= last || (i + n < 0 && i == last) || (i + n > last && i == 0)))
  {
    hide TicksAway, IndexOf;
    var i, last := IndexOf(prices, price), |prices| - 1;
    LandsAt(prices, price, n);
    LandsAt(prices, price, m);
    var k := Clamp(i + n, 0, last);
    IndexIsUnique(prices, k);
    LandsAt(prices, prices[k], -n);
    IndexIsUnique(prices, Clamp(k - n, 0, last));
  }

  lemma LandsAt(prices: seq<int>, price: int, n: int)
    requires prices != [] && prices[0] == 101 && prices[|prices| - 1] == 100000
    requires price in prices
    ensures TicksAway(prices, price, n) == Some(prices[Clamp(IndexOf(prices, price) + n, 0, |prices| - 1)])
  {
  }

  lemma {:induction false} IndexIsUnique(prices: seq<int>, k: nat)
    requires Increasing(prices) && k < |prices|
    ensures IndexOf(prices, prices[k]) == k
  {
    if k > 0 {
      IndexIsUnique(prices[1..], k - 1);
    }
  }
}
