/** The chronological merge of an event's market streams (`run` of flumine/backtest/backtest.py). */
module Merge {

  /** One stream update: its publish time and the market books it carries. */
  datatype Update<T> = Update(time: int, books: T)

  /** The next update of a stream, waiting to be processed. */
  datatype Cycle = Cycle(time: int, stream: nat, position: nat)

  /** A processed update and the stream it came from. */
  type Processed<T> = (nat, Update<T>)

  ghost predicate Chronological<T>(us: seq<Update<T>>) {
    forall i, j :: 0 <= i < j < |us| ==> us[i].time <= us[j].time
  }

  ghost predicate InOrder<T>(ps: seq<Processed<T>>) {
    forall i, j :: 0 <= i < j < |ps| ==> ps[i].1.time <= ps[j].1.time
  }

  ghost predicate SortedByTime(cs: seq<Cycle>) {
    forall i, j :: 0 <= i < j < |cs| ==> cs[i].time <= cs[j].time
  }

  /** What was processed of one stream, in the order it was processed. */
  ghost function Project<T>(ps: seq<Processed<T>>, k: nat): seq<Update<T>> {
    if ps == [] then []
    else
      var init, last := Project(ps[..|ps| - 1], k), ps[|ps| - 1];
      if last.0 == k then init + [last.1] else init
  }

  ghost function Total(ns: seq<nat>): nat {
    if ns == [] then 0 else Total(ns[..|ns| - 1]) + ns[|ns| - 1]
  }

  lemma {:induction false} TotalUpdate(ns: seq<nat>, i: nat, n: nat)
    requires i < |ns|
    ensures Total(ns[i := n]) == Total(ns) - ns[i] + n
  {
    var last := |ns| - 1;
    if i < last {
      TotalUpdate(ns[..last], i, n);
      assert ns[i := n][..last] == ns[..last][i := n];
    } else {
      assert ns[i := n][..last] == ns[..last];
    }
  }

  lemma {:induction false} TotalBelow(ns: seq<nat>, ms: seq<nat>)
    requires |ns| == |ms| && forall k :: 0 <= k < |ns| ==> ns[k] <= ms[k]
    ensures Total(ns) <= Total(ms)
  {
    if ns != [] { TotalBelow(ns[..|ns| - 1], ms[..|ms| - 1]); }
  }

  ghost function Lengths<T>(streams: seq<seq<Update<T>>>): seq<nat> {
    seq(|streams|, k requires 0 <= k < |streams| => |streams[k]|)
  }

  lemma InsertAt(r: seq<Cycle>, c: Cycle, k: nat)
    requires SortedByTime(r) && k <= |r|
    requires k > 0 ==> r[k - 1].time <= c.time
    requires forall j :: k <= j < |r| ==> r[j].time > c.time
    ensures SortedByTime(r[..k] + [c] + r[k..])
  {
    forall i | 0 <= i < k ensures r[i].time <= c.time {
      assert r[i].time <= r[k - 1].time;
    }
  }

  lemma InsertAdds(r: seq<Cycle>, c: Cycle, k: nat)
    requires k <= |r|
    ensures multiset(r[..k] + [c] + r[k..]) == multiset(r) + multiset{c}
  {
    assert r == r[..k] + r[k..];
  }

  /** `cycles.sort(key=...)`: an insertion sort that keeps equal times in place. */
  method Sort(cs: seq<Cycle>) returns (r: seq<Cycle>)
    ensures SortedByTime(r) && multiset(r) == multiset(cs)
  {
    r := [];
    for i := 0 to |cs|
      invariant SortedByTime(r) && multiset(r) == multiset(cs[..i])
    {
      var k := |r|;
      while k > 0 && r[k - 1].time > cs[i].time
        invariant 0 <= k <= |r|
        invariant forall j :: k <= j < |r| ==> r[j].time > cs[i].time
      {
        k := k - 1;
      }
      InsertAt(r, cs[i], k);
      InsertAdds(r, cs[i], k);
      assert cs[..i + 1] == cs[..i] + [cs[i]];
      r := r[..k] + [cs[i]] + r[k..];
    }
    assert cs[..|cs|] == cs;
  }

  /** The cycles wait at position done[k] of every stream k that is not exhausted, once each. */
  ghost predicate Waiting<T>(streams: seq<seq<Update<T>>>, cs: seq<Cycle>, done: seq<nat>) {
    && |done| == |streams|
    && (forall i :: 0 <= i < |cs| ==> AtPosition(streams, cs[i], done))
    && (forall i, j :: 0 <= i < j < |cs| ==> cs[i].stream != cs[j].stream)
    && (forall k :: 0 <= k < |streams| ==> done[k] == |streams[k]| || exists c :: c in cs && c.stream == k)
  }

  ghost predicate AtPosition<T>(streams: seq<seq<Update<T>>>, c: Cycle, done: seq<nat>)
    requires |done| == |streams|
  {
    && c.stream < |streams| && c.position == done[c.stream] < |streams[c.stream]|
    && c.time == streams[c.stream][c.position].time
  }

  lemma WaitingAfterSort<T>(streams: seq<seq<Update<T>>>, cs: seq<Cycle>, sorted: seq<Cycle>, done: seq<nat>)
    requires Waiting(streams, cs, done) && multiset(sorted) == multiset(cs)
    ensures Waiting(streams, sorted, done)
  {
    SameElements(sorted, cs);
    forall i | 0 <= i < |sorted| ensures AtPosition(streams, sorted[i], done) {
      assert sorted[i] in cs;
    }
    forall i, j | 0 <= i < j < |sorted| ensures sorted[i].stream != sorted[j].stream {
      if sorted[i].stream == sorted[j].stream {
        assert sorted[i] in cs && sorted[j] in cs;
        assert sorted[i] == sorted[j];
        TwiceMeansTwo(sorted, i, j);
        OnceMeansOne(streams, cs, done, sorted[i]);
      }
    }
  }

  lemma SameElements(a: seq<Cycle>, b: seq<Cycle>)
    requires multiset(a) == multiset(b)
    ensures |a| == |b| && forall c :: c in a <==> c in b
  {
    assert |a| == |multiset(a)| && |b| == |multiset(b)|;
    forall c ensures c in a <==> c in b {
      assert c in a <==> c in multiset(a);
    }
  }

  lemma TwiceMeansTwo(cs: seq<Cycle>, i: nat, j: nat)
    requires i < j < |cs| && cs[i] == cs[j]
    ensures multiset(cs)[cs[i]] >= 2
  {
    assert cs == cs[..i] + [cs[i]] + cs[i + 1..j] + [cs[j]] + cs[j + 1..];
  }

  lemma {:induction false} OnceMeansOne<T>(streams: seq<seq<Update<T>>>, cs: seq<Cycle>, done: seq<nat>, c: Cycle)
    requires forall i, j :: 0 <= i < j < |cs| ==> cs[i].stream != cs[j].stream
    ensures multiset(cs)[c] <= 1
  {
    if cs != [] {
      var n := |cs| - 1;
      OnceMeansOne(streams, cs[..n], done, c);
      assert cs == cs[..n] + [cs[n]];
      if cs[n] == c {
        assert c !in cs[..n];
      }
    }
  }

  /** Takes the first cycle off and puts the stream's next update back, if there is one. */
  lemma WaitingAfterStep<T>(streams: seq<seq<Update<T>>>, cs: seq<Cycle>, done: seq<nat>, next: seq<Cycle>)
    requires Waiting(streams, cs, done) && cs != []
    requires var c := cs[0]; var p := c.position + 1;
      next == cs[1..] + if p < |streams[c.stream]| then [Cycle(streams[c.stream][p].time, c.stream, p)] else []
    ensures Waiting(streams, next, done[cs[0].stream := cs[0].position + 1])
  {
    var c := cs[0];
    var done' := done[c.stream := c.position + 1];
    forall k | 0 <= k < |streams| ensures done'[k] == |streams[k]| || exists d :: d in next && d.stream == k {
      if done'[k] != |streams[k]| {
        if k == c.stream {
          assert next[|next| - 1].stream == k;
        } else {
          var d :| d in cs && d.stream == k;
          assert d in cs[1..];
          assert d in next;
        }
      }
    }
  }

  /** Processes every update of every stream exactly once, each stream in its own order and all of
      them in order of time. */
  method ProcessEvent<T>(streams: seq<seq<Update<T>>>) returns (processed: seq<Processed<T>>)
    requires forall k :: 0 <= k < |streams| ==> streams[k] != [] && Chronological(streams[k])
    ensures InOrder(processed)
    ensures forall k :: 0 <= k < |streams| ==> Project(processed, k) == streams[k]
    ensures |processed| == Total(Lengths(streams))
    ensures forall p :: p in processed ==> p.0 < |streams|
  {
    // create cycles
    var cycles: seq<Cycle> := [];
    for k := 0 to |streams|
      invariant |cycles| == k
      invariant forall i :: 0 <= i < k ==> cycles[i] == Cycle(streams[i][0].time, i, 0)
    {
      cycles := cycles + [Cycle(streams[k][0].time, k, 0)];
    }
    ghost var done: seq<nat> := seq(|streams|, k => 0);
    ProgressAtStart(streams, cycles, done);

    // process cycles
    processed := [];
    while cycles != []
      invariant Progress(streams, cycles, done, processed)
      decreases Total(Lengths(streams)) - |processed|
    {
      hide Progress, Total, InOrder, Project;
      var sorted := Sort(cycles);
      ProgressAfterSort(streams, cycles, sorted, done, processed);
      var c := sorted[0];
      assert AtPosition(streams, c, done);
      var stream := streams[c.stream];
      var next := sorted[1..];
      if c.position + 1 < |stream| {
        next := next + [Cycle(stream[c.position + 1].time, c.stream, c.position + 1)];
      }
      ProgressAfterStep(streams, sorted, done, processed, next);
      done := done[c.stream := c.position + 1];
      cycles, processed := next, processed + [(c.stream, stream[c.position])];
    }
    ProgressAtEnd(streams, done, processed);
  }

  /** The invariant of the loop: everything before the waiting positions has been processed. */
  ghost predicate Progress<T>(streams: seq<seq<Update<T>>>, cs: seq<Cycle>, done: seq<nat>, ps: seq<Processed<T>>) {
    && Waiting(streams, cs, done)
    && InOrder(ps)
    && (forall p, c :: p in ps && c in cs ==> p.1.time <= c.time)
    && (forall k :: 0 <= k < |streams| ==> done[k] <= |streams[k]| && Project(ps, k) == streams[k][..done[k]])
    && |ps| == Total(done) <= Total(Lengths(streams))
    && (forall p :: p in ps ==> p.0 < |streams|)
  }

  lemma ProgressAtEnd<T>(streams: seq<seq<Update<T>>>, done: seq<nat>, ps: seq<Processed<T>>)
    requires Progress(streams, [], done, ps)
    ensures InOrder(ps) && |ps| == Total(Lengths(streams)) && forall p :: p in ps ==> p.0 < |streams|
    ensures forall k :: 0 <= k < |streams| ==> Project(ps, k) == streams[k]
  {
    hide InOrder, Project;
    assert done == Lengths(streams);
  }

  lemma ProgressAtStart<T>(streams: seq<seq<Update<T>>>, cs: seq<Cycle>, done: seq<nat>)
    requires forall k :: 0 <= k < |streams| ==> streams[k] != []
    requires |cs| == |done| == |streams|
    requires forall k :: 0 <= k < |streams| ==> done[k] == 0 && cs[k] == Cycle(streams[k][0].time, k, 0)
    ensures Progress(streams, cs, done, [])
  {
    TotalOfNothing(done);
    TotalBelow(done, Lengths(streams));
    assert forall k :: 0 <= k < |streams| ==> cs[k] in cs && cs[k].stream == k;
  }

  lemma ProgressAfterSort<T>(streams: seq<seq<Update<T>>>, cs: seq<Cycle>, sorted: seq<Cycle>,
                             done: seq<nat>, ps: seq<Processed<T>>)
    requires Progress(streams, cs, done, ps) && multiset(sorted) == multiset(cs)
    ensures Progress(streams, sorted, done, ps)
    ensures |sorted| == |cs|
  {
    hide Total, Project, Waiting, InOrder;
    WaitingAfterSort(streams, cs, sorted, done);
    SameElements(sorted, cs);
  }

  lemma ProgressAfterStep<T>(streams: seq<seq<Update<T>>>, sorted: seq<Cycle>, done: seq<nat>, ps: seq<Processed<T>>,
                             next: seq<Cycle>)
    requires forall k :: 0 <= k < |streams| ==> Chronological(streams[k])
    requires Progress(streams, sorted, done, ps) && sorted != [] && SortedByTime(sorted)
    requires var c := sorted[0]; var p := c.position + 1;
      next == sorted[1..] + if p < |streams[c.stream]| then [Cycle(streams[c.stream][p].time, c.stream, p)] else []
    ensures var c := sorted[0];
      Progress(streams, next, done[c.stream := c.position + 1], ps + [(c.stream, streams[c.stream][c.position])])
    ensures |ps| < Total(Lengths(streams))
  {
    hide Total, Project;
    var c := sorted[0];
    assert AtPosition(streams, c, done);
    WaitingAfterStep(streams, sorted, done, next);
    StepKeepsOrder(ps, sorted, next, streams[c.stream][c.position]);
    TotalUpdate(done, c.stream, c.position + 1);
    ProjectStep(streams, ps, done, c.stream);
    TotalBelow(done[c.stream := c.position + 1], Lengths(streams));
  }

  lemma {:induction false} TotalOfNothing(ns: seq<nat>)
    requires forall k :: 0 <= k < |ns| ==> ns[k] == 0
    ensures Total(ns) == 0
  {
    if ns != [] { TotalOfNothing(ns[..|ns| - 1]); }
  }

  lemma ProjectStep<T>(streams: seq<seq<Update<T>>>, ps: seq<Processed<T>>, done: seq<nat>, s: nat)
    requires |done| == |streams| && s < |streams| && done[s] < |streams[s]|
    requires forall k :: 0 <= k < |streams| ==> done[k] <= |streams[k]| && Project(ps, k) == streams[k][..done[k]]
    ensures var ps', done' := ps + [(s, streams[s][done[s]])], done[s := done[s] + 1];
      forall k :: 0 <= k < |streams| ==> done'[k] <= |streams[k]| && Project(ps', k) == streams[k][..done'[k]]
  {
    var ps' := ps + [(s, streams[s][done[s]])];
    assert ps'[..|ps|] == ps;
    assert streams[s][..done[s]] + [streams[s][done[s]]] == streams[s][..done[s] + 1];
  }

  lemma StepKeepsOrder<T>(ps: seq<Processed<T>>, sorted: seq<Cycle>, next: seq<Cycle>, u: Update<T>)
    requires InOrder(ps) && sorted != [] && SortedByTime(sorted) && u.time == sorted[0].time
    requires forall p, c :: p in ps && c in sorted ==> p.1.time <= c.time
    requires forall c :: c in next ==> c in sorted || c.time >= u.time
    ensures InOrder(ps + [(sorted[0].stream, u)])
    ensures forall p, c :: p in ps + [(sorted[0].stream, u)] && c in next ==> p.1.time <= c.time
  {
    var ps' := ps + [(sorted[0].stream, u)];
    forall p | p in ps ensures p.1.time <= u.time {
      assert sorted[0] in sorted;
    }
    forall c | c in next ensures u.time <= c.time {
      if c in sorted {
        var i :| 0 <= i < |sorted| && sorted[i] == c;
      }
    }
    forall p, c | p in ps' && c in next ensures p.1.time <= c.time {
      if p in ps {
        assert p.1.time <= u.time <= c.time;
      }
    }
    forall i, j | 0 <= i < j < |ps'| ensures ps'[i].1.time <= ps'[j].1.time {
      if j == |ps| { assert ps[i] in ps; }
    }
  }
}
