/** The volume traded per price between updates (`RunnerAnalytics` of flumine/markets/middleware.py). */
module Analytics {
  import opened Exchange

  type Volumes = map<Price, nat>

  /** `{i["price"]: i["size"] for i in traded_volume}`: the last entry of a price counts. */
  function Dict(ls: seq<Level>): Volumes {
    if ls == [] then map[] else Dict(ls[..|ls| - 1])[ls[|ls| - 1].price := ls[|ls| - 1].size]
  }

  ghost predicate LastOfItsPrice(ls: seq<Level>, i: int) {
    0 <= i < |ls| && forall j :: i < j < |ls| ==> ls[j].price != ls[i].price
  }

  /** A price is listed with the size of its last entry. */
  lemma {:induction false} LastEntryCounts(ls: seq<Level>, p: Price)
    ensures p in Dict(ls) <==> exists i :: 0 <= i < |ls| && ls[i].price == p
    ensures forall i :: LastOfItsPrice(ls, i) && ls[i].price == p ==> Dict(ls)[p] == ls[i].size
  {
    if ls != [] {
      var n := |ls| - 1;
      LastEntryCounts(ls[..n], p);
      assert ls[n].price == p ==> exists i :: 0 <= i < |ls| && ls[i].price == p;
      forall i | LastOfItsPrice(ls, i) && ls[i].price == p ensures Dict(ls)[p] == ls[i].size {
        if i < n {
          assert ls[n].price != p && LastOfItsPrice(ls[..n], i);
        }
      }
    }
  }

  /** What has traded at a price, nothing where it is not listed. */
  function At(v: Volumes, p: Price): nat {
    if p in v then v[p] else 0
  }

  /** `_calculate_traded`: rises at known prices, and new prices in full. */
  function Difference(before: Volumes, now: Volumes): Volumes {
    map p | p in now && (p in before ==> now[p] > before[p]) :: if p in before then now[p] - before[p] else now[p]
  }

  datatype State = State(traded: Volumes, last: seq<Level>, cached: Volumes)

  function Started(first: seq<Level>): State { State(map[], first, Dict(first)) }

  /** An update with this runner's volumes, or one that did not concern the runner. */
  type Update = Option<seq<Level>>

  function Step(s: State, u: Update): State {
    if u.None? then s.(traded := map[])
    else if s.last == u.value then s.(traded := map[])
    else State(Difference(s.cached, Dict(u.value)), u.value, Dict(u.value))
  }

  function Run(first: seq<Level>, us: seq<Update>): State {
    if us == [] then Started(first) else Step(Run(first, us[..|us| - 1]), us[|us| - 1])
  }

  /** All that was reported as traded at a price over a run. */
  function Emitted(first: seq<Level>, us: seq<Update>, p: Price): nat {
    if us == [] then 0 else Emitted(first, us[..|us| - 1], p) + At(Run(first, us).traded, p)
  }

  /** By how much the listed volume fell at a price over a run, disappearing included. */
  function Fallen(first: seq<Level>, us: seq<Update>, p: Price): nat {
    if us == [] then 0
    else
      var init, last := us[..|us| - 1], us[|us| - 1];
      var before := At(Dict(Run(first, init).last), p);
      var now := if last.None? then before else At(Dict(last.value), p);
      Fallen(first, init, p) + if now < before then before - now else 0
  }

  lemma {:induction false} CacheIsLast(first: seq<Level>, us: seq<Update>)
    ensures Run(first, us).cached == Dict(Run(first, us).last)
  {
    if us != [] { CacheIsLast(first, us[..|us| - 1]); }
  }

  /** The shortcut for an unchanged list reports what the full difference would: nothing. */
  lemma ShortcutAgrees(first: seq<Level>, us: seq<Update>)
    ensures var s := Run(first, us); Difference(s.cached, Dict(s.last)) == map[]
  {
    CacheIsLast(first, us);
  }

  lemma DifferenceAt(before: Volumes, now: Volumes, p: Price)
    ensures At(Difference(before, now), p) == if At(now, p) > At(before, p) then At(now, p) - At(before, p) else 0
  {
  }

  /** What is reported telescopes: over any run the total at a price is the rise from the first to
      the last listed volume plus everything it fell on the way. */
  lemma {:induction false} TradedTelescopes(first: seq<Level>, us: seq<Update>, p: Price)
    ensures Emitted(first, us, p) == At(Dict(Run(first, us).last), p) - At(Dict(first), p) + Fallen(first, us, p)
  {
    if us != [] {
      var init := us[..|us| - 1];
      TradedTelescopes(first, init, p);
      CacheIsLast(first, init);
      var s, u := Run(first, init), us[|us| - 1];
      if u.Some? {
        DifferenceAt(s.cached, Dict(u.value), p);
      }
    }
  }

  /** So the total is at least the rise, and equal to it exactly when the volume never falls. */
  lemma EmittedIsTheRise(first: seq<Level>, us: seq<Update>, p: Price)
    ensures var rise := At(Dict(Run(first, us).last), p) - At(Dict(first), p);
      && Emitted(first, us, p) >= rise
      && (Emitted(first, us, p) == rise <==> NeverFalls(first, us, p))
  {
    TradedTelescopes(first, us, p);
    FallenIsFalls(first, us, p);
  }

  ghost predicate NeverFalls(first: seq<Level>, us: seq<Update>, p: Price) {
    forall i :: 0 <= i < |us| && us[i].Some? ==> At(Dict(us[i].value), p) >= At(Dict(Run(first, us[..i]).last), p)
  }

  lemma {:induction false} FallenIsFalls(first: seq<Level>, us: seq<Update>, p: Price)
    ensures Fallen(first, us, p) == 0 <==> NeverFalls(first, us, p)
  {
    if us != [] {
      var init := us[..|us| - 1];
      FallenIsFalls(first, init, p);
      assert forall i :: 0 <= i < |init| ==> us[..i] == init[..i] && us[i] == init[i];
      assert us[..|init|] == init;
    }
  }

  class RunnerAnalytics {
    var traded: Volumes
    var tradedVolume: seq<Level>
    var pV: Volumes

    function View(): State
      reads this
    {
      State(traded, tradedVolume, pV)
    }

    constructor (tv: seq<Level>)
      ensures View() == Started(tv)
    {
      traded, tradedVolume := map[], tv;
      pV := Dict(tv);
    }

    method Call(tv: seq<Level>, update: bool)
      modifies this
      ensures View() == Step(old(View()), if update then Some(tv) else None)
    {
      if update {
        if tradedVolume == tv {
          traded := map[];
        } else {
          traded := CalculateTraded(tv);
        }
        tradedVolume := tv;
      } else {
        traded := map[];
      }
    }

    method CalculateTraded(tv: seq<Level>) returns (t: Volumes)
      modifies this`pV
      ensures t == Difference(old(pV), Dict(tv)) && pV == Dict(tv)
    {
      // create dictionary
      var cV: Volumes := map[];
      for i := 0 to |tv|
        invariant cV == Dict(tv[..i])
      {
        assert tv[..i + 1][..i] == tv[..i];
        cV := cV[tv[i].price := tv[i].size];
      }
      assert tv[..|tv|] == tv;
      // calculate difference
      t := map[];
      var keys := cV.Keys;
      while keys != {}
        invariant keys <= cV.Keys
        invariant t == map p | p in Difference(pV, cV) && p !in keys :: Difference(pV, cV)[p]
        decreases |keys|
      {
        var key :| key in keys;
        if key in pV {
          if cV[key] > pV[key] {
            t := t[key := cV[key] - pV[key]];
          }
        } else {
          t := t[key := cV[key]];
        }
        keys := keys - {key};
      }
      // cache for next update
      pV := cV;
    }
  }
}
