/**
 Transactions (flumine/execution/transaction.py): requests are collected per kind, then grouped by
 market version, chunked to the exchange's limits and sent as packages.
 */
module Packaging {
  import opened Exchange

  datatype Kind = Place | Cancel | Update | Replace

  /** A collected request: an order and the market version it is meant for, if any. */
  datatype Request<O> = Request(order: O, version: Option<int>)

  datatype Package<O> = Package(kind: Kind, orders: seq<O>, version: Option<int>)

  /** How many orders the exchange takes in one request of each kind. */
  datatype OrderLimits = OrderLimits(place: nat, cancel: nat, update: nat, replace: nat) {
    function Of(kind: Kind): nat {
      match kind
      case Place => place
      case Cancel => cancel
      case Update => update
      case Replace => replace
    }

    predicate Positive() { place > 0 && cancel > 0 && update > 0 && replace > 0 }
  }

  // ----- chunks

  function Chunks<O>(l: seq<O>, n: nat): seq<seq<O>>
    requires n > 0
    decreases |l|
  {
    if l == [] then []
    else if |l| <= n then [l]
    else [l[..n]] + Chunks(l[n..], n)
  }

  function Flatten<O>(ls: seq<seq<O>>): seq<O> {
    if ls == [] then [] else ls[0] + Flatten(ls[1..])
  }

  /** Chunks split a list without loss into pieces that are full except for the last. */
  lemma {:induction false} ChunksSplit<O>(l: seq<O>, n: nat)
    requires n > 0
    ensures Flatten(Chunks(l, n)) == l
    ensures forall i :: 0 <= i < |Chunks(l, n)| ==>
      0 < |Chunks(l, n)[i]| <= n && (i < |Chunks(l, n)| - 1 ==> |Chunks(l, n)[i]| == n)
    decreases |l|
  {
    if l != [] && |l| > n {
      ChunksSplit(l[n..], n);
      assert Chunks(l, n)[1..] == Chunks(l[n..], n);
    }
  }

  lemma ChunksHead<O>(l: seq<O>, n: nat)
    requires n > 0 && l != []
    ensures var k := if |l| <= n then |l| else n; Chunks(l, n) == [l[..k]] + Chunks(l[k..], n)
  {
    if |l| <= n {
      assert l[..|l|] == l && l[|l|..] == [];
    }
  }

  lemma ChunksNothing<O>(l: seq<O>, n: nat)
    requires n > 0
    ensures Chunks(l[|l|..], n) == []
  {
  }

  method ComputeChunks<O>(l: seq<O>, n: nat) returns (r: seq<seq<O>>)
    requires n > 0
    ensures r == Chunks(l, n)
  {
    hide Chunks;
    ChunksNothing(l, n);
    r := [];
    var i := 0;
    assert l[0..] == l;
    while i < |l|
      invariant 0 <= i
      invariant r + Chunks(if i < |l| then l[i..] else l[|l|..], n) == Chunks(l, n)
      decreases |l| - i
    {
      var end := if i + n < |l| then i + n else |l|;
      ChunksHead(l[i..], n);
      assert l[i..end] == l[i..][..end - i];
      assert l[i..][end - i..] == l[end..];
      r := r + [l[i..end]];
      i := i + n;
    }
  }

  // ----- groups

  type Group<O> = (Option<int>, seq<O>)

  /** The orders requested for a version, in the order of request. */
  function OfVersion<O>(rs: seq<Request<O>>, v: Option<int>): seq<O> {
    if rs == [] then []
    else
      var init, last := OfVersion(rs[..|rs| - 1], v), rs[|rs| - 1];
      if last.version == v then init + [last.order] else init
  }

  /** The groups keyed by version, each version where it first came up. */
  function AddTo<O>(gs: seq<Group<O>>, r: Request<O>): seq<Group<O>> {
    if gs == [] then [(r.version, [r.order])]
    else if gs[0].0 == r.version then [(gs[0].0, gs[0].1 + [r.order])] + gs[1..]
    else [gs[0]] + AddTo(gs[1..], r)
  }

  function Groups<O>(rs: seq<Request<O>>): seq<Group<O>> {
    if rs == [] then [] else AddTo(Groups(rs[..|rs| - 1]), rs[|rs| - 1])
  }

  function Lookup<O>(gs: seq<Group<O>>, v: Option<int>): seq<O> {
    if gs == [] then [] else (if gs[0].0 == v then gs[0].1 else []) + Lookup(gs[1..], v)
  }

  ghost predicate DistinctKeys<O>(gs: seq<Group<O>>) {
    && (forall g :: g in gs ==> g.1 != [])
    && forall i, j :: 0 <= i < j < |gs| ==> gs[i].0 != gs[j].0
  }

  lemma {:induction false} AddToGroups<O>(gs: seq<Group<O>>, r: Request<O>)
    requires DistinctKeys(gs)
    ensures DistinctKeys(AddTo(gs, r))
    ensures forall g :: g in AddTo(gs, r) ==> g.0 == r.version || g in gs
    ensures forall v :: Lookup(AddTo(gs, r), v) == Lookup(gs, v) + if v == r.version then [r.order] else []
  {
    if gs != [] {
      if gs[0].0 == r.version {
        LookupMissing(gs[1..], r.version);
      } else {
        AddToGroups(gs[1..], r);
      }
    }
  }

  lemma {:induction false} LookupMissing<O>(gs: seq<Group<O>>, v: Option<int>)
    requires forall g :: g in gs ==> g.0 != v
    ensures Lookup(gs, v) == []
  {
    if gs != [] {
      assert gs[0] in gs;
      LookupMissing(gs[1..], v);
    }
  }

  lemma {:induction false} GroupsAreFilters<O>(rs: seq<Request<O>>)
    ensures DistinctKeys(Groups(rs))
    ensures forall v :: Lookup(Groups(rs), v) == OfVersion(rs, v)
  {
    if rs != [] {
      GroupsAreFilters(rs[..|rs| - 1]);
      AddToGroups(Groups(rs[..|rs| - 1]), rs[|rs| - 1]);
    }
  }

  // ----- packages

  function Wrap<O>(kind: Kind, v: Option<int>, chunks: seq<seq<O>>): seq<Package<O>> {
    seq(|chunks|, i requires 0 <= i < |chunks| => Package(kind, chunks[i], v))
  }

  function PackGroups<O>(kind: Kind, gs: seq<Group<O>>, n: nat): seq<Package<O>>
    requires n > 0
  {
    if gs == [] then [] else Wrap(kind, gs[0].0, Chunks(gs[0].1, n)) + PackGroups(kind, gs[1..], n)
  }

  lemma PackStep<O>(kind: Kind, gs: seq<Group<O>>, i: nat, n: nat)
    requires n > 0 && i < |gs|
    ensures PackGroups(kind, gs[i..], n) == Wrap(kind, gs[i].0, Chunks(gs[i].1, n)) + PackGroups(kind, gs[i + 1..], n)
  {
    assert gs[i..][1..] == gs[i + 1..];
  }

  lemma PackNothing<O>(kind: Kind, gs: seq<Group<O>>, n: nat)
    requires n > 0
    ensures PackGroups(kind, gs[|gs|..], n) == []
  {
  }

  /** `_create_order_package`. */
  function Pack<O>(kind: Kind, rs: seq<Request<O>>, n: nat): seq<Package<O>>
    requires n > 0
  {
    PackGroups(kind, Groups(rs), n)
  }

  /** The orders sent in packages of a kind for a version, in the order they are sent. */
  function Sent<O>(ps: seq<Package<O>>, kind: Kind, v: Option<int>): seq<O> {
    if ps == [] then [] else OrdersFor(ps[0], kind, v) + Sent(ps[1..], kind, v)
  }

  function OrdersFor<O>(p: Package<O>, kind: Kind, v: Option<int>): seq<O> {
    if p.kind == kind && p.version == v then p.orders else []
  }

  lemma {:induction false} SentAppend<O>(ps: seq<Package<O>>, qs: seq<Package<O>>, kind: Kind, v: Option<int>)
    ensures Sent(ps + qs, kind, v) == Sent(ps, kind, v) + Sent(qs, kind, v)
  {
    hide OrdersFor;
    if ps == [] {
      assert ps + qs == qs;
    } else {
      SentAppend(ps[1..], qs, kind, v);
      assert (ps + qs)[1..] == ps[1..] + qs;
    }
  }

  lemma {:induction false} SentWrap<O>(k: Kind, u: Option<int>, chunks: seq<seq<O>>, kind: Kind, v: Option<int>)
    ensures Sent(Wrap(k, u, chunks), kind, v) == if k == kind && u == v then Flatten(chunks) else []
  {
    if chunks != [] {
      SentWrap(k, u, chunks[1..], kind, v);
      assert Wrap(k, u, chunks)[1..] == Wrap(k, u, chunks[1..]);
    }
  }

  ghost predicate WellFormed<O>(p: Package<O>, limits: OrderLimits) {
    0 < |p.orders| <= limits.Of(p.kind)
  }

  lemma {:induction false} PackGroupsSends<O>(k: Kind, gs: seq<Group<O>>, limits: OrderLimits,
                                              kind: Kind, v: Option<int>)
    requires limits.Of(k) > 0
    ensures forall p :: p in PackGroups(k, gs, limits.Of(k)) ==> p.kind == k && WellFormed(p, limits)
    ensures Sent(PackGroups(k, gs, limits.Of(k)), kind, v) == if k == kind then Lookup(gs, v) else []
  {
    if gs != [] {
      var n := limits.Of(k);
      var first := Wrap(k, gs[0].0, Chunks(gs[0].1, n));
      ChunksSplit(gs[0].1, n);
      SentWrap(k, gs[0].0, Chunks(gs[0].1, n), kind, v);
      PackGroupsSends(k, gs[1..], limits, kind, v);
      SentAppend(first, PackGroups(k, gs[1..], n), kind, v);
    }
  }

  /** Packages of a list of requests send every request once, in order per version, each package
      non-empty, within the limit and for a single version. */
  lemma PackSends<O>(k: Kind, rs: seq<Request<O>>, limits: OrderLimits, kind: Kind, v: Option<int>)
    requires limits.Of(k) > 0
    ensures forall p :: p in Pack(k, rs, limits.Of(k)) ==> p.kind == k && WellFormed(p, limits)
    ensures Sent(Pack(k, rs, limits.Of(k)), kind, v) == if k == kind then OfVersion(rs, v) else []
  {
    GroupsAreFilters(rs);
    PackGroupsSends(k, Groups(rs), limits, kind, v);
  }

  // ----- transactions

  datatype Txn<O> = Txn(
    pendingOrders: bool,
    place: seq<Request<O>>,
    cancel: seq<Request<O>>,
    update: seq<Request<O>>,
    replace: seq<Request<O>>)
  {
    function Of(kind: Kind): seq<Request<O>> {
      match kind
      case Place => place
      case Cancel => cancel
      case Update => update
      case Replace => replace
    }

    function Add(kind: Kind, r: Request<O>): Txn<O> {
      match kind
      case Place => this.(place := place + [r], pendingOrders := true)
      case Cancel => this.(cancel := cancel + [r], pendingOrders := true)
      case Update => this.(update := update + [r], pendingOrders := true)
      case Replace => this.(replace := replace + [r], pendingOrders := true)
    }
  }

  function EmptyTxn<O>(): Txn<O> { Txn(false, [], [], [], []) }

  /** The packages an `execute` sends: places, cancels, updates, replaces. */
  function Packages<O>(t: Txn<O>, limits: OrderLimits): seq<Package<O>>
    requires limits.Positive()
  {
    Pack(Place, t.place, limits.place) + Pack(Cancel, t.cancel, limits.cancel)
    + Pack(Update, t.update, limits.update) + Pack(Replace, t.replace, limits.replace)
  }

  /** One request makes one package of its own. */
  lemma OnePackage<O>(kind: Kind, r: Request<O>, limits: OrderLimits)
    requires limits.Positive()
    ensures Packages(EmptyTxn().Add(kind, r), limits) == [Package(kind, [r.order], r.version)]
  {
    assert [r][..0] == [];
    assert Groups([r]) == [(r.version, [r.order])];
    PackOne(kind, r, limits.Of(kind));
    forall k, n: nat | n > 0 ensures Pack<O>(k, [], n) == [] {}
  }

  lemma PackOne<O>(kind: Kind, r: Request<O>, n: nat)
    requires n > 0 && Groups([r]) == [(r.version, [r.order])]
    ensures Pack(kind, [r], n) == [Package(kind, [r.order], r.version)]
  {
    var gs := Groups([r]);
    assert gs[1..] == [];
    assert Chunks([r.order], n) == [[r.order]];
    assert PackGroups(kind, gs, n) == Wrap(kind, r.version, [[r.order]]) + PackGroups(kind, gs[1..], n);
    assert Wrap(kind, r.version, [[r.order]]) == [Package(kind, [r.order], r.version)];
  }

  function Rank(kind: Kind): int {
    match kind
    case Place => 0
    case Cancel => 1
    case Update => 2
    case Replace => 3
  }

  /** An execute sends its placements first, then cancels, then updates, then replaces. */
  lemma SentByKind<O>(t: Txn<O>, limits: OrderLimits, i: nat, j: nat)
    requires limits.Positive() && i <= j < |Packages(t, limits)|
    ensures Rank(Packages(t, limits)[i].kind) <= Rank(Packages(t, limits)[j].kind)
  {
    hide Pack;
    OfKind(Place, t.place, limits.place);
    OfKind(Cancel, t.cancel, limits.cancel);
    OfKind(Update, t.update, limits.update);
    OfKind(Replace, t.replace, limits.replace);
  }

  lemma OfKind<O>(kind: Kind, rs: seq<Request<O>>, n: nat)
    requires n > 0
    ensures forall i :: 0 <= i < |Pack(kind, rs, n)| ==> Pack(kind, rs, n)[i].kind == kind
  {
    GroupsOfKind(kind, Groups(rs), n);
  }

  lemma {:induction false} GroupsOfKind<O>(kind: Kind, gs: seq<Group<O>>, n: nat)
    requires n > 0
    ensures forall i :: 0 <= i < |PackGroups(kind, gs, n)| ==> PackGroups(kind, gs, n)[i].kind == kind
  {
    if gs != [] { GroupsOfKind(kind, gs[1..], n); }
  }

  function Executed<O>(t: Txn<O>, limits: OrderLimits): Txn<O>
    requires limits.Positive()
  {
    Txn(if Packages(t, limits) != [] then false else t.pendingOrders, [], [], [], [])
  }

  lemma PackagesSend<O>(t: Txn<O>, limits: OrderLimits, kind: Kind, v: Option<int>)
    requires limits.Positive()
    ensures Sent(Packages(t, limits), kind, v) == OfVersion(t.Of(kind), v)
    ensures forall p :: p in Packages(t, limits) ==> WellFormed(p, limits)
  {
    hide Pack, Sent, OfVersion, WellFormed;
    var a, b := Pack(Place, t.place, limits.place), Pack(Cancel, t.cancel, limits.cancel);
    var c, d := Pack(Update, t.update, limits.update), Pack(Replace, t.replace, limits.replace);
    PackSends(Place, t.place, limits, kind, v);
    PackSends(Cancel, t.cancel, limits, kind, v);
    PackSends(Update, t.update, limits, kind, v);
    PackSends(Replace, t.replace, limits, kind, v);
    SentAppend(a, b, kind, v);
    SentAppend(a + b, c, kind, v);
    SentAppend(a + b + c, d, kind, v);
  }

  /** Whether any list holds a request. */
  predicate HasRequests<O>(t: Txn<O>) {
    t.place != [] || t.cancel != [] || t.update != [] || t.replace != []
  }

  lemma PackagesOfRequests<O>(t: Txn<O>, limits: OrderLimits)
    requires limits.Positive()
    ensures HasRequests(t) <==> Packages(t, limits) != []
  {
    PackIsEmpty(Place, t.place, limits.place);
    PackIsEmpty(Cancel, t.cancel, limits.cancel);
    PackIsEmpty(Update, t.update, limits.update);
    PackIsEmpty(Replace, t.replace, limits.replace);
  }

  lemma PackIsEmpty<O>(k: Kind, rs: seq<Request<O>>, n: nat)
    requires n > 0
    ensures Pack(k, rs, n) == [] <==> rs == []
  {
    if rs != [] {
      GroupsAreFilters(rs);
      var g := Groups(rs)[0];
      assert g in Groups(rs);
    }
  }

  /** What a strategy does with a transaction. A request the controls reject or the order's own
      guard refuses is not collected. */
  datatype Action<O> =
    | Ask(kind: Kind, r: Request<O>, accepted: bool)
    | Execute
    | Exit

  /** A transaction and the packages handed on so far. */
  type State<O> = (Txn<O>, seq<Package<O>>)

  function Act<O>(s: State<O>, a: Action<O>, limits: OrderLimits): State<O>
    requires limits.Positive()
  {
    match a
    case Ask(kind, r, accepted) => if accepted then (s.0.Add(kind, r), s.1) else s
    case Execute => (Executed(s.0, limits), s.1 + Packages(s.0, limits))
    case Exit => if s.0.pendingOrders then (Executed(s.0, limits), s.1 + Packages(s.0, limits)) else s
  }

  function ActAll<O>(acts: seq<Action<O>>, limits: OrderLimits): State<O>
    requires limits.Positive()
  {
    if acts == [] then (EmptyTxn(), [])
    else Act(ActAll(acts[..|acts| - 1], limits), acts[|acts| - 1], limits)
  }

  /** The accepted requests of a kind, in the order they were made. */
  function Accepted<O>(acts: seq<Action<O>>, kind: Kind): seq<Request<O>> {
    if acts == [] then []
    else
      var init, last := Accepted(acts[..|acts| - 1], kind), acts[|acts| - 1];
      if last.Ask? && last.accepted && last.kind == kind then init + [last.r] else init
  }

  /** Per kind and version, what was sent followed by what waits is what was accepted, in order. */
  ghost predicate Balanced<O>(s: State<O>, accepted: seq<Request<O>>, kind: Kind, v: Option<int>) {
    Sent(s.1, kind, v) + OfVersion(s.0.Of(kind), v) == OfVersion(accepted, v)
  }

  lemma AskKeepsBalance<O>(s: State<O>, accepted: seq<Request<O>>, k: Kind, r: Request<O>, kind: Kind, v: Option<int>)
    requires Balanced(s, accepted, kind, v)
    ensures Balanced((s.0.Add(k, r), s.1), if k == kind then accepted + [r] else accepted, kind, v)
  {
    hide Sent, OfVersion;
    if k == kind {
      OfVersionAppend(s.0.Of(kind), r, v);
      OfVersionAppend(accepted, r, v);
      assert s.0.Add(k, r).Of(kind) == s.0.Of(kind) + [r];
    }
  }

  lemma OfVersionAppend<O>(rs: seq<Request<O>>, r: Request<O>, v: Option<int>)
    ensures OfVersion(rs + [r], v) == OfVersion(rs, v) + if r.version == v then [r.order] else []
  {
    assert (rs + [r])[..|rs|] == rs;
  }

  lemma ExecuteKeepsBalance<O>(s: State<O>, accepted: seq<Request<O>>, limits: OrderLimits, kind: Kind, v: Option<int>)
    requires limits.Positive() && Balanced(s, accepted, kind, v)
    requires s.0.pendingOrders <==> HasRequests(s.0)
    ensures var t := Act(s, Execute, limits);
      && Balanced(t, accepted, kind, v) && Sent(t.1, kind, v) == OfVersion(accepted, v)
      && !t.0.pendingOrders && !HasRequests(t.0)
  {
    hide Sent, OfVersion, Packages;
    PackagesOfRequests(s.0, limits);
    PackagesSend(s.0, limits, kind, v);
    SentAppend(s.1, Packages(s.0, limits), kind, v);
    NothingWaits<O>(kind, v);
  }

  lemma NothingWaits<O>(kind: Kind, v: Option<int>)
    ensures OfVersion<O>([], v) == []
  {
  }

  lemma NothingOfVersion<O>(t: Txn<O>, kind: Kind, v: Option<int>)
    requires !HasRequests(t)
    ensures OfVersion(t.Of(kind), v) == []
  {
  }

  /** Over any use of a transaction every accepted request is sent exactly once or still waiting,
      in order, and the flag says whether anything waits; after an exit nothing does. */
  lemma {:induction false} ExactlyOnce<O>(acts: seq<Action<O>>, limits: OrderLimits, kind: Kind, v: Option<int>)
    requires limits.Positive()
    ensures var (t, sent) := ActAll(acts, limits);
      && Balanced((t, sent), Accepted(acts, kind), kind, v)
      && (t.pendingOrders <==> HasRequests(t))
      && (acts != [] && acts[|acts| - 1].Exit? ==>
          Sent(sent, kind, v) == OfVersion(Accepted(acts, kind), v) && !HasRequests(t))
  {
    hide Sent, OfVersion, Packages, Balanced;
    if acts != [] {
      var init, last := acts[..|acts| - 1], acts[|acts| - 1];
      var s := ActAll(init, limits);
      ExactlyOnce(init, limits, kind, v);
      if last.Ask? {
        if last.accepted {
          AskKeepsBalance(s, Accepted(init, kind), last.kind, last.r, kind, v);
        }
      } else if last.Execute? || s.0.pendingOrders {
        ExecuteKeepsBalance(s, Accepted(init, kind), limits, kind, v);
      } else {
        NothingIsBalanced(s, Accepted(init, kind), kind, v);
      }
    } else {
      StartIsBalanced<O>(kind, v);
    }
  }

  lemma StartIsBalanced<O>(kind: Kind, v: Option<int>)
    ensures Balanced<O>((EmptyTxn(), []), [], kind, v)
  {
  }

  lemma NothingIsBalanced<O>(s: State<O>, accepted: seq<Request<O>>, kind: Kind, v: Option<int>)
    requires Balanced(s, accepted, kind, v) && !HasRequests(s.0)
    ensures Sent(s.1, kind, v) == OfVersion(accepted, v)
  {
    NothingOfVersion(s.0, kind, v);
  }

  /** Every package ever sent is non-empty and within the limit of its kind. */
  lemma {:induction false} PackagesAreWellFormed<O>(acts: seq<Action<O>>, limits: OrderLimits)
    requires limits.Positive()
    ensures forall p :: p in ActAll(acts, limits).1 ==> WellFormed(p, limits)
  {
    hide Packages;
    if acts != [] {
      PackagesAreWellFormed(acts[..|acts| - 1], limits);
      PackagesSend(ActAll(acts[..|acts| - 1], limits).0, limits, Place, None);
    }
  }

  // ----- how often an order is in flight

  ghost function Times<O>(os: seq<O>, o: O): nat {
    if os == [] then 0 else (if os[0] == o then 1 else 0) + Times(os[1..], o)
  }

  /** How often packages of a kind carry an order. */
  ghost function Carried<O>(ps: seq<Package<O>>, kind: Kind, o: O): nat {
    if ps == [] then 0 else (if ps[0].kind == kind then Times(ps[0].orders, o) else 0) + Carried(ps[1..], kind, o)
  }

  /** How often an order was requested. */
  ghost function Asked<O>(rs: seq<Request<O>>, o: O): nat {
    if rs == [] then 0 else Asked(rs[..|rs| - 1], o) + if rs[|rs| - 1].order == o then 1 else 0
  }

  lemma {:induction false} TimesAppend<O>(a: seq<O>, b: seq<O>, o: O)
    ensures Times(a + b, o) == Times(a, o) + Times(b, o)
  {
    if a == [] {
      assert a + b == b;
    } else {
      TimesAppend(a[1..], b, o);
      assert (a + b)[1..] == a[1..] + b;
    }
  }

  lemma {:induction false} CarriedAppend<O>(ps: seq<Package<O>>, qs: seq<Package<O>>, kind: Kind, o: O)
    ensures Carried(ps + qs, kind, o) == Carried(ps, kind, o) + Carried(qs, kind, o)
  {
    if ps == [] {
      assert ps + qs == qs;
    } else {
      CarriedAppend(ps[1..], qs, kind, o);
      assert (ps + qs)[1..] == ps[1..] + qs;
    }
  }

  lemma {:induction false} WrapCarries<O>(k: Kind, v: Option<int>, chunks: seq<seq<O>>, kind: Kind, o: O)
    ensures Carried(Wrap(k, v, chunks), kind, o) == if k == kind then Times(Flatten(chunks), o) else 0
  {
    if chunks != [] {
      WrapCarries(k, v, chunks[1..], kind, o);
      assert Wrap(k, v, chunks)[1..] == Wrap(k, v, chunks[1..]);
      TimesAppend(chunks[0], Flatten(chunks[1..]), o);
    }
  }

  ghost function Grouped<O>(gs: seq<Group<O>>, o: O): nat {
    if gs == [] then 0 else Times(gs[0].1, o) + Grouped(gs[1..], o)
  }

  lemma {:induction false} PackGroupsCarries<O>(k: Kind, gs: seq<Group<O>>, n: nat, kind: Kind, o: O)
    requires n > 0
    ensures Carried(PackGroups(k, gs, n), kind, o) == if k == kind then Grouped(gs, o) else 0
  {
    if gs != [] {
      PackGroupsCarries(k, gs[1..], n, kind, o);
      ChunksSplit(gs[0].1, n);
      WrapCarries(k, gs[0].0, Chunks(gs[0].1, n), kind, o);
      CarriedAppend(Wrap(k, gs[0].0, Chunks(gs[0].1, n)), PackGroups(k, gs[1..], n), kind, o);
    }
  }

  lemma {:induction false} AddToGrouped<O>(gs: seq<Group<O>>, r: Request<O>, o: O)
    ensures Grouped(AddTo(gs, r), o) == Grouped(gs, o) + if r.order == o then 1 else 0
  {
    if gs == [] {
      assert AddTo(gs, r)[1..] == [];
      assert [r.order][1..] == [];
    } else if gs[0].0 == r.version {
      TimesAppend(gs[0].1, [r.order], o);
      assert [r.order][1..] == [];
    } else {
      AddToGrouped(gs[1..], r, o);
      assert AddTo(gs, r)[1..] == AddTo(gs[1..], r);
    }
  }

  lemma {:induction false} GroupsCarry<O>(rs: seq<Request<O>>, o: O)
    ensures Grouped(Groups(rs), o) == Asked(rs, o)
  {
    if rs != [] {
      GroupsCarry(rs[..|rs| - 1], o);
      AddToGrouped(Groups(rs[..|rs| - 1]), rs[|rs| - 1], o);
    }
  }

  lemma PackCarries<O>(k: Kind, rs: seq<Request<O>>, n: nat, kind: Kind, o: O)
    requires n > 0
    ensures Carried(Pack(k, rs, n), kind, o) == if k == kind then Asked(rs, o) else 0
  {
    GroupsCarry(rs, o);
    PackGroupsCarries(k, Groups(rs), n, kind, o);
  }

  /** The packages of an `execute` carry every order as often as it was requested. */
  lemma PackagesCarry<O>(t: Txn<O>, limits: OrderLimits, kind: Kind, o: O)
    requires limits.Positive()
    ensures Carried(Packages(t, limits), kind, o) == Asked(t.Of(kind), o)
  {
    hide Pack, Carried, Asked;
    var a, b := Pack(Place, t.place, limits.place), Pack(Cancel, t.cancel, limits.cancel);
    var c, d := Pack(Update, t.update, limits.update), Pack(Replace, t.replace, limits.replace);
    PackCarries(Place, t.place, limits.place, kind, o);
    PackCarries(Cancel, t.cancel, limits.cancel, kind, o);
    PackCarries(Update, t.update, limits.update, kind, o);
    PackCarries(Replace, t.replace, limits.replace, kind, o);
    CarriedAppend(a, b, kind, o);
    CarriedAppend(a + b, c, kind, o);
    CarriedAppend(a + b + c, d, kind, o);
  }

  // ----- the class

  /** Orders are compared by identity, so any type that stands for references will do. */
  class Transaction<O(==)> {
    const limits: OrderLimits
    var pendingOrders: bool
    var pendingPlace: seq<Request<O>>
    var pendingCancel: seq<Request<O>>
    var pendingUpdate: seq<Request<O>>
    var pendingReplace: seq<Request<O>>
    var processed: seq<Package<O>>  // packages handed to the framework

    function View(): State<O>
      reads this
    {
      (Txn(pendingOrders, pendingPlace, pendingCancel, pendingUpdate, pendingReplace), processed)
    }

    constructor (limits: OrderLimits)
      ensures this.limits == limits && View() == (EmptyTxn(), [])
    {
      this.limits := limits;
      pendingOrders := false;
      pendingPlace, pendingCancel, pendingUpdate, pendingReplace := [], [], [], [];
      processed := [];
    }

    /** With execute false the order is only put in the blotter: a replacement is already placed. */
    method PlaceOrder(order: O, version: Option<int>, execute: bool, accepted: bool) returns (ok: bool)
      requires limits.Positive()
      modifies this
      ensures View() == Act(old(View()), Ask(Place, Request(order, version), accepted && execute), limits)
      ensures ok == accepted
    {
      if !accepted {
        return false;
      }
      if execute {
        pendingPlace := pendingPlace + [Request(order, version)];
        pendingOrders := true;
      }
      return true;
    }

    method CancelOrder(order: O, accepted: bool) returns (ok: bool)
      requires limits.Positive()
      modifies this
      ensures View() == Act(old(View()), Ask(Cancel, Request(order, None), accepted), limits)
      ensures ok == accepted
    {
      if !accepted {
        return false;
      }
      pendingCancel := pendingCancel + [Request(order, None)];
      pendingOrders := true;
      return true;
    }

    method UpdateOrder(order: O, accepted: bool) returns (ok: bool)
      requires limits.Positive()
      modifies this
      ensures View() == Act(old(View()), Ask(Update, Request(order, None), accepted), limits)
      ensures ok == accepted
    {
      if !accepted {
        return false;
      }
      pendingUpdate := pendingUpdate + [Request(order, None)];
      pendingOrders := true;
      return true;
    }

    method ReplaceOrder(order: O, version: Option<int>, accepted: bool) returns (ok: bool)
      requires limits.Positive()
      modifies this
      ensures View() == Act(old(View()), Ask(Replace, Request(order, version), accepted), limits)
      ensures ok == accepted
    {
      if !accepted {
        return false;
      }
      pendingReplace := pendingReplace + [Request(order, version)];
      pendingOrders := true;
      return true;
    }

    method CreateOrderPackage(rs: seq<Request<O>>, kind: Kind) returns (packages: seq<Package<O>>)
      requires limits.Positive()
      ensures packages == Pack(kind, rs, limits.Of(kind))
    {
      hide Chunks, AddTo, PackGroups, Wrap;
      var groups := GroupByVersion(rs);
      // create packages, chunked by limit
      packages := [];
      assert groups[0..] == groups;
      for i := 0 to |groups|
        invariant packages + PackGroups(kind, groups[i..], limits.Of(kind)) == PackGroups(kind, groups, limits.Of(kind))
      {
        var chunks := ComputeChunks(groups[i].1, limits.Of(kind));
        var more := CreatePackages(kind, groups[i].0, chunks);
        PackStep(kind, groups, i, limits.Of(kind));
        packages := packages + more;
      }
      PackNothing(kind, groups, limits.Of(kind));
    }

    method GroupByVersion(rs: seq<Request<O>>) returns (groups: seq<Group<O>>)
      ensures groups == Groups(rs)
    {
      groups := [];
      for i := 0 to |rs|
        invariant groups == Groups(rs[..i])
      {
        assert rs[..i + 1][..i] == rs[..i];
        groups := AddTo(groups, rs[i]);
      }
      assert rs[..|rs|] == rs;
    }

    method CreatePackages(kind: Kind, version: Option<int>, chunks: seq<seq<O>>) returns (packages: seq<Package<O>>)
      ensures packages == Wrap(kind, version, chunks)
    {
      packages := [];
      for j := 0 to |chunks|
        invariant packages == Wrap(kind, version, chunks)[..j]
      {
        packages := packages + [Package(kind, chunks[j], version)];
      }
    }

    method Execute() returns (count: nat)
      requires limits.Positive()
      modifies this
      ensures View() == Act(old(View()), Action.Execute, limits)
      ensures count == |processed| - |old(processed)|
    {
      hide Pack;
      PackIsEmpty(Place, pendingPlace, limits.place);
      PackIsEmpty(Cancel, pendingCancel, limits.cancel);
      PackIsEmpty(Update, pendingUpdate, limits.update);
      PackIsEmpty(Replace, pendingReplace, limits.replace);
      var packages := [];
      if pendingPlace != [] {
        packages := CreateOrderPackage(pendingPlace, Place);
        pendingPlace := [];
      }
      if pendingCancel != [] {
        var more := CreateOrderPackage(pendingCancel, Cancel);
        packages := packages + more;
        pendingCancel := [];
      }
      if pendingUpdate != [] {
        var more := CreateOrderPackage(pendingUpdate, Update);
        packages := packages + more;
        pendingUpdate := [];
      }
      if pendingReplace != [] {
        var more := CreateOrderPackage(pendingReplace, Replace);
        packages := packages + more;
        pendingReplace := [];
      }
      assert packages == Packages(old(View()).0, limits);
      if packages != [] {
        processed := processed + packages;
        pendingOrders := false;
      } else {
        assert processed + packages == processed;
      }
      return |packages|;
    }

    method Exit()
      requires limits.Positive()
      modifies this
      ensures View() == Act(old(View()), Action.Exit, limits)
    {
      if pendingOrders {
        var _ := Execute();
      }
    }
  }
}
