/** The relay's membership database: per-endpoint filters and the indexes derived from them. */
module RelayState {
  import opened Bytes
  import opened Interest

  datatype Subscription = Asm(group: IpAddr) | Ssm(group: IpAddr, source: IpAddr)

  type Endpoints = map<SocketAddr, Groups>

  // ---- what the endpoints ask for ----

  predicate Listens(eps: Endpoints, e: SocketAddr, g: IpAddr) {
    e in eps && g in eps[e]
  }

  predicate Excluder(eps: Endpoints, e: SocketAddr, g: IpAddr) {
    Listens(eps, e, g) && eps[e][g].mode.Exclude?
  }

  predicate Includer(eps: Endpoints, e: SocketAddr, g: IpAddr, s: IpAddr) {
    Listens(eps, e, g) && eps[e][g].mode.Include? && s in eps[e][g].sources
  }

  predicate EndpointWants(eps: Endpoints, e: SocketAddr, g: IpAddr, s: IpAddr) {
    e in eps && Wants(eps[e], g, s)
  }

  ghost predicate Wanted(eps: Endpoints, g: IpAddr, s: IpAddr) {
    exists e :: EndpointWants(eps, e, g, s)
  }

  ghost predicate AnyExcluder(eps: Endpoints, g: IpAddr) {
    exists e :: Excluder(eps, e, g)
  }

  ghost predicate AnyIncluder(eps: Endpoints, g: IpAddr, s: IpAddr) {
    exists e :: Includer(eps, e, g, s)
  }

  /** No endpoint without groups, no Include filter without sources. */
  ghost predicate WellFormed(eps: Endpoints) {
    forall e :: e in eps ==> eps[e] != map[] && NoEmptyInclude(eps[e])
  }

  /** The native joins the merge rule asks for (section 3.2 of RFC 3376, section 4.2 of RFC 3810):
      any-source for a group somebody excludes in, otherwise one join per included source. */
  ghost function Subscriptions(eps: Endpoints): set<Subscription> {
    (set e, g | e in eps && g in eps[e] && Excluder(eps, e, g) :: Asm(g))
    + (set e, g, s | e in eps && g in eps[e] && s in eps[e][g].sources && Includer(eps, e, g, s) && !AnyExcluder(eps, g)
       :: Ssm(g, s))
  }

  lemma SubscriptionsExact(eps: Endpoints, g: IpAddr, s: IpAddr)
    ensures Asm(g) in Subscriptions(eps) <==> AnyExcluder(eps, g)
    ensures Ssm(g, s) in Subscriptions(eps) <==> !AnyExcluder(eps, g) && AnyIncluder(eps, g, s)
  {
  }

  ghost function Pairs(eps: Endpoints): set<(SocketAddr, IpAddr)> {
    set e, g | e in eps && g in eps[e] :: (e, g)
  }

  ghost function Triples(eps: Endpoints): set<(SocketAddr, IpAddr, IpAddr)> {
    set e, g, s | e in eps && g in eps[e] && s in eps[e][g].sources :: (e, g, s)
  }

  // ---- the database with its indexes ----

  datatype State = State(
    endpoints: Endpoints,
    forwarding: map<IpAddr, set<SocketAddr>>,
    aggregate: Groups,
    subscriptions: set<Subscription>,
    totalEndpointGroups: nat,
    totalSources: nat)

  ghost predicate ForwardingOk(eps: Endpoints, forwarding: map<IpAddr, set<SocketAddr>>) {
    && (forall e, g :: Listens(eps, e, g) ==> g in forwarding && e in forwarding[g])
    && (forall g :: g in forwarding ==> forwarding[g] != {})
    && (forall g, e :: g in forwarding && e in forwarding[g] ==> Listens(eps, e, g))
  }

  /** The aggregate filter of a group passes exactly the sources some endpoint passes. */
  ghost predicate AggregateOk(eps: Endpoints, aggregate: Groups) {
    && (forall g, s :: Wants(aggregate, g, s) <==> Wanted(eps, g, s))
    && (forall g :: g in aggregate && aggregate[g].mode.Exclude? <==> AnyExcluder(eps, g))
    && NoEmptyInclude(aggregate)
  }

  /** Every index agrees with the endpoint filters it is derived from. */
  ghost predicate Indexed(st: State) {
    && ForwardingOk(st.endpoints, st.forwarding)
    && AggregateOk(st.endpoints, st.aggregate)
    && st.subscriptions == Subscriptions(st.endpoints)
    && st.totalEndpointGroups == |Pairs(st.endpoints)|
    && st.totalSources == |Triples(st.endpoints)|
  }

  ghost predicate ValidState(st: State) {
    WellFormed(st.endpoints) && Indexed(st)
  }

  /** The endpoint filters determine every index, so restoring them restores the whole state. */
  lemma IndexesDetermined(a: State, b: State)
    requires Indexed(a) && Indexed(b) && a.endpoints == b.endpoints
    ensures a == b
  {
    forall g
      ensures g in a.forwarding <==> g in b.forwarding
      ensures g in a.forwarding ==> a.forwarding[g] == b.forwarding[g]
    {
      if g in a.forwarding {
        var e :| e in a.forwarding[g];
        assert Listens(b.endpoints, e, g);
      }
      if g in b.forwarding {
        var e :| e in b.forwarding[g];
        assert Listens(a.endpoints, e, g);
      }
    }
    assert a.forwarding == b.forwarding;
    AggregateDetermined(a.endpoints, a.aggregate, b.aggregate);
  }

  lemma AggregateDetermined(eps: Endpoints, a: Groups, b: Groups)
    requires AggregateOk(eps, a) && AggregateOk(eps, b)
    ensures a == b
  {
    forall g
      ensures g in a <==> g in b
      ensures g in a ==> a[g] == b[g]
    {
      AggregateEntry(eps, a, b, g);
      AggregateEntry(eps, b, a, g);
    }
  }

  lemma AggregateEntry(eps: Endpoints, a: Groups, b: Groups, g: IpAddr)
    requires AggregateOk(eps, a) && AggregateOk(eps, b)
    ensures g in a ==> g in b && a[g] == b[g]
  {
    if g in a {
      if a[g].mode.Include? {
        var s :| s in a[g].sources;
        assert Wants(a, g, s);
        assert Wants(b, g, s);
      }
      assert a[g].mode == b[g].mode;
      forall s
        ensures s in a[g].sources <==> s in b[g].sources
      {
        assert Wants(a, g, s) <==> Wants(b, g, s);
      }
      assert a[g].sources == b[g].sources;
    }
  }

  // ---- rebuilding the indexes ----

  /** What `rebuild_indexes` accumulates for one group while it walks the endpoints. */
  datatype GroupSummary = GroupSummary(includeSources: set<IpAddr>, excludeSources: Option<set<IpAddr>>) {
    function Apply(interest: GroupInterest): GroupSummary {
      match interest.mode
      case Include => this.(includeSources := includeSources + interest.sources)
      case Exclude =>
        if excludeSources.Some? then this.(excludeSources := Some(excludeSources.value * interest.sources))
        else this.(excludeSources := Some(interest.sources))
    }

    function IntoInterest(): Option<GroupInterest> {
      if excludeSources.Some? then Some(GroupInterest(Exclude, excludeSources.value - includeSources))
      else if includeSources != {} then Some(GroupInterest(Include, includeSources))
      else None
    }
  }

  const EMPTY_SUMMARY := GroupSummary({}, None)

  /** `summary` is the merge of the filters of the endpoints in `seen`: union of what is included,
      intersection of what is excluded. */
  ghost predicate SummaryOf(eps: Endpoints, g: IpAddr, seen: set<SocketAddr>, summary: GroupSummary) {
    && (forall s :: s in summary.includeSources <==> exists e :: e in seen && Includer(eps, e, g, s))
    && (summary.excludeSources.None? <==> forall e :: e in seen ==> !Excluder(eps, e, g))
    && (summary.excludeSources.Some? ==>
          forall s :: s in summary.excludeSources.value
                 <==> forall e :: e in seen && Excluder(eps, e, g) ==> s in eps[e][g].sources)
  }

  lemma SummaryStep(eps: Endpoints, g: IpAddr, seen: set<SocketAddr>, summary: GroupSummary, e: SocketAddr)
    requires SummaryOf(eps, g, seen, summary) && Listens(eps, e, g)
    ensures SummaryOf(eps, g, seen + {e}, summary.Apply(eps[e][g]))
  {
  }

  /** A complete summary turns into the filter that passes what some endpoint passes. */
  lemma SummaryMeaning(eps: Endpoints, g: IpAddr, seen: set<SocketAddr>, summary: GroupSummary, s: IpAddr)
    requires SummaryOf(eps, g, seen, summary)
    requires forall e :: Listens(eps, e, g) ==> e in seen
    ensures summary.excludeSources.Some? <==> AnyExcluder(eps, g)
    ensures summary.IntoInterest().Some? && summary.IntoInterest().value.Wants(s) <==> Wanted(eps, g, s)
  {
    if summary.excludeSources.Some? {
      var e :| e in seen && Excluder(eps, e, g);
      if s !in summary.excludeSources.value {
        var f :| f in seen && Excluder(eps, f, g) && s !in eps[f][g].sources;
        assert EndpointWants(eps, f, g, s);
      }
    }
    if s in summary.includeSources {
      var e :| e in seen && Includer(eps, e, g, s);
      assert EndpointWants(eps, e, g, s);
    }
    if Wanted(eps, g, s) {
      var e :| EndpointWants(eps, e, g, s);
      assert Listens(eps, e, g);
      assert Excluder(eps, e, g) || Includer(eps, e, g, s);
    }
  }

  /** The progress of the walk: exactly the listens in `done` have reached the maps. */
  ghost predicate Walked(eps: Endpoints, done: set<(SocketAddr, IpAddr)>,
                         forwarding: map<IpAddr, set<SocketAddr>>, groups: map<IpAddr, GroupSummary>) {
    && forwarding.Keys == groups.Keys
    && (forall g :: g in forwarding ==> forwarding[g] != {})
    && (forall g, e :: g in forwarding && e in forwarding[g] ==> (e, g) in done && Listens(eps, e, g))
    && (forall e, g :: (e, g) in done ==> g in forwarding && e in forwarding[g])
    && (forall g :: g in groups ==> SummaryOf(eps, g, forwarding[g], groups[g]))
  }

  lemma WalkStep(eps: Endpoints, done: set<(SocketAddr, IpAddr)>,
                 forwarding: map<IpAddr, set<SocketAddr>>, groups: map<IpAddr, GroupSummary>, e: SocketAddr, g: IpAddr)
    requires Walked(eps, done, forwarding, groups) && Listens(eps, e, g)
    ensures var seen := if g in forwarding then forwarding[g] else {};
            var summary := if g in groups then groups[g] else EMPTY_SUMMARY;
            Walked(eps, done + {(e, g)}, forwarding[g := seen + {e}], groups[g := summary.Apply(eps[e][g])])
  {
    hide SummaryOf, GroupSummary.Apply;
    var seen := if g in forwarding then forwarding[g] else {};
    var summary := if g in groups then groups[g] else EMPTY_SUMMARY;
    NothingSummed(eps, g);
    SummaryStep(eps, g, seen, summary, e);
  }

  lemma NothingSummed(eps: Endpoints, g: IpAddr)
    ensures SummaryOf(eps, g, {}, EMPTY_SUMMARY)
  {
  }

  ghost function PairsOf(e: SocketAddr, gs: set<IpAddr>): set<(SocketAddr, IpAddr)> {
    set g | g in gs :: (e, g)
  }

  ghost function TriplesOf(e: SocketAddr, g: IpAddr, ss: set<IpAddr>): set<(SocketAddr, IpAddr, IpAddr)> {
    set s | s in ss :: (e, g, s)
  }

  lemma {:induction false} PairsOfSize(e: SocketAddr, gs: set<IpAddr>)
    ensures |PairsOf(e, gs)| == |gs|
  {
    if gs != {} {
      var g :| g in gs;
      PairsOfSize(e, gs - {g});
      assert PairsOf(e, gs) == PairsOf(e, gs - {g}) + {(e, g)};
    }
  }

  lemma {:induction false} TriplesOfSize(e: SocketAddr, g: IpAddr, ss: set<IpAddr>)
    ensures |TriplesOf(e, g, ss)| == |ss|
  {
    if ss != {} {
      var s :| s in ss;
      TriplesOfSize(e, g, ss - {s});
      assert TriplesOf(e, g, ss) == TriplesOf(e, g, ss - {s}) + {(e, g, s)};
    }
  }

  /** The sources one endpoint lists for the groups in `gs`. */
  ghost function TriplesIn(e: SocketAddr, groups: Groups, gs: set<IpAddr>): set<(SocketAddr, IpAddr, IpAddr)> {
    set g, s | g in gs && g in groups && s in groups[g].sources :: (e, g, s)
  }

  lemma TriplesInStep(e: SocketAddr, groups: Groups, gs: set<IpAddr>, g: IpAddr)
    requires g in groups && g !in gs
    ensures |TriplesIn(e, groups, gs + {g})| == |TriplesIn(e, groups, gs)| + |groups[g].sources|
  {
    TriplesOfSize(e, g, groups[g].sources);
    assert TriplesIn(e, groups, gs + {g}) == TriplesIn(e, groups, gs) + TriplesOf(e, g, groups[g].sources);
  }

  lemma NoneOf(e: SocketAddr, groups: Groups)
    ensures PairsOf(e, {}) == {} && TriplesIn(e, groups, {}) == {}
  {
  }

  lemma PairsOfStep(e: SocketAddr, gs: set<IpAddr>, g: IpAddr)
    ensures PairsOf(e, gs + {g}) == PairsOf(e, gs) + {(e, g)}
  {
  }

  /** The walk over one endpoint's groups. */
  method WalkEndpoint(eps: Endpoints, e: SocketAddr, ghost done: set<(SocketAddr, IpAddr)>,
                      forwarding0: map<IpAddr, set<SocketAddr>>, groups0: map<IpAddr, GroupSummary>)
    returns (forwarding: map<IpAddr, set<SocketAddr>>, groups: map<IpAddr, GroupSummary>, sources: nat)
    requires e in eps && Walked(eps, done, forwarding0, groups0)
    ensures Walked(eps, done + PairsOf(e, eps[e].Keys), forwarding, groups)
    ensures sources == |TriplesIn(e, eps[e], eps[e].Keys)|
  {
    hide Walked, TriplesIn, PairsOf, GroupSummary.Apply;
    forwarding, groups, sources := forwarding0, groups0, 0;
    NoneOf(e, eps[e]);
    var todo := eps[e].Keys;
    ghost var seen: set<IpAddr> := {};
    assert done + PairsOf(e, {}) == done;
    while todo != {}
      invariant seen + todo == eps[e].Keys && seen !! todo
      invariant Walked(eps, done + PairsOf(e, seen), forwarding, groups)
      invariant sources == |TriplesIn(e, eps[e], seen)|
      decreases todo
    {
      var g :| g in todo;
      var interest := eps[e][g];
      TriplesInStep(e, eps[e], seen, g);
      sources := sources + |interest.sources|;
      WalkStep(eps, done + PairsOf(e, seen), forwarding, groups, e, g);
      PairsOfStep(e, seen, g);
      assert done + PairsOf(e, seen + {g}) == done + PairsOf(e, seen) + {(e, g)};
      forwarding := forwarding[g := (if g in forwarding then forwarding[g] else {}) + {e}];
      groups := groups[g := (if g in groups then groups[g] else EMPTY_SUMMARY).Apply(interest)];
      seen := seen + {g};
      todo := todo - {g};
    }
    assert seen == eps[e].Keys;
  }

  ghost function Restrict(eps: Endpoints, es: set<SocketAddr>): Endpoints {
    map e | e in eps && e in es :: eps[e]
  }

  lemma RestrictPairs(eps: Endpoints, es: set<SocketAddr>, e: SocketAddr)
    requires e in eps && e !in es
    ensures Pairs(Restrict(eps, es + {e})) == Pairs(Restrict(eps, es)) + PairsOf(e, eps[e].Keys)
    ensures |Pairs(Restrict(eps, es + {e}))| == |Pairs(Restrict(eps, es))| + |eps[e]|
  {
    var before, added := Pairs(Restrict(eps, es)), PairsOf(e, eps[e].Keys);
    assert before !! added;
    assert Pairs(Restrict(eps, es + {e})) == before + added;
    PairsOfSize(e, eps[e].Keys);
  }

  lemma RestrictTriples(eps: Endpoints, es: set<SocketAddr>, e: SocketAddr)
    requires e in eps && e !in es
    ensures |Triples(Restrict(eps, es + {e}))| == |Triples(Restrict(eps, es))| + |TriplesIn(e, eps[e], eps[e].Keys)|
  {
    var before, added := Triples(Restrict(eps, es)), TriplesIn(e, eps[e], eps[e].Keys);
    assert before !! added;
    assert Triples(Restrict(eps, es + {e})) == before + added;
  }

  /** Every index of the database, recomputed from the endpoint filters alone. */
  method BuildIndexes(eps: Endpoints) returns (st: State)
    ensures st.endpoints == eps && Indexed(st)
  {
    hide Walked, Pairs, Triples, TriplesIn;
    var forwarding: map<IpAddr, set<SocketAddr>> := map[];
    var groups: map<IpAddr, GroupSummary> := map[];
    var totalEndpointGroups, totalSources := 0, 0;
    var todo := eps.Keys;
    ghost var done: set<SocketAddr> := {};
    NothingWalked(eps);
    while todo != {}
      invariant done + todo == eps.Keys && done !! todo
      invariant Walked(eps, Pairs(Restrict(eps, done)), forwarding, groups)
      invariant totalEndpointGroups == |Pairs(Restrict(eps, done))|
      invariant totalSources == |Triples(Restrict(eps, done))|
      decreases todo
    {
      var e :| e in todo;
      totalEndpointGroups := totalEndpointGroups + |eps[e]|;
      var sources;
      forwarding, groups, sources := WalkEndpoint(eps, e, Pairs(Restrict(eps, done)), forwarding, groups);
      totalSources := totalSources + sources;
      RestrictPairs(eps, done, e);
      RestrictTriples(eps, done, e);
      done := done + {e};
      todo := todo - {e};
    }
    assert Restrict(eps, done) == eps;
    var aggregate := map g | g in groups && groups[g].IntoInterest().Some? :: groups[g].IntoInterest().value;
    var subscriptions := (set g | g in aggregate && aggregate[g].mode.Exclude? :: Asm(g))
      + (set g, s | g in aggregate && aggregate[g].mode.Include? && s in aggregate[g].sources :: Ssm(g, s));
    st := State(eps, forwarding, aggregate, subscriptions, totalEndpointGroups, totalSources);
    WalkedForwarding(eps, forwarding, groups);
    WalkedAggregate(eps, forwarding, groups, aggregate);
    SubscriptionsFromAggregate(eps, aggregate, subscriptions);
  }

  lemma NothingWalked(eps: Endpoints)
    ensures Walked(eps, Pairs(Restrict(eps, {})), map[], map[])
    ensures |Pairs(Restrict(eps, {}))| == 0 && |Triples(Restrict(eps, {}))| == 0
  {
  }

  lemma WalkedForwarding(eps: Endpoints, forwarding: map<IpAddr, set<SocketAddr>>, groups: map<IpAddr, GroupSummary>)
    requires Walked(eps, Pairs(eps), forwarding, groups)
    ensures ForwardingOk(eps, forwarding)
  {
    hide SummaryOf;
    forall e, g | Listens(eps, e, g)
      ensures g in forwarding && e in forwarding[g]
    {
      assert (e, g) in Pairs(eps);
    }
  }

  lemma WalkedAggregate(eps: Endpoints, forwarding: map<IpAddr, set<SocketAddr>>, groups: map<IpAddr, GroupSummary>,
                        aggregate: Groups)
    requires Walked(eps, Pairs(eps), forwarding, groups)
    requires aggregate == map g | g in groups && groups[g].IntoInterest().Some? :: groups[g].IntoInterest().value
    ensures AggregateOk(eps, aggregate)
  {
    hide Walked, Wanted, AnyExcluder;
    forall g, s
      ensures Wants(aggregate, g, s) <==> Wanted(eps, g, s)
    {
      WalkedGroup(eps, forwarding, groups, g, s);
    }
    forall g
      ensures g in aggregate && aggregate[g].mode.Exclude? <==> AnyExcluder(eps, g)
    {
      WalkedGroup(eps, forwarding, groups, g, V4([0, 0, 0, 0]));
    }
  }

  lemma WalkedGroup(eps: Endpoints, forwarding: map<IpAddr, set<SocketAddr>>, groups: map<IpAddr, GroupSummary>,
                    g: IpAddr, s: IpAddr)
    requires Walked(eps, Pairs(eps), forwarding, groups)
    ensures g in groups && groups[g].excludeSources.Some? <==> AnyExcluder(eps, g)
    ensures g in groups && groups[g].IntoInterest().Some? && groups[g].IntoInterest().value.Wants(s) <==> Wanted(eps,
        g, s)
  {
    forall e | Listens(eps, e, g)
      ensures g in forwarding && e in forwarding[g]
    {
      assert (e, g) in Pairs(eps);
    }
    if g in groups {
      SummaryMeaning(eps, g, forwarding[g], groups[g], s);
    } else {
      NobodyListens(eps, g, s);
    }
  }

  lemma NobodyListens(eps: Endpoints, g: IpAddr, s: IpAddr)
    requires forall e :: !Listens(eps, e, g)
    ensures !Wanted(eps, g, s) && !AnyExcluder(eps, g)
  {
    forall e
      ensures !EndpointWants(eps, e, g, s)
    {
      assert !Listens(eps, e, g);
    }
  }

  lemma SubscriptionsFromAggregate(eps: Endpoints, aggregate: Groups, subs: set<Subscription>)
    requires AggregateOk(eps, aggregate)
    requires subs == (set g | g in aggregate && aggregate[g].mode.Exclude? :: Asm(g))
                     + (set g, s | g in aggregate && aggregate[g].mode.Include? && s in aggregate[g].sources :: Ssm(g,
                         s))
    ensures subs == Subscriptions(eps)
  {
    forall sub
      ensures sub in subs <==> sub in Subscriptions(eps)
    {
      match sub
      case Asm(g) => SubscriptionsExact(eps, g, V4([0, 0, 0, 0]));
      case Ssm(g, s) =>
        SubscriptionsExact(eps, g, s);
        IncludedMeansWanted(eps, g, s);
        assert Wants(aggregate, g, s) <==> Wanted(eps, g, s);
    }
  }

  lemma IncludedMeansWanted(eps: Endpoints, g: IpAddr, s: IpAddr)
    ensures AnyIncluder(eps, g, s) ==> Wanted(eps, g, s)
    ensures Wanted(eps, g, s) ==> AnyIncluder(eps, g, s) || AnyExcluder(eps, g)
  {
    if AnyIncluder(eps, g, s) {
      var e :| Includer(eps, e, g, s);
      assert EndpointWants(eps, e, g, s);
    }
    if Wanted(eps, g, s) {
      var e :| EndpointWants(eps, e, g, s);
      assert Includer(eps, e, g, s) || Excluder(eps, e, g);
    }
  }
}
