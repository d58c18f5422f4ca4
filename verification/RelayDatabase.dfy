/** Transactions on the relay's membership database and the limits they keep. */
module RelayDatabase {
  import opened Bytes
  import opened Interest
  import opened RelayState

  function EntryOf(eps: Endpoints, e: SocketAddr): Groups {
    if e in eps then eps[e] else map[]
  }

  /** An endpoint is present exactly while it listens to something. */
  function SetEntry(eps: Endpoints, e: SocketAddr, groups: Groups): Endpoints {
    if groups == map[] then eps - {e} else eps[e := groups]
  }

  /** The endpoint filters after a report from `e`. */
  function AfterReport(eps: Endpoints, e: SocketAddr, report: MembershipReport): Endpoints {
    SetEntry(eps, e, ApplyAll(EntryOf(eps, e), report.records))
  }

  lemma AfterReportWellFormed(eps: Endpoints, e: SocketAddr, report: MembershipReport)
    requires WellFormed(eps)
    ensures WellFormed(AfterReport(eps, e, report))
  {
    ApplyAllWellFormed(EntryOf(eps, e), report.records);
  }

  // ---- limits ----

  datatype RelayLimits = RelayLimits(
    maxEndpoints: nat,
    maxEndpointsPerIp: nat,
    maxGroupsPerEndpoint: nat,
    maxSourcesPerGroup: nat,
    maxTotalEndpointGroups: nat,
    maxTotalSources: nat,
    maxUpstreamSubscriptions: nat,
    maxRecordsPerReport: nat)

  datatype LimitError = LimitError(resource: string, requested: nat, limit: nat)

  function CheckLimit(resource: string, requested: nat, limit: nat): Option<LimitError> {
    if requested <= limit then None else Some(LimitError(resource, requested, limit))
  }

  function OrElse(first: Option<LimitError>, second: Option<LimitError>): Option<LimitError> {
    if first.Some? then first else second
  }

  function AtIp(eps: Endpoints, ip: IpAddr): set<SocketAddr> {
    set e | e in eps && e.ip == ip
  }

  /** Every limit but the one on native subscriptions, over the whole database. */
  ghost predicate WithinLimits(eps: Endpoints, limits: RelayLimits) {
    && |eps| <= limits.maxEndpoints
    && (forall ip :: |AtIp(eps, ip)| <= limits.maxEndpointsPerIp)
    && (forall e :: e in eps ==> |eps[e]| <= limits.maxGroupsPerEndpoint)
    && (forall e, g :: Listens(eps, e, g) ==> |eps[e][g].sources| <= limits.maxSourcesPerGroup)
    && |Pairs(eps)| <= limits.maxTotalEndpointGroups
    && |Triples(eps)| <= limits.maxTotalSources
  }

  predicate IsMostSources(groups: Groups, n: nat) {
    && (forall g :: g in groups ==> |groups[g].sources| <= n)
    && (n == 0 || exists g :: g in groups && |groups[g].sources| == n)
  }

  /** The longest source list of one endpoint. */
  ghost function MostSources(groups: Groups): (n: nat)
    ensures IsMostSources(groups, n)
  {
    if groups == map[] then 0
    else
      var g :| g in groups;
      var rest := MostSources(groups - {g});
      var own := |groups[g].sources|;
      assert rest == 0 || exists h :: h in groups && |groups[h].sources| == rest by {
        if rest != 0 {
          var h :| h in groups - {g} && |(groups - {g})[h].sources| == rest;
          assert h in groups;
        }
      }
      assert forall h :: h in groups && h != g ==> h in groups - {g};
      if own >= rest then own else rest
  }

  /** The limit checks that follow a tentative update, in the order they are made. */
  function CheckAll(eps: Endpoints, e: SocketAddr, limits: RelayLimits, mostSources: nat,
                    totalEndpointGroups: nat, totalSources: nat, subscriptions: nat): Option<LimitError> {
    OrElse(CheckLimit("endpoints", |eps|, limits.maxEndpoints),
    OrElse(CheckLimit("endpoints per source IP", |AtIp(eps, e.ip)|, limits.maxEndpointsPerIp),
    OrElse(CheckLimit("groups per endpoint", |EntryOf(eps, e)|, limits.maxGroupsPerEndpoint),
    OrElse(CheckLimit("sources per endpoint group", mostSources, limits.maxSourcesPerGroup),
    OrElse(CheckLimit("total endpoint groups", totalEndpointGroups, limits.maxTotalEndpointGroups),
    OrElse(CheckLimit("total sources", totalSources, limits.maxTotalSources),
           CheckLimit("upstream subscriptions", subscriptions, limits.maxUpstreamSubscriptions)))))))
  }

  function CheckRecords(records: seq<MembershipRecord>, limit: nat): Option<LimitError> {
    match FirstOver(records, limit)
    case None => None
    case Some(n) => Some(LimitError("sources per group", n, limit))
  }

  /** Whether a report is accepted, as a function of the database before it. */
  ghost function Accepts(eps: Endpoints, e: SocketAddr, report: MembershipReport, limits: RelayLimits): Result<nat,
                        LimitError> {
    var next := AfterReport(eps, e, report);
    var error :=
      OrElse(CheckLimit("records per report", |report.records|, limits.maxRecordsPerReport),
      OrElse(CheckRecords(report.records, limits.maxSourcesPerGroup),
             CheckAll(next, e, limits, MostSources(EntryOf(next, e)), |Pairs(next)|, |Triples(next)|,
                 |Subscriptions(next)|)));
    if error.Some? then Err(error.value) else Ok(AppliedCount(EntryOf(eps, e), report.records))
  }

  // ---- the database object ----

  class Database {
    var endpoints: Endpoints
    var forwarding: map<IpAddr, set<SocketAddr>>
    var aggregate: Groups
    var subscriptions: set<Subscription>
    var totalEndpointGroups: nat
    var totalSources: nat

    ghost function View(): State
      reads this
    {
      State(endpoints, forwarding, aggregate, subscriptions, totalEndpointGroups, totalSources)
    }

    ghost predicate Valid()
      reads this
    {
      ValidState(View())
    }

    constructor ()
      ensures Valid() && endpoints == map[]
    {
      endpoints, forwarding, aggregate, subscriptions := map[], map[], map[], {};
      totalEndpointGroups, totalSources := 0, 0;
      new;
      EmptyValid(View());
    }

    /** `clone`: the candidate an update works on. */
    constructor Clone(other: Database)
      requires other.Valid()
      ensures Valid() && View() == other.View()
    {
      endpoints, forwarding, aggregate, subscriptions :=
        other.endpoints, other.forwarding, other.aggregate, other.subscriptions;
      totalEndpointGroups, totalSources := other.totalEndpointGroups, other.totalSources;
    }

    method RebuildIndexes()
      modifies this
      ensures endpoints == old(endpoints) && Indexed(View())
    {
      var st := BuildIndexes(endpoints);
      forwarding, aggregate, subscriptions := st.forwarding, st.aggregate, st.subscriptions;
      totalEndpointGroups, totalSources := st.totalEndpointGroups, st.totalSources;
      assert View() == st;
    }

    /** What a report would do, without doing it. */
    method PreviewReport(endpoint: SocketAddr, report: MembershipReport) returns (applied: nat, changed: bool)
      requires Valid()
      ensures applied == AppliedCount(EntryOf(endpoints, endpoint), report.records)
      ensures changed <==> AfterReport(endpoints, endpoint, report) != endpoints
    {
      var current := EntryOf(endpoints, endpoint);
      if report.records == [] {
        assert AfterReport(endpoints, endpoint, report) == endpoints;
        return 0, false;
      }
      var candidate;
      candidate, applied := ApplyRecords(current, report.records);
      changed := if candidate == map[] then endpoint in endpoints
                 else endpoint !in endpoints || endpoints[endpoint] != candidate;
      EntryChange(endpoints, endpoint, candidate);
    }

    method ApplyReport(endpoint: SocketAddr, report: MembershipReport) returns (applied: nat)
      requires Valid()
      modifies this
      ensures Valid()
      ensures endpoints == AfterReport(old(endpoints), endpoint, report)
      ensures applied == AppliedCount(EntryOf(old(endpoints), endpoint), report.records)
    {
      AfterReportWellFormed(endpoints, endpoint, report);
      if report.records == [] {
        EntryChange(endpoints, endpoint, EntryOf(endpoints, endpoint));
        return 0;
      }
      var state;
      state, applied := ApplyRecords(EntryOf(endpoints, endpoint), report.records);
      if state == map[] {
        endpoints := endpoints - {endpoint};
      } else {
        endpoints := endpoints[endpoint := state];
      }
      RebuildIndexes();
    }

    /** The transactional update: on success every limit has been checked against the new state, on
        failure nothing has changed, indexes included. */
    method ApplyReportLimited(endpoint: SocketAddr, report: MembershipReport, limits: RelayLimits)
      returns (r: Result<nat, LimitError>)
      requires Valid()
      modifies this
      ensures Valid()
      ensures r.Err? ==> View() == old(View())
      ensures r.Ok? ==> endpoints == AfterReport(old(endpoints), endpoint, report)
                        && r.value == AppliedCount(EntryOf(old(endpoints), endpoint), report.records)
      ensures r == Accepts(old(endpoints), endpoint, report, limits)
    {
      hide Indexed, CheckAll, MostSources, AppliedCount, WellFormed, Subscriptions, Pairs, Triples;
      if |report.records| > limits.maxRecordsPerReport {
        return Err(LimitError("records per report", |report.records|, limits.maxRecordsPerReport));
      }
      var tooLong := LongRecord(report.records, limits.maxSourcesPerGroup);
      if tooLong.Some? {
        return Err(tooLong.value);
      }
      ghost var start := View();
      var previous := if endpoint in endpoints then Some(endpoints[endpoint]) else None;
      var applied := ApplyReport(endpoint, report);
      CountersOf(View());
      var mostSources := FindMostSources(EntryOf(endpoints, endpoint));
      var error := CheckAll(endpoints, endpoint, limits, mostSources, totalEndpointGroups, totalSources,
          |subscriptions|);
      if error.Some? {
        RestoredEntry(start.endpoints, endpoint, report);
        match previous {
          case Some(p) => endpoints := endpoints[endpoint := p];
          case None => endpoints := endpoints - {endpoint};
        }
        RebuildIndexes();
        IndexesDetermined(View(), start);
        return Err(error.value);
      }
      return Ok(applied);
    }

    method RemoveEndpoint(endpoint: SocketAddr) returns (removed: bool)
      requires Valid()
      modifies this
      ensures Valid()
      ensures removed == (endpoint in old(endpoints))
      ensures endpoints == old(endpoints) - {endpoint}
    {
      removed := endpoint in endpoints;
      if removed {
        endpoints := endpoints - {endpoint};
        RebuildIndexes();
      } else {
        assert endpoints - {endpoint} == endpoints;
      }
    }

    /** The endpoints a packet is forwarded to, found through the forwarding index. */
    method MatchingEndpoints(source: IpAddr, group: IpAddr) returns (r: set<SocketAddr>)
      requires Valid()
      ensures forall e :: e in r <==> EndpointWants(endpoints, e, group, source)
    {
      if group in forwarding {
        r := set e | e in forwarding[group] && EndpointWants(endpoints, e, group, source);
      } else {
        r := {};
      }
      forall e | EndpointWants(endpoints, e, group, source)
        ensures e in r
      {
        assert Listens(endpoints, e, group);
      }
    }
  }

  // ---- helpers of the methods ----

  lemma EmptyValid(st: State)
    requires st == State(map[], map[], map[], {}, 0, 0)
    ensures ValidState(st)
  {
  }

  lemma EntryChange(eps: Endpoints, e: SocketAddr, groups: Groups)
    requires WellFormed(eps)
    ensures SetEntry(eps, e, groups) == eps <==>
              if groups == map[] then e !in eps else e in eps && eps[e] == groups
  {
  }

  lemma CountersOf(st: State)
    requires Indexed(st)
    ensures st.totalEndpointGroups == |Pairs(st.endpoints)| && st.totalSources == |Triples(st.endpoints)|
    ensures st.subscriptions == Subscriptions(st.endpoints)
  {
  }

  /** Putting the previous entry back undoes an update. */
  lemma RestoredEntry(eps: Endpoints, e: SocketAddr, report: MembershipReport)
    ensures e in eps ==> AfterReport(eps, e, report)[e := eps[e]] == eps
    ensures e !in eps ==> AfterReport(eps, e, report) - {e} == eps
  {
  }

  /** The loop over the records' source counts. */
  method LongRecord(records: seq<MembershipRecord>, limit: nat) returns (r: Option<LimitError>)
    ensures r == CheckRecords(records, limit)
  {
    var i := 0;
    while i < |records|
      invariant i <= |records|
      invariant FirstOver(records, limit) == FirstOver(records[i..], limit)
    {
      if |records[i].sources| > limit {
        return Some(LimitError("sources per group", |records[i].sources|, limit));
      }
      assert records[i..][1..] == records[i + 1..];
      i := i + 1;
    }
    r := None;
  }

  /** The record loop shared by preview and update. */
  method ApplyRecords(groups: Groups, records: seq<MembershipRecord>) returns (r: Groups, applied: nat)
    ensures r == ApplyAll(groups, records)
    ensures applied == AppliedCount(groups, records)
  {
    hide ApplyRecord, Applied;
    r, applied := groups, 0;
    var i := 0;
    while i < |records|
      invariant i <= |records|
      invariant r == ApplyAll(groups, records[..i]) && applied == AppliedCount(groups, records[..i])
    {
      ApplyAllStep(groups, records, i);
      if Applied(r, records[i]) {
        applied := applied + 1;
      }
      r := ApplyRecord(r, records[i]);
      i := i + 1;
    }
    assert records[..|records|] == records;
  }

  method FindMostSources(groups: Groups) returns (n: nat)
    ensures n == MostSources(groups)
  {
    n := 0;
    var todo := groups.Keys;
    while todo != {}
      invariant todo <= groups.Keys
      invariant forall g :: g in groups && g !in todo ==> |groups[g].sources| <= n
      invariant n == 0 || exists g :: g in groups && |groups[g].sources| == n
      decreases todo
    {
      var g :| g in todo;
      if |groups[g].sources| > n {
        n := |groups[g].sources|;
      }
      todo := todo - {g};
    }
  }

  // ---- what runs of transactions keep ----

  datatype Event = Update(endpoint: SocketAddr, report: MembershipReport) | Remove(target: SocketAddr)

  /** The endpoint filters after one event under the limits. */
  ghost function Next(eps: Endpoints, event: Event, limits: RelayLimits): Endpoints {
    match event
    case Update(e, report) => if Accepts(eps, e, report, limits).Ok? then AfterReport(eps, e, report) else eps
    case Remove(e) => eps - {e}
  }

  ghost function Run(events: seq<Event>, limits: RelayLimits): Endpoints {
    if events == [] then map[] else Next(Run(events[..|events| - 1], limits), events[|events| - 1], limits)
  }

  lemma RemoveWithinLimits(eps: Endpoints, gone: set<SocketAddr>, limits: RelayLimits)
    requires WithinLimits(eps, limits)
    ensures WithinLimits(eps - gone, limits)
  {
    var next := eps - gone;
    SubsetSize(next.Keys, eps.Keys);
    assert |next| == |next.Keys| && |eps| == |eps.Keys|;
    forall ip
      ensures |AtIp(next, ip)| <= limits.maxEndpointsPerIp
    {
      SubsetSize(AtIp(next, ip), AtIp(eps, ip));
    }
    forall f, g | Listens(next, f, g)
      ensures |next[f][g].sources| <= limits.maxSourcesPerGroup
    {
      assert Listens(eps, f, g);
    }
    SubsetSize(Pairs(next), Pairs(eps));
    SubsetSize(Triples(next), Triples(eps));
  }

  lemma UpdateWithinLimits(eps: Endpoints, e: SocketAddr, report: MembershipReport, limits: RelayLimits)
    requires WithinLimits(eps, limits) && Accepts(eps, e, report, limits).Ok?
    ensures WithinLimits(AfterReport(eps, e, report), limits)
  {
    hide ApplyAll, MostSources, AppliedCount, CheckRecords, Subscriptions, Pairs, Triples;
    var next := AfterReport(eps, e, report);
    forall ip
      ensures |AtIp(next, ip)| <= limits.maxEndpointsPerIp
    {
      if ip != e.ip {
        assert AtIp(next, ip) == AtIp(eps, ip);
      }
    }
    forall f, g | Listens(next, f, g)
      ensures |next[f][g].sources| <= limits.maxSourcesPerGroup
    {
      if f != e {
        assert Listens(eps, f, g);
      }
    }
  }

  /** Every run of limited updates and removals keeps the database well formed and within the
      endpoint, per-address, group and source limits. */
  lemma {:induction false} RunsKeepLimits(events: seq<Event>, limits: RelayLimits)
    ensures WellFormed(Run(events, limits)) && WithinLimits(Run(events, limits), limits)
  {
    if events == [] {
      EmptyWithinLimits(limits);
    } else {
      var before := Run(events[..|events| - 1], limits);
      RunsKeepLimits(events[..|events| - 1], limits);
      match events[|events| - 1] {
        case Update(e, report) =>
          if Accepts(before, e, report, limits).Ok? {
            AfterReportWellFormed(before, e, report);
            UpdateWithinLimits(before, e, report, limits);
          }
        case Remove(e) => RemoveWithinLimits(before, {e}, limits);
      }
    }
  }

  /** From a database within its limits a report is accepted exactly when neither it nor the database it leads to
      exceeds one, native subscriptions included. */
  lemma AcceptsExactly(eps: Endpoints, e: SocketAddr, report: MembershipReport, limits: RelayLimits)
    requires WithinLimits(eps, limits)
    ensures Accepts(eps, e, report, limits).Ok? <==>
              var next := AfterReport(eps, e, report);
              && |report.records| <= limits.maxRecordsPerReport
              && (forall i :: 0 <= i < |report.records| ==> |report.records[i].sources| <= limits.maxSourcesPerGroup)
              && WithinLimits(next, limits) && |Subscriptions(next)| <= limits.maxUpstreamSubscriptions
  {
    hide AfterReport, Subscriptions, Pairs, Triples, AppliedCount, FirstOver, WithinLimits, MostSources;
    NoneOver(report.records, limits.maxSourcesPerGroup);
    var next := AfterReport(eps, e, report);
    if Accepts(eps, e, report, limits).Ok? {
      UpdateWithinLimits(eps, e, report, limits);
    } else if WithinLimits(next, limits) {
      OwnWithinLimits(next, e, limits);
    }
  }

  /** The resources a report is checked against, in order, with what it asks of each. */
  ghost function Demand(eps: Endpoints, e: SocketAddr, limits: RelayLimits): seq<LimitError> {
    [LimitError("endpoints", |eps|, limits.maxEndpoints),
     LimitError("endpoints per source IP", |AtIp(eps, e.ip)|, limits.maxEndpointsPerIp),
     LimitError("groups per endpoint", |EntryOf(eps, e)|, limits.maxGroupsPerEndpoint),
     LimitError("sources per endpoint group", MostSources(EntryOf(eps, e)), limits.maxSourcesPerGroup),
     LimitError("total endpoint groups", |Pairs(eps)|, limits.maxTotalEndpointGroups),
     LimitError("total sources", |Triples(eps)|, limits.maxTotalSources),
     LimitError("upstream subscriptions", |Subscriptions(eps)|, limits.maxUpstreamSubscriptions)]
  }

  predicate Exceeded(e: LimitError) { e.requested > e.limit }

  /** A report refused for what it makes of the database is refused for the first resource it exceeds, with the
      amount it would have needed; one refused for itself, for its number of records or its first long record. */
  lemma RefusedForTheFirst(eps: Endpoints, e: SocketAddr, report: MembershipReport, limits: RelayLimits)
    requires Accepts(eps, e, report, limits).Err?
    ensures var error := Accepts(eps, e, report, limits).error;
            if |report.records| > limits.maxRecordsPerReport
            then error == LimitError("records per report", |report.records|, limits.maxRecordsPerReport)
            else if FirstOver(report.records, limits.maxSourcesPerGroup).Some?
            then error == LimitError("sources per group", FirstOver(report.records, limits.maxSourcesPerGroup).value,
                                     limits.maxSourcesPerGroup)
            else
              var demand := Demand(AfterReport(eps, e, report), e, limits);
              exists i :: 0 <= i < |demand| && error == demand[i] && Exceeded(demand[i])
                          && forall j :: 0 <= j < i ==> !Exceeded(demand[j])
  {
    hide AfterReport, Subscriptions, Pairs, Triples, AppliedCount, FirstOver, MostSources, AtIp, EntryOf;
    if |report.records| <= limits.maxRecordsPerReport && FirstOver(report.records, limits.maxSourcesPerGroup).None? {
      FirstDemand(AfterReport(eps, e, report), e, limits);
    }
  }

  lemma FirstDemand(eps: Endpoints, e: SocketAddr, limits: RelayLimits)
    ensures var demand := Demand(eps, e, limits);
            var error := CheckAll(eps, e, limits, MostSources(EntryOf(eps, e)), |Pairs(eps)|, |Triples(eps)|,
                                  |Subscriptions(eps)|);
            error.Some? ==>
              exists i :: 0 <= i < |demand| && error.value == demand[i] && Exceeded(demand[i])
                          && forall j :: 0 <= j < i ==> !Exceeded(demand[j])
  {
    hide Subscriptions, Pairs, Triples, MostSources, AtIp, EntryOf;
    var demand := Demand(eps, e, limits);
    var i := if Exceeded(demand[0]) then 0 else if Exceeded(demand[1]) then 1 else if Exceeded(demand[2]) then 2
             else if Exceeded(demand[3]) then 3 else if Exceeded(demand[4]) then 4 else if Exceeded(demand[5]) then 5
             else 6;
    assert forall j :: 0 <= j < i ==> !Exceeded(demand[j]);
    var error := CheckAll(eps, e, limits, MostSources(EntryOf(eps, e)), |Pairs(eps)|, |Triples(eps)|,
                          |Subscriptions(eps)|);
    if error.Some? {
      assert Exceeded(demand[i]) && error.value == demand[i];
    }
  }

  lemma OwnWithinLimits(eps: Endpoints, e: SocketAddr, limits: RelayLimits)
    requires WithinLimits(eps, limits)
    ensures |eps| <= limits.maxEndpoints && |AtIp(eps, e.ip)| <= limits.maxEndpointsPerIp
    ensures |EntryOf(eps, e)| <= limits.maxGroupsPerEndpoint
    ensures MostSources(EntryOf(eps, e)) <= limits.maxSourcesPerGroup
    ensures |Pairs(eps)| <= limits.maxTotalEndpointGroups && |Triples(eps)| <= limits.maxTotalSources
  {
    hide Pairs, Triples;
    var groups := EntryOf(eps, e);
    forall g | g in groups ensures |groups[g].sources| <= limits.maxSourcesPerGroup {
      assert Listens(eps, e, g);
    }
    MostSourcesAtMost(groups, limits.maxSourcesPerGroup);
  }

  lemma EmptyWithinLimits(limits: RelayLimits)
    ensures WithinLimits(map[], limits)
  {
  }

  // ---- when removal keeps the subscription limit ----

  /** `e` is the only endpoint excluding in `g`. */
  ghost predicate SoleExcluder(eps: Endpoints, e: SocketAddr, g: IpAddr) {
    Excluder(eps, e, g) && forall f :: Excluder(eps, f, g) ==> f == e
  }

  /** Nobody excludes in `g`, and only `e` includes `s` there. */
  ghost predicate SoleIncluder(eps: Endpoints, e: SocketAddr, g: IpAddr, s: IpAddr) {
    Includer(eps, e, g, s) && !AnyExcluder(eps, g) && forall f :: Includer(eps, f, g, s) ==> f == e
  }

  /** The source joins that the any-source joins of `e` alone have been standing in for. */
  ghost function Gained(eps: Endpoints, e: SocketAddr): set<Subscription> {
    set f, g, s | f in eps && g in eps[f] && s in eps[f][g].sources && Includer(eps, f, g, s) && SoleExcluder(eps, e, g)
      :: Ssm(g, s)
  }

  /** The joins that exist for `e` alone. */
  ghost function Lost(eps: Endpoints, e: SocketAddr): set<Subscription> {
    (set g | e in eps && g in eps[e] && SoleExcluder(eps, e, g) :: Asm(g))
    + (set g, s | e in eps && g in eps[e] && s in eps[e][g].sources && SoleIncluder(eps, e, g, s) :: Ssm(g, s))
  }

  lemma GainedExact(eps: Endpoints, e: SocketAddr, g: IpAddr, s: IpAddr)
    ensures Asm(g) !in Gained(eps, e)
    ensures Ssm(g, s) in Gained(eps, e) <==> SoleExcluder(eps, e, g) && AnyIncluder(eps, g, s)
    ensures Asm(g) in Lost(eps, e) <==> SoleExcluder(eps, e, g)
    ensures Ssm(g, s) in Lost(eps, e) <==> SoleIncluder(eps, e, g, s)
  {
    if SoleExcluder(eps, e, g) && AnyIncluder(eps, g, s) {
      var f :| Includer(eps, f, g, s);
      assert f in eps && g in eps[f] && s in eps[f][g].sources;
    }
  }

  lemma ExcludersWithout(eps: Endpoints, e: SocketAddr, g: IpAddr)
    ensures AnyExcluder(eps - {e}, g) <==> AnyExcluder(eps, g) && !SoleExcluder(eps, e, g)
  {
    var next := eps - {e};
    if f :| Excluder(next, f, g) {
      assert Excluder(eps, f, g) && f != e;
    }
    if f :| Excluder(eps, f, g) && f != e {
      assert Excluder(next, f, g);
    }
  }

  lemma IncludersWithout(eps: Endpoints, e: SocketAddr, g: IpAddr, s: IpAddr)
    ensures AnyIncluder(eps - {e}, g, s) <==> exists f :: f != e && Includer(eps, f, g, s)
  {
    var next := eps - {e};
    if f :| Includer(next, f, g, s) {
      assert Includer(eps, f, g, s) && f != e;
    }
    if f :| f != e && Includer(eps, f, g, s) {
      assert Includer(next, f, g, s);
    }
  }

  /** What a removal adds to and takes from the native joins. */
  lemma RemovalChanges(eps: Endpoints, e: SocketAddr, sub: Subscription)
    ensures sub in Gained(eps, e) <==> sub in Subscriptions(eps - {e}) && sub !in Subscriptions(eps)
    ensures sub in Lost(eps, e) <==> sub in Subscriptions(eps) && sub !in Subscriptions(eps - {e})
  {
    hide Subscriptions, Gained, Lost;
    var g, s := sub.group, if sub.Ssm? then sub.source else V4([0, 0, 0, 0]);
    GainedExact(eps, e, g, s);
    SubscriptionsExact(eps, g, s);
    SubscriptionsExact(eps - {e}, g, s);
    ExcludersWithout(eps, e, g);
    IncludersWithout(eps, e, g, s);
  }

  /** The count, exactly. */
  lemma RemovalCount(eps: Endpoints, e: SocketAddr)
    ensures |Subscriptions(eps - {e})| + |Lost(eps, e)| == |Subscriptions(eps)| + |Gained(eps, e)|
  {
    hide Subscriptions, Gained, Lost;
    var now, next := Subscriptions(eps), Subscriptions(eps - {e});
    forall sub
      ensures sub in Gained(eps, e) <==> sub in next && sub !in now
      ensures sub in Lost(eps, e) <==> sub in now && sub !in next
    {
      RemovalChanges(eps, e, sub);
    }
    assert Gained(eps, e) == next - now && Lost(eps, e) == now - next;
    assert next == (next - now) + (next * now) && now == (now - next) + (next * now);
  }

  ghost predicate JoinsWithin(eps: Endpoints, limit: nat) {
    |Subscriptions(eps)| <= limit
  }

  /** A removal keeps every subscription limit that held before it exactly when it loses at least as many
      joins as it gains. */
  lemma RemovalKeepsLimitExactly(eps: Endpoints, e: SocketAddr)
    ensures (forall limit: nat :: JoinsWithin(eps, limit) ==> JoinsWithin(eps - {e}, limit))
            <==> |Gained(eps, e)| <= |Lost(eps, e)|
  {
    hide Subscriptions, Gained, Lost;
    RemovalCount(eps, e);
    if |Gained(eps, e)| > |Lost(eps, e)| {
      var limit: nat := |Subscriptions(eps)|;
      assert JoinsWithin(eps, limit) && !JoinsWithin(eps - {e}, limit);
    }
  }

  // ---- and over runs ----

  /** Every state the run goes through has at most that many native joins. */
  ghost predicate AlwaysWithin(events: seq<Event>, limits: RelayLimits) {
    forall i :: 0 <= i <= |events| ==> JoinsWithin(Run(events[..i], limits), limits.maxUpstreamSubscriptions)
  }

  /** The balance of a removal leaves it within the limit; anything but a removal is checked by the database. */
  ghost predicate Balanced(eps: Endpoints, event: Event, limits: RelayLimits) {
    event.Remove? ==>
      |Subscriptions(eps)| + |Gained(eps, event.target)| <= limits.maxUpstreamSubscriptions + |Lost(eps, event.target)|
  }

  ghost predicate AllBalanced(events: seq<Event>, limits: RelayLimits) {
    forall i :: 0 <= i < |events| ==> Balanced(Run(events[..i], limits), events[i], limits)
  }

  lemma AcceptedJoinsWithin(eps: Endpoints, e: SocketAddr, report: MembershipReport, limits: RelayLimits)
    requires Accepts(eps, e, report, limits).Ok?
    ensures JoinsWithin(AfterReport(eps, e, report), limits.maxUpstreamSubscriptions)
  {
    hide Subscriptions, AfterReport, MostSources, Pairs, Triples, AppliedCount, CheckRecords;
  }

  lemma StepWithin(eps: Endpoints, event: Event, limits: RelayLimits)
    requires JoinsWithin(eps, limits.maxUpstreamSubscriptions)
    ensures JoinsWithin(Next(eps, event, limits), limits.maxUpstreamSubscriptions) <==> Balanced(eps, event, limits)
  {
    hide Subscriptions, Gained, Lost, Accepts, AfterReport;
    match event {
      case Update(e, report) =>
        if Accepts(eps, e, report, limits).Ok? {
          AcceptedJoinsWithin(eps, e, report, limits);
        }
      case Remove(e) => RemovalCount(eps, e);
    }
  }

  lemma NoJoins()
    ensures Subscriptions(map[]) == {}
  {
    forall sub ensures sub !in Subscriptions(map[]) {
      match sub {
        case Asm(g) => SubscriptionsExact(map[], g, g);
        case Ssm(g, s) => SubscriptionsExact(map[], g, s);
      }
    }
  }

  /** A run of limited updates and removals stays within the subscription limit throughout if and only if the
      balance of each of its removals allows it at that point. */
  lemma {:induction false} RunsKeepSubscriptionLimitExactly(events: seq<Event>, limits: RelayLimits)
    ensures AlwaysWithin(events, limits) <==> AllBalanced(events, limits)
    decreases |events|
  {
    hide JoinsWithin, Balanced, Next;
    var limit := limits.maxUpstreamSubscriptions;
    if events == [] {
      NoJoins();
      EmptyWithin(limit);
    } else {
      var front, last := events[..|events| - 1], events[|events| - 1];
      RunsKeepSubscriptionLimitExactly(front, limits);
      FrontWithin(events, limits);
      FrontBalanced(events, limits);
      if AlwaysWithin(front, limits) {
        assert front[..|front|] == front;
        StepWithin(Run(front, limits), last, limits);
      }
    }
  }

  lemma EmptyWithin(limit: nat)
    requires Subscriptions(map[]) == {}
    ensures JoinsWithin(map[], limit)
  {
  }

  lemma FrontRuns(events: seq<Event>, limits: RelayLimits)
    requires events != []
    ensures var front := events[..|events| - 1];
            && events[..|events|] == events
            && Run(events, limits) == Next(Run(front, limits), events[|front|], limits)
            && forall i :: 0 <= i <= |front| ==> front[..i] == events[..i]
  {
    hide Next;
  }

  lemma FrontWithin(events: seq<Event>, limits: RelayLimits)
    requires events != []
    ensures var front := events[..|events| - 1];
            AlwaysWithin(events, limits) <==>
              && AlwaysWithin(front, limits)
              && JoinsWithin(Next(Run(front, limits), events[|front|], limits), limits.maxUpstreamSubscriptions)
  {
    hide JoinsWithin, Next, Run;
    FrontRuns(events, limits);
    var front, limit := events[..|events| - 1], limits.maxUpstreamSubscriptions;
    if AlwaysWithin(events, limits) {
      forall i | 0 <= i <= |front| ensures JoinsWithin(Run(front[..i], limits), limit) {
        assert JoinsWithin(Run(events[..i], limits), limit);
      }
      assert JoinsWithin(Run(events[..|events|], limits), limit);
    } else {
      var i: nat :| i <= |events| && !JoinsWithin(Run(events[..i], limits), limit);
      if i <= |front| {
        assert !JoinsWithin(Run(front[..i], limits), limit);
      }
    }
  }

  lemma FrontBalanced(events: seq<Event>, limits: RelayLimits)
    requires events != []
    ensures var front := events[..|events| - 1];
            AllBalanced(events, limits) <==>
              AllBalanced(front, limits) && Balanced(Run(front, limits), events[|front|], limits)
  {
    hide Balanced, Next, Run;
    FrontRuns(events, limits);
    var front := events[..|events| - 1];
    if AllBalanced(events, limits) {
      forall i | 0 <= i < |front| ensures Balanced(Run(front[..i], limits), front[i], limits) {
        assert Balanced(Run(events[..i], limits), events[i], limits);
      }
      assert Balanced(Run(events[..|front|], limits), events[|front|], limits);
    } else {
      var i: nat :| i < |events| && !Balanced(Run(events[..i], limits), events[i], limits);
      if i < |front| {
        assert !Balanced(Run(front[..i], limits), front[i], limits);
      }
    }
  }

  /** In particular the limit is kept if every removal loses at least as many joins as it gains. */
  lemma {:induction false} EvenRemovalsKeepSubscriptionLimit(events: seq<Event>, limits: RelayLimits)
    requires forall i :: 0 <= i < |events| && events[i].Remove? ==>
               var eps := Run(events[..i], limits); |Gained(eps, events[i].target)| <= |Lost(eps, events[i].target)|
    ensures |Subscriptions(Run(events, limits))| <= limits.maxUpstreamSubscriptions
    decreases |events|
  {
    hide Subscriptions, Gained, Lost, Next;
    if events == [] {
      NoJoins();
    } else {
      var front, last := events[..|events| - 1], events[|events| - 1];
      assert forall i :: 0 <= i <= |front| ==> front[..i] == events[..i];
      EvenRemovalsKeepSubscriptionLimit(front, limits);
      StepWithin(Run(front, limits), last, limits);
    }
  }

  // ---- a run in which it does not ----

  function AnySource(p: Protocol, g: IpAddr): MembershipReport {
    MembershipReport(p, [MembershipRecord(ChangeToExclude, g, [])])
  }

  function TwoSources(p: Protocol, g: IpAddr, s: IpAddr, u: IpAddr): MembershipReport {
    MembershipReport(p, [MembershipRecord(ChangeToInclude, g, [s, u])])
  }

  function First(e: SocketAddr, g: IpAddr): Endpoints {
    map[e := map[g := GroupInterest(Exclude, {})]]
  }

  function Both(e: SocketAddr, f: SocketAddr, g: IpAddr, s: IpAddr, u: IpAddr): Endpoints {
    First(e, g)[f := map[g := GroupInterest(Include, {s, u})]]
  }

  lemma FirstReport(p: Protocol, e: SocketAddr, g: IpAddr)
    ensures AfterReport(map[], e, AnySource(p, g)) == First(e, g)
  {
    var records := AnySource(p, g).records;
    var groups: Groups := map[g := GroupInterest(Exclude, {})];
    assert records[..0] == [] && SourceSet([]) == {};
    assert ApplyAll(map[], []) == map[];
    assert ApplyAll(map[], records) == groups && g in groups;
  }

  lemma SecondReport(p: Protocol, e: SocketAddr, f: SocketAddr, g: IpAddr, s: IpAddr, u: IpAddr)
    requires e != f
    ensures AfterReport(First(e, g), f, TwoSources(p, g, s, u)) == Both(e, f, g, s, u)
  {
    var records := TwoSources(p, g, s, u).records;
    var groups: Groups := map[g := GroupInterest(Include, {s, u})];
    assert records[..0] == [] && SourceSet([s, u]) == {s, u};
    assert ApplyAll(map[], []) == map[];
    assert ApplyAll(map[], records) == groups && g in groups;
  }

  lemma FirstSizes(e: SocketAddr, g: IpAddr)
    ensures |First(e, g)| == 1 && |AtIp(First(e, g), e.ip)| == 1 && |Pairs(First(e, g))| == 1
    ensures |Triples(First(e, g))| == 0
  {
    var eps := First(e, g);
    assert AtIp(eps, e.ip) == {e} && Pairs(eps) == {(e, g)} && Triples(eps) == {};
  }

  lemma FirstSubscriptions(e: SocketAddr, g: IpAddr)
    ensures |Subscriptions(First(e, g))| == 1
  {
    hide Subscriptions;
    var eps := First(e, g);
    assert Excluder(eps, e, g);
    forall sub ensures sub in Subscriptions(eps) <==> sub == Asm(g) {
      SubscriptionsExact(eps, sub.group, if sub.Ssm? then sub.source else sub.group);
    }
    assert Subscriptions(eps) == {Asm(g)};
  }

  lemma BothSizes(e: SocketAddr, f: SocketAddr, g: IpAddr, s: IpAddr, u: IpAddr)
    requires e != f && s != u
    ensures var eps := Both(e, f, g, s, u);
            |eps| == 2 && |AtIp(eps, f.ip)| <= 2 && |Pairs(eps)| == 2 && |Triples(eps)| == 2
  {
    var eps := Both(e, f, g, s, u);
    assert eps.Keys == {e, f} && AtIp(eps, f.ip) <= {e, f};
    SubsetSize(AtIp(eps, f.ip), {e, f});
    assert Pairs(eps) == {(e, g), (f, g)} && Triples(eps) == {(f, g, s), (f, g, u)};
  }

  lemma BothSubscriptions(e: SocketAddr, f: SocketAddr, g: IpAddr, s: IpAddr, u: IpAddr)
    requires e != f && s != u
    ensures |Subscriptions(Both(e, f, g, s, u))| == 1 && |Subscriptions(Both(e, f, g, s, u) - {e})| == 2
  {
    hide Subscriptions;
    var eps, next := Both(e, f, g, s, u), Both(e, f, g, s, u) - {e};
    assert Excluder(eps, e, g) && Includer(next, f, g, s) && Includer(next, f, g, u);
    forall sub
      ensures sub in Subscriptions(eps) <==> sub == Asm(g)
      ensures sub in Subscriptions(next) <==> sub == Ssm(g, s) || sub == Ssm(g, u)
    {
      var source := if sub.Ssm? then sub.source else s;
      SubscriptionsExact(eps, sub.group, source);
      SubscriptionsExact(next, sub.group, source);
    }
    assert Subscriptions(eps) == {Asm(g)};
    assert Subscriptions(next) == {Ssm(g, s), Ssm(g, u)};
  }

  const ONE_JOIN := RelayLimits(2, 2, 1, 2, 2, 2, 1, 1)

  /** Two accepted updates under a limit of one native join, for any two gateways, any group and any two
      sources; removing the first gateway leaves two joins. */
  lemma RemovalCanExceedSubscriptionLimit(p: Protocol, e: SocketAddr, f: SocketAddr, g: IpAddr, s: IpAddr, u: IpAddr)
    requires e != f && s != u
    ensures var events := [Update(e, AnySource(p, g)), Update(f, TwoSources(p, g, s, u))];
            && ONE_JOIN.maxUpstreamSubscriptions == 1
            && Run(events, ONE_JOIN) == Both(e, f, g, s, u) && |Subscriptions(Run(events, ONE_JOIN))| == 1
            && |Subscriptions(Run(events + [Remove(e)], ONE_JOIN))| == 2
  {
    hide Subscriptions, Pairs, Triples, AfterReport, Accepts;
    var first, second := Update(e, AnySource(p, g)), Update(f, TwoSources(p, g, s, u));
    FirstAccepted(p, e, g);
    SecondAccepted(p, e, f, g, s, u);
    FirstReport(p, e, g);
    SecondReport(p, e, f, g, s, u);
    BothSubscriptions(e, f, g, s, u);
    assert [first, second][..1] == [first] && [first][..0] == [];
    assert ([first, second] + [Remove(e)])[..2] == [first, second];
    assert Run([first], ONE_JOIN) == First(e, g);
  }

  lemma FirstAccepted(p: Protocol, e: SocketAddr, g: IpAddr)
    ensures Accepts(map[], e, AnySource(p, g), ONE_JOIN).Ok?
  {
    hide Subscriptions, Pairs, Triples, AfterReport;
    FirstReport(p, e, g);
    FirstSizes(e, g);
    FirstSubscriptions(e, g);
    OneRecord(AnySource(p, g).records, 2);
    MostSourcesAtMost(First(e, g)[e], 2);
  }

  lemma SecondAccepted(p: Protocol, e: SocketAddr, f: SocketAddr, g: IpAddr, s: IpAddr, u: IpAddr)
    requires e != f && s != u
    ensures Accepts(First(e, g), f, TwoSources(p, g, s, u), ONE_JOIN).Ok?
  {
    hide Subscriptions, Pairs, Triples, AfterReport;
    SecondReport(p, e, f, g, s, u);
    BothSizes(e, f, g, s, u);
    BothSubscriptions(e, f, g, s, u);
    OneRecord(TwoSources(p, g, s, u).records, 2);
    MostSourcesAtMost(Both(e, f, g, s, u)[f], 2);
  }

  lemma OneRecord(records: seq<MembershipRecord>, limit: nat)
    requires |records| == 1 && |records[0].sources| <= limit
    ensures CheckRecords(records, limit) == None
  {
    NoneOver(records, limit);
  }

  lemma MostSourcesAtMost(groups: Groups, n: nat)
    requires forall g :: g in groups ==> |groups[g].sources| <= n
    ensures MostSources(groups) <= n
  {
  }
}
