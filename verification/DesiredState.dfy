/** What a gateway wants: its configured joins and its local listeners, merged into one report. */
module DesiredState {
  import opened Bytes
  import opened Interest
  import opened ReportRecords
  import opened RelayState
  import opened RelayDatabase
  import opened Convergence

  const JOINS := SocketAddr(V4([0, 0, 0, 0]), 1)
  const LOCAL := SocketAddr(V4([0, 0, 0, 0]), 2)

  function Asked(report: Option<MembershipReport>): Groups {
    if report.Some? then ApplyAll(map[], report.value.records) else map[]
  }

  // ---- configured joins ----

  /** A configured join: one source of a group, or all of it. */
  datatype Join = Join(group: IpAddr, source: Option<IpAddr>)

  predicate Names(j: Join, g: IpAddr, s: IpAddr) {
    j.group == g && (j.source.None? || j.source.value == s)
  }

  /** Some join asks for the source in the group. */
  predicate JoinAsks(joins: seq<Join>, g: IpAddr, s: IpAddr) {
    exists i :: 0 <= i < |joins| && Names(joins[i], g, s)
  }

  /** The filters after some joins: everything once a join names no source, otherwise the sources named. */
  ghost predicate Collected(joins: seq<Join>, groups: Groups) {
    && NoEmptyInclude(groups)
    && (forall g :: g in groups && groups[g].mode.Exclude? ==> groups[g].sources == {})
    && (forall g, s :: Wants(groups, g, s) <==> JoinAsks(joins, g, s))
  }

  function WithJoin(groups: Groups, j: Join): Groups {
    if j.source.None? then groups[j.group := GroupInterest(Exclude, {})]
    else if j.group !in groups then groups[j.group := GroupInterest(Include, {j.source.value})]
    else if groups[j.group].mode.Exclude? then groups
    else groups[j.group := GroupInterest(Include, groups[j.group].sources + {j.source.value})]
  }

  lemma JoinAsksSnoc(joins: seq<Join>, j: Join, g: IpAddr, s: IpAddr)
    ensures JoinAsks(joins + [j], g, s) <==> JoinAsks(joins, g, s) || Names(j, g, s)
  {
    if JoinAsks(joins, g, s) {
      var i :| 0 <= i < |joins| && Names(joins[i], g, s);
      assert Names((joins + [j])[i], g, s);
    }
    assert (joins + [j])[|joins|] == j;
  }

  lemma CollectOne(joins: seq<Join>, groups: Groups, j: Join)
    requires Collected(joins, groups)
    ensures Collected(joins + [j], WithJoin(groups, j))
  {
    hide JoinAsks;
    forall g, s ensures Wants(WithJoin(groups, j), g, s) <==> JoinAsks(joins + [j], g, s) {
      JoinAsksSnoc(joins, j, g, s);
    }
  }

  lemma CollectNone()
    ensures Collected([], map[])
  {
  }

  /** The report of the configured joins passes exactly what they ask for; without joins there is none. */
  method ConfiguredJoinsReport(protocol: Protocol, joins: seq<Join>) returns (report: Option<MembershipReport>)
    ensures report.Some? ==> report.value.protocol == protocol
    ensures report.None? <==> joins == []
    ensures forall g, s :: Wants(Asked(report), g, s) <==> JoinAsks(joins, g, s)
  {
    hide Collected, JoinAsks, Demands;
    var groups: Groups := map[];
    CollectNone();
    for i := 0 to |joins|
      invariant Collected(joins[..i], groups) && (groups == map[] <==> i == 0)
    {
      CollectOne(joins[..i], groups, joins[i]);
      assert joins[..i + 1] == joins[..i] + [joins[i]];
      groups := WithJoin(groups, joins[i]);
      assert joins[i].group in groups;
    }
    assert joins[..|joins|] == joins;
    CollectedFacts(joins, groups);
    report := StateReport(protocol, groups);
  }

  lemma CollectedFacts(joins: seq<Join>, groups: Groups)
    requires Collected(joins, groups)
    ensures NoEmptyInclude(groups) && forall g, s :: Wants(groups, g, s) <==> JoinAsks(joins, g, s)
  {
  }

  /** A report with one state record per group, or none without groups. */
  method StateReport(protocol: Protocol, groups: Groups) returns (report: Option<MembershipReport>)
    requires NoEmptyInclude(groups)
    ensures report.Some? ==> report.value.protocol == protocol
    ensures report.None? <==> groups == map[]
    ensures Asked(report) == groups
  {
    hide Demands, ApplyAll;
    var records := StateRecords(groups);
    forall g ensures Lookup(ApplyAll(map[], records), g) == Lookup(groups, g) {
      DemandsReach(map[], records, groups, g);
    }
    SameLookup(ApplyAll(map[], records), groups);
    if records == [] {
      assert groups == map[] by {
        assert forall g :: !Mentions(records, g);
      }
      return None;
    }
    assert Mentions(records, records[0].group);
    report := Some(MembershipReport(protocol, records));
  }

  // ---- the merge ----

  function Merged(joins: Groups, local: Groups): Endpoints {
    SetEntry(SetEntry(map[], JOINS, joins), LOCAL, local)
  }

  lemma MergedWants(joins: Groups, local: Groups, g: IpAddr, s: IpAddr)
    ensures Wanted(Merged(joins, local), g, s) <==> Wants(joins, g, s) || Wants(local, g, s)
  {
    var eps := Merged(joins, local);
    assert EndpointWants(eps, JOINS, g, s) == Wants(joins, g, s);
    assert EndpointWants(eps, LOCAL, g, s) == Wants(local, g, s);
    forall e | e != JOINS && e != LOCAL ensures !EndpointWants(eps, e, g, s) {
    }
  }

  /** The desired report states one filter per group, and together they pass exactly the packets that some
      configured join or the local listeners ask for. */
  method DesiredMembershipReport(protocol: Protocol, joins: seq<Join>, local: Groups)
    returns (report: MembershipReport, ghost wanted: Groups)
    requires NoEmptyInclude(local)
    ensures report.protocol == protocol && NoEmptyInclude(wanted)
    ensures Demands(report.records, wanted) && forall g :: Mentions(report.records, g) <==> g in wanted
    ensures forall g, s :: Wants(wanted, g, s) <==> JoinAsks(joins, g, s) || Wants(local, g, s)
  {
    hide ApplyAll, Demands, Mentions, JoinAsks, Wanted;
    var configured := ConfiguredJoinsReport(protocol, joins);
    var listened := StateReport(protocol, local);
    var state := new Database();
    if configured.Some? {
      var _ := state.ApplyReport(JOINS, configured.value);
    }
    if listened.Some? {
      var _ := state.ApplyReport(LOCAL, listened.value);
    }
    assert state.endpoints == Merged(Asked(configured), Asked(listened));
    wanted := state.aggregate;
    var records := StateRecords(state.aggregate);
    report := MembershipReport(protocol, records);
    forall g, s ensures Wants(wanted, g, s) <==> JoinAsks(joins, g, s) || Wants(local, g, s) {
      MergedWants(Asked(configured), Asked(listened), g, s);
    }
  }

  /** The aggregate of a state with one endpoint is that endpoint's own filter, so the gateway's reception
      state is its one entry. */
  lemma SingleEndpointAggregate(e: SocketAddr, groups: Groups, aggregate: Groups)
    requires NoEmptyInclude(groups) && AggregateOk(SetEntry(map[], e, groups), aggregate)
    ensures aggregate == groups
  {
    var eps := SetEntry(map[], e, groups);
    forall g, s ensures Wants(groups, g, s) <==> Wanted(eps, g, s) {
      assert EndpointWants(eps, e, g, s) == Wants(groups, g, s);
    }
    forall g ensures g in groups && groups[g].mode.Exclude? <==> AnyExcluder(eps, g) {
      assert Excluder(eps, e, g) == (g in groups && groups[g].mode.Exclude?);
    }
    AggregateDetermined(eps, aggregate, groups);
  }
}
