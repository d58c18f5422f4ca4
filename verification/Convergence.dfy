/** Full-state and difference reports: lists of records that drive any earlier state to a wanted one. */
module Convergence {
  import opened Bytes
  import opened Interest
  import opened ReportRecords

  function Lookup(groups: Groups, g: IpAddr): Option<GroupInterest> {
    if g in groups then Some(groups[g]) else None
  }

  /** Records whose effect on their group does not depend on what was there before. */
  predicate Absolute(r: MembershipRecord) {
    r.kind in {ModeIsInclude, ModeIsExclude, ChangeToInclude, ChangeToExclude}
  }

  function Effect(r: MembershipRecord): Option<GroupInterest>
    requires Absolute(r)
  {
    if r.kind == ModeIsExclude || r.kind == ChangeToExclude then Some(GroupInterest(Exclude, SourceSet(r.sources)))
    else if r.sources == [] then None
    else Some(GroupInterest(Include, SourceSet(r.sources)))
  }

  lemma AbsoluteOverwrites(groups: Groups, r: MembershipRecord)
    requires Absolute(r)
    ensures Lookup(ApplyRecord(groups, r), r.group) == Effect(r)
  {
  }

  /** The last record of a group decides. */
  lemma {:induction false} LastRecordDecides(groups: Groups, records: seq<MembershipRecord>, i: nat)
    requires i < |records| && Absolute(records[i])
    requires forall j :: i < j < |records| ==> records[j].group != records[i].group
    ensures Lookup(ApplyAll(groups, records), records[i].group) == Effect(records[i])
    decreases |records|
  {
    var last := |records| - 1;
    if i == last {
      AbsoluteOverwrites(ApplyAll(groups, records[..last]), records[last]);
    } else {
      LastRecordDecides(groups, records[..last], i);
      assert records[..last][i] == records[i];
    }
  }

  // ---- what a list of records asks for ----

  ghost predicate DistinctGroups(records: seq<MembershipRecord>) {
    forall i, j :: 0 <= i < j < |records| ==> records[i].group != records[j].group
  }

  ghost predicate Mentions(records: seq<MembershipRecord>, g: IpAddr) {
    exists i :: 0 <= i < |records| && records[i].group == g
  }

  /** One absolute record per group, its effect the filter `wanted` has for that group. */
  ghost predicate Demands(records: seq<MembershipRecord>, wanted: Groups) {
    && DistinctGroups(records)
    && forall i :: 0 <= i < |records| ==> Absolute(records[i]) && Effect(records[i]) == Lookup(wanted, records[i].group)
  }

  /** Applied to any state, the records set exactly the groups they mention. */
  lemma DemandsReach(groups: Groups, records: seq<MembershipRecord>, wanted: Groups, g: IpAddr)
    requires Demands(records, wanted)
    ensures Lookup(ApplyAll(groups, records), g) ==
            if Mentions(records, g) then Lookup(wanted, g) else Lookup(groups, g)
  {
    hide ApplyAll;
    if Mentions(records, g) {
      var i :| 0 <= i < |records| && records[i].group == g;
      LastRecordDecides(groups, records, i);
    } else {
      ApplyAllFrame(groups, records, g);
    }
  }

  lemma DemandsExtend(records: seq<MembershipRecord>, wanted: Groups, r: MembershipRecord)
    requires Demands(records, wanted) && !Mentions(records, r.group)
    requires Absolute(r) && Effect(r) == Lookup(wanted, r.group)
    ensures Demands(records + [r], wanted)
    ensures forall g :: Mentions(records + [r], g) <==> Mentions(records, g) || g == r.group
  {
    MentionsSnoc(records, r);
  }

  lemma SameLookup(a: Groups, b: Groups)
    requires forall g :: Lookup(a, g) == Lookup(b, g)
    ensures a == b
  {
    forall g
      ensures g in a <==> g in b
      ensures g in a ==> a[g] == b[g]
    {
      assert Lookup(a, g) == Lookup(b, g);
    }
  }

  // ---- building the lists ----

  method ListSources(sources: set<IpAddr>) returns (list: seq<IpAddr>)
    ensures SourceSet(list) == sources && |list| == |sources|
  {
    list := [];
    var todo := sources;
    while todo != {}
      invariant SourceSet(list) + todo == sources && SourceSet(list) !! todo && |list| + |todo| == |sources|
      decreases todo
    {
      var s :| s in todo;
      assert SourceSet(list + [s]) == SourceSet(list) + {s};
      list := list + [s];
      todo := todo - {s};
    }
  }

  /** The record that states a filter; `change` picks the filter-mode-change kinds. */
  method RecordForInterest(group: IpAddr, interest: GroupInterest, change: bool) returns (r: MembershipRecord)
    requires interest.mode.Include? ==> interest.sources != {}
    ensures r.group == group && Absolute(r) && Effect(r) == Some(interest) && |r.sources| == |interest.sources|
    ensures r.kind == if interest.mode.Include? then (if change then ChangeToInclude else ModeIsInclude)
                      else (if change then ChangeToExclude else ModeIsExclude)
  {
    var sources := ListSources(interest.sources);
    assert sources == [] ==> SourceSet(sources) == {};
    if interest.mode.Include? {
      r := MembershipRecord(if change then ChangeToInclude else ModeIsInclude, group, sources);
    } else {
      r := MembershipRecord(if change then ChangeToExclude else ModeIsExclude, group, sources);
    }
  }

  /** One state record per group of an aggregate. */
  method StateRecords(aggregate: Groups) returns (records: seq<MembershipRecord>)
    requires NoEmptyInclude(aggregate)
    ensures Demands(records, aggregate) && forall g :: Mentions(records, g) <==> g in aggregate
  {
    records := [];
    var todo := aggregate.Keys;
    while todo != {}
      invariant todo <= aggregate.Keys
      invariant Demands(records, aggregate)
      invariant forall g :: Mentions(records, g) <==> g in aggregate && g !in todo
      decreases todo
    {
      var group :| group in todo;
      var r := RecordForInterest(group, aggregate[group], false);
      DemandsExtend(records, aggregate, r);
      records := records + [r];
      todo := todo - {group};
    }
  }

  function Leave(group: IpAddr): MembershipRecord { MembershipRecord(ChangeToInclude, group, []) }

  /** The differences between two local states, for the groups of one protocol. */
  method DeltaRecords(protocol: Protocol, previous: Groups, current: Groups) returns (records: seq<MembershipRecord>)
    requires NoEmptyInclude(current)
    ensures Demands(records, current)
    ensures forall g :: Mentions(records, g) <==> FamilyOf(protocol, g) && Lookup(previous, g) != Lookup(current, g)
  {
    records := [];
    var todo := previous.Keys + current.Keys;
    while todo != {}
      invariant Demands(records, current)
      invariant forall g :: Mentions(records, g) <==>
                  g !in todo && FamilyOf(protocol, g) && Lookup(previous, g) != Lookup(current, g)
      decreases todo
    {
      var group :| group in todo;
      todo := todo - {group};
      if !FamilyOf(protocol, group) || Lookup(previous, group) == Lookup(current, group) {
        continue;
      }
      var r: MembershipRecord;
      if group in current {
        r := RecordForInterest(group, current[group], true);
      } else {
        r := Leave(group);
      }
      DemandsExtend(records, current, r);
      records := records + [r];
    }
  }

  /** A difference report moves any state that agrees with `previous` to `current`, on every group of its
      protocol, and leaves the other protocol's groups alone. */
  lemma DeltaMovesState(protocol: Protocol, previous: Groups, current: Groups, records: seq<MembershipRecord>,
                        state: Groups, g: IpAddr)
    requires Demands(records, current)
    requires forall h :: Mentions(records, h) <==> FamilyOf(protocol, h) && Lookup(previous, h) != Lookup(current, h)
    requires FamilyOf(protocol, g) ==> Lookup(state, g) == Lookup(previous, g)
    ensures Lookup(ApplyAll(state, records), g) == if FamilyOf(protocol, g) then Lookup(current, g) else Lookup(state,
        g)
  {
    DemandsReach(state, records, current, g);
  }

  // ---- replacing all memberships ----

  /** `desired`, then one leave for every reported group it does not name. */
  ghost predicate WithLeaves(records: seq<MembershipRecord>, desired: seq<MembershipRecord>, reported: Groups) {
    && desired <= records
    && (forall i :: |desired| <= i < |records| ==>
          records[i] == Leave(records[i].group) && records[i].group in reported)
    && (forall i, j :: |desired| <= i < |records| && 0 <= j < i ==> records[i].group != records[j].group)
    && (forall g :: g in reported ==> Mentions(records, g))
  }

  /** The gateway's full report. */
  method ReplacementRecords(reported: Groups, desired: seq<MembershipRecord>) returns (records: seq<MembershipRecord>)
    ensures WithLeaves(records, desired, reported)
  {
    var current := set i | 0 <= i < |desired| :: desired[i].group;
    assert forall g :: g in current <==> Mentions(desired, g);
    records := desired;
    var todo := reported.Keys;
    while todo != {}
      invariant todo <= reported.Keys && desired <= records
      invariant forall i :: |desired| <= i < |records| ==>
                  records[i] == Leave(records[i].group) && records[i].group in reported && records[i].group !in todo
      invariant forall i, j :: |desired| <= i < |records| && 0 <= j < i ==> records[i].group != records[j].group
      invariant forall g :: g in reported && g !in todo ==> Mentions(records, g)
      decreases todo
    {
      var group :| group in todo;
      todo := todo - {group};
      if group !in current {
        MentionsSnoc(records, Leave(group));
        records := records + [Leave(group)];
      } else {
        var i :| 0 <= i < |desired| && desired[i].group == group;
        assert records[i].group == group;
      }
    }
  }

  lemma MentionsSnoc(records: seq<MembershipRecord>, r: MembershipRecord)
    ensures forall g :: Mentions(records + [r], g) <==> Mentions(records, g) || g == r.group
  {
    forall g ensures Mentions(records + [r], g) <==> Mentions(records, g) || g == r.group {
      if Mentions(records, g) {
        var i :| 0 <= i < |records| && records[i].group == g;
        assert (records + [r])[i].group == g;
      }
      assert (records + [r])[|records|] == r;
    }
  }

  /** Such a list asks for exactly the wanted filters, on every group that is wanted or on record. */
  lemma LeavesMakeReplacement(records: seq<MembershipRecord>, desired: seq<MembershipRecord>, reported: Groups,
                        wanted: Groups)
    requires WithLeaves(records, desired, reported)
    requires Demands(desired, wanted) && forall g :: Mentions(desired, g) <==> g in wanted
    ensures Replacement(records, reported, wanted)
  {
    forall i | 0 <= i < |records|
      ensures Absolute(records[i]) && Effect(records[i]) == Lookup(wanted, records[i].group)
    {
      if i < |desired| {
        assert records[i] == desired[i];
      } else {
        forall j | 0 <= j < |desired| ensures desired[j].group != records[i].group {
          assert records[j] == desired[j];
        }
      }
    }
    forall i, j | 0 <= i < j < |records| ensures records[i].group != records[j].group {
      if j < |desired| {
        assert records[i] == desired[i] && records[j] == desired[j];
      }
    }
    forall g ensures Mentions(records, g) <==> g in wanted || g in reported {
      if Mentions(desired, g) {
        var i :| 0 <= i < |desired| && desired[i].group == g;
        assert records[i].group == g;
      }
      if Mentions(records, g) {
        var i :| 0 <= i < |records| && records[i].group == g;
        assert i < |desired| ==> desired[i].group == g;
      }
    }
  }

  ghost predicate Replacement(records: seq<MembershipRecord>, reported: Groups, wanted: Groups) {
    Demands(records, wanted) && forall g :: Mentions(records, g) <==> g in wanted || g in reported
  }

  /** The gateway's own state becomes exactly the wanted one. */
  lemma ReplacementIsExact(records: seq<MembershipRecord>, reported: Groups, wanted: Groups)
    requires Replacement(records, reported, wanted)
    ensures ApplyAll(reported, records) == wanted
  {
    forall g ensures Lookup(ApplyAll(reported, records), g) == Lookup(wanted, g) {
      DemandsReach(reported, records, wanted, g);
    }
    SameLookup(ApplyAll(reported, records), wanted);
  }

  /** The peer's state, whatever filters it held, becomes the wanted one too, exactly when it held no group
      that the gateway neither wants nor has on record. Reports that were lost can therefore be made up for,
      except for a lost leave. */
  lemma ReplacementConverges(records: seq<MembershipRecord>, reported: Groups, wanted: Groups, peer: Groups)
    requires Replacement(records, reported, wanted)
    ensures ApplyAll(peer, records) == wanted <==> peer.Keys <= reported.Keys + wanted.Keys
  {
    var after := ApplyAll(peer, records);
    forall g ensures Lookup(after, g) == if g in wanted || g in reported then Lookup(wanted, g) else Lookup(peer, g) {
      DemandsReach(peer, records, wanted, g);
    }
    if peer.Keys <= reported.Keys + wanted.Keys {
      SameLookup(after, wanted);
    } else {
      var g :| g in peer && g !in reported && g !in wanted;
      assert Lookup(after, g) != Lookup(wanted, g);
    }
  }

  // ---- runs over a lossy channel ----

  /** A full report the relay applies or never sees, or the relay forgetting the gateway. */
  datatype Exchange = Report(records: seq<MembershipRecord>, wanted: Groups, delivered: bool) | Expiry

  datatype Pair = Pair(gateway: Groups, relay: Groups)

  /** Both ends apply the records they see. */
  function Exchanged(p: Pair, x: Exchange): Pair {
    match x
    case Expiry => p.(relay := map[])
    case Report(records, _, delivered) =>
      Pair(ApplyAll(p.gateway, records), if delivered then ApplyAll(p.relay, records) else p.relay)
  }

  function Exchanges(p: Pair, xs: seq<Exchange>): Pair {
    if xs == [] then p else Exchanged(Exchanges(p, xs[..|xs| - 1]), xs[|xs| - 1])
  }

  /** Every report is the full report for what the gateway then wants. */
  ghost predicate FullReports(p: Pair, xs: seq<Exchange>) {
    forall i :: 0 <= i < |xs| && xs[i].Report? ==>
                  Replacement(xs[i].records, Exchanges(p, xs[..i]).gateway, xs[i].wanted)
  }

  /** No report is lost that leaves a group. */
  ghost predicate NoLostLeave(p: Pair, xs: seq<Exchange>) {
    forall i :: 0 <= i < |xs| && xs[i].Report? && !xs[i].delivered ==>
      Exchanges(p, xs[..i]).gateway.Keys <= xs[i].wanted.Keys
  }

  lemma FrontReports(p: Pair, xs: seq<Exchange>)
    requires xs != []
    ensures FullReports(p, xs) ==> FullReports(p, xs[..|xs| - 1])
    ensures NoLostLeave(p, xs) ==> NoLostLeave(p, xs[..|xs| - 1])
    ensures FullReports(p, xs) && xs[|xs| - 1].Report? ==>
              Replacement(xs[|xs| - 1].records, Exchanges(p, xs[..|xs| - 1]).gateway, xs[|xs| - 1].wanted)
  {
    hide Replacement, Exchanges;
    var front := xs[..|xs| - 1];
    forall i | 0 <= i < |front| ensures front[..i] == xs[..i] && front[i] == xs[i] {
    }
  }

  /** What a full report makes of both ends. */
  lemma ReportEffect(p: Pair, x: Exchange)
    requires x.Report? && Replacement(x.records, p.gateway, x.wanted)
    ensures Exchanged(p, x).gateway == x.wanted
    ensures forall g :: g in Exchanged(p, x).relay <==>
              if x.delivered then g in x.wanted || (g in p.relay && g !in p.gateway) else g in p.relay
    ensures x.delivered && p.relay.Keys <= p.gateway.Keys ==> Exchanged(p, x).relay == x.wanted
  {
    hide Replacement, ApplyAll;
    ReplacementIsExact(x.records, p.gateway, x.wanted);
    if x.delivered {
      ReplacementConverges(x.records, p.gateway, x.wanted, p.relay);
      forall g ensures g in ApplyAll(p.relay, x.records) <==> g in x.wanted || (g in p.relay && g !in p.gateway) {
        ReplacedGroup(x.records, p.gateway, x.wanted, p.relay, g);
      }
    }
  }

  lemma ReplacedGroup(records: seq<MembershipRecord>, reported: Groups, wanted: Groups, peer: Groups, g: IpAddr)
    requires Replacement(records, reported, wanted)
    ensures Lookup(ApplyAll(peer, records), g) ==
            if g in wanted || g in reported then Lookup(wanted, g) else Lookup(peer, g)
  {
    hide ApplyAll, Demands;
    DemandsReach(peer, records, wanted, g);
  }

  lemma {:induction false} RelayTrailsGateway(p: Pair, xs: seq<Exchange>)
    requires p.relay.Keys <= p.gateway.Keys && FullReports(p, xs) && NoLostLeave(p, xs)
    ensures Exchanges(p, xs).relay.Keys <= Exchanges(p, xs).gateway.Keys
    decreases |xs|
  {
    hide FullReports, Replacement, Exchanged;
    if xs != [] {
      var front, x := xs[..|xs| - 1], xs[|xs| - 1];
      FrontReports(p, xs);
      RelayTrailsGateway(p, front);
      if x.Report? {
        ReportEffect(Exchanges(p, front), x);
      } else {
        Forgotten(Exchanges(p, front));
      }
    }
  }

  lemma Forgotten(p: Pair)
    ensures Exchanged(p, Expiry) == Pair(p.gateway, map[])
  {
  }

  /** However many reports were lost before, and whenever the relay forgot the gateway, one delivered report
      brings the relay to exactly the gateway's state, as long as no lost report left a group. */
  lemma DeliveryRestoresAgreement(p: Pair, xs: seq<Exchange>, records: seq<MembershipRecord>, wanted: Groups)
    requires p.relay.Keys <= p.gateway.Keys && FullReports(p, xs) && NoLostLeave(p, xs)
    requires Replacement(records, Exchanges(p, xs).gateway, wanted)
    ensures Exchanges(p, xs + [Report(records, wanted, true)]) == Pair(wanted, wanted)
  {
    hide FullReports, NoLostLeave, Replacement, Exchanged;
    RelayTrailsGateway(p, xs);
    assert (xs + [Report(records, wanted, true)])[..|xs|] == xs;
    ReportEffect(Exchanges(p, xs), Report(records, wanted, true));
  }

  /** A lost leave is different: the relay keeps the group through every later report that does not name it
      again, delivered or not, until it forgets the gateway altogether. */
  lemma {:induction false} LostLeavePersists(p: Pair, xs: seq<Exchange>, g: IpAddr)
    requires g in p.relay && g !in p.gateway && FullReports(p, xs)
    requires forall i :: 0 <= i < |xs| ==> xs[i].Report? && g !in xs[i].wanted
    ensures g in Exchanges(p, xs).relay && g !in Exchanges(p, xs).gateway
    decreases |xs|
  {
    hide FullReports, Replacement, Exchanged;
    if xs != [] {
      FrontReports(p, xs);
      LostLeavePersists(p, xs[..|xs| - 1], g);
      ReportEffect(Exchanges(p, xs[..|xs| - 1]), xs[|xs| - 1]);
    }
  }

  /** That state is reached from agreement by losing one leave. */
  lemma LeaveLost(groups: Groups, g: IpAddr, records: seq<MembershipRecord>)
    requires g in groups && Replacement(records, groups, groups - {g})
    ensures Exchanged(Pair(groups, groups), Report(records, groups - {g}, false)) == Pair(groups - {g}, groups)
  {
    hide Replacement, ApplyAll;
    ReportEffect(Pair(groups, groups), Report(records, groups - {g}, false));
  }

  /** From two ends that agree, a lost leave leaves them apart through every later report that does not name the
      group, delivered or not. */
  lemma LostLeaveNeverRepaired(groups: Groups, g: IpAddr, records: seq<MembershipRecord>, xs: seq<Exchange>)
    requires g in groups && Replacement(records, groups, groups - {g})
    requires FullReports(Pair(groups - {g}, groups), xs)
    requires forall i :: 0 <= i < |xs| ==> xs[i].Report? && g !in xs[i].wanted
    ensures var end := Exchanges(Exchanged(Pair(groups, groups), Report(records, groups - {g}, false)), xs);
            g in end.relay && g !in end.gateway
  {
    hide Replacement, FullReports, Exchanged;
    LeaveLost(groups, g, records);
    LostLeavePersists(Pair(groups - {g}, groups), xs, g);
  }
}
