/** Source filters per multicast group, and what one membership record does to them. */
module Interest {
  import opened Bytes

  datatype FilterMode = Include | Exclude

  datatype GroupInterest = GroupInterest(mode: FilterMode, sources: set<IpAddr>) {
    predicate Wants(source: IpAddr) {
      match mode
      case Include => source in sources
      case Exclude => source !in sources
    }
  }

  datatype RecordKind =
    | ModeIsInclude
    | ModeIsExclude
    | ChangeToInclude
    | ChangeToExclude
    | AllowNewSources
    | BlockOldSources
    | LegacyReport
    | LegacyLeave

  datatype MembershipRecord = MembershipRecord(kind: RecordKind, group: IpAddr, sources: seq<IpAddr>)
  datatype Protocol = Igmpv3 | Mldv2
  datatype MembershipReport = MembershipReport(protocol: Protocol, records: seq<MembershipRecord>)

  /** The reception state of one endpoint: a filter for every group it listens to. */
  type Groups = map<IpAddr, GroupInterest>

  predicate Wants(groups: Groups, group: IpAddr, source: IpAddr) {
    group in groups && groups[group].Wants(source)
  }

  /** An Include filter that passes nothing is represented by absence. */
  ghost predicate NoEmptyInclude(groups: Groups) {
    forall g :: g in groups && groups[g].mode.Include? ==> groups[g].sources != {}
  }

  function SourceSet(sources: seq<IpAddr>): set<IpAddr> {
    set s | s in sources
  }

  /** Section 6.4 of RFC 3376 and section 7.4 of RFC 3810, read as a change of the wanted sources:
      what a record makes of whether `source` was wanted for its group. */
  predicate WantedAfter(record: MembershipRecord, before: bool, source: IpAddr) {
    match record.kind
    case ModeIsInclude | ChangeToInclude => source in record.sources
    case ModeIsExclude | ChangeToExclude => source !in record.sources
    case AllowNewSources => before || source in record.sources
    case BlockOldSources => before && source !in record.sources
    case LegacyReport => true
    case LegacyLeave => false
  }

  /** One record applied to an endpoint's filters. */
  function ApplyRecord(groups: Groups, record: MembershipRecord): (r: Groups)
    ensures forall g :: g != record.group ==> (g in r <==> g in groups) && (g in r ==> r[g] == groups[g])
    ensures forall s :: Wants(r, record.group, s) == WantedAfter(record, Wants(groups, record.group, s), s)
    ensures NoEmptyInclude(groups) ==> NoEmptyInclude(r)
  {
    var sources := SourceSet(record.sources);
    assert record.sources != [] ==> record.sources[0] in sources;
    match record.kind
    case LegacyReport => groups[record.group := GroupInterest(Exclude, {})]
    case LegacyLeave => groups - {record.group}
    case ModeIsInclude | ChangeToInclude =>
      if record.sources == [] then groups - {record.group}
      else groups[record.group := GroupInterest(Include, sources)]
    case ModeIsExclude | ChangeToExclude => groups[record.group := GroupInterest(Exclude, sources)]
    case AllowNewSources =>
      if record.sources == [] then groups
      else
        var interest := if record.group in groups then groups[record.group] else GroupInterest(Include, {});
        (match interest.mode
         case Include => groups[record.group := interest.(sources := interest.sources + sources)]
         case Exclude => groups[record.group := interest.(sources := interest.sources - sources)])
    case BlockOldSources =>
      if record.sources == [] || record.group !in groups then groups
      else
        var interest := groups[record.group];
        (match interest.mode
         case Include =>
           var left := interest.sources - sources;
           if left == {} then groups - {record.group}
           else groups[record.group := interest.(sources := left)]
         case Exclude => groups[record.group := interest.(sources := interest.sources + sources)])
  }

  /** A record counts as applied when the filter of its group changed. */
  predicate Applied(groups: Groups, record: MembershipRecord) {
    var after := ApplyRecord(groups, record);
    !((record.group in groups <==> record.group in after)
      && (record.group in groups && record.group in after ==> groups[record.group] == after[record.group]))
  }

  /** The records of a report, applied in order. */
  function ApplyAll(groups: Groups, records: seq<MembershipRecord>): Groups {
    if records == [] then groups
    else ApplyRecord(ApplyAll(groups, records[..|records| - 1]), records[|records| - 1])
  }

  function AppliedCount(groups: Groups, records: seq<MembershipRecord>): nat {
    if records == [] then 0
    else
      var before := ApplyAll(groups, records[..|records| - 1]);
      AppliedCount(groups, records[..|records| - 1]) + if Applied(before, records[|records| - 1]) then 1 else 0
  }

  lemma {:induction false} ApplyAllWellFormed(groups: Groups, records: seq<MembershipRecord>)
    requires NoEmptyInclude(groups)
    ensures NoEmptyInclude(ApplyAll(groups, records))
  {
    if records != [] {
      ApplyAllWellFormed(groups, records[..|records| - 1]);
    }
  }

  lemma ApplyAllStep(groups: Groups, records: seq<MembershipRecord>, i: nat)
    requires i < |records|
    ensures ApplyAll(groups, records[..i + 1]) == ApplyRecord(ApplyAll(groups, records[..i]), records[i])
    ensures AppliedCount(groups, records[..i + 1])
         == AppliedCount(groups, records[..i]) + (if Applied(ApplyAll(groups, records[..i]), records[i]) then 1 else 0)
  {
    assert records[..i + 1][..i] == records[..i];
  }

  /** An untouched group keeps its filter through a whole report. */
  lemma {:induction false} ApplyAllFrame(groups: Groups, records: seq<MembershipRecord>, g: IpAddr)
    requires forall i :: 0 <= i < |records| ==> records[i].group != g
    ensures g in ApplyAll(groups, records) <==> g in groups
    ensures g in groups ==> ApplyAll(groups, records)[g] == groups[g]
  {
    if records != [] {
      ApplyAllFrame(groups, records[..|records| - 1], g);
    }
  }

  // ---- the applied count ----

  /** A record counts exactly if it changes the filters at all. */
  lemma AppliedChanges(groups: Groups, record: MembershipRecord)
    ensures Applied(groups, record) <==> ApplyRecord(groups, record) != groups
  {
    var after := ApplyRecord(groups, record);
    if !Applied(groups, record) {
      assert after.Keys == groups.Keys;
      assert forall g :: g in groups ==> after[g] == groups[g];
    }
  }

  /** The record at `i` changes what the ones before it made of the filters. */
  predicate ChangesAt(groups: Groups, records: seq<MembershipRecord>, i: nat)
    requires i < |records|
  {
    ApplyAll(groups, records[..i + 1]) != ApplyAll(groups, records[..i])
  }

  ghost function Changes(groups: Groups, records: seq<MembershipRecord>): set<nat> {
    set i: nat | i < |records| && ChangesAt(groups, records, i)
  }

  lemma ChangesFront(groups: Groups, records: seq<MembershipRecord>, i: nat)
    requires i + 1 < |records|
    ensures ChangesAt(groups, records[..|records| - 1], i) == ChangesAt(groups, records, i)
  {
    hide ApplyAll;
    var front := records[..|records| - 1];
    assert front[..i + 1] == records[..i + 1] && front[..i] == records[..i];
  }

  lemma ChangesLast(groups: Groups, records: seq<MembershipRecord>)
    requires records != []
    ensures var n := |records| - 1;
            ChangesAt(groups, records, n) <==> Applied(ApplyAll(groups, records[..n]), records[n])
  {
    hide ApplyRecord, Applied;
    var n := |records| - 1;
    assert records[..n + 1] == records;
    AppliedChanges(ApplyAll(groups, records[..n]), records[n]);
  }

  /** The applied count of a report is the number of its records that change something. */
  lemma {:induction false} AppliedCountExactly(groups: Groups, records: seq<MembershipRecord>)
    ensures AppliedCount(groups, records) == |Changes(groups, records)|
  {
    hide Applied, ApplyAll, ChangesAt;
    if records == [] {
      assert Changes(groups, records) == {};
    } else {
      var n: nat := |records| - 1;
      AppliedCountExactly(groups, records[..n]);
      ChangesLast(groups, records);
      forall i: nat | i < n ensures ChangesAt(groups, records[..n], i) == ChangesAt(groups, records, i) {
        ChangesFront(groups, records, i);
      }
      var last: set<nat> := if ChangesAt(groups, records, n) then {n} else {};
      assert Changes(groups, records) == Changes(groups, records[..n]) + last;
    }
  }

  // ---- long records ----

  /** The source count of the first record with more sources than allowed. */
  function FirstOver(rs: seq<MembershipRecord>, limit: nat): Option<nat> {
    if rs == [] then None
    else if |rs[0].sources| > limit then Some(|rs[0].sources|)
    else FirstOver(rs[1..], limit)
  }

  lemma {:induction false} NoneOver(rs: seq<MembershipRecord>, limit: nat)
    ensures FirstOver(rs, limit).None? <==> forall i :: 0 <= i < |rs| ==> |rs[i].sources| <= limit
  {
    if rs != [] {
      NoneOver(rs[1..], limit);
      assert forall i :: 0 < i < |rs| ==> rs[i] == rs[1..][i - 1];
    }
  }
}
