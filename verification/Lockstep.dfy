/** Gateway and relay together: a report travels as bytes and both ends come to the same filter. */
module Lockstep {
  import opened Bytes
  import opened Interest
  import opened ReportRecords
  import opened RelayState
  import opened RelayDatabase
  import opened RelayRun
  import Wire
  import ReportBuild
  import ReportParse
  import Session
  import Gateway
  import Ecn

  lemma EntryAfter(eps: Endpoints, e: SocketAddr, report: MembershipReport)
    ensures EntryOf(AfterReport(eps, e, report), e) == ApplyAll(EntryOf(eps, e), report.records)
  {
  }

  function ParseLimitsOf(limits: RelayLimits): ParseLimits {
    ParseLimits(limits.maxRecordsPerReport, limits.maxSourcesPerGroup)
  }

  /** What the relay reads from a datagram: an update whose payload parses within the limits and names only
      groups that may leave the local link. */
  function Parsed(datagram: seq<Byte>, limits: RelayLimits): Option<MembershipReport> {
    match Wire.Decode(datagram)
    case Ok(MembershipUpdate(_, _, packet)) =>
      (match ReportParse.Parse(packet, ParseLimitsOf(limits))
       case Ok(report) => if AllForwardable(report.records) then Some(report) else None
       case Err(_) => None)
    case _ => None
  }

  predicate AllForwardable(rs: seq<MembershipRecord>) {
    forall i :: 0 <= i < |rs| ==> rs[i].group.IsForwardableGroup()
  }

  /** The limits on a single report. */
  predicate ReportWithin(report: MembershipReport, limits: RelayLimits) {
    |report.records| <= limits.maxRecordsPerReport && FirstOver(report.records, limits.maxSourcesPerGroup).None?
  }

  lemma BuiltIsForwardable(p: Protocol, rs: seq<MembershipRecord>)
    requires ReportBuild.Build(p, rs).Ok?
    ensures AllForwardable(rs)
  {
    NoErrorMeansEncodable(p, rs);
    forall i | 0 <= i < |rs| ensures rs[i].group.IsForwardableGroup() {
      assert Encodable(p, rs[i]);
    }
  }

  /** The datagram a gateway sends for `report` decodes to an update with the session's MAC and nonce, and the
      relay reads from it exactly `report`, or nothing if the report exceeds the limits on a single report. */
  lemma UpdateArrives(st: Gateway.State, report: MembershipReport, limits: RelayLimits)
    requires Gateway.Update(st, report).Ok?
    ensures var sent := Gateway.Update(st, report).value.1;
            && sent.Send? && Wire.Decode(sent.datagram).Ok? && Wire.Decode(sent.datagram).value.MembershipUpdate?
            && Wire.Decode(sent.datagram).value.mac == st.session.value.mac
            && Wire.Decode(sent.datagram).value.requestNonce == st.session.value.nonce
            && Parsed(sent.datagram, limits) == if ReportWithin(report, limits) then Some(report) else None
  {
    hide ReportBuild.Build, Wire.Decode, Wire.Encode, ReportParse.Parse, ApplyAll, AllForwardable, FirstOver;
    var packet := ReportBuild.Build(report.protocol, report.records).value;
    Wire.DecodeEncode(Wire.MembershipUpdate(st.session.value.mac, st.session.value.nonce, packet));
    ReportParse.BuildParseRoundTrip(report, [], ParseLimitsOf(limits));
    assert packet + [] == packet;
    BuiltIsForwardable(report.protocol, report.records);
  }

  /** The MAC in that datagram is still accepted two query intervals after the relay issued it. */
  lemma UpdateAuthenticates(st: Gateway.State, peer: SocketAddr, mac: Session.MacFunction, k: Session.Keys,
                            policy: Session.Policy, issued: Session.Time, ticks: seq<Session.Tick>, now: Session.Time)
    requires st.session.Some?
    requires st.session.value.mac == Session.ResponseMac(mac, k.current, peer.ip, peer.port, st.session.value.nonce)
    requires Session.IsRun(ticks, issued, now) && now <= issued + policy.grace
    ensures Session.Authentic(Session.Run(k, policy, ticks), policy, mac, st.session.value.mac, peer.ip, peer.port,
                              st.session.value.nonce, now)
  {
    Session.IssuedMacAccepted(k, policy, issued, ticks, now);
    assert Session.Live(Session.Run(k, policy, ticks), policy, now, k.current);
  }

  // ---- the handshake ----

  /** What stays the same: the gateway's address as the relay sees it, the configurations, the general query of
      each protocol and what the gateway thinks of it. */
  datatype Setup = Setup(
    peer: SocketAddr,
    limits: RelayLimits,
    limitFlag: bool,
    policy: Session.Policy,
    mac: Session.MacFunction,
    includeGateway: bool,
    query: Protocol -> seq<Byte>,
    env: Gateway.Env)

  /** The relay's answer to a Relay Discovery; a zero nonce gets none. */
  function AnswerDiscovery(datagram: seq<Byte>, advertised: IpAddr): Option<seq<Byte>> {
    match Wire.Decode(datagram)
    case Ok(RelayDiscovery(nonce)) =>
      if nonce == 0 then None else Some(Wire.Encode(Wire.RelayAdvertisement(nonce, advertised)))
    case _ => None
  }

  /** A discovery is answered unless its nonce is zero, with its own nonce and the advertised address. */
  lemma DiscoveryAnswered(nonce: Word32, advertised: IpAddr)
    ensures var answer := AnswerDiscovery(Wire.Encode(Wire.RelayDiscovery(nonce)), advertised);
            && (answer.Some? <==> nonce != 0)
            && (nonce != 0 ==> Wire.Decode(answer.value) == Ok(Wire.RelayAdvertisement(nonce, advertised)))
  {
    hide Wire.Encode, Wire.Decode;
    Wire.DecodeEncode(Wire.RelayDiscovery(nonce));
    Wire.DecodeEncode(Wire.RelayAdvertisement(nonce, advertised));
  }

  function QueriedEndpoint(setup: Setup): Option<Wire.GatewayEndpoint> {
    if setup.includeGateway then Some(Wire.GatewayEndpoint(setup.peer.port, Wire.FromIp(setup.peer.ip))) else None
  }

  function MacUnder(setup: Setup, secret: Session.Secret, nonce: Word32): Wire.Mac {
    Session.ResponseMac(setup.mac, secret, setup.peer.ip, setup.peer.port, nonce)
  }

  /** The relay's answer to a Request from the gateway, authenticated under the current secret. */
  function AnswerRequest(datagram: seq<Byte>, setup: Setup, k: Session.Keys, limit: bool): Option<seq<Byte>> {
    match Wire.Decode(datagram)
    case Ok(Request(nonce, protocol, _)) =>
      Some(Wire.Encode(Wire.MembershipQuery(MacUnder(setup, k.current, nonce), nonce, limit, QueriedEndpoint(setup),
                                            setup.query(protocol))))
    case _ => None
  }

  /** A request the gateway has just sent, the relay's answer, and the gateway taking it. */
  function Exchange(st: Gateway.State, sent: Gateway.Action, setup: Setup, k: Session.Keys, limit: bool,
                    outer: Ecn.Codepoint): Option<Gateway.State> {
    if !sent.Send? then None
    else
      match AnswerRequest(sent.datagram, setup, k, limit)
      case None => None
      case Some(answer) =>
        match Gateway.OnDatagram(st, setup.env, sent.destination, answer, outer)
        case Err(_) => None
        case Ok((next, _)) => Some(next)
  }

  /** Discovery, advertisement, request and query in a row, each datagram being the other side's answer to the
      one before. */
  function Handshake(st: Gateway.State, setup: Setup, advertised: IpAddr, k: Session.Keys, limit: bool,
                     outer: Ecn.Codepoint): Option<Gateway.State> {
    match AnswerDiscovery(Wire.Encode(Wire.RelayDiscovery(st.discoveryNonce)), advertised)
    case None => None
    case Some(advertisement) =>
      match Gateway.OnDatagram(st, setup.env, st.failover.relay, advertisement, outer)
      case Err(_) => None
      case Ok((next, sent)) => Exchange(next, sent, setup, k, limit, outer)
  }

  /** An exchange succeeds exactly when the gateway accepts the relay's general query; the session then carries
      the MAC of the relay's current secret for the nonce just sent, and the filter is as it was. */
  lemma ExchangeRenews(st: Gateway.State, setup: Setup, k: Session.Keys, limit: bool, outer: Ecn.Codepoint)
    requires st.phase.AwaitingQuery? && st.relayEndpoint.Some?
    ensures var sent := Gateway.Send(st.relayEndpoint.value, Wire.Encode(Gateway.RequestMessage(st)));
            var next := Exchange(st, sent, setup, k, limit, outer);
            && (next.Some? <==> setup.env.queryOk(st.protocol, setup.query(st.protocol)))
            && (next.Some? ==>
                  && next.value.phase.Established? && next.value.reception == st.reception
                  && next.value.relayEndpoint == st.relayEndpoint && next.value.session.Some?
                  && next.value.session.value.nonce == st.requestNonce
                  && next.value.session.value.mac == MacUnder(setup, k.current, st.requestNonce)
                  && next.value.session.value.endpoint == QueriedEndpoint(setup)
                  && (next.value.session.value.reported ==> st.session.Some? && st.session.value.reported))
  {
    hide Wire.Encode, Wire.Decode, QueriedEndpoint, MacUnder;
    var answer := Wire.MembershipQuery(MacUnder(setup, k.current, st.requestNonce), st.requestNonce, limit,
                                       QueriedEndpoint(setup), setup.query(st.protocol));
    Wire.DecodeEncode(Gateway.RequestMessage(st));
    Wire.DecodeEncode(answer);
  }

  /** The handshake leaves the gateway established at the advertised relay with the MAC the relay computed for it,
      nothing reported yet and its filter as it was. */
  lemma HandshakeEstablishes(st: Gateway.State, setup: Setup, advertised: IpAddr, k: Session.Keys, limit: bool,
                             outer: Ecn.Codepoint)
    requires st.phase.Discovering? && st.relayEndpoint.None? && st.session.None?
    requires advertised.IsValidSource() && advertised.SameFamily(st.failover.relay.ip)
    requires setup.env.queryOk(st.protocol, setup.query(st.protocol))
    ensures var end := Handshake(st, setup, advertised, k, limit, outer);
            && end.Some? && end.value.phase.Established? && end.value.session.Some?
            && end.value.reception == st.reception
            && end.value.relayEndpoint == Some(SocketAddr(advertised, st.failover.relay.port))
            && (var session := end.value.session.value;
                && session.nonce == st.requestNonce && !session.reported
                && session.mac == MacUnder(setup, k.current, session.nonce)
                && session.endpoint == QueriedEndpoint(setup))
  {
    hide Wire.Encode, Wire.Decode, IpAddr.IsValidSource, Exchange, QueriedEndpoint, MacUnder;
    Wire.DecodeEncode(Wire.RelayDiscovery(st.discoveryNonce));
    Wire.DecodeEncode(Wire.RelayAdvertisement(st.discoveryNonce, advertised));
    var relay := SocketAddr(advertised, st.failover.relay.port);
    ExchangeRenews(st.(relayEndpoint := Some(relay), phase := Gateway.AwaitingQuery), setup, k, limit, outer);
  }

  // ---- one report, from end to end ----

  /** Both ends, the relay's with its secrets. */
  datatype Ends = Ends(gateway: Gateway.State, relay: Daemon, keys: Session.Keys)

  /** What the world does to a datagram: whether it arrives, what the relay's clock says when it checks the MAC
      and when it notes the activity, and whether the native joins that may follow succeed. */
  datatype Fate = Fate(arrives: bool, at: Session.Time, now: int, joins: bool)

  /** The filter the relay keeps for the gateway is the gateway's own. */
  ghost predicate Agree(ends: Ends, peer: SocketAddr) {
    EntryOf(ends.relay.endpoints, peer) == ends.gateway.reception
  }

  ghost predicate Ignores(d: Daemon, setup: Setup) {
    setup.peer !in d.endpoints && RefusesNew(d.endpoints, setup.peer.ip, setup.limits, setup.limitFlag)
  }

  /** What the relay makes of a datagram before it looks at its database: nothing unless it is an update that
      authenticates for the sender, is not ignored and parses within the limits. */
  ghost function Heard(d: Daemon, keys: Session.Keys, setup: Setup, datagram: seq<Byte>,
                       at: Session.Time): Option<MembershipReport> {
    match Wire.Decode(datagram)
    case Ok(MembershipUpdate(actual, nonce, _)) =>
      if || !Session.Authentic(keys, setup.policy, setup.mac, actual, setup.peer.ip, setup.peer.port, nonce, at)
         || Ignores(d, setup)
      then None
      else Parsed(datagram, setup.limits)
    case _ => None
  }

  ghost predicate Reaction(d: Daemon, d': Daemon, keys: Session.Keys, setup: Setup, datagram: seq<Byte>, fate: Fate) {
    var heard := Heard(d, keys, setup, datagram, fate.at);
    if fate.arrives && heard.Some?
    then UpdateResolved(d, d', setup.peer, heard.value, fate.now, setup.limits, fate.joins)
    else d' == d
  }

  /** The gateway reports: it applies the report to its own filter and sends the bytes, and the relay reacts to the
      bytes alone. */
  ghost predicate ReportStep(a: Ends, b: Ends, setup: Setup, report: MembershipReport, fate: Fate) {
    match Gateway.Update(a.gateway, report)
    case Err(_) => b == a
    case Ok((st, sent)) =>
      b.gateway == st && b.keys == a.keys && sent.Send?
      && Reaction(a.relay, b.relay, a.keys, setup, sent.datagram, fate)
  }

  /** Whatever the relay does with a datagram, its daemon does nothing or takes an update step. */
  lemma ReactionIsStep(d: Daemon, d': Daemon, keys: Session.Keys, setup: Setup, datagram: seq<Byte>, fate: Fate)
    requires Reaction(d, d', keys, setup, datagram, fate)
    ensures d' == d || exists report ::
                         Step(d, d', RelayRun.Update(setup.peer, report, fate.now, false, fate.joins), setup.limits)
  {
    hide Heard, UpdateResolved;
    var heard := Heard(d, keys, setup, datagram, fate.at);
    if fate.arrives && heard.Some? {
      assert Step(d, d', RelayRun.Update(setup.peer, heard.value, fate.now, false, fate.joins), setup.limits);
    }
  }

  /** The MAC the gateway would send now is one the relay accepts at that time. */
  ghost predicate SessionGood(a: Ends, setup: Setup, at: Session.Time) {
    && a.gateway.session.Some?
    && Session.Authentic(a.keys, setup.policy, setup.mac, a.gateway.session.value.mac, setup.peer.ip, setup.peer.port,
                         a.gateway.session.value.nonce, at)
  }

  /** Nothing stands in the way of a report but its authentication: it arrives, the relay is not ignoring the
      gateway, the limits allow what the report makes of the database, and the native joins succeed. */
  ghost predicate Unhindered(a: Ends, setup: Setup, report: MembershipReport, fate: Fate) {
    && fate.arrives && fate.joins && !Ignores(a.relay, setup)
    && Accepts(a.relay.endpoints, setup.peer, report, setup.limits).Ok?
  }

  lemma AcceptedIsWithin(eps: Endpoints, e: SocketAddr, report: MembershipReport, limits: RelayLimits)
    requires Accepts(eps, e, report, limits).Ok?
    ensures ReportWithin(report, limits)
  {
    hide AfterReport, CheckAll, MostSources, Pairs, Triples, Subscriptions, AppliedCount;
  }

  /** The relay reads from the gateway's datagram exactly the gateway's report, or nothing. */
  lemma ReportHeard(a: Ends, setup: Setup, report: MembershipReport, at: Session.Time)
    requires Gateway.Update(a.gateway, report).Ok?
    ensures Heard(a.relay, a.keys, setup, Gateway.Update(a.gateway, report).value.1.datagram, at) ==
            if SessionGood(a, setup, at) && !Ignores(a.relay, setup) && ReportWithin(report, setup.limits)
            then Some(report) else None
  {
    hide ReportBuild.Build, Wire.Decode, Wire.Encode, Parsed, ApplyAll, ReportWithin, Session.Authentic, Ignores;
    UpdateArrives(a.gateway, report, setup.limits);
  }

  /** What a heard report makes of the gateway's entry. */
  lemma ResolvedEntry(d: Daemon, d': Daemon, peer: SocketAddr, report: MembershipReport, now: int, limits: RelayLimits,
                      ok: bool)
    requires UpdateResolved(d, d', peer, report, now, limits, ok)
    ensures d'.endpoints ==
            if ok && Accepts(d.endpoints, peer, report, limits).Ok? then AfterReport(d.endpoints, peer, report)
            else d.endpoints
  {
    hide Accepts, AfterReport, Subscriptions, Synced;
  }

  /** Two ends that agree still agree after a report if and only if the gateway could not send it, or its MAC is
      accepted and nothing else stands in its way, or it changes nothing. */
  lemma ReportAgreement(a: Ends, b: Ends, setup: Setup, report: MembershipReport, fate: Fate)
    requires Agree(a, setup.peer) && ReportStep(a, b, setup, report, fate)
    ensures Agree(b, setup.peer) <==>
              || Gateway.Update(a.gateway, report).Err?
              || (SessionGood(a, setup, fate.at) && Unhindered(a, setup, report, fate))
              || ApplyAll(a.gateway.reception, report.records) == a.gateway.reception
  {
    hide ReportBuild.Build, Wire.Encode, Heard, ApplyAll, AfterReport, Accepts, ReportWithin, SessionGood, Ignores,
         UpdateResolved;
    if Gateway.Update(a.gateway, report).Ok? {
      var eps, peer := a.relay.endpoints, setup.peer;
      ReportHeard(a, setup, report, fate.at);
      EntryAfter(eps, peer, report);
      if Accepts(eps, peer, report, setup.limits).Ok? {
        AcceptedIsWithin(eps, peer, report, setup.limits);
      }
      var datagram := Gateway.Update(a.gateway, report).value.1.datagram;
      if fate.arrives && Heard(a.relay, a.keys, setup, datagram, fate.at).Some? {
        ResolvedEntry(a.relay, b.relay, peer, report, fate.now, setup.limits, fate.joins);
      }
    }
  }

  // ---- what the relay's own limits leave of the report checks ----

  /** A report the relay has read under its own limits passes the two checks on a single report when it comes to
      the database, exactly unless the limit on records is zero and the message is a legacy one, which always
      counts as one record. */
  lemma ParsedIsWithin(datagram: seq<Byte>, limits: RelayLimits)
    requires Parsed(datagram, limits).Some?
    ensures var report := Parsed(datagram, limits).value;
            && FirstOver(report.records, limits.maxSourcesPerGroup).None?
            && (ReportWithin(report, limits) <==> limits.maxRecordsPerReport != 0 || report.records == [])
            && (!ReportWithin(report, limits) ==> ReportParse.IsLegacy(report.records))
  {
    hide ReportParse.Parse, Wire.Decode, AllForwardable, FirstOver, ReportParse.Sealed;
    var report := Parsed(datagram, limits).value;
    var packet := Wire.Decode(datagram).value.update;
    ReportParse.ParsedReportsAreSound(packet, ParseLimitsOf(limits));
    NoneOver(report.records, limits.maxSourcesPerGroup);
  }

  /** Such messages exist: an IGMPv2 report for any group, which a relay with a limit of zero still reads. */
  lemma LegacyIgnoresLimit(mac: Wire.Mac, nonce: Word32, group: Octets4, limits: RelayLimits)
    requires limits.maxRecordsPerReport == 0 && V4(group).IsForwardableGroup()
    ensures var datagram := Wire.Encode(Wire.MembershipUpdate(mac, nonce, ReportParse.LegacyPacket(group)));
            Parsed(datagram, limits).Some? && !ReportWithin(Parsed(datagram, limits).value, limits)
  {
    hide Wire.Encode, Wire.Decode, ReportParse.Parse, ReportParse.LegacyPacket;
    Wire.DecodeEncode(Wire.MembershipUpdate(mac, nonce, ReportParse.LegacyPacket(group)));
    ReportParse.LegacyReportParses(group, ParseLimitsOf(limits));
  }

  // ---- runs of both ends ----

  lemma UpdateOutcome(d: Daemon, d': Daemon, peer: SocketAddr, report: MembershipReport, now: int, limits: RelayLimits,
                      ignored: bool, ok: bool)
    requires UpdateStep(d, d', peer, report, now, limits, ignored, ok)
    ensures d'.endpoints == d.endpoints || d'.endpoints == AfterReport(d.endpoints, peer, report)
  {
    hide Accepts, AfterReport, Subscriptions, Synced;
  }

  /** What happens at the relay that is not about this gateway. */
  predicate Spares(event: RelayRun.Event, d: Daemon, peer: SocketAddr) {
    match event
    case Update(other, _, _, _, _) => other != peer
    case Teardown(_, target, _, _) => target != peer
    case Prune(timeout, now, _) => peer !in Stale(d.lastSeen, timeout, now)
  }

  /** Other gateways' updates and teardowns, and prunes that do not expire this gateway, leave its filter
      alone, whether they succeed or fail. */
  lemma OthersSpareEntry(d: Daemon, d': Daemon, event: RelayRun.Event, peer: SocketAddr, limits: RelayLimits)
    requires Step(d, d', event, limits) && Spares(event, d, peer)
    ensures EntryOf(d'.endpoints, peer) == EntryOf(d.endpoints, peer)
  {
    hide Accepts, ApplyAll, Subscriptions, Synced, Stale;
    match event {
      case Update(other, report, now, ignored, joins) =>
        UpdateOutcome(d, d', other, report, now, limits, ignored, joins);
        OtherEntry(d.endpoints, other, report, peer);
      case Teardown(_, _, _, _) =>
      case Prune(_, _, _) =>
    }
  }

  lemma OtherEntry(eps: Endpoints, other: SocketAddr, report: MembershipReport, peer: SocketAddr)
    requires other != peer
    ensures EntryOf(AfterReport(eps, other, report), peer) == EntryOf(eps, peer)
  {
    hide ApplyAll;
  }

  /** A report of the gateway, a query cycle whose request or answer may be lost, a rotation check at the relay, or
      an event of the daemon. */
  datatype Move =
    | Report(report: MembershipReport, fate: Fate)
    | Cycle(nonce: Gateway.Nonce, answered: bool, at: Session.Time, outer: Ecn.Codepoint)
    | Rotation(tick: Session.Tick)
    | Elsewhere(event: RelayRun.Event)

  /** A new request; the answer replaces the session if it comes and the gateway accepts it. */
  ghost predicate CycleStep(a: Ends, b: Ends, setup: Setup, move: Move)
    requires move.Cycle?
  {
    match Gateway.BeginCycle(a.gateway, move.nonce)
    case Err(_) => b == a
    case Ok((st, sent)) =>
      var limit := RefusesNew(a.relay.endpoints, setup.peer.ip, setup.limits, setup.limitFlag);
      var next := Exchange(st, sent, setup, a.keys, limit, move.outer);
      b == a.(gateway := if move.answered && next.Some? then next.value else st)
  }

  ghost predicate JointStep(a: Ends, b: Ends, move: Move, setup: Setup) {
    match move
    case Report(report, fate) => ReportStep(a, b, setup, report, fate)
    case Cycle(_, _, _, _) => CycleStep(a, b, setup, move)
    case Rotation(tick) => b == a.(keys := Session.Rotate(a.keys, setup.policy, tick))
    case Elsewhere(event) =>
      b.gateway == a.gateway && b.keys == a.keys && Step(a.relay, b.relay, event, setup.limits)
  }

  /** A joint run, oldest step innermost. */
  datatype Joint = Begin(start: Ends) | Then(before: Joint, move: Move, state: Ends)

  function First(t: Joint): Ends { if t.Begin? then t.start else First(t.before) }

  function Now(t: Joint): Ends { if t.Begin? then t.start else t.state }

  ghost predicate IsJoint(t: Joint, setup: Setup) {
    t.Then? ==> IsJoint(t.before, setup) && JointStep(Now(t.before), t.state, t.move, setup)
  }

  /** The cycle gives the gateway a new session. */
  predicate Renews(a: Ends, move: Move, setup: Setup) {
    && move.Cycle? && move.answered && a.gateway.relayEndpoint.Some?
    && setup.env.queryOk(a.gateway.protocol, setup.query(a.gateway.protocol))
  }

  /** The secret behind the gateway's session and when its MAC was issued: at the last cycle that renewed the
      session, or when the run began. */
  function Origin(t: Joint, setup: Setup, began: Session.Time): (Session.Secret, Session.Time) {
    match t
    case Begin(start) => (start.keys.current, began)
    case Then(before, move, _) =>
      if Renews(Now(before), move, setup) then (Now(before).keys.current, move.at) else Origin(before, setup, began)
  }

  /** In the state after `t` nothing stands in the way of the move: a report that is never sent, changes nothing, or
      is unhindered no later than two query intervals after the session's MAC was issued; an event that spares the
      gateway. */
  ghost predicate GoesWell(t: Joint, move: Move, setup: Setup, began: Session.Time) {
    var a := Now(t);
    match move
    case Report(report, fate) =>
      || Gateway.Update(a.gateway, report).Err?
      || ApplyAll(a.gateway.reception, report.records) == a.gateway.reception
      || (Unhindered(a, setup, report, fate) && fate.at <= Origin(t, setup, began).1 + setup.policy.grace)
    case Elsewhere(event) => Spares(event, a.relay, setup.peer)
    case _ => true
  }

  ghost predicate AllWell(t: Joint, setup: Setup, began: Session.Time) {
    t.Then? ==> AllWell(t.before, setup, began) && GoesWell(t.before, t.move, setup, began)
  }

  /** The clock readings of the run are in order, from `began` to `now`. */
  ghost predicate Clocked(t: Joint, began: Session.Time, now: Session.Time) {
    match t
    case Begin(_) => began <= now
    case Then(before, Report(_, fate), _) => fate.at <= now && Clocked(before, began, fate.at)
    case Then(before, Cycle(_, _, at, _), _) => at <= now && Clocked(before, began, at)
    case Then(before, Rotation(tick), _) => Session.InOrder(tick) && tick.now <= now && Clocked(before, began, tick.due)
    case Then(before, Elsewhere(_), _) => Clocked(before, began, now)
  }

  /** The session's MAC is that of its origin. */
  ghost predicate SessionFrom(st: Gateway.State, setup: Setup, secret: Session.Secret) {
    st.session.Some? && st.session.value.mac == MacUnder(setup, secret, st.session.value.nonce)
  }

  /** Reporting changes neither the session's MAC and nonce nor the relay's secrets. */
  lemma ReportKeepsSession(a: Ends, b: Ends, setup: Setup, report: MembershipReport, fate: Fate, secret: Session.Secret)
    requires ReportStep(a, b, setup, report, fate)
    ensures b.keys == a.keys
    ensures SessionFrom(a.gateway, setup, secret) ==> SessionFrom(b.gateway, setup, secret)
  {
    hide ReportBuild.Build, Wire.Encode, ApplyAll, Reaction, MacUnder;
  }

  /** A cycle changes neither filter; its session is the old one, or a new one under the relay's current secret. */
  lemma CycleOutcome(a: Ends, b: Ends, setup: Setup, move: Move, secret: Session.Secret)
    requires move.Cycle? && CycleStep(a, b, setup, move)
    ensures b.keys == a.keys && b.relay == a.relay && b.gateway.reception == a.gateway.reception
    ensures Renews(a, move, setup) ==> SessionFrom(b.gateway, setup, a.keys.current)
    ensures !Renews(a, move, setup) && SessionFrom(a.gateway, setup, secret) ==> SessionFrom(b.gateway, setup, secret)
  {
    hide Wire.Encode, Exchange, MacUnder, RefusesNew;
    if a.gateway.relayEndpoint.Some? {
      var st := Gateway.BeginCycle(a.gateway, move.nonce).value.0;
      var limit := RefusesNew(a.relay.endpoints, setup.peer.ip, setup.limits, setup.limitFlag);
      ExchangeRenews(st, setup, a.keys, limit, move.outer);
    }
  }

  lemma {:induction false} SessionKept(t: Joint, setup: Setup, began: Session.Time)
    requires IsJoint(t, setup) && SessionFrom(First(t).gateway, setup, First(t).keys.current)
    ensures SessionFrom(Now(t).gateway, setup, Origin(t, setup, began).0)
    decreases t
  {
    hide ReportStep, CycleStep, Step, Session.Rotate, SessionFrom, Renews;
    if t.Then? {
      SessionKept(t.before, setup, began);
      var secret := Origin(t.before, setup, began).0;
      if t.move.Report? {
        OnlyCyclesRenew(Now(t.before), t.move, setup);
        ReportKeepsSession(Now(t.before), t.state, setup, t.move.report, t.move.fate, secret);
      } else if t.move.Cycle? {
        CycleOutcome(Now(t.before), t.state, setup, t.move, secret);
      } else {
        OnlyCyclesRenew(Now(t.before), t.move, setup);
      }
    }
  }

  lemma OnlyCyclesRenew(a: Ends, move: Move, setup: Setup)
    ensures Renews(a, move, setup) ==> move.Cycle?
  {
  }

  lemma {:induction false} OriginInTime(t: Joint, setup: Setup, began: Session.Time, now: Session.Time)
    requires Clocked(t, began, now)
    ensures Origin(t, setup, began).1 <= now
    decreases t
  {
    hide Renews;
    if t.Then? {
      OnlyCyclesRenew(Now(t.before), t.move, setup);
    }
    match t
    case Begin(_) =>
    case Then(before, Report(_, fate), _) => OriginInTime(before, setup, began, fate.at);
    case Then(before, Cycle(_, _, at, _), _) => OriginInTime(before, setup, began, at);
    case Then(before, Rotation(tick), _) => OriginInTime(before, setup, began, tick.due);
    case Then(before, Elsewhere(_), _) => OriginInTime(before, setup, began, now);
  }

  /** The secret behind the session is still held two query intervals after its origin, however often the relay
      rotates. */
  lemma {:induction false} SecretHeld(t: Joint, setup: Setup, began: Session.Time, now: Session.Time)
    requires IsJoint(t, setup) && Clocked(t, began, now) && now <= Origin(t, setup, began).1 + setup.policy.grace
    ensures Session.Held(Now(t).keys, Origin(t, setup, began).0, Origin(t, setup, began).1)
    decreases t
  {
    hide ReportStep, CycleStep, Step, Session.Rotate, Session.Held, Renews;
    var (secret, issued) := Origin(t, setup, began);
    if t.Then? {
      OnlyCyclesRenew(Now(t.before), t.move, setup);
    }
    match t
    case Begin(start) => Session.CurrentIsHeld(start.keys, issued);
    case Then(before, Report(report, fate), _) =>
      SecretHeld(before, setup, began, fate.at);
      ReportKeepsSession(Now(before), t.state, setup, report, fate, secret);
    case Then(before, Cycle(_, _, at, _), _) =>
      CycleOutcome(Now(before), t.state, setup, t.move, secret);
      if Renews(Now(before), t.move, setup) {
        Session.CurrentIsHeld(Now(before).keys, issued);
      } else {
        SecretHeld(before, setup, began, at);
      }
    case Then(before, Rotation(tick), _) =>
      SecretHeld(before, setup, began, tick.due);
      OriginInTime(before, setup, began, tick.due);
      Session.RotationHolds(Now(before).keys, setup.policy, secret, issued, tick);
    case Then(before, Elsewhere(_), _) => SecretHeld(before, setup, began, now);
  }

  /** For two query intervals after its MAC was issued the session stays good. */
  lemma SessionStaysGood(t: Joint, setup: Setup, began: Session.Time, at: Session.Time)
    requires IsJoint(t, setup) && SessionFrom(First(t).gateway, setup, First(t).keys.current)
    requires Clocked(t, began, at) && at <= Origin(t, setup, began).1 + setup.policy.grace
    ensures SessionGood(Now(t), setup, at)
  {
    hide IsJoint, Clocked, Origin, Session.Held;
    var (secret, issued) := Origin(t, setup, began);
    SecretHeld(t, setup, began, at);
    SessionKept(t, setup, began);
    Session.HeldIsLive(Now(t).keys, setup.policy, secret, issued, at);
    assert Session.Live(Now(t).keys, setup.policy, at, secret);
  }

  /** A handshake with a relay that holds what the gateway holds, as nothing on both sides, begins such a run. */
  lemma HandshakeBegins(st: Gateway.State, setup: Setup, advertised: IpAddr, k: Session.Keys, limit: bool,
                        outer: Ecn.Codepoint, d: Daemon)
    requires st.phase.Discovering? && st.relayEndpoint.None? && st.session.None?
    requires advertised.IsValidSource() && advertised.SameFamily(st.failover.relay.ip)
    requires setup.env.queryOk(st.protocol, setup.query(st.protocol))
    requires EntryOf(d.endpoints, setup.peer) == st.reception
    ensures var end := Handshake(st, setup, advertised, k, limit, outer);
            && end.Some? && Agree(Ends(end.value, d, k), setup.peer)
            && SessionFrom(end.value, setup, k.current)
  {
    hide Handshake, MacUnder, IpAddr.IsValidSource;
    HandshakeEstablishes(st, setup, advertised, k, limit, outer);
  }

  /** In every joint run, however long, that begins as a handshake leaves it, with requests and answers lost, the
      relay rotating its secret and other gateways coming, going and failing in between, the two ends agree as long
      as nothing stands in the way of a report and nothing removes the gateway. The relay then forwards a packet to
      the gateway exactly when the gateway will let it through. */
  lemma {:induction false} JointRunsAgree(t: Joint, setup: Setup, began: Session.Time, now: Session.Time, g: IpAddr,
                                          s: IpAddr)
    requires Agree(First(t), setup.peer) && SessionFrom(First(t).gateway, setup, First(t).keys.current)
    requires IsJoint(t, setup) && AllWell(t, setup, began) && Clocked(t, began, now)
    ensures Agree(Now(t), setup.peer)
    ensures EndpointWants(Now(t).relay.endpoints, setup.peer, g, s) <==> Wants(Now(t).gateway.reception, g, s)
    decreases t
  {
    hide ReportStep, CycleStep, Step, Spares, ApplyAll, Unhindered, SessionGood, SessionFrom, Session.Rotate, Origin;
    match t
    case Begin(_) =>
    case Then(before, Report(report, fate), _) =>
      JointRunsAgree(before, setup, began, fate.at, g, s);
      if fate.at <= Origin(before, setup, began).1 + setup.policy.grace {
        SessionStaysGood(before, setup, began, fate.at);
      }
      ReportAgreement(Now(before), t.state, setup, report, fate);
    case Then(before, Cycle(_, _, at, _), _) =>
      JointRunsAgree(before, setup, began, at, g, s);
      CycleOutcome(Now(before), t.state, setup, t.move, First(t).keys.current);
    case Then(before, Rotation(tick), _) => JointRunsAgree(before, setup, began, tick.due, g, s);
    case Then(before, Elsewhere(event), _) =>
      JointRunsAgree(before, setup, began, now, g, s);
      OthersSpareEntry(Now(before).relay, t.state.relay, event, setup.peer, setup.limits);
  }

  /** Reports and cycles leave the gateway at its relay and its configuration. */
  lemma {:induction false} RelayKept(t: Joint, setup: Setup)
    requires IsJoint(t, setup)
    ensures Now(t).gateway.relayEndpoint == First(t).gateway.relayEndpoint
    ensures Now(t).gateway.ecn == First(t).gateway.ecn
    decreases t
  {
    hide Step, Session.Rotate;
    match t
    case Begin(_) =>
    case Then(before, Report(report, fate), _) =>
      RelayKept(before, setup);
      ReportKeepsRelay(Now(before), t.state, setup, report, fate);
    case Then(before, Cycle(_, _, _, _), _) =>
      RelayKept(before, setup);
      CycleKeepsRelay(Now(before), t.state, setup, t.move);
    case Then(before, Rotation(_), _) => RelayKept(before, setup);
    case Then(before, Elsewhere(_), _) => RelayKept(before, setup);
  }

  lemma ReportKeepsRelay(a: Ends, b: Ends, setup: Setup, report: MembershipReport, fate: Fate)
    requires ReportStep(a, b, setup, report, fate)
    ensures b.gateway.relayEndpoint == a.gateway.relayEndpoint && b.gateway.ecn == a.gateway.ecn
  {
    hide ReportBuild.Build, Wire.Encode, ApplyAll, Reaction;
  }

  lemma CycleKeepsRelay(a: Ends, b: Ends, setup: Setup, move: Move)
    requires move.Cycle? && CycleStep(a, b, setup, move)
    ensures b.gateway.relayEndpoint == a.gateway.relayEndpoint && b.gateway.ecn == a.gateway.ecn
  {
    hide Wire.Encode, Exchange, RefusesNew;
    if a.gateway.relayEndpoint.Some? {
      var (st, sent) := Gateway.BeginCycle(a.gateway, move.nonce).value;
      var limit := RefusesNew(a.relay.endpoints, setup.peer.ip, setup.limits, setup.limitFlag);
      ExchangeRenews(st, setup, a.keys, limit, move.outer);
      ExchangeKeepsEcn(st, sent, setup, a.keys, limit, move.outer);
    }
  }

  lemma ExchangeKeepsEcn(st: Gateway.State, sent: Gateway.Action, setup: Setup, k: Session.Keys, limit: bool,
                         outer: Ecn.Codepoint)
    ensures Exchange(st, sent, setup, k, limit, outer).Some? ==>
              Exchange(st, sent, setup, k, limit, outer).value.ecn == st.ecn
  {
    hide Wire.Encode, Wire.Decode, AnswerRequest, Ecn.Decapsulate;
  }

  /** What the relay forwards, the gateway hands on. In every joint run that goes well, a data packet the relay sends
      the gateway because its entry wants it is delivered, unchanged without ECN; with ECN it is delivered unless it
      is malformed or cannot carry the mark of the tunnel. One the entry does not want would be ignored. */
  lemma ForwardedIsHandedOn(t: Joint, setup: Setup, began: Session.Time, now: Session.Time, packet: seq<Byte>,
                            outer: Ecn.Codepoint)
    requires Agree(First(t), setup.peer) && SessionFrom(First(t).gateway, setup, First(t).keys.current)
    requires First(t).gateway.relayEndpoint.Some?
    requires IsJoint(t, setup) && AllWell(t, setup, began) && Clocked(t, began, now)
    requires setup.env.parse(packet).Some?
    ensures var (g, s) := setup.env.parse(packet).value;
            var st, relay := Now(t).gateway, First(t).gateway.relayEndpoint.value;
            var r := Gateway.OnDatagram(st, setup.env, relay, Wire.Encode(Wire.MulticastData(packet)), outer);
            var forwarded := EndpointWants(Now(t).relay.endpoints, setup.peer, g, s);
            && (!forwarded ==> r == Ok((st, Gateway.Ignored)))
            && (forwarded && !st.ecn ==> r == Ok((st, Gateway.Deliver(packet, None))))
            && (forwarded && st.ecn && Ecn.Whole(packet) ==>
                  && r.Ok? && r.value.0 == st
                  && (r.value.1.DroppedEcn? <==> outer.Ce? && Ecn.Field(packet).NotEct?)
                  && (r.value.1.Deliver? <==> !(outer.Ce? && Ecn.Field(packet).NotEct?)))
  {
    hide IsJoint, AllWell, Clocked, Agree, Wire.Encode, Wire.Decode, Gateway.OnData, Ecn.Whole, MacUnder;
    var (g, s) := setup.env.parse(packet).value;
    JointRunsAgree(t, setup, began, now, g, s);
    SessionKept(t, setup, began);
    RelayKept(t, setup);
    Wire.DecodeEncode(Wire.MulticastData(packet));
    var st := Now(t).gateway;
    Gateway.DataOutcome(st, setup.env, packet, outer);
  }
}
