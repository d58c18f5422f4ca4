/** The gateway's half of the protocol: discovery, request and query phases and the reports it sends.
    Validation of the general query and parsing of data packets are function parameters. */
module Gateway {
  import opened Bytes
  import opened Interest
  import opened ReportRecords
  import opened Wire
  import opened RelayFailover
  import Ecn
  import ReportBuild
  import Convergence

  type Nonce = n: Word32 | n != 0 witness 1

  datatype Phase = Discovering | AwaitingQuery | Established

  datatype GatewaySession = GatewaySession(mac: Mac, nonce: Word32, endpoint: Option<GatewayEndpoint>, reported: bool)

  datatype State = State(
    failover: Failover,
    protocol: Protocol,
    ecn: bool,
    discoveryNonce: Nonce,
    requestNonce: Nonce,
    phase: Phase,
    relayEndpoint: Option<SocketAddr>,
    session: Option<GatewaySession>,
    reception: Groups)

  datatype Action =
    | Send(destination: SocketAddr, datagram: seq<Byte>)
    | QueryAccepted(mac: Mac, limit: bool, gateway: Option<GatewayEndpoint>, teardown: Option<(SocketAddr, seq<Byte>)>)
    | Deliver(packet: seq<Byte>, ecn: Option<Ecn.Decapsulation>)
    | DroppedEcn(decision: Ecn.Decapsulation, packetLen: nat)
    | Ignored

  datatype Error =
    | UnexpectedPeer(expected: SocketAddr, actual: SocketAddr)
    | DecodeFailed(error: DecodeError)
    | UnexpectedMessageForState(phase: Phase)
    | UnexpectedDiscoveryNonce
    | UnexpectedRequestNonce
    | InvalidRelayAddress(address: IpAddr)
    | InvalidGeneralQuery
    | InvalidMulticastPacket
    | InvalidEcn(cause: Ecn.Error)
    | MissingRelayEndpoint
    | MissingMembershipQuery
    | MissingGatewayEndpoint
    | BuildFailed(build: BuildError)

  /** What the gateway relies on but this model does not contain: the general-query check and the parser
      that finds the group and the source of a data packet. */
  datatype Env = Env(queryOk: (Protocol, seq<Byte>) -> bool, parse: seq<Byte> -> Option<(IpAddr, IpAddr)>)

  // ---- what each state guarantees ----

  ghost predicate Inv(st: State) {
    && (st.phase.Discovering? <==> st.relayEndpoint.None?)
    && (st.session.Some? ==> st.relayEndpoint.Some?)
    && (st.phase.Established? ==> st.session.Some?)
    && (st.session.Some? && st.session.value.reported ==> st.reception != map[])
    && NoEmptyInclude(st.reception)
  }

  // ---- the steps ----

  function RequestMessage(st: State): Message { Request(st.requestNonce, st.protocol, st.ecn) }

  function OnAdvertisement(st: State, peer: SocketAddr, nonce: Word32, address: IpAddr): Result<(State, Action),
                        Error> {
    if !st.phase.Discovering? then Err(UnexpectedMessageForState(st.phase))
    else if nonce != st.discoveryNonce then Err(UnexpectedDiscoveryNonce)
    else if !address.IsValidSource() || !address.SameFamily(peer.ip) then Err(InvalidRelayAddress(address))
    else
      var relay := SocketAddr(address, peer.port);
      Ok((st.(relayEndpoint := Some(relay), phase := AwaitingQuery), Send(relay, Encode(RequestMessage(st)))))
  }

  function ExpectedNonce(st: State): Option<Word32> {
    if st.phase.AwaitingQuery? then Some(st.requestNonce)
    else if st.phase.Established? && st.session.Some? then Some(st.session.value.nonce)
    else None
  }

  /** A query that names another gateway endpoint than the session's makes the old one worth tearing down. */
  function PreviousTeardown(st: State, relay: SocketAddr, gateway: Option<GatewayEndpoint>): Option<(SocketAddr,
                        seq<Byte>)> {
    if st.session.Some? && st.session.value.endpoint != gateway && st.session.value.endpoint.Some? then
      var s := st.session.value;
      Some((relay, Encode(Teardown(s.mac, s.nonce, s.endpoint.value))))
    else None
  }

  function OnQuery(st: State, env: Env, m: Message): Result<(State, Action), Error>
    requires m.MembershipQuery?
  {
    if st.relayEndpoint.None? then Err(MissingRelayEndpoint)
    else if ExpectedNonce(st).None? then Err(UnexpectedMessageForState(st.phase))
    else if m.requestNonce != ExpectedNonce(st).value then Err(UnexpectedRequestNonce)
    else if !env.queryOk(st.protocol, m.generalQuery) then Err(InvalidGeneralQuery)
    else
      var reported := st.session.Some? && st.session.value.endpoint == m.gateway && st.session.value.reported;
      var session := GatewaySession(m.mac, m.requestNonce, m.gateway, reported);
      Ok((st.(session := Some(session), phase := Established),
          QueryAccepted(m.mac, m.limit, m.gateway, PreviousTeardown(st, st.relayEndpoint.value, m.gateway))))
  }

  /** A packet the filter passes is handed on; a gateway that does ECN first combines it with the codepoint of
      the outer header, which may change the packet's own field or drop it. */
  function OnData(st: State, env: Env, packet: seq<Byte>, outer: Ecn.Codepoint): Result<(State, Action), Error> {
    if st.relayEndpoint.None? then Err(MissingRelayEndpoint)
    else if st.session.None? then Err(UnexpectedMessageForState(st.phase))
    else
      match env.parse(packet)
      case None => Err(InvalidMulticastPacket)
      case Some((group, source)) =>
        if !Wants(st.reception, group, source) then Ok((st, Ignored))
        else if !st.ecn then Ok((st, Deliver(packet, None)))
        else
          match Ecn.Decapsulate(packet, outer)
          case Err(e) => Err(InvalidEcn(e))
          case Ok((d, after)) => Ok((st, if d.output.None? then DroppedEcn(d, |packet|) else Deliver(after, Some(d))))
  }

  function ExpectedPeer(st: State): SocketAddr {
    if st.relayEndpoint.Some? then st.relayEndpoint.value else st.failover.relay
  }

  function OnDatagram(st: State, env: Env, peer: SocketAddr, datagram: seq<Byte>,
                      outer: Ecn.Codepoint): Result<(State, Action), Error> {
    if peer != ExpectedPeer(st) then Err(UnexpectedPeer(ExpectedPeer(st), peer))
    else
      match Decode(datagram)
      case Err(e) => Err(DecodeFailed(e))
      case Ok(RelayAdvertisement(nonce, address)) => OnAdvertisement(st, peer, nonce, address)
      case Ok(MembershipQuery(mac, nonce, limit, gateway, query)) =>
        OnQuery(st, env, MembershipQuery(mac, nonce, limit, gateway, query))
      case Ok(MulticastData(packet)) => OnData(st, env, packet, outer)
      case _ => Ok((st, Ignored))
  }

  function BeginCycle(st: State, nonce: Nonce): Result<(State, Action), Error> {
    if st.relayEndpoint.None? then Err(MissingRelayEndpoint)
    else
      var next := st.(requestNonce := nonce, phase := AwaitingQuery);
      Ok((next, Send(st.relayEndpoint.value, Encode(RequestMessage(next)))))
  }

  function Restart(st: State, discoveryNonce: Nonce, requestNonce: Nonce): (State, Action) {
    var f := Restarted(st.failover);
    (st.(failover := f, discoveryNonce := discoveryNonce, requestNonce := requestNonce, phase := Discovering,
         relayEndpoint := None, session := None),
     Send(f.relay, Encode(RelayDiscovery(discoveryNonce))))
  }

  function Update(st: State, report: MembershipReport): Result<(State, Action), Error> {
    if st.relayEndpoint.None? then Err(MissingRelayEndpoint)
    else if st.session.None? then Err(MissingMembershipQuery)
    else
      match ReportBuild.Build(report.protocol, report.records)
      case Err(e) => Err(BuildFailed(e))
      case Ok(packet) =>
        var session, reception := st.session.value, ApplyAll(st.reception, report.records);
        Ok((st.(reception := reception, session := Some(session.(reported := reception != map[]))),
            Send(st.relayEndpoint.value, Encode(MembershipUpdate(session.mac, session.nonce, packet)))))
  }

  // ---- the gateway object ----

  class Gateway {
    var failover: Failover
    const protocol: Protocol
    const ecn: bool
    var discoveryNonce: Nonce
    var requestNonce: Nonce
    var phase: Phase
    var relayEndpoint: Option<SocketAddr>
    var session: Option<GatewaySession>
    var reception: Groups

    ghost function View(): State
      reads this
    {
      State(failover, protocol, ecn, discoveryNonce, requestNonce, phase, relayEndpoint, session, reception)
    }

    ghost predicate Valid()
      reads this
    {
      Inv(View())
    }

    /** A configured nonce of zero is replaced by a random one. */
    constructor (relay: SocketAddr, fallbacks: seq<SocketAddr>, protocol: Protocol, ecn: bool, discovery: Word32,
                 request: Word32, randomDiscovery: Nonce, randomRequest: Nonce)
      ensures Valid() && phase.Discovering? && session.None? && reception == map[]
      ensures failover == Initial(relay, fallbacks)
      ensures Distinct(fallbacks) && relay !in fallbacks ==> FailoverOk(failover)
      ensures this.protocol == protocol && this.ecn == ecn
      ensures discoveryNonce == (if discovery != 0 then discovery else randomDiscovery)
      ensures requestNonce == (if request != 0 then request else randomRequest)
    {
      failover := Initial(relay, fallbacks);
      this.protocol, this.ecn, phase := protocol, ecn, Discovering;
      discoveryNonce := if discovery != 0 then discovery else randomDiscovery;
      requestNonce := if request != 0 then request else randomRequest;
      relayEndpoint, session, reception := None, None, map[];
      new;
      if Distinct(fallbacks) && relay !in fallbacks {
        InitialFailover(relay, fallbacks);
      }
    }

    /** A refreshed candidate set takes effect at the next restart. */
    method ReplaceRelayCandidates(relays: seq<SocketAddr>) returns (replaced: bool)
      requires Valid()
      modifies this`failover
      ensures Valid() && failover == Replaced(old(failover), relays) && failover.relay == old(failover).relay
      ensures replaced ==> FailoverOk(failover) && InOrderOf(failover.candidates, relays)
      ensures !replaced ==> failover == old(failover)
      ensures replaced <==>
                && (exists r :: r in relays && r.ip.SameFamily(old(failover).relay.ip))
                && Usable(relays, old(failover).relay.ip) != old(failover).candidates
    {
      var next, changed := ReplaceCandidates(failover, relays);
      failover := next;
      replaced := changed;
    }

    method BeginQueryCycle(nonce: Nonce) returns (r: Result<Action, Error>)
      requires Valid()
      modifies this
      ensures Valid()
      ensures match BeginCycle(old(View()), nonce)
              case Err(e) => r == Err(e) && View() == old(View())
              case Ok((st, action)) => r == Ok(action) && View() == st
    {
      if relayEndpoint.None? {
        return Err(MissingRelayEndpoint);
      }
      requestNonce := nonce;
      phase := AwaitingQuery;
      r := Ok(Send(relayEndpoint.value, Encode(Request(requestNonce, protocol, ecn))));
    }

    method RestartDiscovery(discovery: Nonce, request: Nonce) returns (action: Action)
      requires Valid()
      modifies this
      ensures Valid() && (View(), action) == Restart(old(View()), discovery, request)
      ensures phase.Discovering? && relayEndpoint.None? && session.None? && reception == old(reception)
      ensures discoveryNonce == discovery && requestNonce == request
      ensures action.Send? && action.destination == failover.relay
              && Decode(action.datagram) == Ok(RelayDiscovery(discovery))
    {
      hide Decode, Encode, NoEmptyInclude;
      DecodeEncode(RelayDiscovery(discovery));
      if failover.fallbacks != [] {
        var next, previous := failover.fallbacks[0], failover.relay;
        var queue := failover.fallbacks[1..];
        if previous in failover.candidates {
          queue := queue + [previous];
        }
        assert queue + [] == queue;
        failover := Failover(next, queue, failover.candidates);
      }
      discoveryNonce, requestNonce := discovery, request;
      phase, relayEndpoint, session := Discovering, None, None;
      action := Send(failover.relay, Encode(RelayDiscovery(discoveryNonce)));
    }

    method HandleDatagram(env: Env, peer: SocketAddr, datagram: seq<Byte>, outer: Ecn.Codepoint)
      returns (r: Result<Action, Error>)
      requires Valid()
      modifies this
      ensures Valid()
      ensures match OnDatagram(old(View()), env, peer, datagram, outer)
              case Err(e) => r == Err(e) && View() == old(View())
              case Ok((st, action)) => r == Ok(action) && View() == st
    {
      var expected := if relayEndpoint.Some? then relayEndpoint.value else failover.relay;
      if peer != expected {
        return Err(UnexpectedPeer(expected, peer));
      }
      var decoded := Decode(datagram);
      if decoded.Err? {
        return Err(DecodeFailed(decoded.error));
      }
      match decoded.value {
        case RelayAdvertisement(nonce, address) =>
          if phase != Discovering {
            return Err(UnexpectedMessageForState(phase));
          }
          if nonce != discoveryNonce {
            return Err(UnexpectedDiscoveryNonce);
          }
          if !address.IsValidSource() || !address.SameFamily(peer.ip) {
            return Err(InvalidRelayAddress(address));
          }
          relayEndpoint := Some(SocketAddr(address, peer.port));
          phase := AwaitingQuery;
          r := Ok(Send(relayEndpoint.value, Encode(Request(requestNonce, protocol, ecn))));
        case MembershipQuery(_, _, _, _, _) =>
          r := AcceptQuery(env, decoded.value);
        case MulticastData(packet) =>
          r := AcceptData(env, packet, outer);
        case _ =>
          r := Ok(Ignored);
      }
    }

    method AcceptData(env: Env, packet: seq<Byte>, outer: Ecn.Codepoint) returns (r: Result<Action, Error>)
      requires Valid()
      ensures match OnData(View(), env, packet, outer)
              case Err(e) => r == Err(e)
              case Ok((st, action)) => r == Ok(action) && View() == st
    {
      if relayEndpoint.None? {
        return Err(MissingRelayEndpoint);
      }
      if session.None? {
        return Err(UnexpectedMessageForState(phase));
      }
      var parsed := env.parse(packet);
      if parsed.None? {
        return Err(InvalidMulticastPacket);
      }
      if !Wants(reception, parsed.value.0, parsed.value.1) {
        return Ok(Ignored);
      }
      if !ecn {
        return Ok(Deliver(packet, None));
      }
      var copy := new Byte[|packet|](i requires 0 <= i < |packet| => packet[i]);
      assert copy[..] == packet;
      var decided := Ecn.DecapsulateEcn(copy, outer);
      if decided.Err? {
        return Err(InvalidEcn(decided.error));
      }
      if decided.value.output.None? {
        return Ok(DroppedEcn(decided.value, |packet|));
      }
      r := Ok(Deliver(copy[..], Some(decided.value)));
    }

    method AcceptQuery(env: Env, m: Message) returns (r: Result<Action, Error>)
      requires Valid() && m.MembershipQuery?
      modifies this
      ensures Valid()
      ensures match OnQuery(old(View()), env, m)
              case Err(e) => r == Err(e) && View() == old(View())
              case Ok((st, action)) => r == Ok(action) && View() == st
    {
      if relayEndpoint.None? {
        return Err(MissingRelayEndpoint);
      }
      var expected: Word32;
      if phase.AwaitingQuery? {
        expected := requestNonce;
      } else if phase.Established? && session.Some? {
        expected := session.value.nonce;
      } else {
        return Err(UnexpectedMessageForState(phase));
      }
      if m.requestNonce != expected {
        return Err(UnexpectedRequestNonce);
      }
      if !env.queryOk(protocol, m.generalQuery) {
        return Err(InvalidGeneralQuery);
      }
      var previous := session;
      var teardown := None;
      if previous.Some? && previous.value.endpoint != m.gateway && previous.value.endpoint.Some? {
        teardown := Some((relayEndpoint.value,
                          Encode(Teardown(previous.value.mac, previous.value.nonce, previous.value.endpoint.value))));
      }
      var reported := previous.Some? && previous.value.endpoint == m.gateway && previous.value.reported;
      session := Some(GatewaySession(m.mac, m.requestNonce, m.gateway, reported));
      phase := Established;
      r := Ok(QueryAccepted(m.mac, m.limit, m.gateway, teardown));
    }

    method SendUpdate(report: MembershipReport) returns (r: Result<Action, Error>)
      requires Valid()
      modifies this
      ensures Valid()
      ensures match Update(old(View()), report)
              case Err(e) => r == Err(e) && View() == old(View())
              case Ok((st, action)) => r == Ok(action) && View() == st
    {
      hide ReportBuild.Build, Encode, ApplyAll, NoEmptyInclude;
      if relayEndpoint.None? {
        return Err(MissingRelayEndpoint);
      }
      if session.None? {
        return Err(MissingMembershipQuery);
      }
      var current := session.value;
      var built := ReportBuild.BuildMembershipReport(report);
      if built.Err? {
        return Err(BuildFailed(built.error));
      }
      ApplyAllWellFormed(reception, report.records);
      reception := ApplyAll(reception, report.records);
      session := Some(current.(reported := reception != map[]));
      r := Ok(Send(relayEndpoint.value, Encode(MembershipUpdate(current.mac, current.nonce, built.value))));
    }

    /** The whole wanted state in one report. */
    method ReplaceMemberships(report: MembershipReport) returns (r: Result<Option<Action>, Error>,
                        ghost sent: seq<MembershipRecord>)
      requires Valid()
      modifies this
      ensures Valid() && Convergence.WithLeaves(sent, report.records, old(reception))
      ensures sent == [] ==> r == Ok(None) && View() == old(View())
      ensures sent != [] ==>
                match Update(old(View()), MembershipReport(report.protocol, sent))
                case Err(e) => r == Err(e) && View() == old(View())
                case Ok((st, action)) => r == Ok(Some(action)) && View() == st
    {
      hide Convergence.WithLeaves, Update, Inv;
      var records := Convergence.ReplacementRecords(reception, report.records);
      sent := records;
      if records == [] {
        return Ok(None), sent;
      }
      var sending := SendUpdate(MembershipReport(report.protocol, records));
      r := if sending.Ok? then Ok(Some(sending.value)) else Err(sending.error);
    }
  }

  /** After a full report, the gateway's own filter is exactly the wanted one. */
  lemma ReplacementExact(st: State, report: MembershipReport, sent: seq<MembershipRecord>, wanted: Groups)
    requires Convergence.WithLeaves(sent, report.records, st.reception)
    requires Convergence.Demands(report.records, wanted)
    requires forall g :: Convergence.Mentions(report.records, g) <==> g in wanted
    ensures ApplyAll(st.reception, sent) == wanted
    ensures Update(st, MembershipReport(report.protocol, sent)).Ok? ==>
              Update(st, MembershipReport(report.protocol, sent)).value.0.reception == wanted
  {
    hide Convergence.WithLeaves, Convergence.Demands, Convergence.Replacement, ReportBuild.Build, Encode, ApplyAll;
    Convergence.LeavesMakeReplacement(sent, report.records, st.reception, wanted);
    Convergence.ReplacementIsExact(sent, st.reception, wanted);
  }

  // ---- every run ----

  datatype Event =
    | Datagram(peer: SocketAddr, bytes: seq<Byte>, outer: Ecn.Codepoint)
    | Cycle(nonce: Nonce)
    | Restarting(discovery: Nonce, request: Nonce)
    | Reporting(report: MembershipReport)
    | Candidates(relays: seq<SocketAddr>)

  function Kept(st: State, r: Result<(State, Action), Error>): State {
    if r.Ok? then r.value.0 else st
  }

  function Next(st: State, env: Env, e: Event): State {
    match e
    case Datagram(peer, bytes, outer) => Kept(st, OnDatagram(st, env, peer, bytes, outer))
    case Cycle(nonce) => Kept(st, BeginCycle(st, nonce))
    case Restarting(discovery, request) => Restart(st, discovery, request).0
    case Reporting(report) => Kept(st, Update(st, report))
    case Candidates(relays) => st.(failover := Replaced(st.failover, relays))
  }

  function Run(st: State, env: Env, events: seq<Event>): State {
    if events == [] then st else Next(Run(st, env, events[..|events| - 1]), env, events[|events| - 1])
  }

  lemma StepKeepsInv(st: State, env: Env, e: Event)
    requires Inv(st)
    ensures Inv(Next(st, env, e))
  {
    hide Decode, Encode, ReportBuild.Build, ApplyAll, NoEmptyInclude, Ecn.Decapsulate, Replaced, Restarted;
    if e.Reporting? {
      ApplyAllWellFormed(st.reception, e.report.records);
    }
  }

  lemma {:induction false} EveryRunKeepsInv(st: State, env: Env, events: seq<Event>)
    requires Inv(st)
    ensures Inv(Run(st, env, events))
  {
    hide Next, Inv;
    if events != [] {
      EveryRunKeepsInv(st, env, events[..|events| - 1]);
      StepKeepsInv(Run(st, env, events[..|events| - 1]), env, events[|events| - 1]);
    }
  }

  /** In every state a run reaches, a query is refused only for a missing relay, a wrong nonce or a bad query:
      the branch that blames the phase is dead. */
  lemma {:induction false} QueryNeverUnexpected(st: State, env: Env, events: seq<Event>, m: Message)
    requires Inv(st) && m.MembershipQuery? && OnQuery(Run(st, env, events), env, m).Err?
    ensures var reached := Run(st, env, events);
            && OnQuery(reached, env, m).error in {MissingRelayEndpoint, UnexpectedRequestNonce, InvalidGeneralQuery}
            && (OnQuery(reached, env, m).error == MissingRelayEndpoint <==> reached.phase.Discovering?)
  {
    EveryRunKeepsInv(st, env, events);
  }

  lemma FailoverStep(st: State, env: Env, e: Event)
    requires FailoverOk(st.failover)
    ensures FailoverOk(Next(st, env, e).failover)
  {
    hide Decode, Encode, ReportBuild.Build, ApplyAll, FailoverOk, Restarted, Replaced, Ecn.Decapsulate;
    RestartKeepsFailover(st.failover);
    if e.Candidates? {
      ReplacedKeepsFailover(st.failover, e.relays);
    }
  }

  /** In every run, with candidate sets replaced at any time, the fallbacks are the other candidates, each once. */
  lemma {:induction false} EveryRunKeepsFailover(st: State, env: Env, events: seq<Event>)
    requires FailoverOk(st.failover)
    ensures FailoverOk(Run(st, env, events).failover)
  {
    hide Next, FailoverOk;
    if events != [] {
      EveryRunKeepsFailover(st, env, events[..|events| - 1]);
      FailoverStep(Run(st, env, events[..|events| - 1]), env, events[|events| - 1]);
    }
  }

  /** Whatever a run delivers, the filter passes, and what leaves an ECN gateway reads as the decision says. */
  lemma DeliveredIsWanted(st: State, env: Env, packet: seq<Byte>, outer: Ecn.Codepoint)
    requires OnData(st, env, packet, outer).Ok? && OnData(st, env, packet, outer).value.1.Deliver?
    ensures var delivered := OnData(st, env, packet, outer).value.1;
            && env.parse(packet).Some? && Wants(st.reception, env.parse(packet).value.0, env.parse(packet).value.1)
            && |delivered.packet| == |packet| && delivered.ecn.Some? == st.ecn
            && (!st.ecn ==> delivered.packet == packet)
            && (st.ecn ==> |packet| >= 20 && delivered.ecn.value.output == Some(Ecn.Field(delivered.packet))
                           && (outer.Ce? ==> Ecn.Field(delivered.packet).Ce?))
  {
    hide Ecn.Decapsulate;
    if st.ecn {
      DecapsulatedIsWhole(packet, outer);
      Ecn.DecapsulationMeans(packet, outer);
    }
  }

  lemma DecapsulatedIsWhole(packet: seq<Byte>, outer: Ecn.Codepoint)
    ensures Ecn.Decapsulate(packet, outer).Ok? <==> Ecn.Whole(packet)
  {
    Ecn.WholeExactly(packet);
  }

  /** A packet that cannot carry the congestion mark of the tunnel. */
  predicate Unmarkable(packet: seq<Byte>, outer: Ecn.Codepoint)
    requires |packet| >= 20
  {
    outer.Ce? && Ecn.Field(packet).NotEct?
  }

  /** What becomes of a data packet that arrives over a session: what the filter does not pass is ignored; what it
      passes is handed on, unless the gateway does ECN and the packet is malformed, an error, or cannot carry the
      mark of the tunnel, a drop. The gateway's state never changes. */
  lemma DataOutcome(st: State, env: Env, packet: seq<Byte>, outer: Ecn.Codepoint)
    requires st.relayEndpoint.Some? && st.session.Some?
    ensures var r, parsed := OnData(st, env, packet, outer), env.parse(packet);
            var wanted := parsed.Some? && Wants(st.reception, parsed.value.0, parsed.value.1);
            && (r.Ok? ==> r.value.0 == st)
            && (r.Err? <==> parsed.None? || (wanted && st.ecn && !Ecn.Whole(packet)))
            && (r.Ok? && r.value.1.Ignored? <==> parsed.Some? && !wanted)
            && (r.Ok? && r.value.1.Deliver? <==>
                  wanted && (!st.ecn || (Ecn.Whole(packet) && !Unmarkable(packet, outer))))
            && (r.Ok? && r.value.1.DroppedEcn? <==>
                  wanted && st.ecn && Ecn.Whole(packet) && Unmarkable(packet, outer))
            && (r.Ok? && r.value.1.Deliver? && !st.ecn ==> r.value.1 == Deliver(packet, None))
  {
    hide Ecn.Decapsulate, Ecn.Whole;
    DecapsulatedIsWhole(packet, outer);
    if Ecn.Whole(packet) {
      WholeLength(packet);
      Ecn.DecapsulationMeans(packet, outer);
    }
  }

  lemma WholeLength(packet: seq<Byte>)
    requires Ecn.Whole(packet)
    ensures |packet| >= 20
  {
  }

  /** An advertisement is taken exactly from the relay being discovered, for the nonce of this round, with an
      address that can be one and is of the relay's family; it then names the relay endpoint and nothing else. */
  lemma AdvertisementTaken(st: State, env: Env, peer: SocketAddr, nonce: Word32, address: IpAddr, outer: Ecn.Codepoint)
    requires Inv(st)
    ensures var r := OnDatagram(st, env, peer, Encode(RelayAdvertisement(nonce, address)), outer);
            && (r.Ok? <==>
                  && st.phase.Discovering? && peer == st.failover.relay && nonce == st.discoveryNonce
                  && address.SameFamily(peer.ip)
                  && !address.IsUnspecified() && !address.IsMulticast() && !address.IsBroadcast())
            && (r.Ok? ==>
                  r.value.0 == st.(relayEndpoint := Some(SocketAddr(address, peer.port)), phase := AwaitingQuery))
  {
    hide Decode, Encode, NoEmptyInclude;
    DecodeEncode(RelayAdvertisement(nonce, address));
  }

  /** What only a gateway sends is ignored when the relay sends it. */
  lemma OthersIgnored(st: State, env: Env, m: Message, outer: Ecn.Codepoint)
    requires m.RelayDiscovery? || m.Request? || m.MembershipUpdate? || m.Teardown?
    ensures var peer := if st.relayEndpoint.Some? then st.relayEndpoint.value else st.failover.relay;
            OnDatagram(st, env, peer, Encode(m), outer) == Ok((st, Ignored))
  {
    hide Decode, Encode;
    DecodeEncode(m);
  }

  /** A query is taken exactly from the relay endpoint, with an acceptable general query, for the request outstanding
      or, once established, again for the session's. The filter is left alone, and what was reported counts as
      reported as long as the gateway's endpoint is the same. */
  lemma QueryTaken(st: State, env: Env, peer: SocketAddr, m: Message, outer: Ecn.Codepoint)
    requires Inv(st) && m.MembershipQuery?
    ensures var r := OnDatagram(st, env, peer, Encode(m), outer);
            && (r.Ok? <==>
                  && st.relayEndpoint == Some(peer) && env.queryOk(st.protocol, m.generalQuery)
                  && m.requestNonce == (if st.phase.AwaitingQuery? then st.requestNonce else st.session.value.nonce))
            && (r.Ok? ==>
                  var reported :=
                    st.session.Some? && st.session.value.reported && st.session.value.endpoint == m.gateway;
                  r.value.0 == st.(phase := Established,
                                   session := Some(GatewaySession(m.mac, m.requestNonce, m.gateway, reported))))
  {
    hide Decode, Encode, NoEmptyInclude;
    DecodeEncode(m);
  }

  /** `events[k]` is a query from the relay still in use that created `session`: it answered the nonce then
      outstanding, and discovery has not restarted since. */
  ghost predicate CreatedBy(st: State, env: Env, events: seq<Event>, k: nat, relay: SocketAddr,
                        session: GatewaySession) {
    && k < |events| && events[k].Datagram? && events[k].peer == relay
    && Decode(events[k].bytes).Ok? && Decode(events[k].bytes).value.MembershipQuery?
    && (var m := Decode(events[k].bytes).value;
        && m.mac == session.mac && m.requestNonce == session.nonce && m.gateway == session.endpoint
        && ExpectedNonce(Run(st, env, events[..k])) == Some(session.nonce)
        && env.queryOk(st.protocol, m.generalQuery))
    && forall j :: k < j < |events| ==> !events[j].Restarting?
  }

  lemma CreatedExtends(st: State, env: Env, front: seq<Event>, e: Event, k: nat, relay: SocketAddr, a: GatewaySession,
                       b: GatewaySession)
    requires CreatedBy(st, env, front, k, relay, a) && !e.Restarting? && b.(reported := a.reported) == a
    ensures CreatedBy(st, env, front + [e], k, relay, b)
  {
    assert (front + [e])[..k] == front[..k] && (front + [e])[k] == front[k];
  }

  lemma {:induction false} SameProtocol(st: State, env: Env, events: seq<Event>)
    ensures Run(st, env, events).protocol == st.protocol
  {
    hide Decode, Encode, ReportBuild.Build, ApplyAll, Ecn.Decapsulate, Replaced, Restarted;
    if events != [] {
      SameProtocol(st, env, events[..|events| - 1]);
    }
  }

  /** A step either leaves the session's identity alone, or it is the query that creates it. */
  lemma SessionStep(st: State, env: Env, e: Event)
    requires Inv(st) && Next(st, env, e).session.Some?
    ensures !e.Restarting?
    ensures var next := Next(st, env, e);
            || (st.session.Some? && st.relayEndpoint == next.relayEndpoint
                && next.session.value.(reported := st.session.value.reported) == st.session.value)
            || (e.Datagram? && next.relayEndpoint == Some(e.peer)
                && Decode(e.bytes).Ok? && Decode(e.bytes).value.MembershipQuery?
                && (var m := Decode(e.bytes).value;
                    && m.mac == next.session.value.mac && m.requestNonce == next.session.value.nonce
                    && m.gateway == next.session.value.endpoint
                    && ExpectedNonce(st) == Some(m.requestNonce) && env.queryOk(st.protocol, m.generalQuery)))
  {
  }

  /** In every run from a fresh gateway, a session exists only because the relay in use answered a request
      nonce that was outstanding at that moment, and nothing has restarted discovery since. */
  lemma {:induction false} SessionProvenance(st: State, env: Env, events: seq<Event>)
    requires Inv(st) && st.session.None?
    requires Run(st, env, events).session.Some?
    ensures var end := Run(st, env, events);
            end.relayEndpoint.Some? && exists k: nat :: CreatedBy(st, env, events, k, end.relayEndpoint.value,
                end.session.value)
  {
    hide Next, Decode, ExpectedNonce, CreatedBy, Inv;
    var end := Run(st, env, events);
    if events != [] {
      var front, e := events[..|events| - 1], events[|events| - 1];
      assert events == front + [e];
      var before := Run(st, env, front);
      EveryRunKeepsInv(st, env, front);
      SameProtocol(st, env, front);
      SessionStep(before, env, e);
      if before.session.Some? && before.relayEndpoint == end.relayEndpoint
         && end.session.value.(reported := before.session.value.reported) == before.session.value {
        SessionProvenance(st, env, front);
        var k: nat :| CreatedBy(st, env, front, k, before.relayEndpoint.value, before.session.value);
        CreatedExtends(st, env, front, e, k, before.relayEndpoint.value, before.session.value, end.session.value);
      } else {
        CreatedNow(st, env, events, end.session.value);
      }
    }
  }

  lemma CreatedNow(st: State, env: Env, events: seq<Event>, session: GatewaySession)
    requires events != []
    requires var e := events[|events| - 1];
             var before := Run(st, env, events[..|events| - 1]);
             && e.Datagram? && Decode(e.bytes).Ok? && Decode(e.bytes).value.MembershipQuery?
             && (var m := Decode(e.bytes).value;
                 && m.mac == session.mac && m.requestNonce == session.nonce && m.gateway == session.endpoint
                 && ExpectedNonce(before) == Some(m.requestNonce) && env.queryOk(st.protocol, m.generalQuery))
    ensures CreatedBy(st, env, events, |events| - 1, events[|events| - 1].peer, session)
  {
  }

  /** The relay endpoint was named by an advertisement that answered the discovery nonce of this round, sent
      by the relay then being discovered; its port is the port it answered from. */
  ghost predicate AdvertisedBy(st: State, env: Env, events: seq<Event>, k: nat, relay: SocketAddr) {
    && k < |events| && events[k].Datagram? && events[k].peer == Run(st, env, events[..k]).failover.relay
    && Decode(events[k].bytes) == Ok(RelayAdvertisement(Run(st, env, events[..k]).discoveryNonce, relay.ip))
    && relay.port == events[k].peer.port && relay.ip.IsValidSource() && relay.ip.SameFamily(events[k].peer.ip)
    && forall j :: k < j < |events| ==> !events[j].Restarting?
  }

  lemma EndpointStep(st: State, env: Env, e: Event)
    requires Inv(st) && Next(st, env, e).relayEndpoint.Some?
    ensures !e.Restarting?
    ensures var next := Next(st, env, e);
            || next.relayEndpoint == st.relayEndpoint
            || (e.Datagram? && e.peer == st.failover.relay
                && Decode(e.bytes) == Ok(RelayAdvertisement(st.discoveryNonce, next.relayEndpoint.value.ip))
                && next.relayEndpoint.value.port == e.peer.port
                && next.relayEndpoint.value.ip.IsValidSource() && next.relayEndpoint.value.ip.SameFamily(e.peer.ip))
  {
    hide Decode, Encode, ReportBuild.Build, ApplyAll, NoEmptyInclude, IpAddr.IsValidSource, Ecn.Decapsulate, Restarted;
  }

  lemma {:induction false} EndpointProvenance(st: State, env: Env, events: seq<Event>)
    requires Inv(st) && st.relayEndpoint.None?
    requires Run(st, env, events).relayEndpoint.Some?
    ensures exists k: nat :: AdvertisedBy(st, env, events, k, Run(st, env, events).relayEndpoint.value)
  {
    hide Next, Decode, Inv, IpAddr.IsValidSource;
    var end := Run(st, env, events);
    if events != [] {
      var front, e := events[..|events| - 1], events[|events| - 1];
      assert events == front + [e];
      var before := Run(st, env, front);
      EveryRunKeepsInv(st, env, front);
      EndpointStep(before, env, e);
      if before.relayEndpoint == end.relayEndpoint {
        EndpointProvenance(st, env, front);
        var k: nat :| AdvertisedBy(st, env, front, k, before.relayEndpoint.value);
        assert events[..k] == front[..k] && events[k] == front[k];
        assert AdvertisedBy(st, env, events, k, end.relayEndpoint.value);
      } else {
        assert AdvertisedBy(st, env, events, |events| - 1, end.relayEndpoint.value);
      }
    }
  }

  // ---- what goes out ----

  /** A report is sent exactly over a session and if it can be built. It then changes the filter as its records say,
      and memberships count as reported exactly while there are some; the session stays. */
  lemma UpdateTaken(st: State, report: MembershipReport)
    ensures Update(st, report).Ok? <==>
              && st.relayEndpoint.Some? && st.session.Some?
              && ReportBuild.Build(report.protocol, report.records).Ok?
    ensures Update(st, report).Ok? ==>
              var (next, sent) := Update(st, report).value;
              && next.reception == ApplyAll(st.reception, report.records)
              && next == st.(reception := next.reception, session := next.session)
              && next.session == Some(st.session.value.(reported := next.reception != map[]))
              && sent.Send? && sent.destination == st.relayEndpoint.value
  {
  }

  /** Requests carry the nonce the gateway will hold the answer to, and go to the relay it will take it from. */
  lemma RequestsAreAnswerable(st: State, peer: SocketAddr, nonce: Word32, address: IpAddr, renewed: Nonce)
    ensures OnAdvertisement(st, peer, nonce, address).Ok? ==>
              var (next, sent) := OnAdvertisement(st, peer, nonce, address).value;
              && sent.Send? && Decode(sent.datagram) == Ok(RequestMessage(next))
              && next.relayEndpoint == Some(sent.destination) && ExpectedNonce(next) == Some(next.requestNonce)
    ensures BeginCycle(st, renewed).Ok? ==>
              var (next, sent) := BeginCycle(st, renewed).value;
              && sent.Send? && Decode(sent.datagram) == Ok(RequestMessage(next))
              && next.relayEndpoint == Some(sent.destination) && ExpectedNonce(next) == Some(renewed)
  {
    hide Decode, Encode;
    DecodeEncode(RequestMessage(st));
    DecodeEncode(RequestMessage(st.(requestNonce := renewed, phase := AwaitingQuery)));
  }

  /** When a query moves the session to another gateway endpoint, the old session is torn down under its own
      MAC, nonce and endpoint. */
  lemma OldSessionTornDown(st: State, env: Env, m: Message)
    requires m.MembershipQuery? && OnQuery(st, env, m).Ok?
    ensures var action := OnQuery(st, env, m).value.1;
            && action.QueryAccepted?
            && (action.teardown.Some? <==>
                  st.session.Some? && st.session.value.endpoint.Some? && st.session.value.endpoint != m.gateway)
            && (action.teardown.Some? ==>
                  var last := st.session.value;
                  && action.teardown.value.0 == st.relayEndpoint.value
                  && Decode(action.teardown.value.1) == Ok(Teardown(last.mac, last.nonce, last.endpoint.value)))
  {
    hide Decode, Encode;
    if st.session.Some? && st.session.value.endpoint.Some? {
      DecodeEncode(Teardown(st.session.value.mac, st.session.value.nonce, st.session.value.endpoint.value));
    }
  }
}
