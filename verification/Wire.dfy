/** The seven AMT messages and their wire format (section 5.1 of RFC 7450, with the E flag of RFC 9601). */
module Wire {
  import opened Bytes
  import opened Interest

  type Mac = s: seq<Byte> | |s| == 6 witness Zeros(6)

  datatype GatewayEndpoint = GatewayEndpoint(port: Word16, address: Octets16)

  datatype Message =
    | RelayDiscovery(discoveryNonce: Word32)
    | RelayAdvertisement(discoveryNonce: Word32, relayAddress: IpAddr)
    | Request(requestNonce: Word32, protocol: Protocol, ecnCapable: bool)
    | MembershipQuery(mac: Mac, requestNonce: Word32, limit: bool, gateway: Option<GatewayEndpoint>,
        generalQuery: seq<Byte>)
    | MembershipUpdate(mac: Mac, requestNonce: Word32, update: seq<Byte>)
    | MulticastData(packet: seq<Byte>)
    | Teardown(mac: Mac, requestNonce: Word32, endpoint: GatewayEndpoint)

  datatype DecodeError =
    | UnsupportedVersion(version: nat)
    | UnknownMessageType(kind: nat)
    | Truncated(expectedAtLeast: nat, actual: nat)
    | InvalidLength(actual: nat)

  const GATEWAY_FIELDS_LEN := 18

  // ---- gateway addresses ----

  /** An IPv4 gateway travels as an IPv4-compatible IPv6 address. */
  function FromIp(ip: IpAddr): Octets16 {
    if ip.V4? then Zeros(12) + ip.octets4 else ip.octets6
  }

  /** The address a Teardown is taken to name. */
  function TeardownIp(address: Octets16): IpAddr {
    if address[..12] == Zeros(12) then V4(address[12..]) else V6(address)
  }

  /** Every IPv4 gateway is named unambiguously; an IPv6 gateway is, exactly when its first twelve
      octets are not all zero. */
  lemma TeardownNamesTheGateway(ip: IpAddr)
    ensures TeardownIp(FromIp(ip)) == ip <==> (ip.V4? || ip.octets6[..12] != Zeros(12))
  {
  }

  lemma Ipv6LoopbackIsMistaken()
    ensures TeardownIp(FromIp(V6(Zeros(15) + [1]))) == V4([0, 0, 0, 1])
  {
  }

  // ---- encoding ----

  function Flag(b: bool): Byte { if b then 1 else 0 }

  function TypeOf(m: Message): Byte {
    match m
    case RelayDiscovery(_) => 1
    case RelayAdvertisement(_, _) => 2
    case Request(_, _, _) => 3
    case MembershipQuery(_, _, _, _, _) => 4
    case MembershipUpdate(_, _, _) => 5
    case MulticastData(_) => 6
    case Teardown(_, _, _) => 7
  }

  function EndpointBytes(g: GatewayEndpoint): (s: seq<Byte>)
    ensures |s| == GATEWAY_FIELDS_LEN
  {
    Be16(g.port) + g.address
  }

  function Encode(m: Message): seq<Byte> {
    match m
    case RelayDiscovery(n) => [1, 0, 0, 0] + Be32(n)
    case RelayAdvertisement(n, a) => [2, 0, 0, 0] + Be32(n) + a.Octets()
    case Request(n, p, e) => [3, 2 * Flag(e) + Flag(p.Mldv2?), 0, 0] + Be32(n)
    case MembershipQuery(mac, n, l, g, q) =>
      [4, 2 * Flag(l) + Flag(g.Some?)] + mac + Be32(n) + q + (if g.Some? then EndpointBytes(g.value) else [])
    case MembershipUpdate(mac, n, u) => [5, 0] + mac + Be32(n) + u
    case MulticastData(p) => [6, 0] + p
    case Teardown(mac, n, g) => [7, 0] + mac + Be32(n) + EndpointBytes(g)
  }

  function EncodedLen(m: Message): nat {
    match m
    case RelayDiscovery(_) => 8
    case RelayAdvertisement(_, a) => 8 + if a.V4? then 4 else 16
    case Request(_, _, _) => 8
    case MembershipQuery(_, _, _, g, q) => 12 + |q| + if g.Some? then GATEWAY_FIELDS_LEN else 0
    case MembershipUpdate(_, _, u) => 12 + |u|
    case MulticastData(p) => 2 + |p|
    case Teardown(_, _, _) => 12 + GATEWAY_FIELDS_LEN
  }

  // ---- decoding ----

  function Bit(b: Byte, i: nat): bool
    requires i < 2
  {
    if i == 0 then b % 2 == 1 else b / 2 % 2 == 1
  }

  function RequireExact(input: seq<Byte>, expected: nat): Option<DecodeError> {
    if |input| == expected then None
    else if |input| < expected then Some(Truncated(expected, |input|))
    else Some(InvalidLength(|input|))
  }

  function RequireAtLeast(input: seq<Byte>, expected: nat): Option<DecodeError> {
    if |input| >= expected then None else Some(Truncated(expected, |input|))
  }

  function ReadEndpoint(input: seq<Byte>): GatewayEndpoint
    requires |input| == GATEWAY_FIELDS_LEN
  {
    GatewayEndpoint(ReadBe16(input, 0), input[2..])
  }

  function DecodeAdvertisement(input: seq<Byte>): Result<Message, DecodeError>
    requires |input| >= 8
  {
    var n := ReadBe32(input, 4);
    if |input| == 12 then Ok(RelayAdvertisement(n, V4(input[8..])))
    else if |input| == 24 then Ok(RelayAdvertisement(n, V6(input[8..])))
    else Err(InvalidLength(|input|))
  }

  function DecodeQuery(input: seq<Byte>): Result<Message, DecodeError>
    requires |input| >= 12
  {
    var mac, n, limit := input[2..8], ReadBe32(input, 8), Bit(input[1], 1);
    if !Bit(input[1], 0) then Ok(MembershipQuery(mac, n, limit, None, input[12..]))
    else if |input| < 12 + GATEWAY_FIELDS_LEN then Err(Truncated(12 + GATEWAY_FIELDS_LEN, |input|))
    else
      var at := |input| - GATEWAY_FIELDS_LEN;
      Ok(MembershipQuery(mac, n, limit, Some(ReadEndpoint(input[at..])), input[12..at]))
  }

  function Decode(input: seq<Byte>): Result<Message, DecodeError> {
    if input == [] then Err(Truncated(1, 0))
    else if input[0] / 16 != 0 then Err(UnsupportedVersion(input[0] / 16))
    else DecodeTyped(input)
  }

  function DecodeTyped(input: seq<Byte>): Result<Message, DecodeError>
    requires |input| > 0
  {
    match input[0] % 16
    case 1 =>
      if RequireExact(input, 8).Some? then Err(RequireExact(input, 8).value)
      else Ok(RelayDiscovery(ReadBe32(input, 4)))
    case 2 =>
      if RequireAtLeast(input, 8).Some? then Err(RequireAtLeast(input, 8).value)
      else DecodeAdvertisement(input)
    case 3 =>
      if RequireExact(input, 8).Some? then Err(RequireExact(input, 8).value)
      else Ok(Request(ReadBe32(input, 4), if Bit(input[1], 0) then Mldv2 else Igmpv3, Bit(input[1], 1)))
    case 4 =>
      if RequireAtLeast(input, 12).Some? then Err(RequireAtLeast(input, 12).value)
      else DecodeQuery(input)
    case 5 =>
      if RequireAtLeast(input, 12).Some? then Err(RequireAtLeast(input, 12).value)
      else Ok(MembershipUpdate(input[2..8], ReadBe32(input, 8), input[12..]))
    case 6 =>
      if RequireAtLeast(input, 2).Some? then Err(RequireAtLeast(input, 2).value)
      else Ok(MulticastData(input[2..]))
    case 7 =>
      if RequireExact(input, 30).Some? then Err(RequireExact(input, 30).value)
      else Ok(Teardown(input[2..8], ReadBe32(input, 8), ReadEndpoint(input[12..])))
    case kind => Err(UnknownMessageType(kind))
  }

  // ---- round trips ----

  /** Reading a 32-bit field back from where it was written. */
  lemma NonceAt(s: seq<Byte>, pre: seq<Byte>, n: Word32, post: seq<Byte>)
    requires s == pre + Be32(n) + post
    ensures ReadBe32(s, |pre|) == n
  {
  }

  lemma EndpointRoundTrip(g: GatewayEndpoint)
    ensures ReadEndpoint(EndpointBytes(g)) == g
  {
  }

  lemma ControlRoundTrip(m: Message)
    requires m.RelayDiscovery? || m.RelayAdvertisement? || m.Request? || m.MulticastData?
    ensures Decode(Encode(m)) == Ok(m)
  {
  }

  function QueryTail(m: Message): seq<Byte>
    requires m.MembershipQuery?
  {
    if m.gateway.Some? then EndpointBytes(m.gateway.value) else []
  }

  lemma QueryFields(m: Message)
    requires m.MembershipQuery?
    ensures var s, k := Encode(m), 12 + |m.generalQuery|;
            && |s| == k + |QueryTail(m)| && s[0] == 4 && s[1] == 2 * Flag(m.limit) + Flag(m.gateway.Some?)
            && s[2..8] == m.mac && ReadBe32(s, 8) == m.requestNonce
            && s[12..k] == m.generalQuery && s[k..] == QueryTail(m)
  {
  }

  lemma QueryRoundTrip(m: Message)
    requires m.MembershipQuery?
    ensures Decode(Encode(m)) == Ok(m)
  {
    hide Encode, Be32, ReadBe32, EndpointBytes, ReadEndpoint;
    var s := Encode(m);
    QueryFields(m);
    if m.gateway.Some? {
      EndpointRoundTrip(m.gateway.value);
    } else {
      assert s[12..] == s[12..|s|];
    }
  }

  lemma UpdateRoundTrip(m: Message)
    requires m.MembershipUpdate? || m.Teardown?
    ensures Decode(Encode(m)) == Ok(m)
  {
    hide Be32, ReadBe32, EndpointBytes, ReadEndpoint;
    var s := Encode(m);
    var tail := if m.MembershipUpdate? then m.update else EndpointBytes(m.endpoint);
    NonceAt(s, [TypeOf(m), 0] + m.mac, m.requestNonce, tail);
    assert s[2..8] == m.mac && s[12..] == tail;
    if m.Teardown? {
      EndpointRoundTrip(m.endpoint);
    }
  }

  /** What decodes is decided by the version, the type and the length alone, whatever the reserved bits. */
  lemma DecodesExactly(input: seq<Byte>)
    ensures Decode(input).Ok? <==>
              && input != []
              && match input[0]
                 case 1 | 3 => |input| == 8
                 case 2 => |input| == 12 || |input| == 24
                 case 4 => |input| >= 12 && (input[1] % 2 == 1 ==> |input| >= 30)
                 case 5 => |input| >= 12
                 case 6 => |input| >= 2
                 case 7 => |input| == 30
                 case _ => false
  {
  }

  lemma EncodedSize(m: Message)
    ensures |Encode(m)| == EncodedLen(m)
  {
  }

  /** Every message of every type survives the wire, in exactly the announced number of bytes. */
  lemma DecodeEncode(m: Message)
    ensures Decode(Encode(m)) == Ok(m) && |Encode(m)| == EncodedLen(m)
  {
    hide Encode, Decode, EncodedLen;
    EncodedSize(m);
    match m
    case MembershipQuery(_, _, _, _, _) => QueryRoundTrip(m);
    case MembershipUpdate(_, _, _) => UpdateRoundTrip(m);
    case Teardown(_, _, _) => UpdateRoundTrip(m);
    case _ => ControlRoundTrip(m);
  }

  /** A datagram with its reserved bits cleared. */
  function Canonical(input: seq<Byte>): seq<Byte>
    requires Decode(input).Ok?
  {
    var kind := input[0];
    if kind <= 2 then [kind, 0, 0, 0] + input[4..]
    else if kind == 3 then [3, input[1] % 4, 0, 0] + input[4..]
    else if kind == 4 then [4, input[1] % 4] + input[2..]
    else [kind, 0] + input[2..]
  }

  lemma Be32Read(s: seq<Byte>, i: nat)
    requires i + 4 <= |s|
    ensures Be32(ReadBe32(s, i)) == s[i..i + 4]
  {
    var n := ReadBe32(s, i);
    assert n / 0x1_0000 == ReadBe16(s, i) && n % 0x1_0000 == ReadBe16(s, i + 2);
  }

  lemma EndpointCanonical(input: seq<Byte>)
    requires |input| == GATEWAY_FIELDS_LEN
    ensures EndpointBytes(ReadEndpoint(input)) == input
  {
  }

  lemma ControlCanonical(input: seq<Byte>)
    requires Decode(input).Ok? && input[0] <= 3
    ensures Encode(Decode(input).value) == Canonical(input)
  {
    hide Be32, ReadBe32;
    Be32Read(input, 4);
    if input[0] == 2 {
      assert input[4..] == input[4..8] + input[8..];
    } else {
      assert input[4..8] == input[4..];
    }
  }

  lemma UpdateCanonical(input: seq<Byte>)
    requires Decode(input).Ok? && (input[0] == 5 || input[0] == 7)
    ensures Encode(Decode(input).value) == Canonical(input)
  {
    hide Be32, ReadBe32, EndpointBytes, ReadEndpoint;
    Be32Read(input, 8);
    if input[0] == 7 {
      EndpointCanonical(input[12..]);
    }
    Rejoin([input[0], 0], input);
  }

  lemma Rejoin(head: seq<Byte>, s: seq<Byte>)
    requires |s| >= 12
    ensures head + s[2..8] + s[8..12] + s[12..] == head + s[2..]
  {
  }

  /** Decoding loses only reserved bits: what is accepted is re-encoded to the same bytes. */
  lemma EncodeDecode(input: seq<Byte>)
    requires Decode(input).Ok?
    ensures Encode(Decode(input).value) == Canonical(input)
  {
    hide Encode;
    if input[0] <= 3 {
      ControlCanonical(input);
    } else if input[0] == 4 {
      QueryCanonical(input);
    } else if input[0] == 6 {
      DataCanonical(input);
    } else {
      UpdateCanonical(input);
    }
  }

  lemma DataCanonical(input: seq<Byte>)
    requires Decode(input).Ok? && input[0] == 6
    ensures Encode(Decode(input).value) == Canonical(input)
  {
  }

  lemma Regroup(h: seq<Byte>, a: seq<Byte>, b: seq<Byte>, c: seq<Byte>, d: seq<Byte>)
    ensures h + a + b + c + d == h + (a + b + c + d)
  {
  }

  lemma Split(s: seq<Byte>, at: nat)
    requires 12 <= at <= |s|
    ensures s[2..] == s[2..8] + s[8..12] + s[12..at] + s[at..]
  {
  }

  lemma QueryCanonical(input: seq<Byte>)
    requires |input| >= 12 && input[0] == 4 && DecodeQuery(input).Ok?
    ensures Encode(DecodeQuery(input).value) == [4, input[1] % 4] + input[2..]
  {
    hide Be32, ReadBe32, EndpointBytes, ReadEndpoint;
    var m := DecodeQuery(input).value;
    var at := if m.gateway.Some? then |input| - GATEWAY_FIELDS_LEN else |input|;
    var flags: Byte := 2 * Flag(m.limit) + Flag(m.gateway.Some?);
    var tail := if m.gateway.Some? then EndpointBytes(m.gateway.value) else [];
    QueryParts(input);
    Split(input, at);
    Regroup([4, flags], m.mac, Be32(m.requestNonce), m.generalQuery, tail);
  }

  lemma QueryParts(input: seq<Byte>)
    requires |input| >= 12 && input[0] == 4 && DecodeQuery(input).Ok?
    ensures var m := DecodeQuery(input).value;
            var at := if m.gateway.Some? then |input| - GATEWAY_FIELDS_LEN else |input|;
            && 2 * Flag(m.limit) + Flag(m.gateway.Some?) == input[1] % 4
            && m.mac == input[2..8] && Be32(m.requestNonce) == input[8..12] && m.generalQuery == input[12..at]
            && input[at..] == if m.gateway.Some? then EndpointBytes(m.gateway.value) else []
  {
    hide Be32, ReadBe32, EndpointBytes, ReadEndpoint;
    Be32Read(input, 8);
    var m := DecodeQuery(input).value;
    if m.gateway.Some? {
      EndpointCanonical(input[|input| - GATEWAY_FIELDS_LEN..]);
    }
  }
}
