/** Parsing an IP packet that carries a membership report: header checks, router alert, checksums,
    legacy messages, and the record list. */
module ReportParse {
  import opened Bytes
  import opened Interest
  import opened ReportRecords
  import opened ReportBuild
  import Checksum

  // ---- router alert options ----

  predicate HasIpv4RouterAlert(options: seq<Byte>, offset: nat)
    decreases |options| - offset
  {
    if offset >= |options| || options[offset] == 0 then false
    else if options[offset] == 1 then HasIpv4RouterAlert(options, offset + 1)
    else if offset + 1 >= |options| then false
    else
      var length := options[offset + 1];
      if length < 2 || offset + length > |options| then false
      else if options[offset] == 0x94 && length == 4 && options[offset + 2] == 0 && options[offset + 3] == 0 then true
      else HasIpv4RouterAlert(options, offset + length)
  }

  predicate HasIpv6RouterAlert(options: seq<Byte>, offset: nat)
    decreases |options| - offset
  {
    if offset >= |options| then false
    else if options[offset] == 0 then HasIpv6RouterAlert(options, offset + 1)
    else if offset + 1 >= |options| then false
    else
      var end := offset + 2 + options[offset + 1];
      if end > |options| then false
      else if options[offset] == 5 && options[offset + 1] == 2 && options[offset + 2] == 0
          && options[offset + 3] == 0 then true
      else HasIpv6RouterAlert(options, end)
  }

  /** Where the option behind the one at `at` starts, if the option list goes on behind it. */
  function NextIpv4Option(options: seq<Byte>, at: nat): (next: Option<nat>)
    ensures next.Some? ==> at < next.value <= |options|
  {
    if at >= |options| || options[at] == 0 then None
    else if options[at] == 1 then Some(at + 1)
    else if at + 1 >= |options| || options[at + 1] < 2 || at + options[at + 1] > |options| then None
    else Some(at + options[at + 1])
  }

  function NextIpv6Option(options: seq<Byte>, at: nat): (next: Option<nat>)
    ensures next.Some? ==> at < next.value <= |options|
  {
    if at >= |options| then None
    else if options[at] == 0 then Some(at + 1)
    else if at + 1 >= |options| || at + 2 + options[at + 1] > |options| then None
    else Some(at + 2 + options[at + 1])
  }

  function NextOption(p: Protocol, options: seq<Byte>, at: nat): (next: Option<nat>)
    ensures next.Some? ==> at < next.value <= |options|
  {
    if p.Igmpv3? then NextIpv4Option(options, at) else NextIpv6Option(options, at)
  }

  /** `at` is reached from `from` by going from option to option. */
  predicate Boundary(p: Protocol, options: seq<Byte>, from: nat, at: nat)
    decreases |options| - from
  {
    from == at || (NextOption(p, options, from).Some? && Boundary(p, options, NextOption(p, options, from).value, at))
  }

  predicate AlertAt(p: Protocol, options: seq<Byte>, at: nat) {
    at + 4 <= |options| && options[at..at + 4] == if p.Igmpv3? then [0x94, 4, 0, 0] else [5, 2, 0, 0]
  }

  /** A router alert stands at an option boundary. */
  ghost predicate AlertFrom(p: Protocol, options: seq<Byte>, from: nat) {
    exists at: nat :: Boundary(p, options, from, at) && AlertAt(p, options, at)
  }

  lemma AlertStep(p: Protocol, options: seq<Byte>, from: nat)
    ensures AlertFrom(p, options, from) <==>
              || AlertAt(p, options, from)
              || (NextOption(p, options, from).Some? && AlertFrom(p, options, NextOption(p, options, from).value))
  {
    hide NextOption, AlertAt;
    var next := NextOption(p, options, from);
    if AlertAt(p, options, from) {
      assert Boundary(p, options, from, from);
    } else if next.Some? {
      forall at: nat | AlertAt(p, options, at)
        ensures Boundary(p, options, from, at) <==> Boundary(p, options, next.value, at)
      {
      }
    }
  }

  /** The four octets of an alert, and that it is an option of its own. */
  lemma AlertOctets(p: Protocol, options: seq<Byte>, at: nat)
    ensures AlertAt(p, options, at) <==>
              && at + 4 <= |options| && options[at] == (if p.Igmpv3? then 0x94 else 5)
              && options[at + 1] == (if p.Igmpv3? then 4 else 2) && options[at + 2] == 0 && options[at + 3] == 0
  {
    if at + 4 <= |options| {
      var o := options[at..at + 4];
      assert o[0] == options[at] && o[1] == options[at + 1] && o[2] == options[at + 2] && o[3] == options[at + 3];
    }
  }

  /** The scans find exactly the alerts at option boundaries. */
  lemma {:induction false} Ipv4AlertFound(options: seq<Byte>, from: nat)
    ensures HasIpv4RouterAlert(options, from) <==> AlertFrom(Igmpv3, options, from)
    decreases |options| - from
  {
    hide AlertFrom, AlertAt;
    AlertStep(Igmpv3, options, from);
    AlertOctets(Igmpv3, options, from);
    var next := NextIpv4Option(options, from);
    if next.Some? {
      Ipv4AlertFound(options, next.value);
    }
  }

  lemma {:induction false} Ipv6AlertFound(options: seq<Byte>, from: nat)
    ensures HasIpv6RouterAlert(options, from) <==> AlertFrom(Mldv2, options, from)
    decreases |options| - from
  {
    hide AlertFrom, AlertAt;
    AlertStep(Mldv2, options, from);
    AlertOctets(Mldv2, options, from);
    var next := NextIpv6Option(options, from);
    if next.Some? {
      Ipv6AlertFound(options, next.value);
    }
  }

  method FindIpv4RouterAlert(options: seq<Byte>) returns (found: bool)
    ensures found == HasIpv4RouterAlert(options, 0)
    ensures found <==> exists at: nat :: Boundary(Igmpv3, options, 0, at) && AlertAt(Igmpv3, options, at)
  {
    Ipv4AlertFound(options, 0);
    var offset: nat := 0;
    while offset < |options|
      invariant HasIpv4RouterAlert(options, offset) == HasIpv4RouterAlert(options, 0)
      decreases |options| - offset
    {
      if options[offset] == 0 {
        return false;
      } else if options[offset] == 1 {
        offset := offset + 1;
      } else {
        if offset + 1 >= |options| {
          return false;
        }
        var length := options[offset + 1];
        if length < 2 || offset + length > |options| {
          return false;
        }
        if options[offset] == 0x94 && length == 4 && options[offset + 2] == 0 && options[offset + 3] == 0 {
          return true;
        }
        offset := offset + length;
      }
    }
    found := false;
  }

  method FindIpv6RouterAlert(options: seq<Byte>) returns (found: bool)
    ensures found == HasIpv6RouterAlert(options, 0)
    ensures found <==> exists at: nat :: Boundary(Mldv2, options, 0, at) && AlertAt(Mldv2, options, at)
  {
    Ipv6AlertFound(options, 0);
    var offset: nat := 0;
    while offset < |options|
      invariant HasIpv6RouterAlert(options, offset) == HasIpv6RouterAlert(options, 0)
      decreases |options| - offset
    {
      if options[offset] == 0 {
        offset := offset + 1;
        continue;
      }
      if offset + 1 >= |options| {
        return false;
      }
      var end := offset + 2 + options[offset + 1];
      if end > |options| {
        return false;
      }
      if options[offset] == 5 && options[offset + 1] == 2 && options[offset + 2] == 0 && options[offset + 3] == 0 {
        return true;
      }
      offset := end;
    }
    found := false;
  }

  // ---- IP headers ----

  /** Where the report lies in the packet, and the packet's destination. */
  datatype Located = Located(destination: IpAddr, start: nat, end: nat)

  function LocateIpv4(packet: seq<Byte>): (r: Result<Located, ParseError>)
    ensures r.Ok? ==> r.value.start + 8 <= r.value.end <= |packet|
  {
    if |packet| < 20 then Err(Truncated(20, |packet|)) else
    var ihl := packet[0] % 16 * 4;
    if ihl < 20 then Err(InvalidIpv4HeaderLength(ihl)) else
    if |packet| < ihl then Err(Truncated(ihl, |packet|)) else
    var total := ReadBe16(packet, 2);
    if total < ihl || total > |packet| then Err(InvalidTotalLength(total, |packet|)) else
    if packet[9] != 2 then Err(InvalidProtocol(2, packet[9])) else
    if packet[8] != 1 then Err(InvalidHopLimit(packet[8])) else
    if ReadBe16(packet, 6) % 0x4000 != 0 then Err(FragmentedPacket) else
    var source := AddrAt(packet, 4, 12);
    if source.IsMulticast() || source.IsBroadcast() then Err(InvalidSourceAddress(source)) else
    if ihl == 20 || !HasIpv4RouterAlert(packet[20..ihl], 0) then Err(MissingIpv4RouterAlert) else
    if Checksum.OnesSum(packet[..ihl]) != 0xffff then Err(InvalidChecksum) else
    if total - ihl < 8 then Err(Truncated(8, total - ihl)) else
    if Checksum.OnesSum(packet[ihl..total]) != 0xffff then Err(InvalidChecksum)
    else Ok(Located(AddrAt(packet, 4, 16), ihl, total))
  }

  function LocateIpv6(packet: seq<Byte>): (r: Result<Located, ParseError>)
    ensures r.Ok? ==> r.value.start + 8 <= r.value.end <= |packet|
  {
    if |packet| < 40 then Err(Truncated(40, |packet|)) else
    var total := 40 + ReadBe16(packet, 4);
    if total > |packet| then Err(InvalidTotalLength(total, |packet|)) else
    if packet[7] != 1 then Err(InvalidProtocol(1, packet[7])) else
    var source := AddrAt(packet, 16, 8);
    if source.IsMulticast() then Err(InvalidSourceAddress(source)) else
    if packet[6] != 0 then Err(MissingIpv6RouterAlert) else
    if total - 40 < 8 then Err(Truncated(8, total - 40)) else
    var extension := (packet[41] as int + 1) * 8;
    if total - 40 < extension then Err(Truncated(extension, total - 40)) else
    if !HasIpv6RouterAlert(packet[42..40 + extension], 0) then Err(MissingIpv6RouterAlert) else
    if packet[40] != ICMPV6 then Err(InvalidProtocol(ICMPV6, packet[40])) else
    var start := 40 + extension;
    if total - start < 8 then Err(Truncated(8, total - start)) else
    var pseudo := Checksum.Ipv6Pseudo(packet[8..24], packet[24..40], total - start, ICMPV6);
    if Checksum.ChecksumOf(pseudo + packet[start..total]) != 0 then Err(InvalidChecksum)
    else Ok(Located(AddrAt(packet, 16, 24), start, total))
  }

  // ---- the message ----

  function LegacyReportType(p: Protocol): Byte { if p.Igmpv3? then 0x16 else 131 }
  function LegacyLeaveType(p: Protocol): Byte { if p.Igmpv3? then 0x17 else 132 }
  function LegacyLen(p: Protocol): nat { if p.Igmpv3? then 8 else 24 }

  function ReportDestination(p: Protocol): IpAddr {
    if p.Igmpv3? then V4(IGMP_DESTINATION) else V6(MLD_DESTINATION)
  }

  function AllRouters(p: Protocol): IpAddr {
    if p.Igmpv3? then V4([224, 0, 0, 2]) else V6(MLD_DESTINATION[15 := 2])
  }

  function ParseLegacy(p: Protocol, msg: seq<Byte>, destination: IpAddr): Result<seq<MembershipRecord>, ParseError>
    requires |msg| >= 8
  {
    if |msg| != LegacyLen(p) then Err(InvalidMessageLength(LegacyLen(p), |msg|)) else
    var group := AddrAt(msg, WidthOf(p), LegacyLen(p) - WidthOf(p));
    if msg[0] == LegacyReportType(p) then
      if destination != group then Err(InvalidDestination(destination))
      else Ok([MembershipRecord(LegacyReport, group, [])])
    else
      if destination != AllRouters(p) then Err(InvalidDestination(destination))
      else Ok([MembershipRecord(LegacyLeave, group, [])])
  }

  function ParseMessage(p: Protocol, msg: seq<Byte>, destination: IpAddr,
                        limits: ParseLimits): Result<seq<MembershipRecord>, ParseError>
    requires |msg| >= 8
  {
    if msg[0] == LegacyReportType(p) || msg[0] == LegacyLeaveType(p) then ParseLegacy(p, msg, destination)
    else if msg[0] == MessageType(p) then
      if destination != ReportDestination(p) then Err(InvalidDestination(destination))
      else ParseRecords(msg, WidthOf(p), limits)
    else Err(UnsupportedMembershipMessage(msg[0]))
  }

  function ValidateAll(rs: seq<MembershipRecord>): Option<ParseError> {
    if rs == [] then None
    else if ValidateRecord(rs[0].group, rs[0].sources).Some? then ValidateRecord(rs[0].group, rs[0].sources)
    else ValidateAll(rs[1..])
  }

  function Finish(p: Protocol, records: Result<seq<MembershipRecord>, ParseError>): Result<MembershipReport,
                  ParseError> {
    if records.Err? then Err(records.error)
    else if ValidateAll(records.value).Some? then Err(ValidateAll(records.value).value)
    else Ok(MembershipReport(p, records.value))
  }

  function ParseAt(p: Protocol, packet: seq<Byte>, located: Result<Located, ParseError>,
                   limits: ParseLimits): Result<MembershipReport, ParseError>
    requires located.Ok? ==> located.value.start + 8 <= located.value.end <= |packet|
  {
    if located.Err? then Err(located.error)
    else
      var at := located.value;
      Finish(p, ParseMessage(p, packet[at.start..at.end], at.destination, limits))
  }

  function Parse(packet: seq<Byte>, limits: ParseLimits): Result<MembershipReport, ParseError> {
    if packet == [] then Err(Truncated(1, 0))
    else if packet[0] / 16 == 4 then ParseAt(Igmpv3, packet, LocateIpv4(packet), limits)
    else if packet[0] / 16 == 6 then ParseAt(Mldv2, packet, LocateIpv6(packet), limits)
    else Err(InvalidIpVersion(packet[0] / 16))
  }

  // ---- round trip ----

  ghost predicate Ipv4HeaderFor(h: seq<Byte>, destination: seq<Byte>, messageLen: nat) {
    && |h| == 24 && h[0] == 0x46 && ReadBe16(h, 2) == 24 + messageLen && h[6] == 0 && h[7] == 0
    && h[8] == 1 && h[9] == 2 && h[12..16] == Zeros(4) && h[16..20] == destination
    && h[20..24] == [0x94, 4, 0, 0] && Checksum.OnesSum(h) == 0xffff
  }

  lemma BuiltIpv4Header(messageLen: nat)
    requires 24 + messageLen <= 0xffff
    ensures Ipv4HeaderFor(SealedHeader(Igmpv3, messageLen), IGMP_DESTINATION, messageLen)
  {
    hide Checksum.ChecksumOf, Checksum.OnesSum, Put;
    var plain, h := Header(Igmpv3, messageLen), SealedHeader(Igmpv3, messageLen);
    Checksum.HeaderChecksumVerifies(plain, 10);
    assert ReadBe16(plain, 2) == 24 + messageLen;
    assert plain[12..16] == Zeros(4) && plain[16..20] == IGMP_DESTINATION && plain[20..24] == [0x94, 4, 0, 0];
    assert h[12..16] == plain[12..16] && h[16..20] == plain[16..20] && h[20..24] == plain[20..24];
  }

  lemma Ipv4Located(h: seq<Byte>, destination: Octets4, message: seq<Byte>, padding: seq<Byte>)
    requires Ipv4HeaderFor(h, destination, |message|) && |message| >= 8 && Checksum.OnesSum(message) == 0xffff
    ensures LocateIpv4(h + message + padding) == Ok(Located(V4(destination), 24, 24 + |message|))
    ensures (h + message + padding)[24..24 + |message|] == message
  {
    hide Checksum.OnesSum;
    var packet := h + message + padding;
    assert packet[..24] == h && packet[24..24 + |message|] == message;
    assert packet[12..16] == h[12..16] && packet[16..20] == h[16..20] && packet[20..24] == h[20..24];
    assert HasIpv4RouterAlert([0x94, 4, 0, 0], 0);
    assert AddrAt(packet, 4, 16) == V4(destination) && AddrAt(packet, 4, 12) == V4(Zeros(4));
  }

  ghost predicate Ipv6HeaderFor(h: seq<Byte>, messageLen: nat) {
    && |h| == 48 && h[0] == 0x60 && ReadBe16(h, 4) == 8 + messageLen && h[6] == 0 && h[7] == 1
    && h[8..24] == Zeros(16) && h[24..40] == MLD_DESTINATION
    && h[40] == ICMPV6 && h[41] == 0 && h[42..48] == [5, 2, 0, 0, 1, 0]
  }

  lemma BuiltIpv6Header(messageLen: nat)
    requires 8 + messageLen <= 0xffff
    ensures Ipv6HeaderFor(SealedHeader(Mldv2, messageLen), messageLen)
  {
  }

  lemma Ipv6Located(h: seq<Byte>, message: seq<Byte>, padding: seq<Byte>)
    requires Ipv6HeaderFor(h, |message|) && 8 <= |message| <= 0xffff
    requires Checksum.OnesSum(Pseudo(Mldv2, |message|) + message) == 0xffff
    ensures LocateIpv6(h + message + padding) == Ok(Located(V6(MLD_DESTINATION), 48, 48 + |message|))
    ensures (h + message + padding)[48..48 + |message|] == message
  {
    hide Checksum.OnesSum, Checksum.Ipv6Pseudo;
    var packet := h + message + padding;
    assert packet[48..48 + |message|] == message;
    assert packet[8..24] == h[8..24] && packet[24..40] == h[24..40] && packet[42..48] == h[42..48];
    assert HasIpv6RouterAlert([5, 2, 0, 0, 1, 0], 0);
  }

  lemma SealedMessageVerifies(p: Protocol, rs: seq<MembershipRecord>)
    requires AllEncodable(p, rs) && |rs| <= 0xffff && |Message(p, rs)| <= 0xffff
    ensures Checksum.OnesSum(Pseudo(p, |Message(p, rs)|) + SealedMessage(p, rs)) == 0xffff
  {
    hide Checksum.OnesSum, Checksum.ChecksumOf, EncodeRecords, Message, Checksum.Ipv6Pseudo;
    var m := Message(p, rs);
    Checksum.InsertedChecksumVerifies(Pseudo(p, |m|), m, 2, Checksum.ChecksumOf(Pseudo(p, |m|) + m));
  }

  lemma LocatedBuilt(p: Protocol, len: nat, m: seq<Byte>, padding: seq<Byte>)
    requires TooLong(p, len).None? && |m| == len >= 8 && Checksum.OnesSum(Pseudo(p, len) + m) == 0xffff
    ensures var packet := SealedHeader(p, len) + m + padding;
            && (if p.Igmpv3? then packet[0] / 16 == 4 else packet[0] / 16 == 6)
            && (if p.Igmpv3? then LocateIpv4(packet) else LocateIpv6(packet)) ==
               Ok(Located(ReportDestination(p), HeaderLen(p), HeaderLen(p) + len))
            && packet[HeaderLen(p)..HeaderLen(p) + len] == m
  {
    hide Checksum.OnesSum, LocateIpv4, LocateIpv6, SealedHeader, Checksum.Ipv6Pseudo;
    var h := SealedHeader(p, len);
    if p.Igmpv3? {
      BuiltIpv4Header(len);
      assert [] + m == m;
      Ipv4Located(h, IGMP_DESTINATION, m, padding);
    } else {
      BuiltIpv6Header(len);
      Ipv6Located(h, m, padding);
    }
  }

  /** The sealed message parses to the records it was built from. */
  lemma SealedMessageParses(p: Protocol, rs: seq<MembershipRecord>, limits: ParseLimits)
    requires AllEncodable(p, rs) && |rs| <= 0xffff && |Message(p, rs)| <= 0xffff
    ensures ParseMessage(p, SealedMessage(p, rs), ReportDestination(p), limits) ==
            if |rs| <= limits.maxRecords then Outcome(rs, limits.maxSourcesPerRecord)
            else Err(ResourceLimit(|rs|, limits.maxRecords))
  {
    hide Checksum.ChecksumOf, ParseRecords, EncodeRecords, Outcome, Pseudo;
    var m := SealedMessage(p, rs);
    var head := m[..8];
    assert m == head + EncodeRecords(p, rs);
    assert head[0] == MessageType(p);
    assert head[6] == MessageHead(p, |rs|)[6] && head[7] == MessageHead(p, |rs|)[7];
    MessageRoundTrip(p, rs, head, limits);
  }

  lemma {:induction false} EncodableValidates(p: Protocol, rs: seq<MembershipRecord>)
    requires AllEncodable(p, rs)
    ensures ValidateAll(rs) == None
  {
    if rs != [] {
      assert Encodable(p, rs[0]);
      EncodableValidates(p, rs[1..]);
    }
  }

  /** What the parser must answer for a built packet. */
  function Expected(p: Protocol, rs: seq<MembershipRecord>, limits: ParseLimits): Result<MembershipReport, ParseError> {
    if |rs| > limits.maxRecords then Err(ResourceLimit(|rs|, limits.maxRecords))
    else
      match FirstOver(rs, limits.maxSourcesPerRecord)
      case Some(n) => Err(ResourceLimit(n, limits.maxSourcesPerRecord))
      case None => Ok(MembershipReport(p, rs))
  }

  /** Every packet the builder produces, with any padding behind it, is parsed back to the same report,
      unless it exceeds the parser's limits; then the limit is what is reported. */
  lemma BuildParseRoundTrip(report: MembershipReport, padding: seq<Byte>, limits: ParseLimits)
    requires Build(report.protocol, report.records).Ok?
    ensures Parse(Build(report.protocol, report.records).value + padding, limits) ==
            Expected(report.protocol, report.records, limits)
  {
    hide FirstRecordError, Message, Checksum.OnesSum, LocateIpv4, LocateIpv6, ParseMessage, SealedMessage,
        SealedHeader, Pseudo;
    var p, rs := report.protocol, report.records;
    NoErrorMeansEncodable(p, rs);
    SealedMessageVerifies(p, rs);
    SealedMessageParses(p, rs, limits);
    EncodableValidates(p, rs);
    var len := |Message(p, rs)|;
    var h, m := SealedHeader(p, len), SealedMessage(p, rs);
    LocatedBuilt(p, len, m, padding);
  }

  /** So two reports are never built into the same packet. */
  lemma BuildInjective(a: MembershipReport, b: MembershipReport)
    requires Build(a.protocol, a.records).Ok? && Build(a.protocol, a.records) == Build(b.protocol, b.records)
    ensures a == b
  {
    hide Build, Parse;
    var most := AllSources(a.records) + AllSources(b.records);
    var limits := ParseLimits(|a.records| + |b.records|, most);
    NoneOverAll(a.records, most);
    NoneOverAll(b.records, most);
    BuildParseRoundTrip(a, [], limits);
    BuildParseRoundTrip(b, [], limits);
  }

  ghost function AllSources(rs: seq<MembershipRecord>): nat {
    if rs == [] then 0 else |rs[0].sources| + AllSources(rs[1..])
  }

  lemma {:induction false} NoneOverAll(rs: seq<MembershipRecord>, limit: nat)
    requires AllSources(rs) <= limit
    ensures FirstOver(rs, limit) == None
  {
    if rs != [] {
      NoneOverAll(rs[1..], limit);
    }
  }

  // ---- what a successful parse guarantees ----

  ghost predicate SoundRecord(p: Protocol, r: MembershipRecord, limits: ParseLimits) {
    && FamilyOf(p, r.group) && r.group.IsMulticast() && GoodSources(r.group, r.sources)
    && |r.sources| <= limits.maxSourcesPerRecord
  }

  ghost predicate Shaped(w: Width, rs: seq<MembershipRecord>, limit: nat) {
    forall i :: 0 <= i < |rs| ==> rs[i].group.V4? == (w == 4) && |rs[i].sources| <= limit
  }

  lemma {:induction false} ParsedShape(msg: seq<Byte>, w: Width, offset: nat, count: nat, limits: ParseLimits)
    requires offset <= |msg| && ParseFrom(msg, w, offset, count, limits).Ok?
    ensures var rs := ParseFrom(msg, w, offset, count, limits).value;
            |rs| == count && Shaped(w, rs, limits.maxSourcesPerRecord)
    decreases count
  {
    if count > 0 {
      var one := ParseRecord(msg, w, offset, limits).value;
      ParsedShape(msg, w, one.1, count - 1, limits);
    }
  }

  lemma {:induction false} ValidatedRecords(rs: seq<MembershipRecord>, i: nat)
    requires ValidateAll(rs) == None && i < |rs|
    ensures rs[i].group.IsMulticast() && GoodSources(rs[i].group, rs[i].sources)
  {
    if i > 0 {
      ValidatedRecords(rs[1..], i - 1);
    }
  }

  /** What a packet must look like from outside before any record of it counts: sealed by its checksums, one
      hop only, whole, flagged for routers, from a source that can be one. */
  ghost predicate Sealed(packet: seq<Byte>) {
    if packet == [] then false
    else if packet[0] / 16 == 4 then
      var ihl := packet[0] % 16 * 4;
      && |packet| >= 24 && 24 <= ihl && ihl + 8 <= ReadBe16(packet, 2) <= |packet|
      && packet[8] == 1 && packet[9] == 2 && ReadBe16(packet, 6) % 0x4000 == 0
      && !AddrAt(packet, 4, 12).IsMulticast() && !AddrAt(packet, 4, 12).IsBroadcast()
      && HasIpv4RouterAlert(packet[20..ihl], 0)
      && Checksum.OnesSum(packet[..ihl]) == 0xffff && Checksum.OnesSum(packet[ihl..ReadBe16(packet, 2)]) == 0xffff
    else
      && |packet| >= 56 && packet[0] / 16 == 6
      && (var total, start := 40 + ReadBe16(packet, 4) as int, 40 + (packet[41] as int + 1) * 8;
          && start + 8 <= total <= |packet|
          && packet[6] == 0 && packet[7] == 1 && packet[40] == ICMPV6 && packet[8] != 0xff
          && HasIpv6RouterAlert(packet[42..start], 0)
          && Checksum.Reduce(Checksum.Total(packet[8..40]) + (total - start) + 58
                             + Checksum.Total(packet[start..total])) == 0xffff)
  }

  /** Where the message of a sealed packet lies, and where the packet goes. */
  ghost function Span(packet: seq<Byte>): Located
    requires Sealed(packet)
  {
    if packet[0] / 16 == 4 then Located(AddrAt(packet, 4, 16), packet[0] % 16 * 4, ReadBe16(packet, 2))
    else Located(AddrAt(packet, 16, 24), 40 + (packet[41] as int + 1) * 8, 40 + ReadBe16(packet, 4) as int)
  }

  lemma MldSum(packet: seq<Byte>, start: nat, total: nat)
    requires 40 <= start <= total <= |packet| && total - start <= 0xffff
    ensures var pseudo := Checksum.Ipv6Pseudo(packet[8..24], packet[24..40], total - start, ICMPV6);
            Checksum.ChecksumOf(pseudo + packet[start..total]) == 0 <==>
              Checksum.Reduce(Checksum.Total(packet[8..40]) + (total - start) + 58
                              + Checksum.Total(packet[start..total])) == 0xffff
  {
    hide Checksum.Total, Checksum.Reduce, Checksum.Ipv6Pseudo;
    Checksum.Ipv6PseudoTotal(packet[8..24], packet[24..40], total - start, ICMPV6);
    var pseudo := Checksum.Ipv6Pseudo(packet[8..24], packet[24..40], total - start, ICMPV6);
    Checksum.TotalConcat(pseudo, packet[start..total]);
    Checksum.TotalConcat(packet[8..24], packet[24..40]);
    assert packet[8..40] == packet[8..24] + packet[24..40];
  }

  /** The header checks of both parsers pass exactly for the sealed packets. */
  lemma LocatedExactly(packet: seq<Byte>)
    requires packet != []
    ensures packet[0] / 16 == 4 ==>
              && (LocateIpv4(packet).Ok? <==> Sealed(packet))
              && (Sealed(packet) ==> LocateIpv4(packet).value == Span(packet))
    ensures packet[0] / 16 == 6 ==>
              && (LocateIpv6(packet).Ok? <==> Sealed(packet))
              && (Sealed(packet) ==> LocateIpv6(packet).value == Span(packet))
  {
    hide Checksum.OnesSum, HasIpv4RouterAlert, HasIpv6RouterAlert, Checksum.Ipv6Pseudo, Checksum.Total, Checksum.Reduce,
         Checksum.ChecksumOf;
    NoEmptyAlert();
    if packet[0] / 16 == 6 && |packet| >= 48 {
      var total, start := 40 + ReadBe16(packet, 4) as int, 40 + (packet[41] as int + 1) * 8;
      if start <= total <= |packet| {
        MldSum(packet, start, total);
      }
    }
  }

  lemma NoEmptyAlert()
    ensures !HasIpv4RouterAlert([], 0)
  {
  }

  /** What a message of the older protocol versions becomes. */
  predicate IsLegacy(rs: seq<MembershipRecord>) {
    |rs| == 1 && (rs[0].kind.LegacyReport? || rs[0].kind.LegacyLeave?) && rs[0].sources == []
  }

  /** The message has a type the parser knows and goes where messages of that type go: reports to their own
      address, messages of the older versions to the group they report or, when they leave it, to all routers. */
  ghost predicate Addressed(packet: seq<Byte>)
    requires Sealed(packet)
  {
    var at := Span(packet);
    var msg := packet[at.start..at.end];
    if packet[0] / 16 == 4 then
      || (msg[0] == 0x22 && at.destination == V4([224, 0, 0, 22]))
      || (msg[0] == 0x16 && |msg| == 8 && at.destination == V4(msg[4..8]))
      || (msg[0] == 0x17 && |msg| == 8 && at.destination == V4([224, 0, 0, 2]))
    else
      || (msg[0] == 143 && at.destination == V6([0xff, 2, 0, 0, 0, 0, 0, 0, 0, 0, 0, 0, 0, 0, 0, 0x16]))
      || (msg[0] == 131 && |msg| == 24 && at.destination == V6(msg[8..24]))
      || (msg[0] == 132 && |msg| == 24 && at.destination == V6([0xff, 2, 0, 0, 0, 0, 0, 0, 0, 0, 0, 0, 0, 0, 0, 2]))
  }

  /** Whatever bytes arrive, a report that parses comes from a sealed and rightly addressed packet and has only
      multicast groups of the packet's own family and valid sources of that family, within the limits. */
  lemma ParsedReportsAreSound(packet: seq<Byte>, limits: ParseLimits)
    requires Parse(packet, limits).Ok?
    ensures var report := Parse(packet, limits).value;
            && Sealed(packet) && Addressed(packet) && (report.protocol.Igmpv3? <==> packet[0] / 16 == 4)
            && (forall i :: 0 <= i < |report.records| ==> SoundRecord(report.protocol, report.records[i], limits))
            && (|report.records| <= limits.maxRecords || IsLegacy(report.records))
  {
    hide LocateIpv4, LocateIpv6, ValidateAll, GoodSources, IpAddr.IsMulticast, ParseFrom, Sealed, Span;
    LocatedExactly(packet);
    var report := Parse(packet, limits).value;
    var p, rs := report.protocol, report.records;
    var at := if p.Igmpv3? then LocateIpv4(packet).value else LocateIpv6(packet).value;
    var msg := packet[at.start..at.end];
    if msg[0] == MessageType(p) {
      ParsedShape(msg, WidthOf(p), 8, ReadBe16(msg, 6), limits);
    }
    forall i | 0 <= i < |rs| ensures SoundRecord(p, rs[i], limits) {
      ValidatedRecords(rs, i);
    }
  }

  /** A sealed and rightly addressed message of an older version parses exactly if its group is a multicast one: a
      report to a record that asks for everything, a leave to one that asks for nothing, of that group alone. */
  lemma LegacyMeaning(packet: seq<Byte>, limits: ParseLimits)
    requires Sealed(packet) && Addressed(packet) && packet[Span(packet).start] !in {0x22, 143}
    ensures var at, v4 := Span(packet), packet[0] / 16 == 4;
            var msg := packet[at.start..at.end];
            var group := if v4 then V4(msg[4..8]) else V6(msg[8..24]);
            var kind := if msg[0] == 0x16 || msg[0] == 131 then LegacyReport else LegacyLeave;
            && (Parse(packet, limits).Ok? <==> group.IsMulticast())
            && (group.IsMulticast() ==>
                  Parse(packet, limits) ==
                  Ok(MembershipReport(if v4 then Igmpv3 else Mldv2, [MembershipRecord(kind, group, [])])))
  {
    hide LocateIpv4, LocateIpv6, IpAddr.IsMulticast, ParseRecords, Sealed, Span, ValidateAll;
    SealedVersion(packet);
    LocatedExactly(packet);
    var at, p := Span(packet), if packet[0] / 16 == 4 then Igmpv3 else Mldv2;
    var msg := packet[at.start..at.end];
    assert msg[0] == packet[at.start];
    assert Parse(packet, limits) == Finish(p, ParseLegacy(p, msg, at.destination));
    var group := AddrAt(msg, WidthOf(p), LegacyLen(p) - WidthOf(p));
    LegacyValidates(if msg[0] == LegacyReportType(p) then LegacyReport else LegacyLeave, group);
  }

  lemma LegacyValidates(kind: RecordKind, group: IpAddr)
    ensures ValidateAll([MembershipRecord(kind, group, [])]).None? <==> group.IsMulticast()
  {
    assert [MembershipRecord(kind, group, [])][1..] == [];
  }

  lemma SealedVersion(packet: seq<Byte>)
    requires Sealed(packet)
    ensures packet != [] && packet[0] / 16 in {4, 6} && Span(packet).start + 8 <= Span(packet).end <= |packet|
  {
  }

  // ---- what the builder takes and writes ----

  /** The bytes the records take. */
  function RecordsSize(p: Protocol, rs: seq<MembershipRecord>): nat {
    if rs == [] then 0
    else (if p.Igmpv3? then 8 + 4 * |rs[0].sources| else 20 + 16 * |rs[0].sources|) + RecordsSize(p, rs[1..])
  }

  lemma {:induction false} EncodedRecordsSize(p: Protocol, rs: seq<MembershipRecord>)
    requires AllEncodable(p, rs)
    ensures |EncodeRecords(p, rs)| == RecordsSize(p, rs)
  {
    hide Encodable, EncodeRecord;
    if rs != [] {
      assert Encodable(p, rs[0]);
      EncodedRecordSize(p, rs[0]);
      EncodedRecordsSize(p, rs[1..]);
    }
  }

  lemma EncodedRecordSize(p: Protocol, r: MembershipRecord)
    requires Encodable(p, r)
    ensures |EncodeRecord(p, r)| == if p.Igmpv3? then 8 + 4 * |r.sources| else 20 + 16 * |r.sources|
  {
    hide EncodeSources;
    SourcesLength(p, r.group, r.sources);
  }

  /** A record a report can carry: of the current versions, for a group of the protocol's family that may leave the
      local link, with sources of that family that can be sources. */
  predicate Sendable(p: Protocol, r: MembershipRecord) {
    && !r.kind.LegacyReport? && !r.kind.LegacyLeave?
    && r.group.V4? == p.Igmpv3? && r.group.IsForwardableGroup() && |r.sources| <= 0xffff
    && forall i :: 0 <= i < |r.sources| ==>
                     && r.sources[i].V4? == p.Igmpv3? && !r.sources[i].IsUnspecified()
                     && !r.sources[i].IsMulticast() && !r.sources[i].IsBroadcast()
  }

  lemma SendableExactly(p: Protocol, r: MembershipRecord)
    ensures Encodable(p, r) <==> Sendable(p, r)
  {
    hide IpAddr.IsForwardableGroup, IpAddr.IsUnspecified, IpAddr.IsMulticast, IpAddr.IsBroadcast;
    if FamilyOf(p, r.group) {
      forall i | 0 <= i < |r.sources|
        ensures GoodSource(r.group, r.sources[i]) <==>
                  && r.sources[i].V4? == p.Igmpv3? && !r.sources[i].IsUnspecified()
                  && !r.sources[i].IsMulticast() && !r.sources[i].IsBroadcast()
      {
      }
    }
  }

  /** A report is built exactly if it has records, no more than the count field holds, all of them can be sent, and
      the packet is no longer than its length field can say. */
  lemma BuildsExactly(p: Protocol, rs: seq<MembershipRecord>)
    ensures Build(p, rs).Ok? <==>
              && 1 <= |rs| <= 0xffff && (forall i :: 0 <= i < |rs| ==> Sendable(p, rs[i]))
              && (if p.Igmpv3? then 32 + RecordsSize(p, rs) <= 0xffff else 16 + RecordsSize(p, rs) <= 0xffff)
  {
    hide EncodeRecords, Encodable, Sendable, SealedHeader, SealedMessage, FirstRecordError, RecordsSize;
    NoErrorMeansEncodable(p, rs);
    forall i | 0 <= i < |rs| ensures Encodable(p, rs[i]) <==> Sendable(p, rs[i]) {
      SendableExactly(p, rs[i]);
    }
    if AllEncodable(p, rs) {
      EncodedRecordsSize(p, rs);
    }
  }

  /** The bytes of a built packet outside checksums and records: header fields, option, message type and count. */
  lemma BuiltShape(p: Protocol, rs: seq<MembershipRecord>)
    requires Build(p, rs).Ok?
    ensures var packet := Build(p, rs).value;
            if p.Igmpv3? then
              && |packet| >= 32 && ReadBe16(packet, 2) == |packet|
              && packet[..2] == [0x46, 0xc0] && packet[4..10] == [0, 0, 0, 0, 1, 2]
              && packet[12..24] == [0, 0, 0, 0, 224, 0, 0, 22, 0x94, 4, 0, 0]
              && packet[24] == 0x22 && ReadBe16(packet, 30) == |rs|
            else
              && |packet| >= 56 && ReadBe16(packet, 4) as int == |packet| - 40
              && packet[..4] == [0x60, 0, 0, 0] && packet[6..8] == [0, 1] && packet[8..24] == Zeros(16)
              && packet[24..40] == [0xff, 2, 0, 0, 0, 0, 0, 0, 0, 0, 0, 0, 0, 0, 0, 0x16]
              && packet[40..48] == [58, 0, 5, 2, 0, 0, 1, 0] && packet[48] == 143 && ReadBe16(packet, 54) == |rs|
  {
    hide EncodeRecords, FirstRecordError, SealedHeader, SealedMessage, Message;
    NoErrorMeansEncodable(p, rs);
    var len := |Message(p, rs)|;
    var h, m := SealedHeader(p, len), SealedMessage(p, rs);
    MessageShape(p, rs);
    assert forall i :: 0 <= i < |m| ==> (h + m)[|h| + i] == m[i];
    if p.Igmpv3? {
      Igmpv3Shape(len, m);
    } else {
      Mldv2Shape(len, m);
    }
  }

  lemma MessageShape(p: Protocol, rs: seq<MembershipRecord>)
    requires AllEncodable(p, rs) && |rs| <= 0xffff && |Message(p, rs)| <= 0xffff
    ensures var m := SealedMessage(p, rs);
            |m| == |Message(p, rs)| >= 8 && m[0] == (if p.Igmpv3? then 0x22 else 143) && ReadBe16(m, 6) == |rs|
  {
    hide EncodeRecords, Checksum.ChecksumOf, Pseudo;
  }

  lemma Igmpv3Shape(len: nat, m: seq<Byte>)
    requires 24 + len <= 0xffff && |m| == len
    ensures var packet := SealedHeader(Igmpv3, len) + m;
            && |packet| == 24 + len && ReadBe16(packet, 2) == 24 + len
            && packet[..2] == [0x46, 0xc0] && packet[4..10] == [0, 0, 0, 0, 1, 2]
            && packet[12..24] == [0, 0, 0, 0, 224, 0, 0, 22, 0x94, 4, 0, 0]
  {
    hide Checksum.ChecksumOf;
    var plain, h := Header(Igmpv3, len), SealedHeader(Igmpv3, len);
    var packet := h + m;
    HeaderBytes(len);
    assert h[..10] == plain[..10] && h[12..24] == plain[12..24];
    assert packet[..10] == h[..10] && packet[12..24] == h[12..24];
    assert packet[..2] == packet[..10][..2] && packet[4..10] == packet[..10][4..10];
    assert plain[..2] == plain[..10][..2] && plain[4..10] == plain[..10][4..10];
    assert packet[2] == plain[2] && packet[3] == plain[3];
  }

  lemma HeaderBytes(len: nat)
    requires 24 + len <= 0xffff
    ensures var plain := Header(Igmpv3, len);
            && ReadBe16(plain, 2) == 24 + len && plain[..2] == [0x46, 0xc0] && plain[4..10] == [0, 0, 0, 0, 1, 2]
            && plain[12..24] == [0, 0, 0, 0, 224, 0, 0, 22, 0x94, 4, 0, 0]
  {
  }

  lemma Mldv2Shape(len: nat, m: seq<Byte>)
    requires 8 + len <= 0xffff && |m| == len
    ensures var packet := SealedHeader(Mldv2, len) + m;
            && |packet| == 48 + len && ReadBe16(packet, 4) == 8 + len
            && packet[..4] == [0x60, 0, 0, 0] && packet[6..8] == [0, 1] && packet[8..24] == Zeros(16)
            && packet[24..40] == [0xff, 2, 0, 0, 0, 0, 0, 0, 0, 0, 0, 0, 0, 0, 0, 0x16]
            && packet[40..48] == [58, 0, 5, 2, 0, 0, 1, 0]
  {
    var h := SealedHeader(Mldv2, len);
    var packet := h + m;
    BuiltIpv6Header(len);
    assert h[..4] == [0x60, 0, 0, 0] && h[6..8] == [0, 1];
    assert h[40..48] == [58, 0, 5, 2, 0, 0, 1, 0];
    assert packet[..4] == h[..4] && packet[6..8] == h[6..8] && packet[8..24] == h[8..24];
    assert packet[24..40] == h[24..40] && packet[40..48] == h[40..48] && packet[4] == h[4] && packet[5] == h[5];
  }

  // ---- a legacy message ----

  /** An IGMPv2 report for a group, sent to the group. */
  function LegacyPlainHeader(group: Octets4): seq<Byte> {
    [0x46, 0, 0, 32, 0, 0, 0, 0, 1, 2, 0, 0, 0, 0, 0, 0] + group + [0x94, 4, 0, 0]
  }

  function LegacyPacket(group: Octets4): seq<Byte> {
    SealAt(LegacyPlainHeader(group), 10) + SealAt([0x16, 0, 0, 0] + group, 2)
  }

  function SealAt(s: seq<Byte>, at: nat): seq<Byte>
    requires at + 2 <= |s|
  {
    Put(s, at, Be16(Checksum.ChecksumOf(s)))
  }

  lemma LegacyHeaderFor(group: Octets4)
    ensures Ipv4HeaderFor(SealAt(LegacyPlainHeader(group), 10), group, 8)
  {
    hide Checksum.ChecksumOf, Checksum.OnesSum, Put;
    var plain, h := LegacyPlainHeader(group), SealAt(LegacyPlainHeader(group), 10);
    Checksum.HeaderChecksumVerifies(plain, 10);
    assert ReadBe16(plain, 2) == 32;
    assert plain[12..16] == Zeros(4) && plain[16..20] == group && plain[20..24] == [0x94, 4, 0, 0];
    assert h[12..16] == plain[12..16] && h[16..20] == plain[16..20] && h[20..24] == plain[20..24];
  }

  lemma LegacyMessageFor(group: Octets4)
    ensures var m := SealAt([0x16, 0, 0, 0] + group, 2);
            |m| == 8 && m[0] == 0x16 && m[4..8] == group && Checksum.OnesSum(m) == 0xffff
  {
    hide Checksum.ChecksumOf, Checksum.OnesSum, Put;
    var plain, m := [0x16, 0, 0, 0] + group, SealAt([0x16, 0, 0, 0] + group, 2);
    Checksum.HeaderChecksumVerifies(plain, 2);
    assert m[4..8] == plain[4..8] == group;
  }

  /** It parses whatever the limits, since the limit on records is only asked for record lists. */
  lemma LegacyReportParses(group: Octets4, limits: ParseLimits)
    requires V4(group).IsMulticast()
    ensures Parse(LegacyPacket(group), limits) ==
            Ok(MembershipReport(Igmpv3, [MembershipRecord(LegacyReport, V4(group), [])]))
  {
    hide Checksum.OnesSum, LocateIpv4, SealAt;
    var h, m := SealAt(LegacyPlainHeader(group), 10), SealAt([0x16, 0, 0, 0] + group, 2);
    LegacyHeaderFor(group);
    LegacyMessageFor(group);
    Ipv4Located(h, group, m, []);
    assert h + m + [] == LegacyPacket(group);
    assert ParseLegacy(Igmpv3, m, V4(group)) == Ok([MembershipRecord(LegacyReport, V4(group), [])]);
    assert ValidateAll([MembershipRecord(LegacyReport, V4(group), [])]) == None;
  }
}
