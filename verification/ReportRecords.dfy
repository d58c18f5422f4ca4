/** Group records of IGMPv3 and MLDv2 reports: the two protocols share one layout and differ in the
    width of an address (section 4.2 of RFC 3376, section 5.2 of RFC 3810). */
module ReportRecords {
  import opened Bytes
  import opened Interest

  // ---- addresses and kinds on the wire ----

  type Width = w: int | w == 4 || w == 16 witness 4

  function WidthOf(p: Protocol): Width { if p.Igmpv3? then 4 else 16 }
  predicate FamilyOf(p: Protocol, a: IpAddr) { p.Igmpv3? == a.V4? }

  /** `n` addresses of width `w`, in bytes. */
  function Scale(w: Width, n: nat): nat { if w == 4 then 4 * n else 16 * n }

  function AddrAt(msg: seq<Byte>, w: Width, offset: nat): IpAddr
    requires offset + w <= |msg|
  {
    if w == 4 then V4(msg[offset..offset + 4]) else V6(msg[offset..offset + 16])
  }

  function EncodeKind(k: RecordKind): Option<Byte> {
    match k
    case ModeIsInclude => Some(1)
    case ModeIsExclude => Some(2)
    case ChangeToInclude => Some(3)
    case ChangeToExclude => Some(4)
    case AllowNewSources => Some(5)
    case BlockOldSources => Some(6)
    case LegacyReport | LegacyLeave => None
  }

  function DecodeKind(b: Byte): Option<RecordKind> {
    match b
    case 1 => Some(ModeIsInclude)
    case 2 => Some(ModeIsExclude)
    case 3 => Some(ChangeToInclude)
    case 4 => Some(ChangeToExclude)
    case 5 => Some(AllowNewSources)
    case 6 => Some(BlockOldSources)
    case _ => None
  }

  // ---- validation ----

  datatype BuildError =
    | EmptyReport
    | TooManyRecords(count: nat)
    | TooManySources(count: nat)
    | PacketTooLong(len: nat)
    | UnsupportedRecordKind(kind: RecordKind)
    | InvalidMulticastGroup(group: IpAddr)
    | MixedAddressFamilies
    | ProtocolAddressFamilyMismatch(protocol: Protocol, group: IpAddr)

  predicate GoodSource(group: IpAddr, source: IpAddr) {
    group.SameFamily(source) && source.IsValidSource()
  }

  predicate GoodSources(group: IpAddr, sources: seq<IpAddr>) {
    forall i :: 0 <= i < |sources| ==> GoodSource(group, sources[i])
  }

  /** What the builder demands of one record. */
  function RecordError(p: Protocol, r: MembershipRecord): Option<BuildError> {
    if EncodeKind(r.kind).None? then Some(UnsupportedRecordKind(r.kind))
    else if !r.group.IsForwardableGroup() then Some(InvalidMulticastGroup(r.group))
    else if !FamilyOf(p, r.group) then Some(ProtocolAddressFamilyMismatch(p, r.group))
    else if |r.sources| > 0xffff then Some(TooManySources(|r.sources|))
    else if !GoodSources(r.group, r.sources) then Some(MixedAddressFamilies)
    else None
  }

  function FirstRecordError(p: Protocol, rs: seq<MembershipRecord>): Option<BuildError> {
    if rs == [] then None
    else if RecordError(p, rs[0]).Some? then RecordError(p, rs[0])
    else FirstRecordError(p, rs[1..])
  }

  predicate Encodable(p: Protocol, r: MembershipRecord) { RecordError(p, r).None? }

  ghost predicate AllEncodable(p: Protocol, rs: seq<MembershipRecord>) {
    forall i :: 0 <= i < |rs| ==> Encodable(p, rs[i])
  }

  lemma {:induction false} NoErrorMeansEncodable(p: Protocol, rs: seq<MembershipRecord>)
    ensures FirstRecordError(p, rs).None? <==> AllEncodable(p, rs)
  {
    if rs != [] {
      NoErrorMeansEncodable(p, rs[1..]);
      assert rs == [rs[0]] + rs[1..];
      assert AllEncodable(p, rs) ==> AllEncodable(p, rs[1..]) by {
        if AllEncodable(p, rs) {
          forall i | 0 <= i < |rs[1..]| ensures Encodable(p, rs[1..][i]) { assert rs[1..][i] == rs[i + 1]; }
        }
      }
      if AllEncodable(p, rs[1..]) && Encodable(p, rs[0]) {
        forall i | 0 <= i < |rs| ensures Encodable(p, rs[i]) { assert i > 0 ==> rs[i] == rs[1..][i - 1]; }
      }
    }
  }

  // ---- encoding ----

  function EncodeSources(sources: seq<IpAddr>): seq<Byte> {
    if sources == [] then [] else sources[0].Octets() + EncodeSources(sources[1..])
  }

  function EncodeRecord(p: Protocol, r: MembershipRecord): seq<Byte>
    requires Encodable(p, r)
  {
    [EncodeKind(r.kind).value, 0] + Be16(|r.sources|) + r.group.Octets() + EncodeSources(r.sources)
  }

  function EncodeRecords(p: Protocol, rs: seq<MembershipRecord>): seq<Byte>
    requires AllEncodable(p, rs)
  {
    if rs == [] then [] else EncodeRecord(p, rs[0]) + EncodeRecords(p, rs[1..])
  }

  lemma {:induction false} SourcesLength(p: Protocol, group: IpAddr, sources: seq<IpAddr>)
    requires FamilyOf(p, group) && GoodSources(group, sources)
    ensures |EncodeSources(sources)| == Scale(WidthOf(p), |sources|)
  {
    if sources != [] {
      assert GoodSource(group, sources[0]);
      SourcesLength(p, group, sources[1..]);
    }
  }

  // ---- decoding ----

  datatype ParseLimits = ParseLimits(maxRecords: nat, maxSourcesPerRecord: nat)

  /** Why a packet is refused; the source's texts naming the field at fault are left out. */
  datatype ParseError =
    | Truncated(expectedAtLeast: nat, actual: nat)
    | InvalidIpVersion(version: nat)
    | InvalidIpv4HeaderLength(headerLength: nat)
    | InvalidTotalLength(totalLength: nat, available: nat)
    | InvalidMessageLength(expectedLength: nat, actual: nat)
    | InvalidProtocol(expected: Byte, found: Byte)
    | InvalidChecksum
    | InvalidHopLimit(hopLimit: Byte)
    | FragmentedPacket
    | MissingIpv4RouterAlert
    | MissingIpv6RouterAlert
    | InvalidDestination(destination: IpAddr)
    | InvalidSourceAddress(source: IpAddr)
    | ResourceLimit(requested: nat, limit: nat)
    | UnsupportedMembershipMessage(message: Byte)
    | UnknownRecordType(recordType: Byte)
    | BadMulticastGroup(group: IpAddr)
    | MixedFamilies

  function ReadSources(msg: seq<Byte>, w: Width, offset: nat, n: nat): (r: seq<IpAddr>)
    requires offset + Scale(w, n) <= |msg|
    ensures |r| == n
    decreases n
  {
    if n == 0 then [] else [AddrAt(msg, w, offset)] + ReadSources(msg, w, offset + w, n - 1)
  }

  /** What the parser demands of one record. */
  function ValidateRecord(group: IpAddr, sources: seq<IpAddr>): Option<ParseError> {
    if !group.IsMulticast() then Some(BadMulticastGroup(group))
    else if GoodSources(group, sources) then None
    else Some(SourceError(sources))
  }

  function SourceError(sources: seq<IpAddr>): ParseError {
    if sources == [] then MixedFamilies
    else if !sources[0].IsValidSource() then InvalidSourceAddress(sources[0])
    else SourceError(sources[1..])
  }

  /** The record at `offset` and the offset after it. */
  function ParseRecord(msg: seq<Byte>, w: Width, offset: nat, limits: ParseLimits): (r: Result<(MembershipRecord,
                       nat), ParseError>)
    requires offset <= |msg|
    ensures r.Ok? ==> offset + 4 + w <= r.value.1 <= |msg| && |r.value.0.sources| <= limits.maxSourcesPerRecord
  {
    if |msg| - offset < 4 + w then Err(Truncated(4 + w, |msg| - offset))
    else if DecodeKind(msg[offset]).None? then Err(UnknownRecordType(msg[offset]))
    else
      var count := ReadBe16(msg, offset + 2);
      var len := 4 + w + Scale(w, count) + 4 * msg[offset + 1] as int;
      if count > limits.maxSourcesPerRecord then Err(ResourceLimit(count, limits.maxSourcesPerRecord))
      else if |msg| - offset < len then Err(Truncated(len, |msg| - offset))
      else
        var group := AddrAt(msg, w, offset + 4);
        var sources := ReadSources(msg, w, offset + 4 + w, count);
        var error := ValidateRecord(group, sources);
        if error.Some? then Err(error.value)
        else Ok((MembershipRecord(DecodeKind(msg[offset]).value, group, sources), offset + len))
  }

  /** `count` records from `offset`, which must end exactly with the message. */
  function ParseFrom(msg: seq<Byte>, w: Width, offset: nat, count: nat,
                     limits: ParseLimits): Result<seq<MembershipRecord>, ParseError>
    requires offset <= |msg|
    decreases count
  {
    if count == 0 then
      if |msg| == offset then Ok([]) else Err(InvalidMessageLength(offset, |msg|))
    else
      match ParseRecord(msg, w, offset, limits)
      case Err(e) => Err(e)
      case Ok((r, next)) =>
        match ParseFrom(msg, w, next, count - 1, limits)
        case Err(e) => Err(e)
        case Ok(rest) => Ok([r] + rest)
  }

  /** The records of a report message, checksum and type already checked. */
  function ParseRecords(msg: seq<Byte>, w: Width, limits: ParseLimits): Result<seq<MembershipRecord>, ParseError>
    requires |msg| >= 8
  {
    var count := ReadBe16(msg, 6);
    if count > limits.maxRecords then Err(ResourceLimit(count, limits.maxRecords))
    else if count > (|msg| - 8) / (4 + w) then Err(Truncated(8 + count * (4 + w), |msg|))
    else ParseFrom(msg, w, 8, count, limits)
  }

  // ---- the loop of the source ----

  function Prepend(done: seq<MembershipRecord>, r: Result<seq<MembershipRecord>, ParseError>)
    : Result<seq<MembershipRecord>, ParseError>
  {
    if r.Ok? then Ok(done + r.value) else r
  }

  /** The first `i` of `count` sources have been read. */
  ghost predicate PartlyRead(sources: seq<IpAddr>, msg: seq<Byte>, w: Width, offset: nat, count: nat, i: nat) {
    && i <= count && offset + Scale(w, i) + Scale(w, count - i) == offset + Scale(w, count) <= |msg|
    && sources + ReadSources(msg, w, offset + Scale(w, i), count - i) == ReadSources(msg, w, offset, count)
  }

  lemma PartlyReadStep(sources: seq<IpAddr>, msg: seq<Byte>, w: Width, offset: nat, count: nat, i: nat)
    requires PartlyRead(sources, msg, w, offset, count, i) && i < count
    ensures offset + Scale(w, i) + w <= |msg|
    ensures PartlyRead(sources + [AddrAt(msg, w, offset + Scale(w, i))], msg, w, offset, count, i + 1)
  {
    hide ReadSources, AddrAt, Scale;
    ScaleStep(w, i);
    ScaleStep(w, count - i - 1);
    NextSource(msg, w, offset + Scale(w, i), count - i);
    var source := AddrAt(msg, w, offset + Scale(w, i));
    var rest := ReadSources(msg, w, offset + Scale(w, i) + w, count - i - 1);
    assert sources + ([source] + rest) == sources + [source] + rest;
  }

  lemma PartlyReadEnds(sources: seq<IpAddr>, msg: seq<Byte>, w: Width, offset: nat, count: nat)
    requires offset + Scale(w, count) <= |msg|
    ensures PartlyRead([], msg, w, offset, count, 0)
    ensures PartlyRead(sources, msg, w, offset, count, count) <==> sources == ReadSources(msg, w, offset, count)
  {
    assert sources + [] == sources;
  }

  method ParseSourceList(msg: seq<Byte>, w: Width, offset: nat, count: nat) returns (sources: seq<IpAddr>)
    requires offset + Scale(w, count) <= |msg|
    ensures sources == ReadSources(msg, w, offset, count)
  {
    hide PartlyRead, ReadSources, AddrAt, Scale;
    sources := [];
    var i := 0;
    PartlyReadEnds(sources, msg, w, offset, count);
    while i < count
      invariant 0 <= i <= count && PartlyRead(sources, msg, w, offset, count, i)
    {
      PartlyReadStep(sources, msg, w, offset, count, i);
      sources := sources + [AddrAt(msg, w, offset + Scale(w, i))];
      i := i + 1;
    }
    PartlyReadEnds(sources, msg, w, offset, count);
  }

  lemma ScaleStep(w: Width, n: nat)
    ensures Scale(w, n + 1) == Scale(w, n) + w && Scale(w, 0) == 0
  {
  }

  lemma NextSource(msg: seq<Byte>, w: Width, offset: nat, n: nat)
    requires n > 0 && offset + Scale(w, n) <= |msg|
    ensures offset + w + Scale(w, n - 1) <= |msg|
    ensures ReadSources(msg, w, offset, n) == [AddrAt(msg, w, offset)] + ReadSources(msg, w, offset + w, n - 1)
  {
  }

  /** One pass of the record loop: header, limit, length, sources, validation. */
  method ReadRecord(msg: seq<Byte>, w: Width, offset: nat, limits: ParseLimits)
    returns (r: Result<(MembershipRecord, nat), ParseError>)
    requires offset <= |msg|
    ensures r == ParseRecord(msg, w, offset, limits)
  {
    hide ValidateRecord, ReadSources, AddrAt;
    if |msg| - offset < 4 + w {
      return Err(Truncated(4 + w, |msg| - offset));
    }
    var kind := DecodeKind(msg[offset]);
    if kind.None? {
      return Err(UnknownRecordType(msg[offset]));
    }
    var count := ReadBe16(msg, offset + 2);
    if count > limits.maxSourcesPerRecord {
      return Err(ResourceLimit(count, limits.maxSourcesPerRecord));
    }
    var group := AddrAt(msg, w, offset + 4);
    var len := 4 + w + Scale(w, count) + 4 * msg[offset + 1] as int;
    if |msg| - offset < len {
      return Err(Truncated(len, |msg| - offset));
    }
    var sources := ParseSourceList(msg, w, offset + 4 + w, count);
    var error := ValidateRecord(group, sources);
    if error.Some? {
      return Err(error.value);
    }
    r := Ok((MembershipRecord(kind.value, group, sources), offset + len));
  }

  method ParseRecordLoop(msg: seq<Byte>, w: Width, limits: ParseLimits) returns (r: Result<seq<MembershipRecord>,
                        ParseError>)
    requires |msg| >= 8
    ensures r == ParseRecords(msg, w, limits)
  {
    hide ParseRecord;
    var count := ReadBe16(msg, 6);
    if count > limits.maxRecords {
      return Err(ResourceLimit(count, limits.maxRecords));
    }
    if count > (|msg| - 8) / (4 + w) {
      return Err(Truncated(8 + count * (4 + w), |msg|));
    }
    var records: seq<MembershipRecord> := [];
    var offset := 8;
    var i := 0;
    PrependNothing(ParseFrom(msg, w, 8, count, limits));
    while i < count
      invariant 0 <= i <= count && 8 <= offset <= |msg|
      invariant ParseFrom(msg, w, 8, count, limits) == Prepend(records, ParseFrom(msg, w, offset, count - i, limits))
    {
      var one := ReadRecord(msg, w, offset, limits);
      if one.Err? {
        return Err(one.error);
      }
      PrependAssoc(records, one.value.0, ParseFrom(msg, w, one.value.1, count - i - 1, limits));
      records := records + [one.value.0];
      offset := one.value.1;
      i := i + 1;
    }
    if |msg| != offset {
      return Err(InvalidMessageLength(offset, |msg|));
    }
    assert records + [] == records;
    r := Ok(records);
  }

  lemma PrependAssoc(done: seq<MembershipRecord>, r: MembershipRecord, rest: Result<seq<MembershipRecord>, ParseError>)
    ensures Prepend(done, Prepend([r], rest)) == Prepend(done + [r], rest)
  {
    if rest.Ok? {
      assert done + ([r] + rest.value) == done + [r] + rest.value;
    }
  }

  lemma PrependNothing(r: Result<seq<MembershipRecord>, ParseError>)
    ensures Prepend([], r) == r
  {
    if r.Ok? {
      assert [] + r.value == r.value;
    }
  }

  // ---- round trip ----

  lemma AddrHeld(p: Protocol, a: IpAddr, msg: seq<Byte>, at: nat)
    requires FamilyOf(p, a) && Holds(msg, at, a.Octets())
    ensures at + WidthOf(p) <= |msg| && AddrAt(msg, WidthOf(p), at) == a
  {
  }

  lemma {:induction false} SourcesRoundTrip(p: Protocol, group: IpAddr, sources: seq<IpAddr>, msg: seq<Byte>, at: nat)
    requires FamilyOf(p, group) && GoodSources(group, sources)
    requires Holds(msg, at, EncodeSources(sources))
    ensures |EncodeSources(sources)| == Scale(WidthOf(p), |sources|)
    ensures ReadSources(msg, WidthOf(p), at, |sources|) == sources
    decreases |sources|
  {
    hide Holds, AddrAt, GoodSource, IpAddr.Octets, FamilyOf;
    SourcesLength(p, group, sources);
    if sources != [] {
      var front, rest := sources[0].Octets(), EncodeSources(sources[1..]);
      SourceFamily(p, group, sources[0]);
      HoldsParts(msg, at, front, rest);
      AddrHeld(p, sources[0], msg, at);
      SourcesRoundTrip(p, group, sources[1..], msg, at + WidthOf(p));
      SourcesLength(p, group, sources[1..]);
      assert sources == [sources[0]] + sources[1..];
    }
  }

  lemma SourceFamily(p: Protocol, group: IpAddr, source: IpAddr)
    requires FamilyOf(p, group) && GoodSource(group, source)
    ensures FamilyOf(p, source) && |source.Octets()| == WidthOf(p)
  {
  }

  /** What the parser takes: more than what the builder writes, since groups of the local link are read too. */
  predicate Readable(p: Protocol, r: MembershipRecord) {
    && EncodeKind(r.kind).Some? && FamilyOf(p, r.group) && r.group.IsMulticast()
    && |r.sources| <= 0xffff && GoodSources(r.group, r.sources)
  }

  /** A record as a sender may write it, auxiliary data behind the sources. */
  function RecordWithAux(p: Protocol, r: MembershipRecord, aux: seq<Byte>): seq<Byte>
    requires Readable(p, r) && |aux| % 4 == 0 && |aux| <= 4 * 0xff
  {
    [EncodeKind(r.kind).value, |aux| / 4] + Be16(|r.sources|) + r.group.Octets() + EncodeSources(r.sources) + aux
  }

  /** A record with any auxiliary data, wherever it stands in a message, is read back whole without the data, and
      reading goes on behind the data, unless it has more sources than the limit allows. */
  lemma AuxIsSkipped(p: Protocol, r: MembershipRecord, aux: seq<Byte>, msg: seq<Byte>, at: nat, limits: ParseLimits)
    requires Readable(p, r) && |aux| % 4 == 0 && |aux| <= 4 * 0xff
    requires Holds(msg, at, RecordWithAux(p, r, aux))
    ensures ParseRecord(msg, WidthOf(p), at, limits) ==
            if |r.sources| <= limits.maxSourcesPerRecord
            then Ok((r, at + |RecordWithAux(p, r, aux)|))
            else Err(ResourceLimit(|r.sources|, limits.maxSourcesPerRecord))
  {
    hide Holds, DecodeKind, ReadSources, EncodeSources, AddrAt, ReadBe16, Be16;
    var head := [EncodeKind(r.kind).value, |aux| / 4] + Be16(|r.sources|) + r.group.Octets();
    HoldsParts(msg, at, head + EncodeSources(r.sources), aux);
    HoldsParts(msg, at, head, EncodeSources(r.sources));
    HoldsLength(msg, at, RecordWithAux(p, r, aux));
    SourcesRoundTrip(p, r.group, r.sources, msg, at + |head|);
    HeadFields(p, r, |aux| / 4, msg, at);
  }

  lemma HoldsLength(msg: seq<Byte>, at: nat, part: seq<Byte>)
    requires Holds(msg, at, part)
    ensures at + |part| <= |msg|
  {
  }

  /** A valid record, wherever it stands in a message, is read back whole, unless it has more
      sources than the limit allows. */
  lemma RecordRoundTrip(p: Protocol, r: MembershipRecord, msg: seq<Byte>, at: nat, limits: ParseLimits)
    requires Encodable(p, r)
    requires Holds(msg, at, EncodeRecord(p, r))
    ensures ParseRecord(msg, WidthOf(p), at, limits) ==
            if |r.sources| <= limits.maxSourcesPerRecord
            then Ok((r, at + |EncodeRecord(p, r)|))
            else Err(ResourceLimit(|r.sources|, limits.maxSourcesPerRecord))
  {
    hide Holds, ParseRecord, EncodeSources;
    assert RecordWithAux(p, r, []) == EncodeRecord(p, r);
    AuxIsSkipped(p, r, [], msg, at, limits);
  }

  lemma HeadFields(p: Protocol, r: MembershipRecord, auxWords: Byte, msg: seq<Byte>, at: nat)
    requires Readable(p, r)
    requires Holds(msg, at, [EncodeKind(r.kind).value, auxWords] + Be16(|r.sources|) + r.group.Octets())
    ensures at + 4 + WidthOf(p) <= |msg|
    ensures DecodeKind(msg[at]) == Some(r.kind)
    ensures msg[at + 1] == auxWords && ReadBe16(msg, at + 2) == |r.sources|
    ensures AddrAt(msg, WidthOf(p), at + 4) == r.group
  {
  }

  function Outcome(rs: seq<MembershipRecord>, limit: nat): Result<seq<MembershipRecord>, ParseError> {
    match FirstOver(rs, limit)
    case None => Ok(rs)
    case Some(n) => Err(ResourceLimit(n, limit))
  }

  lemma {:induction false} RecordsRoundTrip(p: Protocol, rs: seq<MembershipRecord>, msg: seq<Byte>, at: nat,
                        limits: ParseLimits)
    requires AllEncodable(p, rs)
    requires Holds(msg, at, EncodeRecords(p, rs)) && |msg| == at + |EncodeRecords(p, rs)|
    ensures ParseFrom(msg, WidthOf(p), at, |rs|, limits) == Outcome(rs, limits.maxSourcesPerRecord)
    decreases |rs|
  {
    hide ParseRecord, Encodable, EncodeRecord, Holds;
    if rs != [] {
      assert Encodable(p, rs[0]);
      var first, rest := EncodeRecord(p, rs[0]), EncodeRecords(p, rs[1..]);
      HoldsParts(msg, at, first, rest);
      RecordRoundTrip(p, rs[0], msg, at, limits);
      RecordsRoundTrip(p, rs[1..], msg, at + |first|, limits);
      assert rs == [rs[0]] + rs[1..];
    }
  }

  lemma {:induction false} RecordsLength(p: Protocol, rs: seq<MembershipRecord>)
    requires AllEncodable(p, rs)
    ensures |EncodeRecords(p, rs)| >= if p.Igmpv3? then 8 * |rs| else 20 * |rs|
  {
    if rs != [] {
      assert Encodable(p, rs[0]);
      RecordsLength(p, rs[1..]);
    }
  }

  /** A report message: `head` is its first eight bytes, the record count in the last two. */
  lemma MessageRoundTrip(p: Protocol, rs: seq<MembershipRecord>, head: seq<Byte>, limits: ParseLimits)
    requires AllEncodable(p, rs) && |rs| <= 0xffff
    requires |head| == 8 && ReadBe16(head, 6) == |rs|
    ensures ParseRecords(head + EncodeRecords(p, rs), WidthOf(p), limits) ==
            if |rs| <= limits.maxRecords then Outcome(rs, limits.maxSourcesPerRecord)
            else Err(ResourceLimit(|rs|, limits.maxRecords))
  {
    hide ParseFrom, EncodeRecords, Encodable, Outcome;
    RecordsLength(p, rs);
    RecordsRoundTrip(p, rs, head + EncodeRecords(p, rs), 8, limits);
  }
}
