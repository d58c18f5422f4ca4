/** Building an IGMPv3 or MLDv2 report packet: validation, the record writer that fills a zeroed buffer
    through a running offset, and the two checksums. */
module ReportBuild {
  import opened Bytes
  import opened Interest
  import opened ReportRecords
  import Checksum

  // ---- what a packet is ----

  const IGMPV3_REPORT: Byte := 0x22
  const MLDV2_REPORT: Byte := 143
  const ICMPV6: Byte := 58
  const IGMP_DESTINATION: Octets4 := [224, 0, 0, 22]
  const MLD_DESTINATION: Octets16 := [0xff, 0x02, 0, 0, 0, 0, 0, 0, 0, 0, 0, 0, 0, 0, 0, 0x16]

  function MessageType(p: Protocol): Byte { if p.Igmpv3? then IGMPV3_REPORT else MLDV2_REPORT }

  /** The IP header in front of the report, its own checksum still zero. */
  function Header(p: Protocol, messageLen: nat): (h: seq<Byte>)
    requires HeaderLen(p) + messageLen <= 0xffff + (if p.Igmpv3? then 0 else 40)
    ensures |h| == HeaderLen(p)
  {
    if p.Igmpv3? then
      [0x46, 0xc0] + Be16(24 + messageLen) + Zeros(4) + [1, 2] + Zeros(2) + Zeros(4) + IGMP_DESTINATION + [0x94, 4, 0,
          0]
    else
      [0x60] + Zeros(3) + Be16(8 + messageLen) + [0, 1] + Zeros(16) + MLD_DESTINATION + [ICMPV6, 0, 5, 2, 0, 0, 1, 0]
  }

  function HeaderLen(p: Protocol): nat { if p.Igmpv3? then 24 else 48 }

  function Pseudo(p: Protocol, len: Word32): seq<Byte> {
    if p.Igmpv3? then [] else Checksum.Ipv6Pseudo(Zeros(16), MLD_DESTINATION, len, ICMPV6)
  }

  function MessageHead(p: Protocol, count: Word16): (h: seq<Byte>)
    ensures |h| == 8 && h[2] == 0 && h[3] == 0 && ReadBe16(h, 6) == count
  {
    [MessageType(p)] + Zeros(5) + Be16(count)
  }

  function Message(p: Protocol, rs: seq<MembershipRecord>): (m: seq<Byte>)
    requires AllEncodable(p, rs) && |rs| <= 0xffff
    ensures |m| >= 8 && m[2] == 0 && m[3] == 0
  {
    MessageHead(p, |rs|) + EncodeRecords(p, rs)
  }

  function SealedMessage(p: Protocol, rs: seq<MembershipRecord>): (m: seq<Byte>)
    requires AllEncodable(p, rs) && |rs| <= 0xffff && |Message(p, rs)| <= 0xffff
    ensures |m| == |Message(p, rs)|
  {
    var m := Message(p, rs);
    Put(m, 2, Be16(Checksum.ChecksumOf(Pseudo(p, |m|) + m)))
  }

  function SealedHeader(p: Protocol, messageLen: nat): (h: seq<Byte>)
    requires HeaderLen(p) + messageLen <= 0xffff + (if p.Igmpv3? then 0 else 40)
    ensures |h| == HeaderLen(p)
  {
    var h := Header(p, messageLen);
    if p.Igmpv3? then Put(h, 10, Be16(Checksum.ChecksumOf(h))) else h
  }

  function TooLong(p: Protocol, messageLen: nat): Option<BuildError> {
    var len := HeaderLen(p) + messageLen;
    if len > 0xffff + (if p.Igmpv3? then 0 else 40) then Some(PacketTooLong(len)) else None
  }

  /** The builder's result: the first thing wrong with the records, or the whole packet. */
  function Build(p: Protocol, rs: seq<MembershipRecord>): Result<seq<Byte>, BuildError> {
    NoErrorMeansEncodable(p, rs);
    if rs == [] then Err(EmptyReport)
    else if |rs| > 0xffff then Err(TooManyRecords(|rs|))
    else if FirstRecordError(p, rs).Some? then Err(FirstRecordError(p, rs).value)
    else if TooLong(p, |Message(p, rs)|).Some? then Err(TooLong(p, |Message(p, rs)|).value)
    else Ok(SealedHeader(p, |Message(p, rs)|) + SealedMessage(p, rs))
  }

  // ---- filling the buffer ----

  /** `done` is written and everything after it is still zero. */
  ghost predicate Filled(s: seq<Byte>, done: seq<Byte>) {
    |done| <= |s| && s[..|done|] == done && forall i :: |done| <= i < |s| ==> s[i] == 0
  }

  lemma FilledSkip(s: seq<Byte>, done: seq<Byte>, n: nat)
    requires Filled(s, done) && |done| + n <= |s|
    ensures Filled(s, done + Zeros(n))
  {
  }

  lemma FilledAll(s: seq<Byte>, done: seq<Byte>)
    requires Filled(s, done) && |done| == |s|
    ensures s == done
  {
  }

  method Append(a: array<Byte>, at: nat, part: seq<Byte>, ghost done: seq<Byte>)
    requires Filled(a[..], done) && at == |done| && at + |part| <= a.Length
    modifies a
    ensures Filled(a[..], done + part)
  {
    var i := 0;
    while i < |part|
      invariant 0 <= i <= |part|
      invariant a[..at] == done && a[at..at + i] == part[..i]
      invariant forall k :: at + i <= k < a.Length ==> a[k] == 0
    {
      a[at + i] := part[i];
      i := i + 1;
    }
    assert a[..at + |part|] == a[..at] + a[at..at + |part|];
  }

  method WriteSources(a: array<Byte>, start: nat, sources: seq<IpAddr>, ghost done: seq<Byte>) returns (offset: nat)
    requires Filled(a[..], done) && start == |done| && start + |EncodeSources(sources)| <= a.Length
    modifies a
    ensures Filled(a[..], done + EncodeSources(sources)) && offset == start + |EncodeSources(sources)|
  {
    hide Filled, IpAddr.Octets;
    offset := start;
    ghost var written := done;
    var i := 0;
    assert sources[0..] == sources;
    while i < |sources|
      invariant 0 <= i <= |sources| && offset == |written|
      invariant Filled(a[..], written)
      invariant written + EncodeSources(sources[i..]) == done + EncodeSources(sources)
    {
      assert sources[i..][1..] == sources[i + 1..];
      ghost var rest := EncodeSources(sources[i + 1..]);
      assert written + (sources[i].Octets() + rest) == written + sources[i].Octets() + rest;
      Append(a, offset, sources[i].Octets(), written);
      written := written + sources[i].Octets();
      offset := offset + |sources[i].Octets()|;
      i := i + 1;
    }
    assert written + [] == written;
  }

  method WriteRecord(a: array<Byte>, p: Protocol, start: nat, r: MembershipRecord, ghost done: seq<Byte>)
                     returns (offset: nat)
    requires Encodable(p, r)
    requires Filled(a[..], done) && start == |done| && start + |EncodeRecord(p, r)| <= a.Length
    modifies a
    ensures Filled(a[..], done + EncodeRecord(p, r)) && offset == start + |EncodeRecord(p, r)|
  {
    hide Filled, EncodeSources, Be16, GoodSources, IpAddr.IsForwardableGroup, EncodeKind;
    var kind := EncodeKind(r.kind).value;
    Append(a, start, [kind], done);
    FilledSkip(a[..], done + [kind], 1);
    ghost var first := done + [kind] + Zeros(1);
    Append(a, start + 2, Be16(|r.sources|), first);
    Append(a, start + 4, r.group.Octets(), first + Be16(|r.sources|));
    ghost var head := first + Be16(|r.sources|) + r.group.Octets();
    offset := WriteSources(a, start + 4 + WidthOf(p), r.sources, head);
    assert head + EncodeSources(r.sources) == done + EncodeRecord(p, r);
  }

  method WriteRecords(a: array<Byte>, p: Protocol, start: nat, rs: seq<MembershipRecord>, ghost done: seq<Byte>)
    requires AllEncodable(p, rs)
    requires Filled(a[..], done) && start == |done| && start + |EncodeRecords(p, rs)| <= a.Length
    modifies a
    ensures Filled(a[..], done + EncodeRecords(p, rs))
  {
    hide Filled, Encodable, EncodeRecord;
    var offset := start;
    ghost var written := done;
    var i := 0;
    assert rs[0..] == rs;
    while i < |rs|
      invariant 0 <= i <= |rs| && offset == |written|
      invariant Filled(a[..], written)
      invariant written + EncodeRecords(p, rs[i..]) == done + EncodeRecords(p, rs)
    {
      assert rs[i..][1..] == rs[i + 1..];
      assert Encodable(p, rs[i]);
      ghost var one, rest := EncodeRecord(p, rs[i]), EncodeRecords(p, rs[i + 1..]);
      assert written + (one + rest) == written + one + rest;
      offset := WriteRecord(a, p, offset, rs[i], written);
      written := written + one;
      i := i + 1;
    }
    assert written + [] == written;
  }

  // ---- the builder ----

  method ValidateRecords(p: Protocol, rs: seq<MembershipRecord>) returns (error: Option<BuildError>)
    ensures error == if rs == [] then Some(EmptyReport)
                     else if |rs| > 0xffff then Some(TooManyRecords(|rs|))
                     else FirstRecordError(p, rs)
  {
    hide RecordError;
    if rs == [] {
      return Some(EmptyReport);
    }
    if |rs| > 0xffff {
      return Some(TooManyRecords(|rs|));
    }
    var i := 0;
    assert rs[0..] == rs;
    while i < |rs|
      invariant 0 <= i <= |rs|
      invariant FirstRecordError(p, rs[i..]) == FirstRecordError(p, rs)
    {
      assert rs[i..][1..] == rs[i + 1..];
      if RecordError(p, rs[i]).Some? {
        return RecordError(p, rs[i]);
      }
      i := i + 1;
    }
    error := None;
  }

  method RecordsLen(p: Protocol, rs: seq<MembershipRecord>) returns (len: nat)
    requires AllEncodable(p, rs)
    ensures len == |EncodeRecords(p, rs)|
  {
    hide EncodeSources, Encodable;
    len := 0;
    var i := 0;
    assert rs[0..] == rs;
    while i < |rs|
      invariant 0 <= i <= |rs|
      invariant len + |EncodeRecords(p, rs[i..])| == |EncodeRecords(p, rs)|
    {
      assert Encodable(p, rs[i]);
      assert rs[i..][1..] == rs[i + 1..];
      RecordLength(p, rs[i]);
      len := len + 4 + WidthOf(p) + Scale(WidthOf(p), |rs[i].sources|);
      i := i + 1;
    }
  }

  lemma RecordLength(p: Protocol, r: MembershipRecord)
    requires Encodable(p, r)
    ensures |EncodeRecord(p, r)| == 4 + WidthOf(p) + Scale(WidthOf(p), |r.sources|)
  {
    SourcesLength(p, r.group, r.sources);
  }

  method WriteIpv4Header(a: array<Byte>, messageLen: nat)
    requires Filled(a[..], []) && a.Length == 24 + messageLen <= 0xffff
    modifies a
    ensures Filled(a[..], Header(Igmpv3, messageLen))
  {
    hide Filled, Zeros, Be16;
    ghost var done: seq<Byte> := [];
    Append(a, 0, [0x46, 0xc0], done);
    done := done + [0x46, 0xc0];
    Append(a, 2, Be16(24 + messageLen), done);
    done := done + Be16(24 + messageLen);
    FilledSkip(a[..], done, 4);
    done := done + Zeros(4);
    Append(a, 8, [1, 2], done);
    done := done + [1, 2];
    FilledSkip(a[..], done, 2);
    done := done + Zeros(2);
    Append(a, 12, Zeros(4), done);
    done := done + Zeros(4);
    Append(a, 16, IGMP_DESTINATION, done);
    done := done + IGMP_DESTINATION;
    Append(a, 20, [0x94, 4, 0, 0], done);
    done := done + [0x94, 4, 0, 0];
    assert [] + [0x46, 0xc0] == [0x46, 0xc0];
    assert done == Header(Igmpv3, messageLen);
  }

  method WriteIpv6Header(a: array<Byte>, messageLen: nat)
    requires Filled(a[..], []) && a.Length == 48 + messageLen && 8 + messageLen <= 0xffff
    modifies a
    ensures Filled(a[..], Header(Mldv2, messageLen))
  {
    hide Filled, Zeros, Be16;
    ghost var done: seq<Byte> := [];
    Append(a, 0, [0x60], done);
    done := done + [0x60];
    FilledSkip(a[..], done, 3);
    done := done + Zeros(3);
    Append(a, 4, Be16(8 + messageLen), done);
    done := done + Be16(8 + messageLen);
    Append(a, 6, [0, 1], done);
    done := done + [0, 1];
    Append(a, 8, Zeros(16), done);
    done := done + Zeros(16);
    Append(a, 24, MLD_DESTINATION, done);
    done := done + MLD_DESTINATION;
    Append(a, 40, [ICMPV6, 0, 5, 2, 0, 0, 1, 0], done);
    done := done + [ICMPV6, 0, 5, 2, 0, 0, 1, 0];
    assert [] + [0x60] == [0x60];
    assert done == Header(Mldv2, messageLen);
  }

  method WriteMessage(a: array<Byte>, p: Protocol, rs: seq<MembershipRecord>, ghost header: seq<Byte>)
    requires AllEncodable(p, rs) && |rs| <= 0xffff
    requires |header| == HeaderLen(p) && a.Length == |header| + |Message(p, rs)| && Filled(a[..], header)
    modifies a
    ensures a[..] == header + Message(p, rs)
  {
    hide Filled, EncodeRecords, Zeros, Be16;
    var start := HeaderLen(p);
    Append(a, start, [MessageType(p)], header);
    ghost var done := header + [MessageType(p)];
    FilledSkip(a[..], done, 5);
    done := done + Zeros(5);
    Append(a, start + 6, Be16(|rs|), done);
    done := done + Be16(|rs|);
    WriteRecords(a, p, start + 8, rs, done);
    done := done + EncodeRecords(p, rs);
    assert done == header + Message(p, rs);
    FilledAll(a[..], done);
  }

  /** The report's checksum, then (IPv4 only) the header's. */
  method Seal(a: array<Byte>, p: Protocol, rs: seq<MembershipRecord>)
    requires AllEncodable(p, rs) && |rs| <= 0xffff && TooLong(p, |Message(p, rs)|).None?
    requires a[..] == Header(p, |Message(p, rs)|) + Message(p, rs)
    modifies a
    ensures a[..] == SealedHeader(p, |Message(p, rs)|) + SealedMessage(p, rs)
  {
    hide Message, Header, Pseudo, Put, Checksum.ChecksumOf, Be16;
    ghost var message, header := Message(p, rs), Header(p, |Message(p, rs)|);
    var start := HeaderLen(p);
    var body := a[start..];
    assert body == message;
    var messageChecksum := Checksum.InternetChecksum(Pseudo(p, |body|) + body);
    PutInPlace(a, start + 2, messageChecksum);
    PutRight(header, message, 2, Be16(messageChecksum));
    if p.Igmpv3? {
      var front := a[..start];
      assert front == header;
      var headerChecksum := Checksum.InternetChecksum(front);
      PutInPlace(a, 10, headerChecksum);
      PutLeft(header, SealedMessage(p, rs), 10, Be16(headerChecksum));
    }
  }

  method BuildMembershipReport(report: MembershipReport) returns (r: Result<seq<Byte>, BuildError>)
    ensures r == Build(report.protocol, report.records)
  {
    hide FirstRecordError, Encodable, SealedHeader, SealedMessage, Header, EncodeRecords;
    var p, rs := report.protocol, report.records;
    var error := ValidateRecords(p, rs);
    if error.Some? {
      return Err(error.value);
    }
    NoErrorMeansEncodable(p, rs);
    var recordsLen := RecordsLen(p, rs);
    var messageLen := 8 + recordsLen;
    if TooLong(p, messageLen).Some? {
      return Err(TooLong(p, messageLen).value);
    }
    var packet := new Byte[HeaderLen(p) + messageLen](i => 0);
    if p.Igmpv3? {
      WriteIpv4Header(packet, messageLen);
    } else {
      WriteIpv6Header(packet, messageLen);
    }
    WriteMessage(packet, p, rs, Header(p, messageLen));
    Seal(packet, p, rs);
    r := Ok(packet[..]);
  }
}
