/** Repairing the checksums of a captured datagram before it enters the tunnel: kernels hand out packets whose
    checksums were left to the hardware. */
module Normalization {
  import opened Bytes
  import Checksum
  import Wire

  const UDP: Byte := 17

  datatype Family = Ipv4 | Ipv6

  // ---- what normalising means ----

  /** What precedes the UDP datagram in its checksum. */
  function UdpPseudo(family: Family, packet: seq<Byte>, udpLen: Word16): (s: seq<Byte>)
    requires |packet| >= 40 || (family.Ipv4? && |packet| >= 20)
    ensures |s| % 2 == 0
  {
    match family
    case Ipv4 => packet[12..16] + packet[16..20] + [0, UDP] + Be16(udpLen)
    case Ipv6 => Checksum.Ipv6Pseudo(packet[8..24], packet[24..40], udpLen, UDP)
  }

  function FixedLen(family: Family): nat { if family.Ipv4? then 20 else 40 }

  /** Whether a whole UDP datagram stands at `offset`. */
  predicate HasUdp(packet: seq<Byte>, offset: nat) {
    offset + 8 <= |packet| && 8 <= ReadBe16(packet, offset + 4) && offset + ReadBe16(packet, offset + 4) <= |packet|
  }

  function Cleared(packet: seq<Byte>, at: nat): seq<Byte>
    requires at + 2 <= |packet|
  {
    Put(packet, at, [0, 0])
  }

  function UdpField(family: Family, packet: seq<Byte>, offset: nat): (f: seq<Byte>)
    requires HasUdp(packet, offset) && FixedLen(family) <= offset
    ensures |f| == 2
  {
    var len := ReadBe16(packet, offset + 4);
    var zeroed := Cleared(packet, offset + 6);
    Be16(Checksum.UdpChecksumOf(UdpPseudo(family, zeroed, len) + zeroed[offset..offset + len]))
  }

  function RepairUdp(family: Family, packet: seq<Byte>, offset: nat): (r: seq<Byte>)
    requires FixedLen(family) <= offset
    ensures |r| == |packet|
  {
    if HasUdp(packet, offset) then Put(packet, offset + 6, UdpField(family, packet, offset)) else packet
  }

  function RepairHeader(packet: seq<Byte>, ihl: nat): (r: seq<Byte>)
    requires 20 <= ihl <= |packet|
    ensures |r| == |packet|
  {
    Put(packet, 10, Be16(Checksum.ChecksumOf(Cleared(packet, 10)[..ihl])))
  }

  /** The length an intact packet declares for itself. */
  function DeclaredLen(family: Family, d: seq<Byte>): Option<nat>
    requires |d| > 0
  {
    if |d| < FixedLen(family) then None
    else if family.Ipv6? then
      var total := 40 + ReadBe16(d, 4);
      if total <= |d| then Some(total) else None
    else
      var ihl, total := d[0] % 16 * 4, ReadBe16(d, 2);
      if 20 <= ihl <= total <= |d| then Some(total) else None
  }

  function Ihl(d: seq<Byte>): nat
    requires |d| > 0
  {
    d[0] % 16 * 4
  }

  predicate CarriesUdp(family: Family, d: seq<Byte>)
    requires |d| >= FixedLen(family)
  {
    match family
    case Ipv4 => d[9] == UDP && ReadBe16(d, 6) % 0x4000 == 0
    case Ipv6 => d[6] == UDP
  }

  function UdpOffset(family: Family, d: seq<Byte>): nat
    requires |d| > 0
  {
    if family.Ipv4? then Ihl(d) else 40
  }

  function FamilyOf(d: seq<Byte>): Option<Family> {
    if d == [] then None
    else if d[0] / 16 == 4 then Some(Ipv4)
    else if d[0] / 16 == 6 then Some(Ipv6)
    else None
  }

  function Repaired(family: Family, p: seq<Byte>): seq<Byte>
    requires |p| >= FixedLen(family) && (family.Ipv4? ==> 20 <= Ihl(p) <= |p|)
  {
    var h := if family.Ipv4? then RepairHeader(p, Ihl(p)) else p;
    if CarriesUdp(family, h) then RepairUdp(family, h, UdpOffset(family, p)) else h
  }

  /** A datagram cut to its declared length with its checksums repaired; anything malformed stays as it is. */
  function Normalize(d: seq<Byte>): seq<Byte> {
    if FamilyOf(d).None? || DeclaredLen(FamilyOf(d).value, d).None? then d
    else Repaired(FamilyOf(d).value, d[..DeclaredLen(FamilyOf(d).value, d).value])
  }

  // ---- facts about overwriting a field ----

  lemma PutTwice(s: seq<Byte>, at: nat, f: seq<Byte>, g: seq<Byte>)
    requires at + |f| <= |s| && |f| == |g|
    ensures Put(Put(s, at, f), at, g) == Put(s, at, g)
  {
  }

  lemma PutSame(s: seq<Byte>, at: nat, f: seq<Byte>)
    requires at + |f| <= |s| && s[at..at + |f|] == f
    ensures Put(s, at, f) == s
  {
  }

  lemma PutSlice(s: seq<Byte>, at: nat, f: seq<Byte>, lo: nat, hi: nat)
    requires lo <= at && at + |f| <= hi <= |s|
    ensures Put(s, at, f)[lo..hi] == Put(s[lo..hi], at - lo, f)
  {
  }

  lemma PutOutside(s: seq<Byte>, at: nat, f: seq<Byte>, lo: nat, hi: nat)
    requires at + |f| <= |s| && lo <= hi <= |s| && (hi <= at || at + |f| <= lo)
    ensures Put(s, at, f)[lo..hi] == s[lo..hi]
  {
  }

  lemma ClearedIsZero(s: seq<Byte>, at: nat)
    requires at + 2 <= |s|
    ensures Cleared(s, at)[at] == 0 && Cleared(s, at)[at + 1] == 0
  {
  }

  // ---- the UDP checksum ----

  /** The pseudo header is read from the fixed header, before the UDP datagram. */
  lemma PseudoUnchanged(family: Family, packet: seq<Byte>, offset: nat, f: seq<Byte>, len: Word16)
    requires FixedLen(family) <= offset && |f| == 2 && offset + 8 <= |packet|
    ensures UdpPseudo(family, Put(packet, offset + 6, f), len) == UdpPseudo(family, packet, len)
  {
  }

  /** What the addresses of the packet add to the checksum of what it carries. */
  function AddressSum(family: Family, packet: seq<Byte>): nat
    requires |packet| >= FixedLen(family)
  {
    match family
    case Ipv4 => ReadBe16(packet, 12) + ReadBe16(packet, 14) + ReadBe16(packet, 16) + ReadBe16(packet, 18)
    case Ipv6 => Checksum.Total(packet[8..40])
  }

  /** A whole UDP datagram with a checksum that is present and verifies, as a receiver sees it: addresses, protocol,
      length and datagram sum up to all ones. */
  ghost predicate UdpVerifies(family: Family, packet: seq<Byte>, offset: nat) {
    && FixedLen(family) <= offset && HasUdp(packet, offset) && ReadBe16(packet, offset + 6) != 0
    && (var len := ReadBe16(packet, offset + 4);
        Checksum.Reduce(AddressSum(family, packet) + 17 + len + Checksum.Total(packet[offset..offset + len])) == 0xffff)
  }

  lemma PseudoTotal(family: Family, packet: seq<Byte>, len: Word16)
    requires |packet| >= FixedLen(family)
    ensures Checksum.Total(UdpPseudo(family, packet, len)) == AddressSum(family, packet) + 17 + len
  {
    hide Checksum.Total, Checksum.Ipv6Pseudo;
    if family.Ipv4? {
      var source, destination := packet[12..16], packet[16..20];
      Checksum.TotalConcat(source + destination + [0, UDP], Be16(len));
      Checksum.TotalConcat(source + destination, [0, UDP]);
      Checksum.TotalConcat(source, destination);
      Checksum.TotalFour(source);
      Checksum.TotalFour(destination);
      Checksum.TotalWord([0, UDP]);
      Checksum.TotalWord(Be16(len));
    } else {
      Checksum.Ipv6PseudoTotal(packet[8..24], packet[24..40], len, UDP);
      Checksum.TotalConcat(packet[8..24], packet[24..40]);
      assert packet[8..40] == packet[8..24] + packet[24..40];
    }
  }

  lemma PseudoVerifies(family: Family, packet: seq<Byte>, offset: nat, len: Word16)
    requires FixedLen(family) <= offset && offset + len <= |packet|
    requires Checksum.OnesSum(UdpPseudo(family, packet, len) + packet[offset..offset + len]) == 0xffff
    ensures Checksum.Reduce(AddressSum(family, packet) + 17 + len + Checksum.Total(packet[offset..offset + len]))
            == 0xffff
  {
    hide Checksum.Total, UdpPseudo, Checksum.Reduce, AddressSum;
    PseudoTotal(family, packet, len);
    Checksum.TotalConcat(UdpPseudo(family, packet, len), packet[offset..offset + len]);
  }

  lemma ClearedSlice(packet: seq<Byte>, offset: nat, len: nat)
    requires 8 <= len && offset + len <= |packet|
    ensures |Cleared(packet, offset + 6)| == |packet|
    ensures var slice := Cleared(packet, offset + 6)[offset..offset + len];
            |slice| == len && slice[6] == 0 && slice[7] == 0
  {
    hide Put;
    ClearedIsZero(packet, offset + 6);
  }

  lemma FieldAt(packet: seq<Byte>, at: nat, c: Word16)
    requires at + 2 <= |packet|
    ensures ReadBe16(Put(packet, at, Be16(c)), at) == c
  {
    var r := Put(packet, at, Be16(c));
    assert r[at..at + 2][0] == r[at] && r[at..at + 2][1] == r[at + 1];
  }

  lemma LengthKept(packet: seq<Byte>, offset: nat, f: seq<Byte>)
    requires HasUdp(packet, offset) && |f| == 2
    ensures HasUdp(Put(packet, offset + 6, f), offset)
    ensures ReadBe16(Put(packet, offset + 6, f), offset + 4) == ReadBe16(packet, offset + 4)
  {
    hide Put;
  }

  /** After the repair the UDP checksum verifies and is never zero, the value that means "none". */
  lemma RepairedUdpVerifies(family: Family, packet: seq<Byte>, offset: nat)
    requires HasUdp(packet, offset) && FixedLen(family) <= offset
    ensures UdpVerifies(family, RepairUdp(family, packet, offset), offset)
  {
    hide Checksum.OnesSum, Checksum.UdpChecksumOf, UdpPseudo, Put, Be16, ReadBe16, HasUdp, Cleared, AddressSum,
         Checksum.Total, Checksum.Reduce;
    UdpCases(family, packet, offset);
    var len, zeroed := ReadBe16(packet, offset + 4), Cleared(packet, offset + 6);
    ClearedSlice(packet, offset, len);
    var slice := zeroed[offset..offset + len];
    var c := Checksum.UdpChecksumOf(UdpPseudo(family, zeroed, len) + slice);
    var r := Put(zeroed, offset + 6, Be16(c));
    ClearedIsPut(packet, offset + 6);
    PutTwice(packet, offset + 6, Be16(0), Be16(c));
    LengthKept(packet, offset, Be16(c));
    PutSlice(zeroed, offset + 6, Be16(c), offset, offset + len);
    PseudoUnchanged(family, zeroed, offset, Be16(c), len);
    Checksum.InsertedChecksumVerifies(UdpPseudo(family, zeroed, len), slice, 6, c);
    PseudoVerifies(family, r, offset, len);
    FieldAt(zeroed, offset + 6, c);
  }

  lemma RepairUdpIdempotent(family: Family, packet: seq<Byte>, offset: nat)
    requires FixedLen(family) <= offset
    ensures RepairUdp(family, RepairUdp(family, packet, offset), offset) == RepairUdp(family, packet, offset)
  {
    hide Checksum.UdpChecksumOf, UdpPseudo, Put;
    if HasUdp(packet, offset) {
      var f := UdpField(family, packet, offset);
      var r := Put(packet, offset + 6, f);
      PutTwice(packet, offset + 6, f, [0, 0]);
      assert r[offset + 4] == packet[offset + 4] && r[offset + 5] == packet[offset + 5];
      PutSame(r, offset + 6, f);
    }
  }

  // ---- the IPv4 header checksum ----

  lemma RepairedHeaderVerifies(packet: seq<Byte>, ihl: nat)
    requires 20 <= ihl <= |packet|
    ensures Checksum.OnesSum(RepairHeader(packet, ihl)[..ihl]) == 0xffff
  {
    hide Checksum.OnesSum, Checksum.ChecksumOf, Put;
    var zeroed := Cleared(packet, 10);
    var c := Checksum.ChecksumOf(zeroed[..ihl]);
    PutTwice(packet, 10, [0, 0], Be16(c));
    PutSlice(zeroed, 10, Be16(c), 0, ihl);
    assert zeroed[0..ihl] == zeroed[..ihl] && Put(zeroed, 10, Be16(c))[0..ihl] == Put(zeroed, 10, Be16(c))[..ihl];
    ClearedIsZero(packet, 10);
    Checksum.HeaderChecksumVerifies(zeroed[..ihl], 10);
  }

  /** Only the checksum field of the header matters for the repair; the rest of the packet may differ. */
  lemma RepairHeaderStable(packet: seq<Byte>, other: seq<Byte>, ihl: nat)
    requires 20 <= ihl <= |packet| == |other| && RepairHeader(packet, ihl)[..ihl] == other[..ihl]
    ensures RepairHeader(other, ihl) == other
  {
    hide Checksum.ChecksumOf, Put;
    var r := RepairHeader(packet, ihl);
    var f := Be16(Checksum.ChecksumOf(Cleared(packet, 10)[..ihl]));
    PutSlice(packet, 10, f, 0, ihl);
    PutSlice(packet, 10, [0, 0], 0, ihl);
    PutSlice(other, 10, [0, 0], 0, ihl);
    PutTwice(packet[0..ihl], 10, f, [0, 0]);
    assert packet[0..ihl] == packet[..ihl] && other[0..ihl] == other[..ihl];
    assert Cleared(other, 10)[0..ihl] == Cleared(other, 10)[..ihl] && Cleared(packet, 10)[0..ihl] == Cleared(packet,
        10)[..ihl];
    assert r[0..ihl] == r[..ihl];
    assert other[10..12] == other[..ihl][10..12] == r[..ihl][10..12] == r[10..12] == f;
    PutSame(other, 10, f);
  }

  // ---- the whole datagram ----

  /** A checksum byte of the normalised packet. */
  predicate IsChecksumByte(family: Family, d: seq<Byte>, i: nat)
    requires |d| > 0
  {
    (family.Ipv4? && 10 <= i < 12) || UdpOffset(family, d) + 6 <= i < UdpOffset(family, d) + 8
  }

  lemma RepairedFrame(family: Family, p: seq<Byte>)
    requires |p| >= FixedLen(family) && (family.Ipv4? ==> 20 <= Ihl(p) <= |p|)
    ensures |Repaired(family, p)| == |p|
    ensures forall i :: 0 <= i < |p| && !IsChecksumByte(family, p, i) ==> Repaired(family, p)[i] == p[i]
  {
  }

  /** Nothing but checksum bytes changes, and only bytes beyond the declared length are dropped. */
  lemma NormalizeFrame(d: seq<Byte>)
    ensures |Normalize(d)| <= |d|
    ensures FamilyOf(d).None? ==> Normalize(d) == d
    ensures FamilyOf(d).Some? && DeclaredLen(FamilyOf(d).value, d).None? ==> Normalize(d) == d
    ensures FamilyOf(d).Some? && DeclaredLen(FamilyOf(d).value, d).Some? ==>
              && |Normalize(d)| == DeclaredLen(FamilyOf(d).value, d).value
              && forall i :: 0 <= i < |Normalize(d)| && !IsChecksumByte(FamilyOf(d).value, d, i)
                  ==> Normalize(d)[i] == d[i]
  {
    hide Repaired;
    if FamilyOf(d).Some? && DeclaredLen(FamilyOf(d).value, d).Some? {
      RepairedFrame(FamilyOf(d).value, d[..DeclaredLen(FamilyOf(d).value, d).value]);
    }
  }

  lemma RepairedVerifies(family: Family, p: seq<Byte>)
    requires |p| >= FixedLen(family) && (family.Ipv4? ==> 20 <= Ihl(p) <= |p|)
    ensures var r, o := Repaired(family, p), UdpOffset(family, p);
            && |r| == |p| && (family.Ipv4? ==> Checksum.OnesSum(r[..o]) == 0xffff)
            && (CarriesUdp(family, p) && HasUdp(p, o) ==> UdpVerifies(family, r, o))
  {
    hide Checksum.OnesSum, Checksum.ChecksumOf, UdpField, Put, UdpVerifies;
    var o := UdpOffset(family, p);
    var h := if family.Ipv4? then RepairHeader(p, Ihl(p)) else p;
    if family.Ipv4? {
      RepairedHeaderVerifies(p, o);
      if HasUdp(h, o) {
        PutOutside(h, o + 6, UdpField(family, h, o), 0, o);
        assert h[0..o] == h[..o] && RepairUdp(family, h, o)[0..o] == RepairUdp(family, h, o)[..o];
      }
    }
    if HasUdp(h, o) {
      RepairedUdpVerifies(family, h, o);
    }
  }

  /** A normalised packet has a header checksum that verifies and, if it carries a whole unfragmented UDP
      datagram, a UDP checksum that verifies and is not the value reserved for "no checksum". */
  lemma NormalizedVerifies(d: seq<Byte>)
    requires FamilyOf(d).Some? && DeclaredLen(FamilyOf(d).value, d).Some?
    ensures var f := FamilyOf(d).value;
            var r, o := Normalize(d), UdpOffset(f, d);
            && |r| == DeclaredLen(f, d).value
            && (f.Ipv4? ==> Checksum.OnesSum(r[..o]) == 0xffff)
            && (CarriesUdp(f, d) && HasUdp(d[..|r|], o) ==> UdpVerifies(f, r, o))
  {
    hide Repaired, Checksum.OnesSum, UdpVerifies;
    RepairedVerifies(FamilyOf(d).value, d[..DeclaredLen(FamilyOf(d).value, d).value]);
  }

  /** Only the checksum bytes of what is repaired change: the header's, and the UDP one's of a whole datagram. */
  lemma RepairedExactly(family: Family, p: seq<Byte>)
    requires |p| >= FixedLen(family) && (family.Ipv4? ==> 20 <= Ihl(p) <= |p|)
    ensures var udp := CarriesUdp(family, p) && HasUdp(p, UdpOffset(family, p));
            forall i :: 0 <= i < |p| && !(family.Ipv4? && 10 <= i < 12)
                        && !(udp && UdpOffset(family, p) + 6 <= i < UdpOffset(family, p) + 8)
                        ==> Repaired(family, p)[i] == p[i]
  {
    hide Checksum.ChecksumOf, UdpField, HasUdp, Put;
    var o := UdpOffset(family, p);
    var h := if family.Ipv4? then RepairHeader(p, Ihl(p)) else p;
    if family.Ipv4? {
      PutElsewhere(p, 10, Be16(Checksum.ChecksumOf(Cleared(p, 10)[..Ihl(p)])));
      SameUdp(p, h, o);
    }
    if HasUdp(h, o) {
      HasUdpFits(h, o);
      PutElsewhere(h, o + 6, UdpField(family, h, o));
    }
  }

  lemma PutElsewhere(s: seq<Byte>, at: nat, f: seq<Byte>)
    requires at + |f| <= |s|
    ensures |Put(s, at, f)| == |s|
    ensures forall i :: 0 <= i < |s| && !(at <= i < at + |f|) ==> Put(s, at, f)[i] == s[i]
  {
  }

  lemma HasUdpFits(packet: seq<Byte>, offset: nat)
    requires HasUdp(packet, offset)
    ensures offset + 8 <= |packet|
  {
  }

  /** Whether there is a UDP datagram does not depend on the header checksum. */
  lemma SameUdp(p: seq<Byte>, h: seq<Byte>, offset: nat)
    requires |p| == |h| && offset >= 20 && forall i :: 0 <= i < |p| && !(10 <= i < 12) ==> h[i] == p[i]
    ensures HasUdp(h, offset) == HasUdp(p, offset)
    ensures |p| >= 20 ==> CarriesUdp(Ipv4, h) == CarriesUdp(Ipv4, p)
  {
  }

  /** What normalising does to an IPv4 datagram, on its bytes. A packet whose lengths do not fit comes back as it is.
      Otherwise it is cut to its length, its header checksum verifies, and if it is unfragmented and holds a whole
      UDP datagram, so does the UDP checksum, over both addresses. Nothing else changes. */
  lemma Ipv4Normalized(d: seq<Byte>)
    requires d != [] && d[0] / 16 == 4
    ensures var ihl := d[0] % 16 * 4;
            if !(|d| >= 20 && 20 <= ihl <= ReadBe16(d, 2) <= |d|) then Normalize(d) == d
            else
              var r, total := Normalize(d), ReadBe16(d, 2);
              var udp := && d[9] == 17 && ReadBe16(d, 6) % 0x4000 == 0 && ihl + 8 <= total
                         && 8 <= ReadBe16(d, ihl + 4) && ihl + ReadBe16(d, ihl + 4) <= total;
              && |r| == total && Checksum.OnesSum(r[..ihl]) == 0xffff
              && (forall i :: 0 <= i < total && !(10 <= i < 12) && !(udp && ihl + 6 <= i < ihl + 8) ==> r[i] == d[i])
              && (udp ==>
                    var len := ReadBe16(d, ihl + 4);
                    var addresses := ReadBe16(d, 12) + ReadBe16(d, 14) + ReadBe16(d, 16) + ReadBe16(d, 18);
                    && ReadBe16(r, ihl + 6) != 0
                    && Checksum.Reduce(addresses + 17 + len + Checksum.Total(r[ihl..ihl + len])) == 0xffff)
  {
    hide Repaired, Checksum.OnesSum, Checksum.Reduce, Checksum.Total;
    var ihl := d[0] % 16 * 4;
    if |d| >= 20 && 20 <= ihl <= ReadBe16(d, 2) <= |d| {
      var p := d[..ReadBe16(d, 2)];
      assert p[0] == d[0] && ReadBe16(p, 6) == ReadBe16(d, 6);
      RepairedVerifies(Ipv4, p);
      RepairedExactly(Ipv4, p);
      SameAddresses(Ipv4, d, Repaired(Ipv4, p));
    }
  }

  /** The same for IPv6, which has no header checksum. */
  lemma Ipv6Normalized(d: seq<Byte>)
    requires d != [] && d[0] / 16 == 6
    ensures if !(|d| >= 40 && 40 + ReadBe16(d, 4) as int <= |d|) then Normalize(d) == d
            else
              var r, total := Normalize(d), 40 + ReadBe16(d, 4) as int;
              var udp := d[6] == 17 && 48 <= total && 8 <= ReadBe16(d, 44) && 40 + ReadBe16(d, 44) as int <= total;
              && |r| == total
              && (forall i :: 0 <= i < total && !(udp && 46 <= i < 48) ==> r[i] == d[i])
              && (udp ==>
                    var len := ReadBe16(d, 44);
                    && ReadBe16(r, 46) != 0
                    && Checksum.Reduce(Checksum.Total(d[8..40]) + 17 + len + Checksum.Total(r[40..40 + len])) == 0xffff)
  {
    hide Repaired, Checksum.OnesSum, Checksum.Reduce, Checksum.Total;
    if |d| >= 40 && 40 + ReadBe16(d, 4) as int <= |d| {
      var p := d[..40 + ReadBe16(d, 4) as int];
      assert p[0] == d[0];
      RepairedVerifies(Ipv6, p);
      RepairedExactly(Ipv6, p);
      SameAddresses(Ipv6, d, Repaired(Ipv6, p));
    }
  }

  lemma SameAddresses(family: Family, d: seq<Byte>, r: seq<Byte>)
    requires FixedLen(family) <= |r| <= |d|
    requires forall i :: 8 <= i < FixedLen(family) && !(family.Ipv4? && 10 <= i < 12) ==> r[i] == d[i]
    ensures AddressSum(family, r) == AddressSum(family, d)
  {
    hide Checksum.Total;
    if family.Ipv6? {
      assert r[8..40] == d[8..40];
    }
  }

  lemma RepairedIdempotent(family: Family, p: seq<Byte>)
    requires |p| >= FixedLen(family) && (family.Ipv4? ==> 20 <= Ihl(p) <= |p|)
    requires |Repaired(family, p)| == |p| && Repaired(family, p)[0] == p[0]
    ensures Repaired(family, Repaired(family, p)) == Repaired(family, p)
  {
    hide Checksum.ChecksumOf, UdpField, Put, HasUdp;
    var o := UdpOffset(family, p);
    var h := if family.Ipv4? then RepairHeader(p, Ihl(p)) else p;
    var r := Repaired(family, p);
    RepairUdpFrame(family, h, o);
    if family.Ipv4? {
      RepairHeaderStable(p, r, o);
    }
    RepairUdpIdempotent(family, h, o);
  }

  lemma RepairUdpFrame(family: Family, h: seq<Byte>, o: nat)
    requires FixedLen(family) <= o <= |h|
    ensures RepairUdp(family, h, o)[..o] == h[..o]
    ensures CarriesUdp(family, RepairUdp(family, h, o)) == CarriesUdp(family, h)
  {
    hide UdpField, Put;
    if HasUdp(h, o) {
      PutOutside(h, o + 6, UdpField(family, h, o), 0, o);
      assert h[0..o] == h[..o] && RepairUdp(family, h, o)[0..o] == RepairUdp(family, h, o)[..o];
    }
  }

  /** Normalising twice is normalising once. */
  lemma NormalizeIdempotent(d: seq<Byte>)
    ensures Normalize(Normalize(d)) == Normalize(d)
  {
    hide Repaired;
    if FamilyOf(d).Some? && DeclaredLen(FamilyOf(d).value, d).Some? {
      var f := FamilyOf(d).value;
      var p := d[..DeclaredLen(f, d).value];
      var r := Normalize(d);
      RepairedFrame(f, p);
      assert !IsChecksumByte(f, p, 0) && !IsChecksumByte(f, p, 2) && !IsChecksumByte(f, p, 3)
          && !IsChecksumByte(f, p, 4) && !IsChecksumByte(f, p, 5);
      RepairedIdempotent(f, p);
      assert r[..|r|] == r;
    }
  }

  // ---- in place ----

  method RepairUdpInPlace(a: array<Byte>, start: nat, family: Family, offset: nat)
    requires start <= a.Length && FixedLen(family) <= offset
    modifies a
    ensures a[..] == old(a[..start]) + RepairUdp(family, old(a[start..]), offset)
  {
    hide Checksum.UdpChecksumOf, Checksum.ChecksumOf, UdpPseudo, Put, UdpField, Be16, RepairUdp, HasUdp,
      ReadBe16, Cleared, FixedLen;
    var front, packet := a[..start], a[start..];
    assert a[..] == front + packet;
    UdpCases(family, packet, offset);
    if |packet| < offset + 8 {
      return;
    }
    var len := ReadBe16(packet, offset + 4);
    if len < 8 || |packet| < offset + len {
      return;
    }
    PutInPlace(a, start + offset + 6, 0);
    PutRight(front, packet, offset + 6, Be16(0));
    ClearedIsPut(packet, offset + 6);
    Behind(a[..], front, Cleared(packet, offset + 6));
    var checksum := SumUdp(family, a[start..], offset, len);
    UdpFieldIs(family, packet, offset, checksum);
    ghost var zeroed := Cleared(packet, offset + 6);
    PutInPlace(a, start + offset + 6, checksum);
    PutRight(front, zeroed, offset + 6, Be16(checksum));
    PutTwice(packet, offset + 6, Be16(0), Be16(checksum));
  }

  lemma UdpCases(family: Family, packet: seq<Byte>, offset: nat)
    requires FixedLen(family) <= offset
    ensures HasUdp(packet, offset) <==>
              && offset + 8 <= |packet| && 8 <= ReadBe16(packet, offset + 4)
              && offset + ReadBe16(packet, offset + 4) <= |packet|
    ensures RepairUdp(family, packet, offset) ==
            if HasUdp(packet, offset) then Put(packet, offset + 6, UdpField(family, packet, offset)) else packet
  {
  }

  /** The checksum over a datagram whose field is cleared, never zero. */
  method SumUdp(family: Family, zeroed: seq<Byte>, offset: nat, len: Word16) returns (checksum: Word16)
    requires FixedLen(family) <= offset && offset + len <= |zeroed|
    ensures checksum == Checksum.UdpChecksumOf(UdpPseudo(family, zeroed, len) + zeroed[offset..offset + len])
  {
    hide UdpPseudo, Checksum.ChecksumOf;
    checksum := Checksum.InternetChecksum(UdpPseudo(family, zeroed, len) + zeroed[offset..offset + len]);
    if checksum == 0 {
      checksum := 0xffff;
    }
  }

  lemma ZeroField()
    ensures Be16(0) == [0, 0]
  {
  }

  lemma ClearedIsPut(s: seq<Byte>, at: nat)
    requires at + 2 <= |s|
    ensures Cleared(s, at) == Put(s, at, Be16(0))
  {
    ZeroField();
  }

  lemma Behind(all: seq<Byte>, front: seq<Byte>, rest: seq<Byte>)
    requires all == front + rest
    ensures all[|front|..] == rest && all[..|front|] == front
  {
  }

  lemma UdpFieldIs(family: Family, packet: seq<Byte>, offset: nat, checksum: Word16)
    requires HasUdp(packet, offset) && FixedLen(family) <= offset
    requires var len, zeroed := ReadBe16(packet, offset + 4), Cleared(packet, offset + 6);
             checksum == Checksum.UdpChecksumOf(UdpPseudo(family, zeroed, len) + zeroed[offset..offset + len])
    ensures Be16(checksum) == UdpField(family, packet, offset)
  {
    hide UdpPseudo, Checksum.UdpChecksumOf;
  }

  /** The tunnel message is normalised where it was encoded, two bytes into its buffer. */
  method NormalizeEmbedded(datagram: seq<Byte>) returns (r: seq<Byte>)
    ensures |datagram| >= 2 ==> r == datagram[..2] + Normalize(datagram[2..])
    ensures |datagram| < 2 ==> r == datagram
  {
    hide RepairUdp, RepairHeader, Repaired;
    if |datagram| < 3 {
      assert |datagram| == 2 ==> datagram[..2] + [] == datagram;
      return datagram;
    }
    ghost var packet := datagram[2..];
    assert datagram == datagram[..2] + packet;
    if datagram[2] / 16 == 4 && |datagram| >= 22 {
      var ihl, total := datagram[2] % 16 * 4, ReadBe16(datagram, 4) as int;
      assert total == ReadBe16(packet, 2);
      if ihl < 20 || total < ihl || |datagram| < 2 + total {
        return datagram;
      }
      r := NormalizeIpv4(datagram[..2 + total], ihl);
      assert datagram[..2 + total][2..] == packet[..total];
      assert datagram[..2 + total][..2] == datagram[..2];
    } else if datagram[2] / 16 == 6 && |datagram| >= 42 {
      var total := 40 + ReadBe16(datagram, 6) as int;
      assert total == 40 + ReadBe16(packet, 4);
      if |datagram| < 2 + total {
        return datagram;
      }
      r := NormalizeIpv6(datagram[..2 + total]);
      assert datagram[..2 + total][2..] == packet[..total];
      assert datagram[..2 + total][..2] == datagram[..2];
    } else {
      r := datagram;
    }
  }

  method Copied(s: seq<Byte>) returns (a: array<Byte>)
    ensures fresh(a) && a[..] == s
  {
    a := new Byte[|s|](i requires 0 <= i < |s| => s[i]);
  }

  method NormalizeIpv4(datagram: seq<Byte>, ihl: nat) returns (r: seq<Byte>)
    requires |datagram| >= 2 + ihl && ihl >= 20 && Ihl(datagram[2..]) == ihl
    ensures r == datagram[..2] + Repaired(Ipv4, datagram[2..])
  {
    hide RepairUdp, Checksum.ChecksumOf, Put, Be16;
    var front, packet := datagram[..2], datagram[2..];
    assert datagram == front + packet;
    var a := Copied(datagram);
    PutInPlace(a, 12, 0);
    PutRight(front, packet, 10, Be16(0));
    ZeroField();
    ghost var zeroed := Cleared(packet, 10);
    Behind(a[..], front, zeroed);
    var checksum := Checksum.InternetChecksum(a[2..][..ihl]);
    PutInPlace(a, 12, checksum);
    PutRight(front, zeroed, 10, Be16(checksum));
    PutTwice(packet, 10, Be16(0), Be16(checksum));
    ghost var h := RepairHeader(packet, ihl);
    Behind(a[..], front, h);
    if a[2..][9] == UDP && ReadBe16(a[2..], 6) % 0x4000 == 0 {
      RepairUdpInPlace(a, 2, Ipv4, ihl);
    }
    r := a[..];
  }

  method NormalizeIpv6(datagram: seq<Byte>) returns (r: seq<Byte>)
    requires |datagram| >= 42
    ensures r == datagram[..2] + Repaired(Ipv6, datagram[2..])
  {
    hide RepairUdp;
    var a := Copied(datagram);
    assert datagram == datagram[..2] + datagram[2..];
    Behind(a[..], datagram[..2], datagram[2..]);
    if a[2..][6] == UDP {
      RepairUdpInPlace(a, 2, Ipv6, 40);
    }
    r := a[..];
  }

  /** A captured packet goes out as the encoding of its normal form: repairing it inside the encoded message
      and encoding the repaired copy are the same. */
  method NormalizedAmtDatagram(packet: seq<Byte>) returns (datagram: seq<Byte>)
    ensures datagram == Wire.Encode(Wire.MulticastData(Normalize(packet)))
  {
    hide Normalize;
    var encoded := Wire.Encode(Wire.MulticastData(packet));
    assert encoded[2..] == packet && encoded[..2] == [6, 0];
    datagram := NormalizeEmbedded(encoded);
  }
}
