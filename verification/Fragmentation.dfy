/** IPv4 fragmentation in front of the tunnel (section 3.2 of RFC 791). */
module Fragmentation {
  import opened Bytes
  import opened Checksum


  datatype FragmentError =
    | InvalidPacket
    | DontFragment
    | HeaderOptions
    | MtuTooSmall
    | FragmentOffsetOverflow

  // ---- header fields ----

  // A buffer too short for a header reads as an all-zero field, so that these are total.

  function HeaderLen(p: seq<Byte>): nat { if |p| < 20 then 0 else p[0] % 16 * 4 }
  function FlagsOffset(p: seq<Byte>): Word16 { if |p| < 20 then 0 else ReadBe16(p, 6) }
  predicate Reserved(p: seq<Byte>) { FlagsOffset(p) / 0x8000 == 1 }
  predicate DontFragmentBit(p: seq<Byte>) { FlagsOffset(p) / 0x4000 % 2 == 1 }
  predicate MoreFragments(p: seq<Byte>) { FlagsOffset(p) / 0x2000 % 2 == 1 }
  function Offset(p: seq<Byte>): nat { FlagsOffset(p) % 0x2000 }

  /** A complete IPv4 packet whose length fields agree with the buffer. */
  predicate WellFormed(packet: seq<Byte>) {
    && |packet| >= 20
    && packet[0] / 16 == 4
    && 20 <= HeaderLen(packet) <= |packet|
    && ReadBe16(packet, 2) == |packet|
  }

  /** When a packet is refused, and with which error; the first applicable reason wins. */
  function Refusal(packet: seq<Byte>, tunnelMtu: nat): Option<FragmentError> {
    if !WellFormed(packet) then Some(InvalidPacket)
    else if |packet| <= tunnelMtu then None
    else if HeaderLen(packet) != 20 then Some(HeaderOptions)
    else if DontFragmentBit(packet) then Some(DontFragment)
    else if tunnelMtu < 28 then Some(MtuTooSmall)
    else if MoreFragments(packet) && (|packet| - 20) % 8 != 0 then Some(InvalidPacket)
    else if Offset(packet) * 8 + |packet| > 0xffff then Some(FragmentOffsetOverflow)
    else None
  }

  /** The refusals, on the bits of the header. A packet whose lengths do not fit the buffer is invalid. One that fits
      the tunnel is never refused otherwise. An oversized one is refused for its header options, then for DF, then
      for a tunnel too small for a fragment, then if it is a fragment with an odd end, then if its last byte lies
      beyond what an offset can name. */
  lemma RefusalMeans(packet: seq<Byte>, tunnelMtu: nat)
    ensures var whole := && |packet| >= 20 && packet[0] / 16 == 4 && 20 <= packet[0] % 16 * 4 <= |packet|
                         && packet[2] as int * 0x100 + packet[3] == |packet|;
            var plain := whole && |packet| > tunnelMtu && packet[0] % 16 == 5;
            var free := plain && packet[6] / 64 % 2 == 0;
            var uneven := free && tunnelMtu >= 28 && packet[6] / 32 % 2 == 1 && (|packet| - 20) % 8 != 0;
            var far := free && (packet[6] % 32 * 0x100 as int + packet[7]) * 8 + |packet| > 0xffff;
            var r := Refusal(packet, tunnelMtu);
            && (r == Some(InvalidPacket) <==> !whole || uneven)
            && (r == Some(HeaderOptions) <==> whole && |packet| > tunnelMtu && packet[0] % 16 != 5)
            && (r == Some(DontFragment) <==> plain && packet[6] / 64 % 2 == 1)
            && (r == Some(MtuTooSmall) <==> free && tunnelMtu < 28)
            && (r == Some(FragmentOffsetOverflow) <==> tunnelMtu >= 28 && !uneven && far)
            && (r.None? <==> whole && (|packet| <= tunnelMtu || (free && tunnelMtu >= 28 && !uneven && !far)))
  {
    if |packet| >= 20 {
      FlagBits(packet[6], packet[7]);
    }
  }

  lemma FlagBits(high: Byte, low: Byte)
    ensures var w := high as int * 0x100 + low;
            && w / 0x4000 % 2 == high / 64 % 2 && w / 0x2000 % 2 == high / 32 % 2
            && w % 0x2000 == high % 32 * 0x100 as int + low
  {
    var w, h := high as int * 0x100 + low, high as int;
    assert w / 0x100 == h;
    assert w / 0x4000 == h / 64 && w / 0x2000 == h / 32;
    assert h == h / 32 * 32 + h % 32;
    assert w == h / 32 * 0x2000 + (h % 32 * 0x100 + low);
  }

  // ---- what a fragment says about itself, relative to the packet it was cut from ----

  function StartOf(f: seq<Byte>, packet: seq<Byte>): int { (Offset(f) - Offset(packet)) * 8 }
  function EndOf(f: seq<Byte>, packet: seq<Byte>): int { StartOf(f, packet) + |f| - 20 }

  /** `f` carries its slice of the payload under a header that differs from the packet's only in
      length, flags, offset and checksum, and the new header verifies. */
  ghost predicate IsFragment(f: seq<Byte>, packet: seq<Byte>) {
    && |f| >= 20 && |packet| >= 20
    && 0 <= StartOf(f, packet) < EndOf(f, packet) <= |packet| - 20
    && f[20..] == packet[20 + StartOf(f, packet)..20 + EndOf(f, packet)]
    && f[..2] == packet[..2] && f[4..6] == packet[4..6]
    && f[8..10] == packet[8..10] && f[12..20] == packet[12..20]
    && WellFormed(f)
    && Reserved(f) == Reserved(packet) && !DontFragmentBit(f)
    && MoreFragments(f) == (MoreFragments(packet) || EndOf(f, packet) < |packet| - 20)
    && OnesSum(f[..20]) == 0xffff
  }

  /** The fragments cut so far: in order, without gap or overlap, up to payload offset `end`. */
  ghost predicate CutUpTo(fs: seq<seq<Byte>>, packet: seq<Byte>, mtu: nat, end: nat) {
    && (forall i :: 0 <= i < |fs| ==> IsFragment(fs[i], packet) && |fs[i]| <= mtu)
    && (forall i :: 0 <= i < |fs| - 1 ==> (|fs[i]| - 20) % 8 == 0)
    && (forall i, j :: 0 <= i && j == i + 1 < |fs| ==> StartOf(fs[j], packet) == EndOf(fs[i], packet))
    && (if fs == [] then end == 0
        else StartOf(fs[0], packet) == 0 && EndOf(fs[|fs| - 1], packet) == end)
  }

  ghost predicate FragmentsOf(fs: seq<seq<Byte>>, packet: seq<Byte>, mtu: nat) {
    fs != [] && |packet| >= 20 && CutUpTo(fs, packet, mtu, |packet| - 20)
  }

  // ---- cutting ----

  function FlagsField(reserved: bool, more: bool, offset: nat): (w: Word16)
    requires offset < 0x2000
    ensures w / 0x8000 == (if reserved then 1 else 0)
    ensures w / 0x4000 % 2 == 0
    ensures w / 0x2000 % 2 == (if more then 1 else 0)
    ensures w % 0x2000 == offset
  {
    (if reserved then 0x8000 else 0) + (if more then 0x2000 else 0) + offset
  }

  /** The packet's header with the length and flags fields rewritten and the checksum zeroed. */
  function FragmentHeader(packet: seq<Byte>, len: Word16, flags: Word16): (h: seq<Byte>)
    requires |packet| >= 20
    ensures |h| == 20 && h[10] == 0 && h[11] == 0
    ensures ReadBe16(h, 2) == len && ReadBe16(h, 6) == flags
    ensures h[..2] == packet[..2] && h[4..6] == packet[4..6] && h[8..10] == packet[8..10] && h[12..] == packet[12..20]
  {
    packet[..2] + Be16(len) + packet[4..6] + Be16(flags) + packet[8..10] + [0, 0] + packet[12..20]
  }

  /** One pass of the fragmenting loop: header copy, slice, rewritten fields, fresh checksum. */
  method CutFragment(packet: seq<Byte>, start: nat, end: nat) returns (f: seq<Byte>)
    requires WellFormed(packet) && HeaderLen(packet) == 20
    requires start % 8 == 0 && start < end <= |packet| - 20
    requires Offset(packet) + start / 8 < 0x2000
    ensures IsFragment(f, packet) && StartOf(f, packet) == start && EndOf(f, packet) == end
  {
    var more := MoreFragments(packet) || end < |packet| - 20;
    var offset := Offset(packet) + start / 8;
    var header := FragmentHeader(packet, 20 + end - start, FlagsField(Reserved(packet), more, offset));
    var c := InternetChecksum(header);
    HeaderChecksumVerifies(header, 10);
    var sealed := Put(header, 10, Be16(c));
    f := sealed + packet[20 + start..20 + end];
    FieldsOfSealed(f, header, sealed, packet[20 + start..20 + end]);
    assert OnesSum(f[..20]) == 0xffff;
  }

  lemma FieldsOfSealed(f: seq<Byte>, header: seq<Byte>, sealed: seq<Byte>, payload: seq<Byte>)
    requires |header| == |sealed| == 20 && f == sealed + payload
    requires forall i :: 0 <= i < 20 && i != 10 && i != 11 ==> sealed[i] == header[i]
    ensures f[..20] == sealed && f[20..] == payload
    ensures ReadBe16(f, 2) == ReadBe16(header, 2) && ReadBe16(f, 6) == ReadBe16(header, 6)
    ensures f[..2] == header[..2] && f[4..6] == header[4..6] && f[8..10] == header[8..10] && f[12..20] == header[12..]
  {
  }

  /** The tunnel fragmenter: refuses exactly as `Refusal` says, passes a packet that fits through
      unchanged, and otherwise cuts it into fragments. The per-fragment offset check of the loop
      never fires, because the up-front check already bounds every offset. */
  method FragmentIpv4ForTunnel(packet: seq<Byte>, tunnelMtu: nat)
    returns (r: Result<seq<seq<Byte>>, FragmentError>)
    ensures Refusal(packet, tunnelMtu).Some? ==> r == Err(Refusal(packet, tunnelMtu).value)
    ensures Refusal(packet, tunnelMtu).None? ==> r.Ok?
    ensures r.Ok? && |packet| <= tunnelMtu ==> r.value == [packet]
    ensures r.Ok? && |packet| > tunnelMtu ==>
              FragmentsOf(r.value, packet, tunnelMtu) && FullSized(r.value, (tunnelMtu - 20) / 8 * 8)
  {
    if |packet| < 20 || packet[0] / 16 != 4 {
      return Err(InvalidPacket);
    }
    var headerLen := packet[0] % 16 * 4;
    if headerLen < 20 || headerLen > |packet| {
      return Err(InvalidPacket);
    }
    var totalLen := ReadBe16(packet, 2);
    if totalLen != |packet| || totalLen < headerLen {
      return Err(InvalidPacket);
    }
    if totalLen <= tunnelMtu {
      return Ok([packet]);
    }
    if headerLen != 20 {
      return Err(HeaderOptions);
    }
    if DontFragmentBit(packet) {
      return Err(DontFragment);
    }
    if tunnelMtu < headerLen || (tunnelMtu - headerLen) / 8 * 8 < 8 {
      return Err(MtuTooSmall);
    }
    var maxPayload := (tunnelMtu - headerLen) / 8 * 8;
    var payloadLen := |packet| - headerLen;
    if payloadLen == 0 || (MoreFragments(packet) && payloadLen % 8 != 0) {
      return Err(InvalidPacket);
    }
    var baseOffset := Offset(packet);
    if baseOffset * 8 + payloadLen > 0xffff - headerLen {
      return Err(FragmentOffsetOverflow);
    }
    var fragments := CutAll(packet, tunnelMtu, maxPayload);
    r := Ok(fragments);
  }

  lemma NothingCut(packet: seq<Byte>, mtu: nat)
    ensures CutUpTo([], packet, mtu, 0)
  {
  }

  /** Every fragment but the last is as long as the tunnel allows. */
  predicate FullSized(fs: seq<seq<Byte>>, maxPayload: nat) {
    forall i :: 0 <= i < |fs| - 1 ==> |fs[i]| == 20 + maxPayload
  }

  lemma CutExtend(fs: seq<seq<Byte>>, f: seq<Byte>, packet: seq<Byte>, mtu: nat, start: nat)
    requires CutUpTo(fs, packet, mtu, start)
    requires fs != [] ==> (|fs[|fs| - 1]| - 20) % 8 == 0
    requires IsFragment(f, packet) && |f| <= mtu && StartOf(f, packet) == start
    ensures CutUpTo(fs + [f], packet, mtu, EndOf(f, packet))
  {
    var gs := fs + [f];
    forall i | 0 <= i < |gs|
      ensures IsFragment(gs[i], packet) && |gs[i]| <= mtu
      ensures i < |gs| - 1 ==> (|gs[i]| - 20) % 8 == 0
    {
      assert gs[i] == if i < |fs| then fs[i] else f;
    }
    assert fs != [] ==> gs[0] == fs[0] && gs[|gs| - 2] == fs[|fs| - 1];
  }

  /** The loop over payload chunks. */
  method CutAll(packet: seq<Byte>, tunnelMtu: nat, maxPayload: nat) returns (fragments: seq<seq<Byte>>)
    requires WellFormed(packet) && HeaderLen(packet) == 20 && |packet| > 20
    requires maxPayload % 8 == 0 && 8 <= maxPayload && maxPayload + 20 <= tunnelMtu
    requires Offset(packet) * 8 + |packet| <= 0xffff
    ensures FragmentsOf(fragments, packet, tunnelMtu) && FullSized(fragments, maxPayload)
  {
    hide CutUpTo;
    NothingCut(packet, tunnelMtu);
    var payloadLen := |packet| - 20;
    fragments := [];
    var chunkStart := 0;
    ghost var covered := 0;
    while chunkStart < payloadLen
      invariant chunkStart % 8 == 0
      invariant covered == if chunkStart < payloadLen then chunkStart else payloadLen
      invariant chunkStart > 0 ==> fragments != []
      invariant CutUpTo(fragments, packet, tunnelMtu, covered)
      invariant forall i :: 0 <= i < |fragments| && (i < |fragments| - 1 || chunkStart < payloadLen) ==>
                  |fragments[i]| == 20 + maxPayload
    {
      var chunkEnd := if chunkStart + maxPayload < payloadLen then chunkStart + maxPayload else payloadLen;
      assert Offset(packet) + chunkStart / 8 <= 0x1fff;
      var fragment := CutFragment(packet, chunkStart, chunkEnd);
      CutExtend(fragments, fragment, packet, tunnelMtu, chunkStart);
      fragments := fragments + [fragment];
      covered := chunkEnd;
      SumOfEights(chunkStart, maxPayload);
      chunkStart := chunkStart + maxPayload;
    }
  }

  lemma SumOfEights(a: nat, b: nat)
    requires a % 8 == 0 && b % 8 == 0
    ensures (a + b) % 8 == 0
  {
  }

  // ---- reassembly ----

  /** The byte a fragment contributes to position `p` of the unfragmented datagram, if any. */
  function Placed(f: seq<Byte>, p: int): Option<Byte> {
    var k := p - 8 * Offset(f);
    if 0 <= k < |f| - 20 then Some(f[20 + k]) else None
  }

  /** The receiver's buffer at position `p` after placing every fragment, later ones on top. */
  function Received(fs: seq<seq<Byte>>, p: int): Option<Byte> {
    if fs == [] then None
    else if Placed(fs[|fs| - 1], p).Some? then Placed(fs[|fs| - 1], p)
    else Received(fs[..|fs| - 1], p)
  }

  lemma {:induction false} PrefixRebuilds(fs: seq<seq<Byte>>, packet: seq<Byte>, mtu: nat, n: nat, p: int)
    requires FragmentsOf(fs, packet, mtu) && 0 < n <= |fs|
    ensures Received(fs[..n], p)
         == if p < 8 * Offset(packet) + EndOf(fs[n - 1], packet) then Placed(packet, p) else None
  {
    var f := fs[n - 1];
    assert fs[..n][..n - 1] == fs[..n - 1];
    FragmentPlaces(f, packet, p);
    if n > 1 {
      PrefixRebuilds(fs, packet, mtu, n - 1, p);
      assert StartOf(f, packet) == EndOf(fs[n - 2], packet);
    }
  }

  lemma FragmentPlaces(f: seq<Byte>, packet: seq<Byte>, p: int)
    requires IsFragment(f, packet)
    ensures var lo := 8 * Offset(packet);
            Placed(f, p) == if lo + StartOf(f, packet) <= p < lo + EndOf(f, packet) then Placed(packet, p) else None
  {
  }

  /** Placing the fragments at eight times their offsets rebuilds exactly the bytes, at exactly the
      positions, that the original packet carried, also when that packet was itself a fragment. */
  lemma Reassembles(fs: seq<seq<Byte>>, packet: seq<Byte>, mtu: nat, p: int)
    requires FragmentsOf(fs, packet, mtu)
    ensures Received(fs, p) == Received([packet], p)
  {
    PrefixRebuilds(fs, packet, mtu, |fs|, p);
    assert fs[..|fs|] == fs;
    assert [packet][..0] == [];
  }

  /** Only the last fragment can clear More Fragments, and it repeats the packet's own bit. */
  lemma LastFragmentKeepsMoreBit(fs: seq<seq<Byte>>, packet: seq<Byte>, mtu: nat, i: nat)
    requires FragmentsOf(fs, packet, mtu) && i < |fs|
    ensures MoreFragments(fs[i]) == (i < |fs| - 1 || MoreFragments(packet))
  {
    assert IsFragment(fs[i], packet);
    if i < |fs| - 1 {
      EndsIncrease(fs, packet, mtu, i);
    }
  }

  lemma EndsIncrease(fs: seq<seq<Byte>>, packet: seq<Byte>, mtu: nat, i: nat)
    requires FragmentsOf(fs, packet, mtu) && i < |fs| - 1
    ensures EndOf(fs[i], packet) < |packet| - 20
  {
    assert IsFragment(fs[i], packet) && IsFragment(fs[i + 1], packet);
    assert StartOf(fs[i + 1], packet) == EndOf(fs[i], packet);
  }

  /** No byte is sent twice: two different fragments never claim the same position. */
  lemma {:induction false} FragmentsDisjoint(fs: seq<seq<Byte>>, packet: seq<Byte>, mtu: nat, i: nat, j: nat)
    requires FragmentsOf(fs, packet, mtu) && i < j < |fs|
    ensures forall p :: Placed(fs[i], p).None? || Placed(fs[j], p).None?
    ensures EndOf(fs[i], packet) <= StartOf(fs[j], packet)
    decreases j
  {
    assert IsFragment(fs[i], packet) && IsFragment(fs[j], packet);
    assert StartOf(fs[j], packet) == EndOf(fs[j - 1], packet);
    if i < j - 1 {
      FragmentsDisjoint(fs, packet, mtu, i, j - 1);
      assert IsFragment(fs[j - 1], packet);
    }
  }
}
