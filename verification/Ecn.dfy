/** ECN decapsulation in place (RFC 6040, as RFC 9601 asks of AMT). */
module Ecn {
  import opened Bytes
  import Checksum

  datatype Codepoint = NotEct | Ect1 | Ect0 | Ce

  function Bits(c: Codepoint): Byte {
    match c case NotEct => 0 case Ect1 => 1 case Ect0 => 2 case Ce => 3
  }

  function FromBits(b: Byte): (c: Codepoint)
    ensures Bits(c) == b % 4
  {
    if b % 4 == 1 then Ect1 else if b % 4 == 2 then Ect0 else if b % 4 == 3 then Ce else NotEct
  }

  datatype Error = Truncated | UnsupportedVersion(version: nat) | InvalidHeader | InvalidLength

  datatype Decapsulation = Decapsulation(inner: Codepoint, outer: Codepoint, output: Option<Codepoint>,
      currentlyUnused: bool)

  function ValidateIpv4(p: seq<Byte>): (r: Result<nat, Error>)
    ensures r.Ok? ==> 20 <= r.value <= |p|
  {
    if |p| < 20 then Err(Truncated)
    else
      var len := p[0] % 16 * 4;
      if len < 20 || len > |p| then Err(InvalidHeader)
      else if ReadBe16(p, 2) < len || ReadBe16(p, 2) != |p| then Err(InvalidLength)
      else Ok(len)
  }

  function ValidateIpv6(p: seq<Byte>): (r: Result<nat, Error>)
    ensures r.Ok? ==> r.value == 40 <= |p|
  {
    if |p| < 40 then Err(Truncated)
    else if 40 + ReadBe16(p, 4) as int != |p| then Err(InvalidLength)
    else Ok(40)
  }

  /** The header length of a packet whose lengths are consistent. */
  function Validate(p: seq<Byte>): (r: Result<nat, Error>)
    ensures r.Ok? ==> 20 <= r.value <= |p| && p[0] / 16 in {4, 6}
  {
    if p == [] then Err(Truncated)
    else if p[0] / 16 == 4 then ValidateIpv4(p)
    else if p[0] / 16 == 6 then ValidateIpv6(p)
    else Err(UnsupportedVersion(p[0] / 16))
  }

  /** An IP packet of either version whose length fields fit the buffer exactly. */
  predicate Whole(p: seq<Byte>) {
    || (|p| >= 20 && p[0] / 16 == 4 && 20 <= p[0] % 16 * 4 <= |p| && ReadBe16(p, 2) == |p|)
    || (|p| >= 40 && p[0] / 16 == 6 && 40 + ReadBe16(p, 4) as int == |p|)
  }

  lemma WholeExactly(p: seq<Byte>)
    ensures Validate(p).Ok? <==> Whole(p)
    ensures Whole(p) && p[0] / 16 == 4 ==> Validate(p).value == p[0] % 16 * 4
  {
  }

  /** The two bits of the packet's second byte that hold the field. */
  function Field(p: seq<Byte>): Codepoint
    requires |p| >= 20
  {
    if p[0] / 16 == 4 then FromBits(p[1]) else FromBits(p[1] / 16)
  }

  function IpEcn(p: seq<Byte>): Result<Codepoint, Error> {
    if Validate(p).Err? then Err(Validate(p).error) else Ok(Field(p))
  }

  /** Figure 4 of RFC 6040. */
  function Output(inner: Codepoint, outer: Codepoint): (Option<Codepoint>, bool) {
    match inner
    case NotEct => if outer.Ce? then (None, true) else (Some(NotEct), !outer.NotEct?)
    case Ect0 => (Some(if outer.Ect1? || outer.Ce? then outer else Ect0), false)
    case Ect1 => (Some(if outer.Ce? then Ce else Ect1), outer.Ect0?)
    case Ce => (Some(Ce), outer.Ect1?)
  }

  function WithField(b: Byte, v4: bool, ecn: Codepoint): (r: Byte)
    ensures v4 ==> r % 4 == Bits(ecn) && r / 4 == b / 4
    ensures !v4 ==> r / 16 % 4 == Bits(ecn) && r % 16 == b % 16 && r / 64 == b / 64
  {
    if v4 then
      Pack2(b / 4, Bits(ecn));
      b / 4 * 4 + Bits(ecn)
    else
      Pack3(b / 64, Bits(ecn), b % 16);
      b / 64 * 64 + Bits(ecn) * 16 + b % 16
  }

  lemma Pack2(h: nat, e: nat)
    requires h < 64 && e < 4
    ensures (h * 4 + e) % 4 == e && (h * 4 + e) / 4 == h
  {
  }

  lemma Pack3(h: nat, e: nat, l: nat)
    requires h < 4 && e < 4 && l < 16
    ensures var r := h * 64 + e * 16 + l; r / 16 % 4 == e && r % 16 == l && r / 64 == h
  {
    var r := h * 64 + e * 16 + l;
    assert r == (h * 4 + e) * 16 + l;
    assert r / 16 == h * 4 + e && r % 16 == l;
    Pack2(h, e);
    assert r / 64 == h by {
      assert e * 16 + l < 64;
    }
  }

  /** The packet with its field set to `ecn`, and nothing else of it touched but the IPv4 header checksum. */
  ghost predicate FieldSet(before: seq<Byte>, after: seq<Byte>, ecn: Codepoint) {
    && Validate(before).Ok? && |after| == |before| && Validate(after) == Validate(before) && Field(after) == ecn
    && (var v4 := before[0] / 16 == 4;
        && after[1] == WithField(before[1], v4, ecn)
        && (forall i :: 0 <= i < |before| && i != 1 && !(v4 && 10 <= i < 12) ==> after[i] == before[i])
        && (v4 ==> Checksum.OnesSum(after[..Validate(before).value]) == 0xffff))
  }

  function WithEcn(p: seq<Byte>, ecn: Codepoint): (r: seq<Byte>)
    requires Validate(p).Ok?
    ensures |r| == |p|
  {
    if p[0] / 16 == 4 then
      var zeroed := p[1 := WithField(p[1], true, ecn)][10 := 0][11 := 0];
      var checksum := Be16(Checksum.ChecksumOf(zeroed[..Validate(p).value]));
      zeroed[10 := checksum[0]][11 := checksum[1]]
    else p[1 := WithField(p[1], false, ecn)]
  }

  lemma SealedHeader(zeroed: seq<Byte>, len: nat)
    requires 20 <= len <= |zeroed| && zeroed[10] == 0 && zeroed[11] == 0
    ensures var checksum := Be16(Checksum.ChecksumOf(zeroed[..len]));
            Checksum.OnesSum(zeroed[10 := checksum[0]][11 := checksum[1]][..len]) == 0xffff
  {
    hide Checksum.OnesSum, Checksum.ChecksumOf;
    var checksum := Be16(Checksum.ChecksumOf(zeroed[..len]));
    Checksum.HeaderChecksumVerifies(zeroed[..len], 10);
    assert zeroed[10 := checksum[0]][11 := checksum[1]][..len] == Put(zeroed[..len], 10, checksum);
  }

  lemma WithEcnSets(p: seq<Byte>, ecn: Codepoint)
    requires Validate(p).Ok?
    ensures FieldSet(p, WithEcn(p, ecn), ecn)
  {
    hide Checksum.OnesSum, Checksum.ChecksumOf;
    if p[0] / 16 == 4 {
      SealedHeader(p[1 := WithField(p[1], true, ecn)][10 := 0][11 := 0], Validate(p).value);
    }
  }

  /** Sets the field and repairs the checksum where they stand; a packet whose lengths do not fit is refused. */
  method SetIpEcn(a: array<Byte>, ecn: Codepoint) returns (error: Option<Error>)
    modifies a
    ensures error.None? <==> Validate(old(a[..])).Ok?
    ensures error.Some? ==> error.value == Validate(old(a[..])).error && a[..] == old(a[..])
    ensures error.None? ==> a[..] == WithEcn(old(a[..]), ecn) && FieldSet(old(a[..]), a[..], ecn)
  {
    hide Checksum.OnesSum, Checksum.ChecksumOf, FieldSet;
    var valid := Validate(a[..]);
    if valid.Err? {
      return Some(valid.error);
    }
    WithEcnSets(a[..], ecn);
    if a[0] / 16 == 4 {
      a[1] := WithField(a[1], true, ecn);
      a[10], a[11] := 0, 0;
      ghost var zeroed := a[..];
      assert a[..valid.value] == zeroed[..valid.value];
      var checksum := Checksum.InternetChecksum(a[..valid.value]);
      var field := Be16(checksum);
      a[10], a[11] := field[0], field[1];
    } else {
      a[1] := WithField(a[1], false, ecn);
    }
    error := None;
  }

  /** What decapsulation decides, and the packet that comes out. */
  function Decapsulate(p: seq<Byte>, outer: Codepoint): Result<(Decapsulation, seq<Byte>), Error> {
    if Validate(p).Err? then Err(Validate(p).error)
    else
      var inner := Field(p);
      var (output, unused) := Output(inner, outer);
      var after := if output.Some? && output.value != inner then WithEcn(p, output.value) else p;
      Ok((Decapsulation(inner, outer, output, unused), after))
  }

  /** A packet that is forwarded reads as the table's output, with nothing else changed and a header checksum
      that verifies if the field had to change. A congestion mark on either header survives, unless the packet
      is dropped, and only one that cannot carry a mark is dropped, under a mark. */
  lemma DecapsulationMeans(p: seq<Byte>, outer: Codepoint)
    requires Whole(p)
    ensures Decapsulate(p, outer).Ok?
    ensures var (d, after) := Decapsulate(p, outer).value;
            && |after| == |p| && d.outer == outer && d.inner == Field(p)
            && Bits(d.inner) == (if p[0] / 16 == 4 then p[1] % 4 else p[1] / 16 % 4)
            && (d.currentlyUnused <==>
                  || (d.inner.NotEct? && !outer.NotEct?)
                  || (d.inner.Ect1? && outer.Ect0?)
                  || (d.inner.Ce? && outer.Ect1?))
            && (d.output.None? <==> d.inner.NotEct? && outer.Ce?)
            && (d.output.None? || d.output.value == d.inner ==> after == p)
            && (d.output.Some? ==>
                  && Field(after) == d.output.value
                  && (d.output.value != d.inner ==> FieldSet(p, after, d.output.value))
                  && (d.inner.NotEct? <==> d.output.value.NotEct?)
                  && (d.output.value.Ce? <==> d.inner.Ce? || (outer.Ce? && !d.inner.NotEct?))
                  && (d.output.value.Ect1? <==> (d.inner.Ect1? && !outer.Ce?) || (d.inner.Ect0? && outer.Ect1?)))
  {
    hide WithEcn, Checksum.OnesSum;
    WholeExactly(p);
    var (output, unused) := Output(Field(p), outer);
    if output.Some? {
      WithEcnSets(p, output.value);
    }
  }

  method DecapsulateEcn(a: array<Byte>, outer: Codepoint) returns (r: Result<Decapsulation, Error>)
    modifies a
    ensures match Decapsulate(old(a[..]), outer)
            case Err(e) => r == Err(e) && a[..] == old(a[..])
            case Ok((d, after)) => r == Ok(d) && a[..] == after
  {
    hide WithEcn, FieldSet;
    var inner := IpEcn(a[..]);
    if inner.Err? {
      return Err(inner.error);
    }
    var (output, unused) := Output(inner.value, outer);
    r := Ok(Decapsulation(inner.value, outer, output, unused));
    if output.Some? && output.value != inner.value {
      var error := SetIpEcn(a, output.value);
    }
  }
}
