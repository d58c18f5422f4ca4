/** Bytes, big-endian fields and IP addresses: the vocabulary of every packet in the model. */
module Bytes {

  type Byte = b: int | 0 <= b < 0x100
  type Word16 = w: int | 0 <= w < 0x1_0000
  type Word32 = w: int | 0 <= w < 0x1_0000_0000

  datatype Result<+T, +E> = Ok(value: T) | Err(error: E)
  datatype Option<+T> = None | Some(value: T)

  /** `u16::to_be_bytes`; reading the field back gives the value again. */
  function Be16(v: Word16): (s: seq<Byte>)
    ensures |s| == 2 && ReadBe16(s, 0) == v
  {
    [v / 0x100, v % 0x100]
  }

  function ReadBe16(s: seq<Byte>, i: nat): Word16
    requires i + 2 <= |s|
  {
    s[i] as int * 0x100 + s[i + 1]
  }

  /** `u32::to_be_bytes`; reading the field back gives the value again. */
  function Be32(v: Word32): (s: seq<Byte>)
    ensures |s| == 4 && ReadBe32(s, 0) == v
  {
    Be16(v / 0x1_0000) + Be16(v % 0x1_0000)
  }

  function ReadBe32(s: seq<Byte>, i: nat): Word32
    requires i + 4 <= |s|
  {
    ReadBe16(s, i) as int * 0x1_0000 + ReadBe16(s, i + 2)
  }

  /** `n` zero bytes. */
  function Zeros(n: nat): (s: seq<Byte>)
    ensures |s| == n && forall i :: 0 <= i < n ==> s[i] == 0
  {
    seq(n, i => 0)
  }

  /** `s[offset..offset + |field|].copy_from_slice(field)` on a value. */
  function Put(s: seq<Byte>, offset: nat, field: seq<Byte>): (r: seq<Byte>)
    requires offset + |field| <= |s|
    ensures |r| == |s|
    ensures r[offset..offset + |field|] == field
    ensures forall i :: 0 <= i < |s| && !(offset <= i < offset + |field|) ==> r[i] == s[i]
  {
    s[..offset] + field + s[offset + |field|..]
  }

  lemma PutRight(left: seq<Byte>, right: seq<Byte>, at: nat, field: seq<Byte>)
    requires at + |field| <= |right|
    ensures Put(left + right, |left| + at, field) == left + Put(right, at, field)
  {
  }

  lemma PutLeft(left: seq<Byte>, right: seq<Byte>, at: nat, field: seq<Byte>)
    requires at + |field| <= |left|
    ensures Put(left + right, at, field) == Put(left, at, field) + right
  {
  }

  method PutInPlace(a: array<Byte>, at: nat, v: Word16)
    requires at + 2 <= a.Length
    modifies a
    ensures a[..] == Put(old(a[..]), at, Be16(v))
  {
    var field := Be16(v);
    a[at], a[at + 1] := field[0], field[1];
  }

  /** The bytes of `part` stand in `s` at `at`. */
  ghost predicate Holds(s: seq<Byte>, at: nat, part: seq<Byte>) {
    at + |part| <= |s| && s[at..at + |part|] == part
  }

  lemma HoldsParts(s: seq<Byte>, at: nat, left: seq<Byte>, right: seq<Byte>)
    requires Holds(s, at, left + right)
    ensures Holds(s, at, left) && Holds(s, at + |left|, right)
  {
    var both := s[at..at + |left| + |right|];
    assert both == left + right;
    assert s[at..at + |left|] == both[..|left|];
    assert s[at + |left|..at + |left| + |right|] == both[|left|..];
  }

  lemma SubsetSize<T>(a: set<T>, b: set<T>)
    requires a <= b
    ensures |a| <= |b|
  {
    assert b == a + (b - a);
  }

  type Octets4 = s: seq<Byte> | |s| == 4 witness [0, 0, 0, 0]
  type Octets16 = s: seq<Byte> | |s| == 16 witness Zeros(16)

  datatype IpAddr = V4(octets4: Octets4) | V6(octets6: Octets16) {
    function Octets(): seq<Byte> {
      if V4? then octets4 else octets6
    }

    predicate IsUnspecified() {
      forall i :: 0 <= i < |Octets()| ==> Octets()[i] == 0
    }

    predicate IsBroadcast() {
      V4? && forall i :: 0 <= i < 4 ==> octets4[i] == 255
    }

    predicate IsMulticast() {
      if V4? then 224 <= octets4[0] <= 239 else octets6[0] == 255
    }

    predicate SameFamily(other: IpAddr) {
      V4? == other.V4?
    }

    /** A source a membership record or a captured packet may carry. */
    predicate IsValidSource() {
      !IsUnspecified() && !IsMulticast() && !IsBroadcast()
    }

    /** Groups that may leave the local link through the tunnel. */
    predicate IsForwardableGroup() {
      IsMulticast() && (if V4? then octets4[..3] != [224, 0, 0] else 3 <= octets6[1] % 16 < 15)
    }
  }

  datatype SocketAddr = SocketAddr(ip: IpAddr, port: Word16)
}
