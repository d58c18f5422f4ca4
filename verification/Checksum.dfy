/** The Internet checksum: the end-around-carry loop and what it computes. */
module Checksum {
  import opened Bytes

  const MODULUS := 0xffff

  /** The mathematical sum of the 16-bit big-endian words of `s`, an odd last byte padded with zero. */
  function Total(s: seq<Byte>): nat {
    if s == [] then 0
    else if |s| == 1 then s[0] as int * 0x100
    else ReadBe16(s, 0) + Total(s[2..])
  }

  /** The representative of `n` modulo 65535 that is zero only for zero. */
  function Reduce(n: nat): Word16 {
    if n == 0 then 0 else (n - 1) % MODULUS + 1
  }

  /** What the one's-complement sum of `s` means, without carries. */
  function OnesSum(s: seq<Byte>): Word16 {
    Reduce(Total(s))
  }

  function Complement(w: Word16): Word16 {
    MODULUS - w
  }

  function ChecksumOf(s: seq<Byte>): Word16 {
    Complement(OnesSum(s))
  }

  function Flatten(parts: seq<seq<Byte>>): seq<Byte> {
    if parts == [] then [] else Flatten(parts[..|parts| - 1]) + parts[|parts| - 1]
  }

  // ---- arithmetic of the end-around carry ----

  /** Adding one word and folding the carry once keeps the accumulator the representative of the true sum. */
  lemma FoldAddsWord(total: nat, word: Word16)
    ensures var sum := Reduce(total) + word;
            sum <= 0x1_fffe && Fold(sum) == Reduce(total + word)
  {
    hide Fold, Reduce;
    ReduceParts(total);
    FoldOnce(Reduce(total) + word);
    if total == 0 {
      ReduceFrom(0, word);
    } else {
      ReduceFrom((total - 1) / MODULUS, Reduce(total) + word);
    }
  }

  lemma FoldOnce(sum: nat)
    requires sum <= 0x1_fffe
    ensures Fold(sum) == if sum <= 0xffff then sum else sum - 0xffff
  {
  }

  lemma ReduceParts(total: nat)
    ensures total == 0 ==> Reduce(total) == 0
    ensures total > 0 ==> Reduce(total) > 0 && total == (total - 1) / MODULUS * MODULUS + Reduce(total)
  {
  }

  /** Whole multiples of the modulus do not change the representative of a positive number. */
  lemma ReduceFrom(q: nat, n: nat)
    requires n <= 0x1_fffe && (n > 0 || q == 0)
    ensures Reduce(q * MODULUS + n) == if n <= 0xffff then n else n - 0xffff
  {
    if n > 0xffff {
      ModShift(q + 1, n - 0xffff - 1);
      assert q * MODULUS + n - 1 == (q + 1) * MODULUS + (n - 0xffff - 1);
    } else if n > 0 {
      ModShift(q, n - 1);
    }
  }

  lemma {:induction false} ModShift(q: nat, x: nat)
    requires x < MODULUS
    ensures (q * MODULUS + x) % MODULUS == x
  {
    if q > 0 {
      ModShift(q - 1, x);
      assert q * MODULUS + x == (q - 1) * MODULUS + x + MODULUS;
    }
  }

  // ---- sums of concatenations ----

  lemma {:induction false} TotalConcat(a: seq<Byte>, b: seq<Byte>)
    requires |a| % 2 == 0
    ensures Total(a + b) == Total(a) + Total(b)
  {
    if a == [] {
      assert a + b == b;
    } else {
      assert (a + b)[2..] == a[2..] + b;
      TotalConcat(a[2..], b);
    }
  }

  lemma FlattenPrefix(parts: seq<seq<Byte>>, i: nat)
    requires i < |parts|
    ensures Flatten(parts[..i + 1]) == Flatten(parts[..i]) + parts[i]
  {
    assert parts[..i + 1][..i] == parts[..i];
  }

  function Fold(sum: nat): nat {
    sum % 0x1_0000 + sum / 0x1_0000
  }

  /** One completed word: the accumulator moves from the sum of `even` to the sum of `even + word`. */
  lemma WordStep(even: seq<Byte>, word: seq<Byte>)
    requires |even| % 2 == 0 && |word| == 2
    ensures var sum := OnesSum(even) + ReadBe16(word, 0);
            sum <= 0x1_fffe && Fold(sum) == OnesSum(even + word)
  {
    hide Reduce, Fold, Total;
    TotalConcat(even, word);
    TotalWord(word);
    FoldAddsWord(Total(even), ReadBe16(word, 0));
  }

  /** The trailing byte counts as the high half of a word. */
  lemma LastByteStep(even: seq<Byte>, high: Byte)
    requires |even| % 2 == 0
    ensures var sum := OnesSum(even) + ReadBe16([high, 0], 0);
            sum <= 0x1_fffe && Fold(sum) == OnesSum(even + [high])
  {
    hide Reduce, Fold, Total;
    TotalConcat(even, [high]);
    TotalByte(high);
    FoldAddsWord(Total(even), ReadBe16([high, 0], 0));
  }

  /** The loop variables after consuming `bytes`: complete words are in `sum`, an odd byte waits. */
  ghost predicate Summed(bytes: seq<Byte>, sum: nat, highByte: Option<Byte>) {
    if |bytes| % 2 == 0 then
      highByte == None && sum == OnesSum(bytes)
    else
      highByte == Some(bytes[|bytes| - 1]) && sum == OnesSum(bytes[..|bytes| - 1])
  }

  lemma SummedStep(bytes: seq<Byte>, sum: nat, highByte: Option<Byte>, byte: Byte)
    requires Summed(bytes, sum, highByte)
    ensures highByte.None? ==> Summed(bytes + [byte], sum, Some(byte))
    ensures highByte.Some? ==> var s := sum + ReadBe16([highByte.value, byte], 0);
                               s <= 0x1_fffe && Summed(bytes + [byte], Fold(s), None)
  {
    hide OnesSum, Fold, ReadBe16;
    if highByte.None? {
      HoldByte(bytes, sum, byte);
    } else {
      CompleteWord(bytes, byte);
    }
  }

  lemma HoldByte(bytes: seq<Byte>, sum: nat, byte: Byte)
    requires |bytes| % 2 == 0 && sum == OnesSum(bytes)
    ensures Summed(bytes + [byte], sum, Some(byte))
  {
    hide OnesSum;
    assert (bytes + [byte])[..|bytes|] == bytes;
  }

  lemma CompleteWord(bytes: seq<Byte>, byte: Byte)
    requires |bytes| % 2 == 1
    ensures var even, high := bytes[..|bytes| - 1], bytes[|bytes| - 1];
            var s := OnesSum(even) + ReadBe16([high, byte], 0);
            s <= 0x1_fffe && Summed(bytes + [byte], Fold(s), None)
  {
    hide OnesSum, Fold, ReadBe16;
    var even, high := bytes[..|bytes| - 1], bytes[|bytes| - 1];
    WordStep(even, [high, byte]);
    Regroup(bytes, byte);
  }

  lemma Regroup(bytes: seq<Byte>, byte: Byte)
    requires bytes != []
    ensures bytes + [byte] == bytes[..|bytes| - 1] + [bytes[|bytes| - 1], byte]
  {
  }

  lemma SummedFinish(bytes: seq<Byte>, sum: nat, highByte: Option<Byte>)
    requires Summed(bytes, sum, highByte)
    ensures highByte.None? ==> sum == OnesSum(bytes)
    ensures highByte.Some? ==> var s := sum + ReadBe16([highByte.value, 0], 0);
                               s <= 0x1_fffe && Fold(s) == OnesSum(bytes)
  {
    hide OnesSum, Fold;
    if highByte.Some? {
      LastByteStep(bytes[..|bytes| - 1], highByte.value);
      assert bytes == bytes[..|bytes| - 1] + [highByte.value];
    }
  }

  lemma SummedNothing(parts: seq<seq<Byte>>)
    ensures Summed(Flatten(parts[..0]), 0, None)
  {
    assert parts[..0] == [];
  }

  /** The sum loop of the source: words may straddle part boundaries through the pending high byte.
      The accumulator never leaves 17 bits, and the result depends only on the concatenated bytes. */
  method OnesComplementSumParts(parts: seq<seq<Byte>>) returns (r: Word16)
    ensures r == OnesSum(Flatten(parts))
  {
    hide Summed, OnesSum, Flatten;
    var sum: Word32 := 0;
    var highByte: Option<Byte> := None;
    var i := 0;
    SummedNothing(parts);
    while i < |parts|
      invariant i <= |parts|
      invariant Summed(Flatten(parts[..i]), sum, highByte)
    {
      ghost var before := Flatten(parts[..i]);
      FlattenPrefix(parts, i);
      var part := parts[i];
      var j := 0;
      assert before + part[..0] == before;
      while j < |part|
        invariant j <= |part|
        invariant Summed(before + part[..j], sum, highByte)
      {
        SummedStep(before + part[..j], sum, highByte, part[j]);
        assert before + part[..j + 1] == before + part[..j] + [part[j]];
        if highByte.Some? {
          sum := sum + ReadBe16([highByte.value, part[j]], 0);
          sum := Fold(sum);
          highByte := None;
        } else {
          highByte := Some(part[j]);
        }
        j := j + 1;
      }
      assert part[..|part|] == part;
      i := i + 1;
    }
    assert parts[..|parts|] == parts;
    SummedFinish(Flatten(parts), sum, highByte);
    if highByte.Some? {
      sum := sum + ReadBe16([highByte.value, 0], 0);
      sum := Fold(sum);
    }
    r := sum;
  }

  method ChecksumParts(parts: seq<seq<Byte>>) returns (r: Word16)
    ensures r == ChecksumOf(Flatten(parts))
  {
    var sum := OnesComplementSumParts(parts);
    r := Complement(sum);
  }

  lemma FlattenOne(s: seq<Byte>)
    ensures Flatten([s]) == s
  {
  }

  /** The checksum of one contiguous buffer. */
  method InternetChecksum(bytes: seq<Byte>) returns (r: Word16)
    ensures r == ChecksumOf(bytes)
  {
    FlattenOne(bytes);
    r := ChecksumParts([bytes]);
  }

  // ---- inserting a checksum ----

  /** What precedes an upper-layer message over IPv6 in its checksum. */
  function Ipv6Pseudo(source: seq<Byte>, destination: seq<Byte>, len: Word32, nextHeader: Byte): (s: seq<Byte>)
    requires |source| == 16 && |destination| == 16
    ensures |s| == 40
  {
    source + destination + Be32(len) + [0, 0, 0, nextHeader]
  }

  /** Its share of the sum: both addresses, the length and the protocol. */
  lemma Ipv6PseudoTotal(source: seq<Byte>, destination: seq<Byte>, len: Word16, nextHeader: Byte)
    requires |source| == 16 && |destination| == 16
    ensures Total(Ipv6Pseudo(source, destination, len, nextHeader)) ==
            Total(source) + Total(destination) + len + nextHeader
  {
    hide Total;
    TotalConcat(source + destination + Be32(len), [0, 0, 0, nextHeader]);
    TotalConcat(source + destination, Be32(len));
    TotalConcat(source, destination);
    TotalFour(Be32(len));
    TotalFour([0, 0, 0, nextHeader]);
    assert Be32(len)[0] == 0 && Be32(len)[1] == 0 && ReadBe16(Be32(len), 2) == len;
  }

  lemma TotalFour(s: seq<Byte>)
    requires |s| == 4
    ensures Total(s) == ReadBe16(s, 0) + ReadBe16(s, 2)
  {
    hide Total;
    assert s == s[..2] + s[2..];
    TotalConcat(s[..2], s[2..]);
    TotalWord(s[..2]);
    TotalWord(s[2..]);
  }

  /** The UDP rule: a computed zero is sent as all ones. */
  function UdpChecksumOf(s: seq<Byte>): (c: Word16)
    ensures c != 0
  {
    if ChecksumOf(s) == 0 then 0xffff else ChecksumOf(s)
  }

  lemma ComplementCompletes(total: nat, c: Word16)
    requires c == Complement(Reduce(total)) || (Complement(Reduce(total)) == 0 && c == 0xffff)
    ensures Reduce(total + c) == 0xffff
  {
  }

  /** Writing a 16-bit field over zeros at an even offset adds exactly its value to the sum. */
  lemma TotalPut(s: seq<Byte>, at: nat, c: Word16)
    requires at % 2 == 0 && at + 2 <= |s| && s[at] == 0 && s[at + 1] == 0
    ensures Total(Put(s, at, Be16(c))) == Total(s) + c
  {
    hide Total, ReadBe16;
    Around(s, at);
    TotalAround(s[..at], [0, 0], s[at + 2..]);
    TotalAround(s[..at], Be16(c), s[at + 2..]);
    ZeroWord();
  }

  lemma Around(s: seq<Byte>, at: nat)
    requires at + 2 <= |s| && s[at] == 0 && s[at + 1] == 0
    ensures s == s[..at] + [0, 0] + s[at + 2..]
  {
  }

  lemma ZeroWord()
    ensures ReadBe16([0, 0], 0) == 0
  {
  }

  lemma TotalAround(front: seq<Byte>, word: seq<Byte>, tail: seq<Byte>)
    requires |front| % 2 == 0 && |word| == 2
    ensures Total(front + word + tail) == Total(front) + ReadBe16(word, 0) + Total(tail)
  {
    hide Total;
    TotalConcat(front + word, tail);
    TotalConcat(front, word);
    TotalWord(word);
  }

  lemma TotalWord(w: seq<Byte>)
    requires |w| == 2
    ensures Total(w) == ReadBe16(w, 0)
  {
    assert w[2..] == [];
  }

  lemma TotalByte(high: Byte)
    ensures Total([high]) == ReadBe16([high, 0], 0)
  {
  }

  /** A checksum inserted at an even zeroed field always verifies, whatever precedes the message in the sum. */
  lemma InsertedChecksumVerifies(pseudo: seq<Byte>, s: seq<Byte>, at: nat, c: Word16)
    requires |pseudo| % 2 == 0
    requires at % 2 == 0 && at + 2 <= |s| && s[at] == 0 && s[at + 1] == 0
    requires c == ChecksumOf(pseudo + s) || c == UdpChecksumOf(pseudo + s)
    ensures OnesSum(pseudo + Put(s, at, Be16(c))) == 0xffff
  {
    hide Total, Reduce, Put;
    TotalConcat(pseudo, s);
    TotalConcat(pseudo, Put(s, at, Be16(c)));
    TotalPut(s, at, c);
    ComplementCompletes(Total(pseudo + s), c);
  }

  /** The case without a pseudo-header: IPv4 headers and IGMP. */
  lemma HeaderChecksumVerifies(s: seq<Byte>, at: nat)
    requires at % 2 == 0 && at + 2 <= |s| && s[at] == 0 && s[at + 1] == 0
    ensures OnesSum(Put(s, at, Be16(ChecksumOf(s)))) == 0xffff
  {
    TotalPut(s, at, ChecksumOf(s));
    ComplementCompletes(Total(s), ChecksumOf(s));
  }

  /** Conversely the field that makes a message verify is unique up to the two representations of zero. */
  lemma VerifyingFieldUnique(pseudo: seq<Byte>, s: seq<Byte>, at: nat, c: Word16)
    requires |pseudo| % 2 == 0
    requires at % 2 == 0 && at + 2 <= |s| && s[at] == 0 && s[at + 1] == 0
    requires OnesSum(pseudo + Put(s, at, Be16(c))) == 0xffff
    ensures c % MODULUS == ChecksumOf(pseudo + s) % MODULUS
  {
    hide Total, Reduce, Put, Complement;
    TotalConcat(pseudo, s);
    TotalConcat(pseudo, Put(s, at, Be16(c)));
    TotalPut(s, at, c);
    var total := Total(pseudo + s);
    ReduceCongruent(total);
    ReduceCongruent(total + c);
    CongruentComplement(total, Reduce(total), c);
  }

  lemma ReduceCongruent(n: nat)
    ensures exists q: nat :: n == q * MODULUS + Reduce(n)
  {
    if n == 0 {
      assert n == 0 * MODULUS + Reduce(n);
    } else {
      assert n == (n - 1) / MODULUS * MODULUS + Reduce(n);
    }
  }

  lemma CongruentComplement(total: nat, r: Word16, c: Word16)
    requires exists q: nat :: total == q * MODULUS + r
    requires exists q: nat :: total + c == q * MODULUS + MODULUS
    ensures c % MODULUS == Complement(r) % MODULUS
  {
  }
}
