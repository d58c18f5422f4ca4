/** DNS names on the wire (sections 3.1 and 4.1.4 of RFC 1035). A name is the UTF-8 bytes of a string. */
module DnsName {
  import opened Bytes

  type Label = seq<Byte>
  const DOT: Byte := 0x2e
  const MAX_STEPS := 128

  // ---- UTF-8 ----

  predicate Continues(s: seq<Byte>, i: nat) { i < |s| && 0x80 <= s[i] < 0xc0 }

  /** The length of the character at the front, 0 if there is none (table 3-7 of the Unicode standard). */
  function CharLen(s: seq<Byte>): (n: nat)
    ensures n <= 4 && n <= |s|
  {
    if s == [] then 0
    else if s[0] < 0x80 then 1
    else if 0xc2 <= s[0] < 0xe0 then (if Continues(s, 1) then 2 else 0)
    else if 0xe0 <= s[0] < 0xf0 then
      if Continues(s, 1) && Continues(s, 2) && (s[0] == 0xe0 ==> s[1] >= 0xa0) && (s[0] == 0xed
          ==> s[1] < 0xa0) then 3 else 0
    else if 0xf0 <= s[0] < 0xf5 then
      if Continues(s, 1) && Continues(s, 2) && Continues(s, 3) && (s[0] == 0xf0 ==> s[1] >= 0x90) && (s[0] == 0xf4
          ==> s[1] < 0x90)
      then 4 else 0
    else 0
  }

  predicate Utf8(s: seq<Byte>) {
    s == [] || (CharLen(s) > 0 && Utf8(s[CharLen(s)..]))
  }

  /** A string cut at a dot falls into two strings. */
  lemma {:induction false} CutAtDot(s: seq<Byte>, i: nat)
    requires Utf8(s) && i < |s| && s[i] == DOT
    ensures Utf8(s[..i]) && Utf8(s[i + 1..])
    decreases |s|
  {
    var c := CharLen(s);
    if i >= c {
      assert s[c..][i - c] == DOT;
      CutAtDot(s[c..], i - c);
      assert s[c..][..i - c] == s[..i][c..];
      assert s[c..][i - c + 1..] == s[i + 1..];
      assert CharLen(s[..i]) == c;
    } else {
      assert c == 1 && i == 0;
    }
  }

  // ---- splitting and joining ----

  function FirstDot(s: seq<Byte>): (n: nat)
    ensures n <= |s| && (n < |s| ==> s[n] == DOT) && DOT !in s[..n]
  {
    if s == [] || s[0] == DOT then 0
    else
      var n := FirstDot(s[1..]);
      assert s[..n + 1] == [s[0]] + s[1..][..n];
      n + 1
  }

  function Split(s: seq<Byte>): (labels: seq<Label>)
    ensures |labels| > 0
    decreases |s|
  {
    var n := FirstDot(s);
    if n == |s| then [s] else [s[..n]] + Split(s[n + 1..])
  }

  function Join(labels: seq<Label>): seq<Byte> {
    if labels == [] then []
    else if |labels| == 1 then labels[0]
    else labels[0] + [DOT] + Join(labels[1..])
  }

  lemma JoinCons(l: Label, rest: seq<Label>)
    requires rest != []
    ensures Join([l] + rest) == l + [DOT] + Join(rest)
  {
    assert ([l] + rest)[1..] == rest;
  }

  lemma CutAt(s: seq<Byte>, n: nat)
    requires n < |s| && s[n] == DOT
    ensures s == s[..n] + [DOT] + s[n + 1..]
  {
  }

  lemma SplitCons(s: seq<Byte>)
    requires FirstDot(s) < |s|
    ensures var n := FirstDot(s); Split(s) == [s[..n]] + Split(s[n + 1..])
  {
    hide FirstDot;
  }

  lemma {:induction false} JoinSplit(s: seq<Byte>)
    ensures Join(Split(s)) == s
    decreases |s|, 1
  {
    hide FirstDot;
    var n := FirstDot(s);
    if n < |s| {
      JoinLast(s);
    } else {
      assert Join([s]) == s;
    }
  }

  lemma {:induction false} JoinLast(s: seq<Byte>)
    requires FirstDot(s) < |s|
    ensures Join(Split(s)) == s
    decreases |s|, 0
  {
    hide FirstDot, Split, Join;
    var n := FirstDot(s);
    SplitCons(s);
    CutAt(s, n);
    JoinSplit(s[n + 1..]);
    JoinCons(s[..n], Split(s[n + 1..]));
  }

  lemma {:induction false} SplitUtf8(s: seq<Byte>)
    requires Utf8(s)
    ensures forall i :: 0 <= i < |Split(s)| ==> Utf8(Split(s)[i])
    decreases |s|
  {
    var n := FirstDot(s);
    if n < |s| {
      CutAtDot(s, n);
      SplitUtf8(s[n + 1..]);
    }
  }

  /** `trim_end_matches('.')`. */
  function Trimmed(s: seq<Byte>): seq<Byte> {
    if s != [] && s[|s| - 1] == DOT then Trimmed(s[..|s| - 1]) else s
  }

  /** What is cut off are dots, all of them. */
  lemma {:induction false} TrimmedExactly(s: seq<Byte>)
    ensures var n := |Trimmed(s)|;
            && n <= |s| && Trimmed(s) == s[..n] && (n > 0 ==> s[n - 1] != DOT)
            && forall i :: n <= i < |s| ==> s[i] == DOT
    decreases |s|
  {
    if s != [] && s[|s| - 1] == DOT {
      var front := s[..|s| - 1];
      TrimmedExactly(front);
      var n := |Trimmed(front)|;
      assert Trimmed(s) == Trimmed(front) && front[..n] == s[..n];
      assert n > 0 ==> front[n - 1] == s[n - 1];
      forall i | n <= i < |s| ensures s[i] == DOT {
        assert i < |front| ==> front[i] == s[i];
      }
    } else {
      assert Trimmed(s) == s == s[..|s|];
    }
  }

  lemma {:induction false} TrimmedUtf8(s: seq<Byte>)
    requires Utf8(s)
    ensures Utf8(Trimmed(s))
    decreases |s|
  {
    if s != [] && s[|s| - 1] == DOT {
      CutAtDot(s, |s| - 1);
      TrimmedUtf8(s[..|s| - 1]);
    }
  }

  // ---- writing ----

  predicate GoodLabel(l: Label) { 1 <= |l| <= 63 }

  ghost predicate GoodLabels(labels: seq<Label>) {
    forall i :: 0 <= i < |labels| ==> GoodLabel(labels[i])
  }

  function LabelBytes(labels: seq<Label>): seq<Byte>
    requires GoodLabels(labels)
  {
    if labels == [] then [] else [|labels[0]|] + labels[0] + LabelBytes(labels[1..])
  }

  function WireLabels(name: seq<Byte>): seq<Label> { if Trimmed(name) == [] then [] else Split(Trimmed(name)) }

  /** The names the writer takes. */
  ghost predicate Encodable(name: seq<Byte>) {
    |Trimmed(name)| <= 253 && GoodLabels(WireLabels(name))
  }

  function WireName(name: seq<Byte>): seq<Byte>
    requires Encodable(name)
  {
    LabelBytes(WireLabels(name)) + [0]
  }

  /** How many labels have been written when a name is refused: none of a long one, otherwise those before the
      first bad one. */
  ghost predicate RefusedAt(name: seq<Byte>, k: nat) {
    var labels := WireLabels(name);
    && k <= |labels| && GoodLabels(labels[..k])
    && if |Trimmed(name)| > 253 then k == 0 else k < |labels| && !GoodLabel(labels[k])
  }

  /** On failure the labels before the bad one stay in the buffer. */
  method PutDnsName(buffer: seq<Byte>, name: seq<Byte>) returns (ok: bool, out: seq<Byte>)
    ensures ok <==> Encodable(name)
    ensures ok ==> out == buffer + WireName(name)
    ensures !ok ==> exists k: nat :: RefusedAt(name, k) && out == buffer + LabelBytes(WireLabels(name)[..k])
  {
    hide LabelBytes, GoodLabel, Split;
    NoLabelBytes();
    var trimmed := Trimmed(name);
    if trimmed == [] {
      return true, buffer + [0];
    }
    if |trimmed| > 253 {
      assert RefusedAt(name, 0) && WireLabels(name)[..0] == [];
      return false, buffer;
    }
    var labels := Split(trimmed);
    out := buffer;
    for i := 0 to |labels|
      invariant GoodLabels(labels[..i])
      invariant out == buffer + LabelBytes(labels[..i])
    {
      if labels[i] == [] || |labels[i]| > 63 {
        BadLabelIs(labels[i]);
        assert RefusedAt(name, i);
        return false, out;
      }
      GoodLabelIs(labels[i]);
      LabelBytesSnoc(labels[..i], labels[i]);
      assert labels[..i + 1] == labels[..i] + [labels[i]];
      out := out + [|labels[i]|];
      out := out + labels[i];
    }
    assert labels[..|labels|] == labels;
    ok, out := true, out + [0];
  }

  lemma NoLabelBytes()
    ensures LabelBytes([]) == []
  {
  }

  lemma GoodLabelIs(l: Label)
    requires l != [] && |l| <= 63
    ensures GoodLabel(l)
  {
  }

  lemma BadLabelIs(l: Label)
    requires l == [] || |l| > 63
    ensures !GoodLabel(l)
  {
  }

  lemma {:induction false} LabelBytesSnoc(labels: seq<Label>, l: Label)
    requires GoodLabels(labels) && GoodLabel(l)
    ensures GoodLabels(labels + [l]) && LabelBytes(labels + [l]) == LabelBytes(labels) + [|l|] + l
  {
    if labels == [] {
      assert (labels + [l])[1..] == [];
    } else {
      LabelBytesSnoc(labels[1..], l);
      assert (labels + [l])[1..] == labels[1..] + [l];
      assert GoodLabels(labels + [l]);
    }
  }

  // ---- reading ----

  datatype NameError = TruncatedName | BadLabel | BadPointer

  datatype Parsed = Parsed(labels: seq<Label>, next: nat)

  function Prepend(done: seq<Label>, r: Result<Parsed, NameError>): Result<Parsed, NameError> {
    if r.Ok? then Ok(Parsed(done + r.value.labels, r.value.next)) else r
  }

  /** At most `steps` labels and pointers from `cursor`; `next` is where reading goes on once a pointer has
      been followed. */
  function ParseFrom(m: seq<Byte>, cursor: nat, next: Option<nat>, steps: nat): Result<Parsed, NameError>
    decreases steps
  {
    if steps == 0 then Err(BadPointer)
    else if cursor >= |m| then Err(TruncatedName)
    else if m[cursor] == 0 then Ok(Parsed([], if next.Some? then next.value else cursor + 1))
    else if m[cursor] < 0x40 then
      var end := cursor + 1 + m[cursor];
      if end > |m| then Err(TruncatedName)
      else if !Utf8(m[cursor + 1..end]) then Err(BadLabel)
      else Prepend([m[cursor + 1..end]], ParseFrom(m, end, next, steps - 1))
    else if m[cursor] >= 0xc0 then
      if cursor + 1 >= |m| then Err(TruncatedName)
      else
        var pointer := (m[cursor] - 0xc0) as int * 0x100 + m[cursor + 1];
        if pointer >= |m| then Err(BadPointer)
        else ParseFrom(m, pointer, Some(if next.Some? then next.value else cursor + 2), steps - 1)
    else Err(BadPointer)
  }

  function Parse(m: seq<Byte>, offset: nat): Result<(seq<Byte>, nat), NameError> {
    match ParseFrom(m, offset, None, MAX_STEPS)
    case Err(e) => Err(e)
    case Ok(p) => Ok((Join(p.labels), p.next))
  }

  lemma PrependAssoc(done: seq<Label>, l: Label, r: Result<Parsed, NameError>)
    ensures Prepend(done, Prepend([l], r)) == Prepend(done + [l], r)
  {
    if r.Ok? {
      assert done + ([l] + r.value.labels) == done + [l] + r.value.labels;
    }
  }

  method ParseDnsName(m: seq<Byte>, offset: nat) returns (r: Result<(seq<Byte>, nat), NameError>)
    ensures r == Parse(m, offset)
  {
    hide Utf8, Join, Prepend;
    var labels: seq<Label> := [];
    var cursor: nat := offset;
    var next: Option<nat> := None;
    var step := 0;
    PrependNothing(ParseFrom(m, cursor, next, MAX_STEPS));
    while step < MAX_STEPS
      invariant 0 <= step <= MAX_STEPS
      invariant ParseFrom(m, offset, None, MAX_STEPS) == Prepend(labels, ParseFrom(m, cursor, next, MAX_STEPS - step))
    {
      PrependEnds(labels, if next.Some? then next.value else cursor + 1);
      if cursor >= |m| {
        return Err(TruncatedName);
      }
      var len := m[cursor];
      if len == 0 {
        return Ok((Join(labels), if next.Some? then next.value else cursor + 1));
      } else if len < 0x40 {
        var end := cursor + 1 + len as int;
        if end > |m| {
          return Err(TruncatedName);
        }
        var text := m[cursor + 1..end];
        if !Utf8(text) {
          return Err(BadLabel);
        }
        PrependAssoc(labels, text, ParseFrom(m, end, next, MAX_STEPS - step - 1));
        labels := labels + [text];
        cursor := end;
      } else if len >= 0xc0 {
        if cursor + 1 >= |m| {
          return Err(TruncatedName);
        }
        var pointer := (len - 0xc0) as int * 0x100 + m[cursor + 1];
        if pointer >= |m| {
          return Err(BadPointer);
        }
        if next.None? {
          next := Some(cursor + 2);
        }
        cursor := pointer;
      } else {
        return Err(BadPointer);
      }
      step := step + 1;
    }
    PrependEnds(labels, 0);
    r := Err(BadPointer);
  }

  lemma PrependEnds(done: seq<Label>, next: nat)
    ensures Prepend(done, Ok(Parsed([], next))) == Ok(Parsed(done, next))
    ensures forall e :: Prepend(done, Err(e)) == Err(e)
  {
    assert done + [] == done;
  }

  lemma PrependNothing(r: Result<Parsed, NameError>)
    ensures Prepend([], r) == r
  {
    if r.Ok? {
      assert [] + r.value.labels == r.value.labels;
    }
  }

  /** Whatever the message, pointers included, a name that parses leaves the reader further on and inside it. */
  lemma {:induction false} NextAdvances(m: seq<Byte>, cursor: nat, next: Option<nat>, steps: nat)
    requires ParseFrom(m, cursor, next, steps).Ok?
    requires next.Some? ==> next.value <= |m|
    ensures var n := ParseFrom(m, cursor, next, steps).value.next;
            n <= |m| && (if next.Some? then n == next.value else cursor < n)
    decreases steps
  {
    hide Utf8;
    if m[cursor] != 0 {
      if m[cursor] < 0x40 {
        NextAdvances(m, cursor + 1 + m[cursor], next, steps - 1);
      } else {
        var pointer := (m[cursor] - 0xc0) as int * 0x100 + m[cursor + 1];
        NextAdvances(m, pointer, Some(if next.Some? then next.value else cursor + 2), steps - 1);
      }
    }
  }

  lemma ParseAdvances(m: seq<Byte>, offset: nat)
    requires Parse(m, offset).Ok?
    ensures offset < Parse(m, offset).value.1 <= |m|
  {
    NextAdvances(m, offset, None, MAX_STEPS);
  }

  // ---- round trip ----

  /** The front label of a written list, as the reader finds it. */
  lemma FrontLabel(m: seq<Byte>, at: nat, labels: seq<Label>, tail: seq<Byte>)
    requires GoodLabels(labels) && labels != [] && Holds(m, at, LabelBytes(labels) + tail)
    ensures var l := labels[0];
            && 1 <= |l| <= 63 && at + 1 + |l| <= |m| && m[at] == |l| && m[at + 1..at + 1 + |l|] == l
            && Holds(m, at + 1 + |l|, LabelBytes(labels[1..]) + tail)
            && |LabelBytes(labels)| == 1 + |l| + |LabelBytes(labels[1..])|
  {
    hide Holds;
    var l, rest := labels[0], LabelBytes(labels[1..]) + tail;
    assert GoodLabel(l);
    assert LabelBytes(labels) + tail == [|l|] + l + rest;
    HoldsParts(m, at, [|l|] + l, rest);
    ByteHeld(m, at, |l|, l);
  }

  lemma {:induction false} LabelsRoundTrip(m: seq<Byte>, at: nat, labels: seq<Label>, steps: nat)
    requires GoodLabels(labels) && Holds(m, at, LabelBytes(labels) + [0]) && |labels| < steps
    requires forall i :: 0 <= i < |labels| ==> Utf8(labels[i])
    ensures ParseFrom(m, at, None, steps) == Ok(Parsed(labels, at + |LabelBytes(labels)| + 1))
    decreases |labels|
  {
    hide Utf8, Holds, LabelBytes;
    if labels == [] {
      NoLabels(m, at);
    } else {
      FrontLabel(m, at, labels, [0]);
      LabelsRoundTrip(m, at + 1 + |labels[0]|, labels[1..], steps - 1);
      assert labels == [labels[0]] + labels[1..];
    }
  }

  lemma NoLabels(m: seq<Byte>, at: nat)
    requires Holds(m, at, LabelBytes([]) + [0])
    ensures at < |m| && m[at] == 0 && LabelBytes([]) == []
  {
  }

  lemma ByteHeld(m: seq<Byte>, at: nat, b: Byte, rest: seq<Byte>)
    requires Holds(m, at, [b] + rest)
    ensures at + 1 + |rest| <= |m| && m[at] == b && m[at + 1..at + 1 + |rest|] == rest
  {
    var part := m[at..at + 1 + |rest|];
    assert part[0] == m[at] && part[1..] == m[at + 1..at + 1 + |rest|];
  }

  /** Labels and the dots between them: a name of `n` labels has at least 2n - 1 bytes. */
  lemma {:induction false} JoinLength(labels: seq<Label>)
    requires GoodLabels(labels) && labels != []
    ensures |Join(labels)| >= 2 * |labels| - 1
  {
    assert GoodLabel(labels[0]);
    if |labels| > 1 {
      JoinLength(labels[1..]);
    }
  }

  /** Every name the writer accepts is read back, without its trailing dots, from wherever it stands in a
      message, and reading goes on right behind it. */
  lemma NameRoundTrip(m: seq<Byte>, at: nat, name: seq<Byte>)
    requires Utf8(name) && Encodable(name) && Holds(m, at, WireName(name))
    ensures Parse(m, at) == Ok((Trimmed(name), at + |WireName(name)|))
  {
    hide Utf8, Holds, LabelBytes, ParseFrom, Split, GoodLabels;
    var labels, trimmed := WireLabels(name), Trimmed(name);
    if trimmed != [] {
      TrimmedUtf8(name);
      SplitUtf8(trimmed);
      JoinSplit(trimmed);
      JoinLength(labels);
    }
    LabelsRoundTrip(m, at, labels, MAX_STEPS);
  }

  // ---- compression ----

  /** The two bytes of a pointer to `q`. */
  function PointerTo(q: nat): (s: seq<Byte>)
    requires q < 0x4000
    ensures |s| == 2
  {
    [0xc0 + q / 0x100, q % 0x100]
  }

  lemma {:induction false} LabelsThenPointer(m: seq<Byte>, at: nat, labels: seq<Label>, q: nat, steps: nat)
    requires GoodLabels(labels) && q < 0x4000 && q < |m| && Holds(m, at, LabelBytes(labels) + PointerTo(q))
        && |labels| < steps
    requires forall i :: 0 <= i < |labels| ==> Utf8(labels[i])
    ensures ParseFrom(m, at, None, steps) ==
            Prepend(labels, ParseFrom(m, q, Some(at + |LabelBytes(labels)| + 2), steps - |labels| - 1))
    decreases |labels|
  {
    hide Utf8, Holds, LabelBytes;
    if labels == [] {
      PointerHeld(m, at, q);
      PrependNothing(ParseFrom(m, q, Some(at + 2), steps - 1));
    } else {
      var l := labels[0];
      FrontLabel(m, at, labels, PointerTo(q));
      LabelsThenPointer(m, at + 1 + |l|, labels[1..], q, steps - 1);
      assert [l] + labels[1..] == labels;
      PrependSplit(l, labels[1..], ParseFrom(m, q, Some(at + |LabelBytes(labels)| + 2), steps - |labels| - 1));
    }
  }

  lemma PointerHeld(m: seq<Byte>, at: nat, q: nat)
    requires q < 0x4000 && Holds(m, at, LabelBytes([]) + PointerTo(q))
    ensures at + 2 <= |m| && m[at] == 0xc0 + q / 0x100 && m[at + 1] == q % 0x100 && LabelBytes([]) == []
  {
    assert LabelBytes([]) + PointerTo(q) == PointerTo(q);
    var part := m[at..at + 2];
    assert part[0] == m[at] && part[1] == m[at + 1];
  }

  lemma PrependSplit(l: Label, rest: seq<Label>, r: Result<Parsed, NameError>)
    ensures Prepend([l], Prepend(rest, r)) == Prepend([l] + rest, r)
  {
    if r.Ok? {
      assert [l] + (rest + r.value.labels) == [l] + rest + r.value.labels;
    }
  }

  /** A compressed name, some labels and then a pointer to a name written elsewhere, before or behind, reads as
      the labels followed by that name, and reading goes on behind the pointer. */
  lemma CompressedName(m: seq<Byte>, at: nat, labels: seq<Label>, q: nat, name: seq<Byte>)
    requires GoodLabels(labels) && (forall i :: 0 <= i < |labels| ==> Utf8(labels[i]))
    requires q < 0x4000 && q < |m| && Holds(m, at, LabelBytes(labels) + PointerTo(q))
    requires Utf8(name) && Encodable(name) && Holds(m, q, WireName(name))
    requires |labels| + |WireLabels(name)| + 2 <= MAX_STEPS
    ensures Parse(m, at) == Ok((Join(labels + WireLabels(name)), at + |LabelBytes(labels)| + 2))
  {
    hide Utf8, Holds, LabelBytes, ParseFrom, Split, Join;
    var tail, steps := WireLabels(name), MAX_STEPS - |labels| - 1;
    LabelsThenPointer(m, at, labels, q, MAX_STEPS);
    if Trimmed(name) != [] {
      TrimmedUtf8(name);
      SplitUtf8(Trimmed(name));
    }
    LabelsRoundTrip(m, q, tail, steps);
    NextIsKept(m, q, Some(at + |LabelBytes(labels)| + 2), steps);
  }

  /** Where reading goes on after a pointer does not change what is read. */
  lemma {:induction false} NextIsKept(m: seq<Byte>, cursor: nat, next: Option<nat>, steps: nat)
    requires next.Some? && ParseFrom(m, cursor, None, steps).Ok?
    ensures ParseFrom(m, cursor, next, steps) == Ok(ParseFrom(m, cursor, None, steps).value.(next := next.value))
    decreases steps
  {
    hide Utf8;
    if m[cursor] != 0 {
      if m[cursor] < 0x40 {
        NextIsKept(m, cursor + 1 + m[cursor], next, steps - 1);
      } else {
        var pointer := (m[cursor] - 0xc0) as int * 0x100 + m[cursor + 1];
        SameLabels(m, pointer, next, Some(cursor + 2), steps - 1);
      }
    }
  }

  lemma {:induction false} SameLabels(m: seq<Byte>, cursor: nat, a: Option<nat>, b: Option<nat>, steps: nat)
    requires a.Some? && b.Some? && ParseFrom(m, cursor, b, steps).Ok?
    ensures ParseFrom(m, cursor, a, steps) == Ok(ParseFrom(m, cursor, b, steps).value.(next := a.value))
    decreases steps
  {
    hide Utf8;
    if m[cursor] != 0 {
      if m[cursor] < 0x40 {
        SameLabels(m, cursor + 1 + m[cursor], a, b, steps - 1);
      } else {
        SameLabels(m, (m[cursor] - 0xc0) as int * 0x100 + m[cursor + 1], a, b, steps - 1);
      }
    }
  }

  // ---- the bound is tight ----

  /** Labels in sequence use one step each and the terminator one more, so the 127 labels of the longest
      name need all 128 steps: with one step fewer they would be refused. */
  lemma {:induction false} StepsNeeded(m: seq<Byte>, at: nat, labels: seq<Label>, steps: nat)
    requires GoodLabels(labels) && Holds(m, at, LabelBytes(labels) + [0]) && steps <= |labels|
    requires forall i :: 0 <= i < |labels| ==> Utf8(labels[i])
    ensures ParseFrom(m, at, None, steps) == Err(BadPointer)
    decreases steps
  {
    hide Utf8, Holds, LabelBytes;
    if steps > 0 {
      FrontLabel(m, at, labels, [0]);
      StepsNeeded(m, at + 1 + |labels[0]|, labels[1..], steps - 1);
    }
  }

  lemma {:induction false} FirstDotOf(l: Label, rest: seq<Byte>)
    requires DOT !in l
    ensures FirstDot(l + [DOT] + rest) == |l| && FirstDot(l) == |l|
  {
    if l != [] {
      FirstDotOf(l[1..], rest);
      assert (l + [DOT] + rest)[1..] == l[1..] + [DOT] + rest;
    }
  }

  lemma SplitBehind(l: Label, rest: seq<Byte>)
    requires DOT !in l
    ensures Split(l + [DOT] + rest) == [l] + Split(rest)
  {
    hide FirstDot;
    FirstDotOf(l, rest);
    var s := l + [DOT] + rest;
    assert s[..|l|] == l && s[|l| + 1..] == rest;
  }

  lemma {:induction false} SplitJoin(labels: seq<Label>)
    requires labels != [] && forall i :: 0 <= i < |labels| ==> DOT !in labels[i]
    ensures Split(Join(labels)) == labels
    decreases |labels|, 1
  {
    var l, rest := labels[0], labels[1..];
    assert labels == [l] + rest;
    if rest == [] {
      FirstDotOf(l, []);
    } else {
      SplitTail(labels);
    }
  }

  lemma {:induction false} SplitTail(labels: seq<Label>)
    requires |labels| > 1 && forall i :: 0 <= i < |labels| ==> DOT !in labels[i]
    ensures Split(Join(labels)) == labels
    decreases |labels|, 0
  {
    hide Split, Join, FirstDot;
    var l, rest := labels[0], labels[1..];
    assert labels == [l] + rest;
    SplitJoin(rest);
    JoinCons(l, rest);
    SplitBehind(l, Join(rest));
  }

  function OneByteLabels(n: nat): (r: seq<Label>)
    ensures |r| == n && forall i :: 0 <= i < n ==> r[i] == [0x61]
  {
    seq(n, i => [0x61])
  }

  lemma {:induction false} OneByteLength(n: nat)
    requires n > 0
    ensures |Join(OneByteLabels(n))| == 2 * n - 1 && Join(OneByteLabels(n))[2 * n - 2] == 0x61
  {
    if n > 1 {
      OneByteLength(n - 1);
      assert OneByteLabels(n)[1..] == OneByteLabels(n - 1);
    }
  }

  /** No accepted name has more than 127 labels, and there is one that has exactly so many. */
  lemma LongestName(name: seq<Byte>)
    ensures Encodable(name) ==> |WireLabels(name)| <= MAX_STEPS - 1
    ensures var longest := Join(OneByteLabels(MAX_STEPS - 1));
            Encodable(longest) && |WireLabels(longest)| == MAX_STEPS - 1
  {
    hide Split, Join, GoodLabels;
    if Encodable(name) && Trimmed(name) != [] {
      JoinSplit(Trimmed(name));
      JoinLength(WireLabels(name));
    }
    var labels := OneByteLabels(MAX_STEPS - 1);
    OneByteLength(MAX_STEPS - 1);
    SplitJoin(labels);
    AllGood(labels);
  }

  lemma AllGood(labels: seq<Label>)
    requires forall i :: 0 <= i < |labels| ==> labels[i] == [0x61]
    ensures GoodLabels(labels)
  {
  }
}
