/** Candidate relays of a DRIAD tunnel: filtering and stable ordering by rank. */
module DriadQueue {
  import opened Bytes

  /** One relay the source's DNS names, with its precedence and record lifetime. */
  datatype Selection = Selection(relay: SocketAddr, precedence: Byte, ttl: nat)

  datatype Origin = Anycast | SourceDns

  datatype Candidate = Candidate(selection: Selection, origin: Origin) {
    /** The order of the pair (origin, precedence), anycast first. */
    function Rank(): nat {
      (if origin.Anycast? then 0 else 0x100) + selection.precedence
    }

    function Relay(): SocketAddr { selection.relay }
  }

  /** Anycast comes before DNS, and within an origin the lower precedence comes first. */
  lemma RankOrder(a: Candidate, b: Candidate)
    ensures a.Rank() < b.Rank() <==>
              || (a.origin.Anycast? && b.origin.SourceDns?)
              || (a.origin == b.origin && a.selection.precedence < b.selection.precedence)
    ensures a.Rank() == b.Rank() <==> a.origin == b.origin && a.selection.precedence == b.selection.precedence
  {
  }

  function Relays(cs: seq<Candidate>): set<SocketAddr> {
    set i | 0 <= i < |cs| :: cs[i].Relay()
  }

  predicate Distinct(cs: seq<Candidate>) {
    forall i, j :: 0 <= i < j < |cs| ==> cs[i].Relay() != cs[j].Relay()
  }

  predicate SortedByRank(cs: seq<Candidate>) {
    forall i, j :: 0 <= i < j < |cs| ==> cs[i].Rank() <= cs[j].Rank()
  }

  /** The position after the last candidate of rank at most `rank`. */
  function Slot(cs: seq<Candidate>, rank: nat): (k: nat)
    ensures k <= |cs|
    ensures SortedByRank(cs) ==>
              (forall i :: 0 <= i < k ==> cs[i].Rank() <= rank) && (forall i :: k <= i < |cs| ==> cs[i].Rank() > rank)
  {
    if cs == [] || cs[|cs| - 1].Rank() <= rank then |cs| else Slot(cs[..|cs| - 1], rank)
  }

  /** `sort_by_key`: stable, each candidate goes after its equals. */
  function SortByRank(cs: seq<Candidate>): seq<Candidate> {
    if cs == [] then []
    else
      var sorted, c := SortByRank(cs[..|cs| - 1]), cs[|cs| - 1];
      var k := Slot(sorted, c.Rank());
      Inserted(sorted, c, k)
  }

  function Inserted(cs: seq<Candidate>, c: Candidate, k: nat): seq<Candidate>
    requires k <= |cs|
  {
    cs[..k] + [c] + cs[k..]
  }

  lemma {:induction false} SortIsSorted(cs: seq<Candidate>)
    ensures SortedByRank(SortByRank(cs))
  {
    if cs != [] {
      SortIsSorted(cs[..|cs| - 1]);
    }
  }

  /** The candidates of one rank, in order. */
  function OfRank(cs: seq<Candidate>, rank: nat): seq<Candidate> {
    if cs == [] then []
    else OfRank(cs[..|cs| - 1], rank) + if cs[|cs| - 1].Rank() == rank then [cs[|cs| - 1]] else []
  }

  lemma {:induction false} OfRankConcat(a: seq<Candidate>, b: seq<Candidate>, rank: nat)
    ensures OfRank(a + b, rank) == OfRank(a, rank) + OfRank(b, rank)
    decreases |b|
  {
    if b == [] {
      assert a + b == a;
    } else {
      OfRankConcat(a, b[..|b| - 1], rank);
      assert (a + b)[..|a + b| - 1] == a + b[..|b| - 1];
    }
  }

  lemma {:induction false} NoneOfRank(cs: seq<Candidate>, rank: nat)
    requires forall i :: 0 <= i < |cs| ==> cs[i].Rank() != rank
    ensures OfRank(cs, rank) == []
  {
    if cs != [] {
      NoneOfRank(cs[..|cs| - 1], rank);
    }
  }

  lemma InsertedOfRank(cs: seq<Candidate>, c: Candidate, k: nat, rank: nat)
    requires k <= |cs| && forall i :: k <= i < |cs| ==> cs[i].Rank() > c.Rank()
    ensures OfRank(Inserted(cs, c, k), rank) == OfRank(cs, rank) + (if c.Rank() == rank then [c] else [])
  {
    hide OfRank;
    OfRankConcat(cs[..k] + [c], cs[k..], rank);
    OfRankConcat(cs[..k], [c], rank);
    OfRankConcat(cs[..k], cs[k..], rank);
    assert cs == cs[..k] + cs[k..];
    OfRankOne(c, rank);
    if c.Rank() == rank {
      NoneOfRank(cs[k..], rank);
    }
  }

  lemma OfRankOne(c: Candidate, rank: nat)
    ensures OfRank([c], rank) == if c.Rank() == rank then [c] else []
  {
    assert [c][..0] == [];
  }

  /** The sort is stable: the candidates of every rank stay the same and in their order. */
  lemma {:induction false} SortIsStable(cs: seq<Candidate>, rank: nat)
    ensures OfRank(SortByRank(cs), rank) == OfRank(cs, rank)
  {
    hide Slot;
    if cs != [] {
      var sorted, c := SortByRank(cs[..|cs| - 1]), cs[|cs| - 1];
      SortIsStable(cs[..|cs| - 1], rank);
      SortIsSorted(cs[..|cs| - 1]);
      InsertedOfRank(sorted, c, Slot(sorted, c.Rank()), rank);
    }
  }

  lemma InsertedMultiset(cs: seq<Candidate>, c: Candidate, k: nat)
    requires k <= |cs|
    ensures multiset(Inserted(cs, c, k)) == multiset(cs) + multiset{c}
  {
    assert cs == cs[..k] + cs[k..];
  }

  lemma {:induction false} SortIsPermutation(cs: seq<Candidate>)
    ensures multiset(SortByRank(cs)) == multiset(cs)
  {
    hide Slot, Inserted;
    if cs != [] {
      var sorted, c := SortByRank(cs[..|cs| - 1]), cs[|cs| - 1];
      SortIsPermutation(cs[..|cs| - 1]);
      InsertedMultiset(sorted, c, Slot(sorted, c.Rank()));
      SnocMultiset(cs);
    }
  }

  lemma SnocMultiset(cs: seq<Candidate>)
    requires cs != []
    ensures multiset(cs) == multiset(cs[..|cs| - 1]) + multiset{cs[|cs| - 1]}
  {
    assert cs == cs[..|cs| - 1] + [cs[|cs| - 1]];
  }

  /** Sorting neither adds, loses nor repeats a relay. */
  lemma {:induction false} SortKeepsRelays(cs: seq<Candidate>)
    requires Distinct(cs)
    ensures |SortByRank(cs)| == |cs| && Relays(SortByRank(cs)) == Relays(cs) && Distinct(SortByRank(cs))
  {
    if cs != [] {
      var init, c := cs[..|cs| - 1], cs[|cs| - 1];
      SortKeepsRelays(init);
      var sorted := SortByRank(init);
      var k := Slot(sorted, c.Rank());
      assert cs == init + [c];
      InsertKeepsRelays(sorted, c, k);
      RelaysSnoc(init, c);
    }
  }

  lemma RelaysSnoc(cs: seq<Candidate>, c: Candidate)
    ensures Relays(cs + [c]) == Relays(cs) + {c.Relay()}
    ensures Distinct(cs + [c]) <==> Distinct(cs) && c.Relay() !in Relays(cs)
  {
    forall r
      ensures r in Relays(cs + [c]) <==> r in Relays(cs) + {c.Relay()}
    {
      if r in Relays(cs) {
        var i :| 0 <= i < |cs| && cs[i].Relay() == r;
        assert (cs + [c])[i].Relay() == r;
      }
      assert (cs + [c])[|cs|].Relay() == c.Relay();
    }
    if Distinct(cs + [c]) {
      forall i | 0 <= i < |cs|
        ensures cs[i].Relay() != c.Relay()
      {
        assert (cs + [c])[i].Relay() != (cs + [c])[|cs|].Relay();
      }
      forall i, j | 0 <= i < j < |cs|
        ensures cs[i].Relay() != cs[j].Relay()
      {
        assert (cs + [c])[i].Relay() != (cs + [c])[j].Relay();
      }
    }
  }

  lemma InsertKeepsRelays(cs: seq<Candidate>, c: Candidate, k: nat)
    requires k <= |cs| && Distinct(cs) && c.Relay() !in Relays(cs)
    ensures var r := Inserted(cs, c, k);
            |r| == |cs| + 1 && Relays(r) == Relays(cs) + {c.Relay()} && Distinct(r)
  {
    var r := cs[..k] + [c] + cs[k..];
    forall i | 0 <= i < |cs|
      ensures cs[i].Relay() in Relays(r)
    {
      assert r[if i < k then i else i + 1] == cs[i];
    }
    assert r[k] == c;
    forall i | 0 <= i < |r|
      ensures r[i].Relay() in Relays(cs) + {c.Relay()}
    {
      assert r[i] == if i < k then cs[i] else if i == k then c else cs[i - 1];
    }
  }

  /** The queue filter: family, hold-down, and first occurrence of a relay not already in flight. */
  predicate Usable(c: Candidate, bind: Option<IpAddr>, held: set<SocketAddr>) {
    && (bind.Some? ==> bind.value.SameFamily(c.Relay().ip))
    && c.Relay() !in held
  }

  ghost function UsableRelays(cs: seq<Candidate>, bind: Option<IpAddr>, held: set<SocketAddr>): set<SocketAddr> {
    set i | 0 <= i < |cs| && Usable(cs[i], bind, held) :: cs[i].Relay()
  }

  /** In order, the first usable candidate of every relay that is not in flight. */
  function Retained(cs: seq<Candidate>, bind: Option<IpAddr>, held: set<SocketAddr>,
                    inFlight: set<SocketAddr>): seq<Candidate> {
    if cs == [] then []
    else
      var (kept, c) := (Retained(cs[..|cs| - 1], bind, held, inFlight), cs[|cs| - 1]);
      if Usable(c, bind, held) && c.Relay() !in inFlight + Relays(kept) then kept + [c] else kept
  }

  lemma {:induction false} RetainedRelays(cs: seq<Candidate>, bind: Option<IpAddr>, held: set<SocketAddr>,
                                          inFlight: set<SocketAddr>)
    ensures Distinct(Retained(cs, bind, held, inFlight))
    ensures Relays(Retained(cs, bind, held, inFlight)) == UsableRelays(cs, bind, held) - inFlight
  {
    hide Usable, Distinct, Relays, UsableRelays;
    if cs == [] {
      NoRelays(bind, held);
    } else {
      var front, c := cs[..|cs| - 1], cs[|cs| - 1];
      RetainedRelays(front, bind, held, inFlight);
      UsableSnoc(cs, |cs| - 1, bind, held);
      assert cs[..|cs|] == cs;
      RelaysSnoc(Retained(front, bind, held, inFlight), c);
    }
  }

  lemma NoRelays(bind: Option<IpAddr>, held: set<SocketAddr>)
    ensures Distinct([]) && Relays([]) == {} && UsableRelays([], bind, held) == {}
  {
  }

  /** The filter loop with its growing set of relays already seen. */
  method RetainUsable(cs: seq<Candidate>, bind: Option<IpAddr>, held: set<SocketAddr>, inFlight: set<SocketAddr>)
    returns (r: seq<Candidate>)
    ensures r == Retained(cs, bind, held, inFlight)
    ensures Distinct(r) && Relays(r) == UsableRelays(cs, bind, held) - inFlight
  {
    hide Usable, Distinct, Relays, UsableRelays;
    r := [];
    var seen := inFlight;
    NoRelays(bind, held);
    assert cs[..0] == [];
    for i := 0 to |cs|
      invariant r == Retained(cs[..i], bind, held, inFlight)
      invariant seen == inFlight + Relays(r)
    {
      assert cs[..i + 1][..i] == cs[..i];
      if Usable(cs[i], bind, held) && cs[i].Relay() !in seen {
        RelaysSnoc(r, cs[i]);
        seen := seen + {cs[i].Relay()};
        r := r + [cs[i]];
      }
    }
    assert cs[..|cs|] == cs;
    RetainedRelays(cs, bind, held, inFlight);
  }

  lemma UsableSnoc(cs: seq<Candidate>, n: nat, bind: Option<IpAddr>, held: set<SocketAddr>)
    requires n < |cs|
    ensures UsableRelays(cs[..n + 1], bind, held)
         == UsableRelays(cs[..n], bind, held) + (if Usable(cs[n], bind, held) then {cs[n].Relay()} else {})
  {
  }
}
