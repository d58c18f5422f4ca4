/** How a gateway moves from one relay to the next. */
module RelayFailover {
  import opened Bytes

  /** The relay in use, the relays to try next, and the set they come from. */
  datatype Failover = Failover(relay: SocketAddr, fallbacks: seq<SocketAddr>, candidates: seq<SocketAddr>)

  ghost predicate Distinct(s: seq<SocketAddr>) {
    forall i, j :: 0 <= i < j < |s| ==> s[i] != s[j]
  }

  /** The fallbacks are the other candidates, each once. */
  ghost predicate FailoverOk(f: Failover) {
    && Distinct(f.fallbacks) && Distinct(f.candidates) && f.candidates != []
    && forall r :: r in f.fallbacks <==> r in f.candidates && r != f.relay
  }

  /** `a` comes up in `s` before `b` does. */
  ghost predicate Before(a: SocketAddr, b: SocketAddr, s: seq<SocketAddr>) {
    exists k :: 0 <= k < |s| && s[k] == a && b !in s[..k]
  }

  /** The relays stand in the order in which they first come up in `s`. */
  ghost predicate InOrderOf(u: seq<SocketAddr>, s: seq<SocketAddr>) {
    forall i, j :: 0 <= i < j < |u| ==> Before(u[i], u[j], s)
  }

  lemma OrderSnoc(u: seq<SocketAddr>, front: seq<SocketAddr>, x: SocketAddr)
    requires InOrderOf(u, front) && forall r :: r in u ==> r in front
    ensures InOrderOf(u, front + [x]) && (x !in front ==> InOrderOf(u + [x], front + [x]))
  {
    var s := front + [x];
    forall i, j | 0 <= i < j < |u| ensures Before(u[i], u[j], s) {
      var k :| 0 <= k < |front| && front[k] == u[i] && u[j] !in front[..k];
      assert s[k] == u[i] && s[..k] == front[..k];
    }
    if x !in front {
      forall i, j | 0 <= i < j < |u + [x]| ensures Before((u + [x])[i], (u + [x])[j], s) {
        if j == |u| {
          assert (u + [x])[i] == u[i] && u[i] in u;
          var k :| 0 <= k < |front| && front[k] == u[i];
          assert s[k] == u[i] && s[..k] == front[..k];
        }
      }
    }
  }

  /** `with_fallback_relays`: duplicates, the relay itself and the other family are passed over. */
  method WithFallbackRelays(relay: SocketAddr, relays: seq<SocketAddr>) returns (fallbacks: seq<SocketAddr>)
    ensures Distinct(fallbacks) && InOrderOf(fallbacks, relays)
    ensures forall r :: r in fallbacks <==> r in relays && r != relay && r.ip.SameFamily(relay.ip)
  {
    hide InOrderOf;
    fallbacks := [];
    NothingOrdered(relays[..0]);
    for i := 0 to |relays|
      invariant Distinct(fallbacks) && InOrderOf(fallbacks, relays[..i])
      invariant forall r :: r in fallbacks <==> r in relays[..i] && r != relay && r.ip.SameFamily(relay.ip)
    {
      OrderSnoc(fallbacks, relays[..i], relays[i]);
      assert relays[..i + 1] == relays[..i] + [relays[i]];
      if relays[i] != relay && relays[i].ip.SameFamily(relay.ip) && relays[i] !in fallbacks {
        fallbacks := fallbacks + [relays[i]];
      }
    }
    assert relays[..|relays|] == relays;
  }

  lemma NothingOrdered(s: seq<SocketAddr>)
    ensures InOrderOf([], s)
  {
  }

  /** `restart_discovery` moves on to the next fallback; the relay left behind queues up again unless it
      has been retired. */
  function Restarted(f: Failover): Failover {
    if f.fallbacks == [] then f
    else Failover(f.fallbacks[0], f.fallbacks[1..] + (if f.relay in f.candidates then [f.relay] else []), f.candidates)
  }

  lemma RestartKeepsFailover(f: Failover)
    requires FailoverOk(f)
    ensures FailoverOk(Restarted(f)) && Restarted(f).relay in f.candidates
  {
    if f.fallbacks != [] {
      var next := Restarted(f);
      assert f.fallbacks == [f.fallbacks[0]] + f.fallbacks[1..];
      forall r ensures r in next.fallbacks <==> r in next.candidates && r != next.relay {
        assert r in f.fallbacks <==> r == f.fallbacks[0] || r in f.fallbacks[1..];
        if r in f.fallbacks[1..] {
          var k :| 0 <= k < |f.fallbacks[1..]| && f.fallbacks[1..][k] == r;
          assert f.fallbacks[k + 1] == r;
        }
      }
    } else {
      assert f.candidates[0] in f.candidates;
    }
  }

  function Cycle(f: Failover): seq<SocketAddr> { [f.relay] + f.fallbacks }

  function RestartedTimes(f: Failover, n: nat): Failover {
    if n == 0 then f else Restarted(RestartedTimes(f, n - 1))
  }

  /** The order in which relays come up after `n` restarts. */
  function Rotated(s: seq<SocketAddr>, n: nat): (r: seq<SocketAddr>)
    requires n < |s|
    ensures |r| == |s| && r[0] == s[n]
  {
    s[n..] + s[..n]
  }

  lemma RestartCycle(f: Failover)
    requires f.relay in f.candidates && f.fallbacks != []
    ensures Cycle(Restarted(f)) == Cycle(f)[1..] + [f.relay]
  {
    assert Cycle(f)[1..] == f.fallbacks && f.fallbacks == [f.fallbacks[0]] + f.fallbacks[1..];
  }

  lemma {:induction false} RestartRotates(f: Failover, n: nat)
    requires FailoverOk(f) && f.relay in f.candidates && n < |Cycle(f)|
    ensures Cycle(RestartedTimes(f, n)) == Rotated(Cycle(f), n)
    ensures RestartedTimes(f, n).candidates == f.candidates && RestartedTimes(f, n).relay == Cycle(f)[n]
    ensures FailoverOk(RestartedTimes(f, n)) && RestartedTimes(f, n).relay in f.candidates
  {
    hide FailoverOk, Cycle, Restarted, Rotated;
    var c := Cycle(f);
    if n == 0 {
      CycleHead(f);
      NotRotated(c);
    } else {
      RestartRotates(f, n - 1);
      var before := RestartedTimes(f, n - 1);
      RestartKeepsFailover(before);
      CycleHead(before);
      RestartCycle(before);
      RotateOnce(c, n - 1);
      CycleHead(Restarted(before));
    }
  }

  lemma CycleHead(f: Failover)
    ensures |Cycle(f)| == |f.fallbacks| + 1 && Cycle(f)[0] == f.relay && Restarted(f).candidates == f.candidates
  {
  }

  lemma NotRotated(s: seq<SocketAddr>)
    requires s != []
    ensures Rotated(s, 0) == s
  {
  }

  lemma RotateOnce(s: seq<SocketAddr>, n: nat)
    requires n + 1 < |s|
    ensures Rotated(s, n + 1) == Rotated(s, n)[1..] + [s[n]]
  {
  }

  lemma {:induction false} DistinctSize(s: seq<SocketAddr>)
    requires Distinct(s)
    ensures |set r | r in s| == |s|
  {
    if s != [] {
      var front, last := s[..|s| - 1], s[|s| - 1];
      DistinctSize(front);
      assert s == front + [last];
      assert (set r | r in s) == (set r | r in front) + {last};
    }
  }

  /** Round robin: starting from a relay that is still a candidate, the next restarts bring up every other
      candidate once before any comes up again. */
  lemma EveryCandidateTriedOnce(f: Failover, r: SocketAddr)
    requires FailoverOk(f) && f.relay in f.candidates && r in f.candidates
    ensures exists n :: 0 <= n < |f.candidates| && RestartedTimes(f, n).relay == r
    ensures forall m, n :: 0 <= m < n < |f.candidates| ==> RestartedTimes(f, m).relay != RestartedTimes(f, n).relay
  {
    var c := Cycle(f);
    assert forall x :: x in c <==> x == f.relay || x in f.fallbacks;
    assert (set x | x in c) == (set x | x in f.candidates);
    DistinctSize(c);
    DistinctSize(f.candidates);
    forall n | 0 <= n < |c| ensures RestartedTimes(f, n).relay == c[n] {
      RestartRotates(f, n);
    }
    var n :| 0 <= n < |c| && c[n] == r;
    assert RestartedTimes(f, n).relay == r;
  }

  /** A relay outside the candidates is left at the first restart and never comes up again. */
  lemma {:induction false} RetiredRelayNeverReturns(f: Failover, n: nat)
    requires FailoverOk(f) && n > 0
    ensures FailoverOk(RestartedTimes(f, n)) && RestartedTimes(f, n).relay in f.candidates
    ensures RestartedTimes(f, n).candidates == f.candidates
  {
    if n > 1 {
      RetiredRelayNeverReturns(f, n - 1);
    }
    RestartKeepsFailover(RestartedTimes(f, n - 1));
  }

  /** The relays of one family, each where it first occurs. */
  function Usable(relays: seq<SocketAddr>, ip: IpAddr): seq<SocketAddr> {
    if relays == [] then []
    else
      var (kept, last) := (Usable(relays[..|relays| - 1], ip), relays[|relays| - 1]);
      if last.ip.SameFamily(ip) && last !in kept then kept + [last] else kept
  }

  function Without(relays: seq<SocketAddr>, relay: SocketAddr): seq<SocketAddr> {
    if relays == [] then []
    else
      var (kept, last) := (Without(relays[..|relays| - 1], relay), relays[|relays| - 1]);
      if last != relay then kept + [last] else kept
  }

  lemma {:induction false} UsableExact(relays: seq<SocketAddr>, ip: IpAddr)
    ensures Distinct(Usable(relays, ip)) && InOrderOf(Usable(relays, ip), relays)
    ensures forall r :: r in Usable(relays, ip) <==> r in relays && r.ip.SameFamily(ip)
  {
    hide InOrderOf;
    if relays == [] {
      NothingOrdered(relays);
    } else {
      var front, last := relays[..|relays| - 1], relays[|relays| - 1];
      UsableExact(front, ip);
      assert relays == front + [last];
      OrderSnoc(Usable(front, ip), front, last);
    }
  }

  lemma {:induction false} WithoutExact(relays: seq<SocketAddr>, relay: SocketAddr)
    requires Distinct(relays)
    ensures Distinct(Without(relays, relay)) && forall r :: r in Without(relays, relay) <==> r in relays && r != relay
    ensures InOrderOf(Without(relays, relay), relays)
  {
    hide InOrderOf;
    if relays == [] {
      NothingOrdered(relays);
    } else {
      var front, last := relays[..|relays| - 1], relays[|relays| - 1];
      WithoutExact(front, relay);
      assert relays == front + [last] && last !in front;
      OrderSnoc(Without(front, relay), front, last);
    }
  }

  /** A new candidate set, unless it is empty or the one in use; the relay in use stays. */
  function Replaced(f: Failover, relays: seq<SocketAddr>): Failover {
    var candidates := Usable(relays, f.relay.ip);
    if candidates == [] || candidates == f.candidates then f
    else Failover(f.relay, Without(candidates, f.relay), candidates)
  }

  lemma ReplacedKeepsFailover(f: Failover, relays: seq<SocketAddr>)
    ensures Replaced(f, relays).relay == f.relay && (FailoverOk(f) ==> FailoverOk(Replaced(f, relays)))
    ensures Replaced(f, relays) != f ==>
              && FailoverOk(Replaced(f, relays))
              && InOrderOf(Replaced(f, relays).candidates, relays)
              && InOrderOf(Replaced(f, relays).fallbacks, Replaced(f, relays).candidates)
              && forall r :: r in Replaced(f, relays).candidates <==> r in relays && r.ip.SameFamily(f.relay.ip)
  {
    UsableExact(relays, f.relay.ip);
    WithoutExact(Usable(relays, f.relay.ip), f.relay);
  }

  /** `replace_relay_candidates`: a new set without disturbing the relay in use. */
  method ReplaceCandidates(f: Failover, relays: seq<SocketAddr>) returns (next: Failover, replaced: bool)
    ensures next == Replaced(f, relays) && next.relay == f.relay
    ensures replaced <==>
              (exists r :: r in relays && r.ip.SameFamily(f.relay.ip)) && Usable(relays, f.relay.ip) != f.candidates
    ensures !replaced ==> next == f
    ensures replaced ==> FailoverOk(next) && next.candidates == Usable(relays, f.relay.ip)
    ensures replaced ==> InOrderOf(next.candidates, relays) && InOrderOf(next.fallbacks, next.candidates)
    ensures replaced ==> forall r :: r in next.candidates <==> r in relays && r.ip.SameFamily(f.relay.ip)
    ensures FailoverOk(f) ==> FailoverOk(next)
  {
    hide FailoverOk;
    var candidates: seq<SocketAddr> := [];
    assert relays[..0] == [];
    for i := 0 to |relays|
      invariant candidates == Usable(relays[..i], f.relay.ip)
    {
      assert relays[..i + 1][..i] == relays[..i];
      if relays[i].ip.SameFamily(f.relay.ip) && relays[i] !in candidates {
        candidates := candidates + [relays[i]];
      }
    }
    assert relays[..|relays|] == relays;
    ReplacedKeepsFailover(f, relays);
    UsableExact(relays, f.relay.ip);
    if candidates != [] {
      assert candidates[0] in relays;
    }
    if candidates == [] || candidates == f.candidates {
      return f, false;
    }
    var fallbacks := Others(candidates, f.relay);
    next, replaced := Failover(f.relay, fallbacks, candidates), true;
    assert next.candidates != f.candidates;
  }

  method Others(candidates: seq<SocketAddr>, relay: SocketAddr) returns (fallbacks: seq<SocketAddr>)
    ensures fallbacks == Without(candidates, relay)
  {
    fallbacks := [];
    assert candidates[..0] == [];
    for i := 0 to |candidates|
      invariant fallbacks == Without(candidates[..i], relay)
    {
      assert candidates[..i + 1][..i] == candidates[..i];
      if candidates[i] != relay {
        fallbacks := fallbacks + [candidates[i]];
      }
    }
    assert candidates[..|candidates|] == candidates;
  }

  /** The failover of a new gateway: its relay and the fallbacks it was given. */
  function Initial(relay: SocketAddr, fallbacks: seq<SocketAddr>): Failover {
    Failover(relay, fallbacks, [relay] + fallbacks)
  }

  lemma InitialFailover(relay: SocketAddr, fallbacks: seq<SocketAddr>)
    requires Distinct(fallbacks) && relay !in fallbacks
    ensures FailoverOk(Initial(relay, fallbacks))
  {
  }
}
