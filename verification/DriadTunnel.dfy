/** Relay discovery for one source: probing candidates by rank until one relay answers. */
module DriadTunnel {
  import opened Bytes
  import opened DriadQueue

  const AMT_PORT: Word16 := 2268
  const ANYCAST_IPV4 := V4([192, 52, 193, 1])
  const ANYCAST_IPV6 := V6([0x20, 0x01, 0, 3, 0, 0, 0, 0, 0, 0, 0, 0, 0, 0, 0, 1])
  const QUERY_TIMEOUT := 10_000  // milliseconds, as every time below

  datatype Probe = Probe(candidate: Candidate, deadline: int)
  datatype Active = Active(candidate: Candidate, endpoint: Option<SocketAddr>)

  /** What polling one probe's socket reports, since it comes from the network: nothing final, with or without
      some progress; a relay that is loaded, and when it is then held down; or an established session, and whether
      the membership could be sent over it. */
  datatype ProbePoll =
    | SendError
    | StillPending(moved: bool)
    | Failed
    | Loaded(relay: SocketAddr, heldAt: int)
    | Winner(endpoint: Option<SocketAddr>, activates: bool)

  /** The report of each probe in flight, by its relay. */
  type Answers = SocketAddr -> ProbePoll

  datatype ActiveFailure = RelayLoaded | QueryTimeout | NoTraffic
  datatype RefreshPoll = Idle | Started | Resolved(selections: seq<Selection>) | NoRelayPresent | RefreshFailed

  /** The part of the tunnel the safety facts are about. */
  datatype Tunnel = Tunnel(
    active: Option<Active>,
    probes: seq<Probe>,
    pending: seq<Candidate>,
    currentRank: Option<nat>,
    nextProbeAt: int,
    retryRoundAt: Option<int>,
    noRelayPresent: bool)

  /** Every relay the tunnel may try, best origin first. */
  function AllCandidates(useAnycast: bool, dns: seq<Selection>): seq<Candidate> {
    (if useAnycast then
       [Candidate(Selection(SocketAddr(ANYCAST_IPV6, AMT_PORT), 0, 0), Anycast),
        Candidate(Selection(SocketAddr(ANYCAST_IPV4, AMT_PORT), 0, 0), Anycast)]
     else [])
    + seq(|dns|, i requires 0 <= i < |dns| => Candidate(dns[i], SourceDns))
  }

  function InFlight(probes: seq<Probe>): seq<Candidate> {
    seq(|probes|, i requires 0 <= i < |probes| => probes[i].candidate)
  }

  /** No relay is probed twice at a time or both probed and queued. */
  predicate RelaysApart(probes: seq<Probe>, pending: seq<Candidate>) {
    Distinct(InFlight(probes)) && Distinct(pending) && Relays(InFlight(probes)) !! Relays(pending)
  }

  predicate OneRank(probes: seq<Probe>, rank: Option<nat>) {
    forall i :: 0 <= i < |probes| ==> rank == Some(probes[i].candidate.Rank())
  }

  /** The facts that hold jointly in every reachable tunnel. */
  predicate Inv(t: Tunnel, maxProbes: nat) {
    && |t.probes| <= maxProbes
    && (t.active.Some? ==> t.probes == [] && t.pending == [] && t.retryRoundAt.None? && !t.noRelayPresent)
    && (t.noRelayPresent ==> t.probes == [] && t.pending == [] && t.retryRoundAt.None?)
    && (t.retryRoundAt.Some? ==> t.probes == [] && t.pending == [])
    && OneRank(t.probes, t.currentRank)
    && RelaysApart(t.probes, t.pending)
    && SortedByRank(t.pending)
  }

  /** Somebody is working on the source: a relay is active or there is something left to try. */
  predicate Alive(t: Tunnel) {
    t.noRelayPresent || t.active.Some? || t.probes != [] || t.pending != [] || t.retryRoundAt.Some?
  }

  /** The queue a rebuild makes: usable relays not held down and not in flight, each once, stably by rank. */
  function Queue(cs: seq<Candidate>, bind: Option<IpAddr>, held: set<SocketAddr>, probes: seq<Probe>): seq<Candidate> {
    SortByRank(Retained(cs, bind, held, Relays(InFlight(probes))))
  }

  /** A relay is queued exactly if it is a candidate of the family bound to, not held down and not in flight. */
  lemma QueuedRelays(cs: seq<Candidate>, bind: Option<IpAddr>, held: set<SocketAddr>, probes: seq<Probe>, r: SocketAddr)
    ensures r in Relays(Queue(cs, bind, held, probes)) <==>
              && r in Relays(cs) && r !in held && r !in Relays(InFlight(probes))
              && (bind.Some? ==> bind.value.V4? == r.ip.V4?)
  {
    hide SortByRank, Retained, InFlight, Distinct;
    var kept := Retained(cs, bind, held, Relays(InFlight(probes)));
    RetainedRelays(cs, bind, held, Relays(InFlight(probes)));
    SortKeepsRelays(kept);
  }

  /** Rebuilt with the hold-downs that outlast `now`. */
  function HeldAt(holdDowns: map<SocketAddr, int>, now: int): set<SocketAddr> {
    set r | r in holdDowns && holdDowns[r] > now
  }

  function Launched(probes: seq<Probe>, c: Candidate, now: int, works: bool): seq<Probe> {
    if works then probes + [Probe(c, now + QUERY_TIMEOUT)] else probes
  }

  /** The front of the queue may be probed now. */
  predicate Due(t: Tunnel, maxProbes: nat, now: int) {
    && t.retryRoundAt.None? && t.nextProbeAt <= now && |t.probes| < maxProbes
    && t.pending != [] && (t.probes == [] || t.currentRank == Some(t.pending[0].Rank()))
  }

  /** `swap_remove`: the last probe takes the place of the removed one. */
  function SwapRemove(probes: seq<Probe>, i: nat): seq<Probe>
    requires i < |probes|
  {
    var last := |probes| - 1;
    if i == last then probes[..last] else probes[..last][i := probes[last]]
  }

  lemma SwapRemoveKeeps(probes: seq<Probe>, i: nat, pending: seq<Candidate>, rank: Option<nat>)
    requires i < |probes| && RelaysApart(probes, pending) && OneRank(probes, rank)
    ensures |SwapRemove(probes, i)| == |probes| - 1
    ensures RelaysApart(SwapRemove(probes, i), pending) && OneRank(SwapRemove(probes, i), rank)
    ensures forall p :: p in SwapRemove(probes, i) ==> p in probes
  {
    var r := SwapRemove(probes, i);
    var last := |probes| - 1;
    forall k | 0 <= k < |r|
      ensures InFlight(r)[k] == InFlight(probes)[if k == i then last else k]
    {
    }
    forall k | 0 <= k < |r|
      ensures InFlight(r)[k].Relay() in Relays(InFlight(probes))
    {
      assert InFlight(probes)[if k == i then last else k].Relay() == InFlight(r)[k].Relay();
    }
  }

  lemma SwapRemoveFront(probes: seq<Probe>, i: nat)
    requires i < |probes|
    ensures |SwapRemove(probes, i)| == |probes| - 1 && SwapRemove(probes, i)[..i] == probes[..i]
  {
  }

  lemma PushProbeKeeps(probes: seq<Probe>, p: Probe, pending: seq<Candidate>, rank: Option<nat>)
    requires pending != [] && p.candidate == pending[0] && rank == Some(pending[0].Rank())
    requires RelaysApart(probes, pending) && OneRank(probes, rank) && SortedByRank(pending)
    ensures RelaysApart(probes + [p], pending[1..]) && OneRank(probes + [p], rank) && SortedByRank(pending[1..])
    ensures RelaysApart(probes, pending[1..])
    ensures forall c :: c in pending ==> p.candidate.Rank() <= c.Rank()
  {
    assert InFlight(probes + [p]) == InFlight(probes) + [p.candidate];
    RelaysSnoc(InFlight(probes), p.candidate);
    assert pending[0].Relay() in Relays(pending);
    forall i | 0 <= i < |pending[1..]|
      ensures pending[1..][i].Relay() in Relays(pending) && pending[1..][i].Relay() != p.candidate.Relay()
    {
      assert pending[1..][i] == pending[i + 1];
    }
  }

  // ---- what polling leaves of the probes ----

  function AnswerTo(p: Probe, answers: Answers): ProbePoll { answers(p.candidate.Relay()) }

  /** The probe goes on waiting. */
  predicate Stays(p: Probe, answers: Answers, now: int) {
    AnswerTo(p, answers).StillPending? && now < p.deadline
  }

  predicate Wins(p: Probe, answers: Answers) {
    AnswerTo(p, answers).Winner? && AnswerTo(p, answers).activates
  }

  ghost predicate SomeoneWins(probes: seq<Probe>, answers: Answers) {
    exists p :: p in probes && Wins(p, answers)
  }

  function Survivors(probes: seq<Probe>, answers: Answers, now: int): seq<Probe> {
    if probes == [] then []
    else
      var front, last := Survivors(probes[..|probes| - 1], answers, now), probes[|probes| - 1];
      if Stays(last, answers, now) then front + [last] else front
  }

  lemma {:induction false} SurvivorsCount(probes: seq<Probe>, answers: Answers, now: int, p: Probe)
    ensures multiset(Survivors(probes, answers, now))[p] ==
            if Stays(p, answers, now) then multiset(probes)[p] else 0
  {
    hide Stays;
    if probes != [] {
      SurvivorsCount(probes[..|probes| - 1], answers, now, p);
      assert probes == probes[..|probes| - 1] + [probes[|probes| - 1]];
    }
  }

  lemma SwapRemoveMultiset(probes: seq<Probe>, i: nat)
    requires i < |probes|
    ensures multiset(SwapRemove(probes, i)) == multiset(probes) - multiset{probes[i]}
  {
    hide SwapRemove;
    var last := |probes| - 1;
    if i < last {
      SwapSplit(probes, i);
      SwapApart(probes[..i], probes[i], probes[i + 1..last], probes[last]);
    } else {
      SwapLast(probes);
    }
  }

  lemma SwapSplit(probes: seq<Probe>, i: nat)
    requires i < |probes| - 1
    ensures var last := |probes| - 1;
            && probes == probes[..i] + [probes[i]] + probes[i + 1..last] + [probes[last]]
            && SwapRemove(probes, i) == probes[..i] + [probes[last]] + probes[i + 1..last]
  {
  }

  lemma SwapLast(probes: seq<Probe>)
    requires probes != []
    ensures var last := |probes| - 1;
            multiset(SwapRemove(probes, last)) == multiset(probes) - multiset{probes[last]}
  {
    var last := |probes| - 1;
    assert probes == probes[..last] + [probes[last]];
  }

  lemma SwapApart(front: seq<Probe>, p: Probe, middle: seq<Probe>, q: Probe)
    ensures multiset(front + [q] + middle) == multiset(front + [p] + middle + [q]) - multiset{p}
  {
    assert multiset(front + [q] + middle) == multiset(front) + multiset{q} + multiset(middle);
    assert multiset(front + [p] + middle + [q]) == multiset(front) + multiset{p} + multiset(middle) + multiset{q};
  }

  /** The probe found its relay, or the one behind its address, loaded. */
  predicate HoldsDown(p: Probe, answers: Answers, r: SocketAddr) {
    AnswerTo(p, answers).Loaded? && (r == p.candidate.Relay() || r == AnswerTo(p, answers).relay)
  }

  ghost predicate HeldBy(probes: set<Probe>, answers: Answers, r: SocketAddr) {
    exists p :: p in probes && HoldsDown(p, answers, r)
  }

  ghost predicate HeldSince(probes: set<Probe>, answers: Answers, r: SocketAddr, since: int) {
    exists p :: p in probes && HoldsDown(p, answers, r) && AnswerTo(p, answers).heldAt == since
  }

  /** The hold-downs after polling: the old ones, and those of loaded relays for their time from when the answer
      came. */
  ghost predicate HeldAfter(before: map<SocketAddr, int>, after: map<SocketAddr, int>, probes: set<Probe>,
                            answers: Answers, holdDown: nat) {
    && (forall r :: r in after <==> r in before || HeldBy(probes, answers, r))
    && (forall r :: r in before && !HeldBy(probes, answers, r) ==> r in after && after[r] == before[r])
    && (forall r :: HeldBy(probes, answers, r) ==>
          r in after && HeldSince(probes, answers, r, after[r] - holdDown))
  }

  lemma HeldNobody(holdDowns: map<SocketAddr, int>, answers: Answers, holdDown: nat)
    ensures HeldAfter(holdDowns, holdDowns, {}, answers, holdDown)
  {
  }

  /** One more probe polled. */
  lemma HeldOne(before: map<SocketAddr, int>, held: map<SocketAddr, int>, after: map<SocketAddr, int>,
                probes: set<Probe>, p: Probe, answers: Answers, holdDown: nat)
    requires HeldAfter(before, held, probes, answers, holdDown)
    requires after == if AnswerTo(p, answers).Loaded? then
                        var expires := AnswerTo(p, answers).heldAt + holdDown;
                        held[p.candidate.Relay() := expires][AnswerTo(p, answers).relay := expires]
                      else held
    ensures HeldAfter(before, after, probes + {p}, answers, holdDown)
  {
    forall r
      ensures HeldBy(probes + {p}, answers, r) <==> HeldBy(probes, answers, r) || HoldsDown(p, answers, r)
    {
      if HoldsDown(p, answers, r) {
        assert p in probes + {p};
      } else if HeldBy(probes, answers, r) {
        var q :| q in probes && HoldsDown(q, answers, r);
        assert q in probes + {p};
      }
    }
    forall r | HeldBy(probes + {p}, answers, r)
      ensures r in after && HeldSince(probes + {p}, answers, r, after[r] - holdDown)
    {
      if HoldsDown(p, answers, r) {
        assert p in probes + {p} && AnswerTo(p, answers).heldAt == after[r] - holdDown;
      } else {
        assert HeldSince(probes, answers, r, held[r] - holdDown);
        var q :| q in probes && HoldsDown(q, answers, r) && AnswerTo(q, answers).heldAt == held[r] - holdDown;
        assert q in probes + {p};
      }
    }
  }

  /** A probe that still waits has nothing to say about hold-downs. */
  lemma HeldByStaying(before: map<SocketAddr, int>, after: map<SocketAddr, int>, polled: set<Probe>, all: set<Probe>,
                      answers: Answers, holdDown: nat, now: int)
    requires HeldAfter(before, after, polled, answers, holdDown) && polled <= all
    requires forall p :: p in all && p !in polled ==> Stays(p, answers, now)
    ensures HeldAfter(before, after, all, answers, holdDown)
  {
    forall r
      ensures HeldBy(all, answers, r) <==> HeldBy(polled, answers, r)
    {
      if p :| p in all && HoldsDown(p, answers, r) {
        assert p in polled;
      }
    }
    forall r | HeldBy(all, answers, r)
      ensures HeldSince(all, answers, r, after[r] - holdDown)
    {
      assert HeldSince(polled, answers, r, after[r] - holdDown);
    }
  }

  function AsSet(probes: seq<Probe>): set<Probe> { set p | p in probes }

  /** The probe is done with, or said something on the way. */
  predicate Moves(p: Probe, answers: Answers, now: int) {
    !Stays(p, answers, now) || AnswerTo(p, answers).moved
  }

  ghost predicate SomethingMoves(probes: seq<Probe>, answers: Answers, now: int) {
    exists p :: p in probes && Moves(p, answers, now)
  }

  /** Where the polling loop is: `done` is polled and gone, the front of `probes` is polled and stays. */
  ghost predicate Polled(all: seq<Probe>, probes: seq<Probe>, index: int, done: seq<Probe>, answers: Answers,
                         now: int) {
    && 0 <= index <= |probes| && multiset(all) == multiset(probes) + multiset(done)
    && (forall i :: 0 <= i < index ==> Stays(probes[i], answers, now))
    && (forall i :: 0 <= i < |done| ==> !Stays(done[i], answers, now) && !Wins(done[i], answers))
  }

  lemma PolledMembers(all: seq<Probe>, probes: seq<Probe>, index: int, done: seq<Probe>, answers: Answers, now: int)
    requires Polled(all, probes, index, done, answers, now)
    ensures forall p :: p in all <==> p in probes || p in done
  {
    forall p
      ensures p in all <==> p in probes || p in done
    {
      assert p in all <==> multiset(all)[p] > 0;
      assert p in probes <==> multiset(probes)[p] > 0;
      assert p in done <==> multiset(done)[p] > 0;
    }
  }

  lemma PolledStays(all: seq<Probe>, probes: seq<Probe>, index: int, done: seq<Probe>, answers: Answers, now: int)
    requires Polled(all, probes, index, done, answers, now) && index < |probes| && Stays(probes[index], answers, now)
    ensures Polled(all, probes, index + 1, done, answers, now)
  {
  }

  lemma PolledGoes(all: seq<Probe>, probes: seq<Probe>, index: int, done: seq<Probe>, answers: Answers, now: int)
    requires Polled(all, probes, index, done, answers, now) && index < |probes|
    requires !Stays(probes[index], answers, now) && !Wins(probes[index], answers)
    ensures Polled(all, SwapRemove(probes, index), index, done + [probes[index]], answers, now)
  {
    hide SwapRemove, Stays, Wins;
    SwapRemoveMultiset(probes, index);
    SwapRemoveFront(probes, index);
    var r := SwapRemove(probes, index);
    forall i | 0 <= i < index ensures Stays(r[i], answers, now) {
      assert r[i] == r[..index][i] == probes[..index][i];
    }
    MovedOver(multiset(all), multiset(probes), multiset(r), done, probes[index]);
  }

  lemma MovedOver(all: multiset<Probe>, before: multiset<Probe>, after: multiset<Probe>, done: seq<Probe>, p: Probe)
    requires all == before + multiset(done) && p in before && after == before - multiset{p}
    ensures all == after + multiset(done + [p])
  {
    assert multiset(done + [p]) == multiset(done) + multiset{p};
    assert before == after + multiset{p};
  }

  /** When every probe is polled, those left are those that stay. */
  lemma PolledAll(all: seq<Probe>, probes: seq<Probe>, done: seq<Probe>, answers: Answers, now: int)
    requires Polled(all, probes, |probes|, done, answers, now)
    ensures multiset(probes) == multiset(Survivors(all, answers, now))
    ensures !SomeoneWins(all, answers)
  {
    PolledMembers(all, probes, |probes|, done, answers, now);
    forall p
      ensures multiset(probes)[p] == multiset(Survivors(all, answers, now))[p]
    {
      SurvivorsCount(all, answers, now, p);
      assert p in probes ==> Stays(p, answers, now);
      assert p in done ==> !Stays(p, answers, now);
      assert multiset(probes)[p] > 0 <==> p in probes;
      assert multiset(done)[p] > 0 <==> p in done;
    }
  }

  // ---- one round without an active relay ----

  /** What a round starts from: the queue, the probes polling leaves, their rank, the retry timer, and the time of
      the next probe. */
  datatype Plan = Plan(queue: seq<Candidate>, left: seq<Probe>, rank: Option<nat>, retry: Option<int>, next: int)

  /** The front of the queue may be probed: no retry round is waited for, its time has come, there is room, and no
      other rank is in flight. */
  predicate PlanDue(plan: Plan, maxProbes: nat, now: int) {
    && plan.retry.None? && plan.next <= now && plan.queue != [] && |plan.left| < maxProbes
    && (plan.left == [] || plan.rank == Some(plan.queue[0].Rank()))
  }

  /** What the round makes of it. Without a retry timer the front of the queue is taken if it is due, and in flight
      if its socket works; nothing else changes, and the timer is armed when nothing is left to try. With a timer
      that has not run out nothing happens. With one that has, the queue is `again`, and its front is taken if the
      clock has not moved on since. */
  ghost predicate Carried(plan: Plan, t: Tunnel, again: seq<Candidate>, maxProbes: nat, spacing: nat, launchedAt: int,
                          rebuiltAt: int, scheduledAt: int, delay: nat, works: bool) {
    && t.active.None?
    && (plan.retry.None? ==>
          var due := PlanDue(plan, maxProbes, launchedAt);
          && t.pending == (if due then plan.queue[1..] else plan.queue)
          && multiset(t.probes) == multiset(plan.left)
             + (if due && works then multiset{Probe(plan.queue[0], launchedAt + QUERY_TIMEOUT)} else multiset{})
          && t.nextProbeAt == (if due then launchedAt + spacing else plan.next)
          && (t.retryRoundAt.Some? <==> !t.noRelayPresent && t.probes == [] && t.pending == [])
          && (t.retryRoundAt.Some? ==> t.retryRoundAt.value == scheduledAt + delay))
    && (plan.retry.Some? && launchedAt < plan.retry.value ==>
          t.probes == [] && t.pending == [] && t.retryRoundAt == plan.retry)
    && (plan.retry.Some? && plan.retry.value <= launchedAt ==>
          var launch := again != [] && rebuiltAt <= launchedAt;
          && t.pending == (if launch then again[1..] else again)
          && t.probes == (if launch then Launched([], again[0], launchedAt, works) else []))
  }

  /** Whether a refresh makes a new queue. */
  predicate Rebuilds(refresh: RefreshPoll, dns: seq<Selection>, withdrawn: bool, served: bool) {
    refresh.Resolved? && !served && (withdrawn || dns != refresh.selections)
  }

  /** A loaded relay and one that sent no traffic are held down, each for its own time, under the address probed and
      the one behind it; a relay whose query timed out is not. */
  function FailedHolds(holdDowns: map<SocketAddr, int>, was: Active, failure: ActiveFailure, heldAt: int, loaded: nat,
                       silent: nat): map<SocketAddr, int> {
    var actual := if was.endpoint.Some? then was.endpoint.value else was.candidate.Relay();
    match failure
    case RelayLoaded => holdDowns[was.candidate.Relay() := heldAt + loaded][actual := heldAt + loaded]
    case NoTraffic => holdDowns[was.candidate.Relay() := heldAt + silent][actual := heldAt + silent]
    case QueryTimeout => holdDowns
  }

  function Unexpired(holdDowns: map<SocketAddr, int>, now: int): map<SocketAddr, int> {
    map r | r in holdDowns && holdDowns[r] > now :: holdDowns[r]
  }

  class DriadSourceTunnel {
    const useAnycast: bool
    const bind: Option<IpAddr>
    const relayHoldDown: nat
    const trafficHoldDown: nat
    const happyEyeballsDelay: nat
    const maxConcurrentProbes: nat
    var dnsCandidates: seq<Selection>
    var holdDowns: map<SocketAddr, int>
    var pending: seq<Candidate>
    var currentRank: Option<nat>
    var probes: seq<Probe>
    var nextProbeAt: int
    var retryRoundAt: Option<int>
    var retryAttempt: nat
    var trafficRetryAttempt: nat
    var noRelayPresent: bool
    var active: Option<Active>

    function View(): Tunnel
      reads this
    {
      Tunnel(active, probes, pending, currentRank, nextProbeAt, retryRoundAt, noRelayPresent)
    }

    ghost predicate Valid()
      reads this
    {
      maxConcurrentProbes >= 1 && Inv(View(), maxConcurrentProbes)
    }

    constructor (useAnycast: bool, bind: Option<IpAddr>, relayHoldDown: nat, trafficHoldDown: nat,
                 happyEyeballsDelay: nat, maxConcurrentProbes: nat, now: int)
      ensures Valid() && active.None? && probes == [] && !noRelayPresent && holdDowns == map[] && dnsCandidates == []
      ensures pending == Queue(AllCandidates(useAnycast, []), bind, {}, []) && nextProbeAt == now && retryRoundAt.None?
      ensures this.useAnycast == useAnycast && this.bind == bind && this.happyEyeballsDelay == happyEyeballsDelay
      ensures this.relayHoldDown == relayHoldDown && this.trafficHoldDown == trafficHoldDown
      ensures this.maxConcurrentProbes == if maxConcurrentProbes < 1 then 1 else maxConcurrentProbes
    {
      this.useAnycast, this.bind := useAnycast, bind;
      this.relayHoldDown, this.trafficHoldDown := relayHoldDown, trafficHoldDown;
      this.happyEyeballsDelay := happyEyeballsDelay;
      this.maxConcurrentProbes := if maxConcurrentProbes < 1 then 1 else maxConcurrentProbes;
      dnsCandidates, holdDowns, pending, currentRank, probes := [], map[], [], None, [];
      nextProbeAt, retryRoundAt, retryAttempt, trafficRetryAttempt := now, None, 0, 0;
      noRelayPresent, active := false, None;
      new;
      assert HeldAt(map[], now) == {} && Unexpired(map[], now) == map[];
      RebuildProbeQueue(now);
    }

    /** A fresh queue: every usable candidate not in flight and not held down, each relay once, in rank order. */
    method RebuildProbeQueue(now: int)
      requires Valid() && active.None?
      modifies this`holdDowns, this`pending, this`currentRank, this`nextProbeAt, this`retryRoundAt
      ensures Valid() && retryRoundAt.None?
      ensures holdDowns == Unexpired(old(holdDowns), now) && holdDowns.Keys == HeldAt(old(holdDowns), now)
      ensures probes != [] ==> currentRank == old(currentRank)
      ensures if noRelayPresent then pending == []
              else
                && pending == Queue(AllCandidates(useAnycast, dnsCandidates), bind, HeldAt(old(holdDowns), now), probes)
                && Relays(pending) == UsableRelays(AllCandidates(useAnycast, dnsCandidates), bind, holdDowns.Keys)
                                      - Relays(InFlight(probes))
                && nextProbeAt == now
      ensures !noRelayPresent ==>
                forall r :: r in Relays(pending) <==>
                  && r in Relays(AllCandidates(useAnycast, dnsCandidates)) && r !in Relays(InFlight(probes))
                  && (r in old(holdDowns) ==> old(holdDowns)[r] <= now)
                  && (bind.Some? ==> bind.value.V4? == r.ip.V4?)
    {
      hide Distinct, Relays, UsableRelays, SortedByRank, SortByRank, Retained, InFlight, AllCandidates;
      holdDowns := Unexpired(holdDowns, now);
      assert holdDowns.Keys == HeldAt(old(holdDowns), now);
      NothingApart();
      if noRelayPresent {
        pending, currentRank, retryRoundAt := [], None, None;
        return;
      }
      var retained := RetainUsable(AllCandidates(useAnycast, dnsCandidates), bind, holdDowns.Keys,
          Relays(InFlight(probes)));
      SortKeepsRelays(retained);
      SortIsSorted(retained);
      pending := SortByRank(retained);
      if probes != [] {
        currentRank := Some(LowestRank(probes));
        SharedRank(probes, old(currentRank));
      } else if pending != [] {
        currentRank := Some(pending[0].Rank());
      } else {
        currentRank := None;
      }
      nextProbeAt := now;
      retryRoundAt := None;
      forall r {
        QueuedRelays(AllCandidates(useAnycast, dnsCandidates), bind, holdDowns.Keys, probes, r);
      }
    }

    /** Starts at most one probe, the front of the queue, and exactly when it is due. A retry timer that has run
        out rebuilds the queue first, at a later clock reading, so unless both readings are the same instant the
        rebuilt queue waits for the next call. */
    method LaunchProbeIfDue(now: int, rebuiltAt: int, socketOpens: bool, sendWorks: bool) returns (progress: bool)
      requires Valid() && now <= rebuiltAt
      modifies this`holdDowns, this`pending, this`currentRank, this`nextProbeAt, this`retryRoundAt, this`probes
      ensures Valid()
      ensures !progress ==> probes == old(probes)
      ensures probes == old(probes)
              || (exists p :: probes == old(probes) + [p] && currentRank == Some(p.candidate.Rank())
                              && forall c :: c in pending ==> p.candidate.Rank() <= c.Rank())
      ensures active.Some? ==> View() == old(View()) && !progress
      ensures old(retryRoundAt).None? ==> retryRoundAt.None? && holdDowns == old(holdDowns)
      ensures old(retryRoundAt).None? && !progress ==> pending == old(pending) && nextProbeAt == old(nextProbeAt)
      ensures progress ==> nextProbeAt == now + happyEyeballsDelay
      ensures old(retryRoundAt).None? ==> (progress <==> old(Due(View(), maxConcurrentProbes, now)))
      ensures old(Due(View(), maxConcurrentProbes, now)) ==>
                && pending == old(pending)[1..]
                && probes == Launched(old(probes), old(pending)[0], now, socketOpens && sendWorks)
      ensures old(retryRoundAt).Some? && now < old(retryRoundAt).value ==> View() == old(View()) && !progress
      ensures old(retryRoundAt).Some? && old(retryRoundAt).value <= now ==>
                var all := AllCandidates(useAnycast, dnsCandidates);
                var queue := Queue(all, bind, HeldAt(old(holdDowns), rebuiltAt), []);
                && retryRoundAt.None? && (progress <==> rebuiltAt <= now && queue != [])
                && pending == (if progress then queue[1..] else queue)
                && probes == if progress then Launched([], queue[0], now, socketOpens && sendWorks) else []
    {
      hide RelaysApart, SortedByRank, Queue, HeldAt, Distinct;
      if retryRoundAt.Some? {
        if now < retryRoundAt.value {
          return false;
        }
        RebuildProbeQueue(rebuiltAt);
      }
      if now < nextProbeAt || |probes| >= maxConcurrentProbes {
        return false;
      }
      if probes == [] && pending != [] && currentRank != Some(pending[0].Rank()) {
        currentRank := Some(pending[0].Rank());
      }
      if pending == [] || currentRank != Some(pending[0].Rank()) {
        return false;
      }
      var candidate := pending[0];
      var probe := Probe(candidate, now + QUERY_TIMEOUT);
      PushProbeKeeps(probes, probe, pending, currentRank);
      pending := pending[1..];
      nextProbeAt := now + happyEyeballsDelay;
      if socketOpens && sendWorks {
        probes := probes + [probe];
      }
      return true;
    }

    /** Polls the probes in flight; the first answer without the load flag becomes the active relay. */
    method PollProbes(answers: Answers, now: int) returns (progress: bool)
      requires Valid() && active.None?
      modifies this`probes, this`pending, this`holdDowns, this`retryAttempt, this`active
      ensures Valid()
      ensures active.Some? <==> SomeoneWins(old(probes), answers)
      ensures active.Some? ==>
                && probes == [] && pending == []
                && exists p :: p in old(probes) && Wins(p, answers)
                               && active == Some(Active(p.candidate, AnswerTo(p, answers).endpoint))
      ensures active.None? ==>
                && pending == old(pending) && multiset(probes) == multiset(Survivors(old(probes), answers, now))
                && HeldAfter(old(holdDowns), holdDowns, AsSet(old(probes)), answers, relayHoldDown)
      ensures progress <==> SomethingMoves(old(probes), answers, now)
    {
      hide RelaysApart, OneRank, SortedByRank, SwapRemove, HeldAfter, Survivors, Polled, Stays, AnswerTo, MovedBefore,
           SomethingMoves;
      progress := false;
      var index := 0;
      ghost var done: seq<Probe> := [];
      HeldNobody(holdDowns, answers, relayHoldDown);
      assert AsSet(done) == {};
      PolledNone(probes, answers, now);
      MovedStart(probes, answers);
      while index < |probes|
        invariant Valid() && active.None? && pending == old(pending) && 0 <= index <= |probes|
        invariant Polled(old(probes), probes, index, done, answers, now)
        invariant HeldAfter(old(holdDowns), holdDowns, AsSet(done), answers, relayHoldDown)
        invariant progress <==> done != [] || MovedBefore(probes, index, answers)
        decreases |probes| - index
      {
        var probe := probes[index];
        var expired := probe.deadline <= now;
        var outcome := AnswerTo(probe, answers);
        StaysIs(probe, answers, now);
        PolledMembers(old(probes), probes, index, done, answers, now);
        if outcome.StillPending? && !expired {
          PolledStays(old(probes), probes, index, done, answers, now);
          MovedNext(probes, index, answers);
          progress := progress || outcome.moved;
          index := index + 1;
        } else {
          ghost var front := probes[..index];
          SwapRemoveKeeps(probes, index, pending, currentRank);
          SwapRemoveFront(probes, index);
          if outcome.Winner? && outcome.activates {
            active := Some(Active(probe.candidate, outcome.endpoint));
            probes, pending, retryAttempt := [], [], 0;
            NothingApart();
            WinnerMoves(old(probes), probe, answers, now);
            return true;
          }
          PolledGoes(old(probes), probes, index, done, answers, now);
          HeldOne(old(holdDowns), holdDowns, HoldDownsAfter(holdDowns, probe, answers, relayHoldDown), AsSet(done),
                  probe, answers, relayHoldDown);
          AsSetSnoc(done, probe);
          probes := SwapRemove(probes, index);
          done := done + [probe];
          progress := true;
          if outcome.Loaded? {
            HoldCandidate(probe.candidate, outcome.relay, outcome.heldAt + relayHoldDown);
          }
        }
      }
      PolledAll(old(probes), probes, done, answers, now);
      PolledSets(old(probes), probes, done, answers, now);
      HeldByStaying(old(holdDowns), holdDowns, AsSet(done), AsSet(old(probes)), answers, relayHoldDown, now);
      PolledMoves(old(probes), probes, done, answers, now);
    }

    method HoldCandidate(candidate: Candidate, actual: SocketAddr, expires: int)
      modifies this`holdDowns
      ensures holdDowns == old(holdDowns)[candidate.Relay() := expires][actual := expires]
    {
      holdDowns := holdDowns[candidate.Relay() := expires];
      holdDowns := holdDowns[actual := expires];
    }

    /** Arms the retry timer once there is nothing left to try. */
    method ScheduleNextRoundIfExhausted(now: int, delay: nat)
      requires Valid()
      modifies this`retryRoundAt, this`retryAttempt
      ensures Valid() && Alive(View())
      ensures old(Alive(View())) ==> View() == old(View())
      ensures !old(Alive(View())) ==> View() == old(View()).(retryRoundAt := Some(now + delay))
    {
      if noRelayPresent || active.Some? || probes != [] || pending != [] {
        return;
      }
      if retryRoundAt.None? {
        retryAttempt := retryAttempt + 1;
        retryRoundAt := Some(now + delay);
      }
    }

    /** Gives up the active relay, holding it down when it refused or stayed silent, and starts over. The relay
        is not in the new queue if the hold-down outlasts the reading of the clock at the rebuild. */
    method FailActive(was: Active, failure: ActiveFailure, heldAt: int, rebuiltAt: int)
      requires Valid() && active.None? && probes == [] && pending == [] && !noRelayPresent
      modifies this`holdDowns, this`pending, this`currentRank, this`nextProbeAt, this`retryRoundAt,
               this`trafficRetryAttempt
      ensures Valid() && retryRoundAt.None?
      ensures holdDowns ==
              Unexpired(FailedHolds(old(holdDowns), was, failure, heldAt, relayHoldDown, trafficHoldDown), rebuiltAt)
      ensures pending == Queue(AllCandidates(useAnycast, dnsCandidates), bind, holdDowns.Keys, [])
      ensures failure.RelayLoaded? && heldAt + relayHoldDown > rebuiltAt ==>
                && was.candidate.Relay() !in Relays(pending)
                && (was.endpoint.Some? ==> was.endpoint.value !in Relays(pending))
      ensures failure.NoTraffic? && heldAt + trafficHoldDown > rebuiltAt ==>
                && was.candidate.Relay() !in Relays(pending)
                && (was.endpoint.Some? ==> was.endpoint.value !in Relays(pending))
    {
      hide RelaysApart, OneRank, SortedByRank, Queue, Relays, UsableRelays, AllCandidates, Unexpired, InFlight;
      var actual := if was.endpoint.Some? then was.endpoint.value else was.candidate.Relay();
      match failure {
        case RelayLoaded => HoldCandidate(was.candidate, actual, heldAt + relayHoldDown);
        case NoTraffic =>
          HoldCandidate(was.candidate, actual, heldAt + trafficHoldDown);
          trafficRetryAttempt := trafficRetryAttempt + 1;
        case QueryTimeout =>
      }
      RebuildProbeQueue(rebuiltAt);
    }

    /** The outcome of a DNS refresh. */
    method PollRefresh(outcome: RefreshPoll, now: int) returns (progress: bool)
      requires Valid()
      modifies this
      ensures Valid() && (progress <==> !outcome.Idle?)
      ensures outcome.NoRelayPresent? ==>
                && noRelayPresent && active.None? && probes == [] && pending == [] && retryRoundAt.None?
                && dnsCandidates == []
      ensures outcome.Resolved? ==> !noRelayPresent && dnsCandidates == outcome.selections
      ensures !outcome.NoRelayPresent? && !outcome.Resolved? ==>
                View() == old(View()) && dnsCandidates == old(dnsCandidates)
      ensures !outcome.NoRelayPresent? ==>
                var rebuilt := Rebuilds(outcome, old(dnsCandidates), old(noRelayPresent), old(active).Some?);
                && active == old(active) && probes == old(probes)
                && (probes != [] ==> currentRank == old(currentRank))
                && pending == (if rebuilt then Queue(AllCandidates(useAnycast, outcome.selections), bind,
                                                     HeldAt(old(holdDowns), now), probes)
                               else old(pending))
                && retryRoundAt == (if rebuilt then None else old(retryRoundAt))
                && nextProbeAt == (if rebuilt then now else old(nextProbeAt))
                && holdDowns == if rebuilt then Unexpired(old(holdDowns), now) else old(holdDowns)
    {
      hide RelaysApart, OneRank, SortedByRank, Queue, HeldAt, Unexpired;
      match outcome {
        case Idle => return false;
        case Started => return true;
        case Resolved(selections) =>
          var changed := dnsCandidates != selections;
          if changed {
            dnsCandidates := selections;
          }
          var wasWithdrawn := noRelayPresent;
          noRelayPresent := false;
          if active.None? && (changed || wasWithdrawn) {
            RebuildProbeQueue(now);
          }
          return true;
        case NoRelayPresent =>
          noRelayPresent, dnsCandidates, pending, probes := true, [], [], [];
          currentRank, retryRoundAt, active := None, None, None;
          NothingApart();
          return true;
        case RefreshFailed => return true;
      }
    }

    /** Launches a probe if one is due, or arms the retry timer when there is nothing left to try. */
    method LaunchOrWait(launchedAt: int, rebuiltAt: int, scheduledAt: int, socketOpens: bool, sendWorks: bool,
                        delay: nat) returns (launched: bool)
      requires Valid() && launchedAt <= rebuiltAt <= scheduledAt
      modifies this`holdDowns, this`pending, this`currentRank, this`nextProbeAt, this`retryRoundAt, this`probes,
               this`retryAttempt
      ensures Valid() && Alive(View())
      ensures active.None? ==>
                Carried(Plan(old(pending), old(probes), old(currentRank), old(retryRoundAt), old(nextProbeAt)), View(),
                        Queue(AllCandidates(useAnycast, dnsCandidates), bind, HeldAt(old(holdDowns), rebuiltAt), []),
                        maxConcurrentProbes, happyEyeballsDelay, launchedAt, rebuiltAt, scheduledAt, delay,
                        socketOpens && sendWorks)
      ensures active.None? && old(retryRoundAt).None? ==>
                && holdDowns == old(holdDowns)
                && (launched <==> PlanDue(Plan(old(pending), old(probes), old(currentRank), None, old(nextProbeAt)),
                                          maxConcurrentProbes, launchedAt))
    {
      hide RelaysApart, OneRank, SortedByRank, Queue, HeldAt, AllCandidates, Carried, PlanDue, Due, Launched;
      ghost var plan := Plan(pending, probes, currentRank, retryRoundAt, nextProbeAt);
      ghost var again := Queue(AllCandidates(useAnycast, dnsCandidates), bind, HeldAt(holdDowns, rebuiltAt), []);
      ghost var mid := View();
      if active.None? {
        DueAsPlanned(plan, mid, maxConcurrentProbes, launchedAt);
      }
      launched := LaunchProbeIfDue(launchedAt, rebuiltAt, socketOpens, sendWorks);
      ghost var next := View();
      ScheduleNextRoundIfExhausted(scheduledAt, delay);
      if active.None? {
        if plan.retry.None? {
          CarriedNow(plan, mid, next, View(), again, maxConcurrentProbes, happyEyeballsDelay, launchedAt, rebuiltAt,
                     scheduledAt, delay, socketOpens && sendWorks);
        } else {
          CarriedLater(plan, next, View(), again, maxConcurrentProbes, happyEyeballsDelay, launchedAt, rebuiltAt,
                       scheduledAt, delay, socketOpens && sendWorks);
        }
      }
    }

    /** The part of a round that looks for a relay: poll the probes, launch one more, or wait for the next round. */
    method ProbeRound(answers: Answers, polledAt: int, launchedAt: int, rebuiltAt: int, scheduledAt: int,
                      socketOpens: bool, sendWorks: bool, delay: nat) returns (progress: bool)
      requires Valid() && active.None? && polledAt <= launchedAt <= rebuiltAt <= scheduledAt
      modifies this
      ensures Valid() && Alive(View()) && dnsCandidates == old(dnsCandidates)
      ensures noRelayPresent == old(noRelayPresent)
      ensures SomeoneWins(old(probes), answers) ==>
                exists p :: p in old(probes) && Wins(p, answers)
                            && active == Some(Active(p.candidate, AnswerTo(p, answers).endpoint))
      ensures !SomeoneWins(old(probes), answers) ==>
                && Carried(Plan(old(pending), Survivors(old(probes), answers, polledAt), old(currentRank),
                                old(retryRoundAt), old(nextProbeAt)),
                           View(),
                           Queue(AllCandidates(useAnycast, dnsCandidates), bind, HeldAt(old(holdDowns), rebuiltAt), []),
                           maxConcurrentProbes, happyEyeballsDelay, launchedAt, rebuiltAt, scheduledAt, delay,
                           socketOpens && sendWorks)
                && (old(retryRoundAt).None? ==>
                      && HeldAfter(old(holdDowns), holdDowns, AsSet(old(probes)), answers, relayHoldDown)
                      && (progress <==>
                            || SomethingMoves(old(probes), answers, polledAt)
                            || PlanDue(Plan(old(pending), Survivors(old(probes), answers, polledAt), old(currentRank),
                                            old(retryRoundAt), old(nextProbeAt)), maxConcurrentProbes, launchedAt)))
    {
      hide RelaysApart, OneRank, SortedByRank, Queue, HeldAt, HeldAfter, Survivors, AnswerTo, AllCandidates,
           SomethingMoves, Carried, PlanDue, SomeoneWins, Wins, Due, Launched, Alive;
      ghost var left := Survivors(probes, answers, polledAt);
      ghost var plan := Plan(pending, left, currentRank, retryRoundAt, nextProbeAt);
      ghost var again := Queue(AllCandidates(useAnycast, dnsCandidates), bind, HeldAt(holdDowns, rebuiltAt), []);
      var polled := PollProbes(answers, polledAt);
      ghost var found := probes;
      ghost var other := Queue(AllCandidates(useAnycast, dnsCandidates), bind, HeldAt(holdDowns, rebuiltAt), []);
      if active.None? {
        SameSize(found, left);
        NoProbesHold(old(holdDowns), holdDowns, old(probes), answers, relayHoldDown);
        SameDue(plan, found, maxConcurrentProbes, launchedAt);
      }
      var launched := LaunchOrWait(launchedAt, rebuiltAt, scheduledAt, socketOpens, sendWorks, delay);
      progress := polled || launched;
      if active.None? {
        SameCarried(plan, found, View(), other, again, maxConcurrentProbes, happyEyeballsDelay, launchedAt, rebuiltAt,
                    scheduledAt, delay, socketOpens && sendWorks);
      }
    }

    /** One round of the daemon loop, each reading of the clock no earlier than the one before. */
    method Poll(refresh: RefreshPoll, refreshedAt: int, activeFailure: Option<ActiveFailure>, activeMoved: bool,
                heldAt: int, failedAt: int, answers: Answers, polledAt: int, launchedAt: int, rebuiltAt: int,
                scheduledAt: int, socketOpens: bool, sendWorks: bool, delay: nat) returns (progress: bool)
      requires Valid()
      requires refreshedAt <= heldAt <= failedAt && refreshedAt <= polledAt <= launchedAt <= rebuiltAt <= scheduledAt
      modifies this
      ensures Valid()
      ensures Alive(View()) || (old(active).Some? && activeFailure.Some?)
      ensures active.Some? ==> probes == [] && pending == [] && retryRoundAt.None?
      // a withdrawal
      ensures refresh.NoRelayPresent? ==> noRelayPresent && active.None? && probes == [] && pending == []
      // an active relay
      ensures !refresh.NoRelayPresent? && old(active).Some? && activeFailure.None? ==> active == old(active)
      ensures !refresh.NoRelayPresent? && old(active).Some? && activeFailure.Some? ==>
                && active.None? && probes == [] && retryRoundAt.None?
                && holdDowns == Unexpired(FailedHolds(old(holdDowns), old(active).value, activeFailure.value, heldAt,
                                                      relayHoldDown, trafficHoldDown), failedAt)
                && pending == Queue(AllCandidates(useAnycast, dnsCandidates), bind, holdDowns.Keys, [])
      // a probe that wins
      ensures !refresh.NoRelayPresent? && old(active).None? && SomeoneWins(old(probes), answers) ==>
                exists p :: p in old(probes) && Wins(p, answers)
                            && active == Some(Active(p.candidate, AnswerTo(p, answers).endpoint))
      // otherwise
      ensures !refresh.NoRelayPresent? && old(active).None? && !SomeoneWins(old(probes), answers) ==>
                var rebuilt := Rebuilds(refresh, old(dnsCandidates), old(noRelayPresent), false);
                var dns := if refresh.Resolved? then refresh.selections else old(dnsCandidates);
                var held := if rebuilt then Unexpired(old(holdDowns), refreshedAt) else old(holdDowns);
                var queue := if rebuilt then Queue(AllCandidates(useAnycast, dns), bind,
                                                   HeldAt(old(holdDowns), refreshedAt), old(probes))
                             else old(pending);
                var retry := if rebuilt then None else old(retryRoundAt);
                && Carried(Plan(queue, Survivors(old(probes), answers, polledAt), old(currentRank), retry,
                                if rebuilt then refreshedAt else old(nextProbeAt)),
                           View(), Queue(AllCandidates(useAnycast, dns), bind, HeldAt(held, rebuiltAt), []),
                           maxConcurrentProbes, happyEyeballsDelay, launchedAt, rebuiltAt, scheduledAt, delay,
                           socketOpens && sendWorks)
                && (retry.None? ==> HeldAfter(held, holdDowns, AsSet(old(probes)), answers, relayHoldDown))
    {
      hide RelaysApart, OneRank, SortedByRank, Queue, HeldAt, HeldAfter, Survivors, AnswerTo, AllCandidates, Carried,
           Unexpired, SomeoneWins, FailedHolds;
      progress := PollRefresh(refresh, refreshedAt);
      if active.Some? {
        var was := active.value;
        progress := progress || activeMoved;
        if activeFailure.Some? {
          active := None;
          FailActive(was, activeFailure.value, heldAt, failedAt);
        }
      } else {
        ghost var plan := Plan(pending, Survivors(probes, answers, polledAt), currentRank, retryRoundAt, nextProbeAt);
        ghost var again := Queue(AllCandidates(useAnycast, dnsCandidates), bind, HeldAt(holdDowns, rebuiltAt), []);
        var probed := ProbeRound(answers, polledAt, launchedAt, rebuiltAt, scheduledAt, socketOpens, sendWorks, delay);
        progress := progress || probed;
        if !refresh.NoRelayPresent? && old(probes) == [] && !SomeoneWins(old(probes), answers) {
          NoSurvivors(answers, polledAt);
          RankOfNothing(plan, old(currentRank), View(), again, maxConcurrentProbes, happyEyeballsDelay, launchedAt,
                        rebuiltAt, scheduledAt, delay, socketOpens && sendWorks);
        }
      }
    }

    /** A changed membership is sent over the active relay, or the relay is given up. */
    method SetDesired(changed: bool, sent: bool, heldAt: int, rebuiltAt: int)
      requires Valid()
      modifies this`holdDowns, this`pending, this`currentRank, this`nextProbeAt, this`retryRoundAt,
               this`trafficRetryAttempt, this`active
      ensures Valid()
      ensures active == (if changed && !sent then None else old(active))
      ensures active == old(active) ==> View() == old(View()) && holdDowns == old(holdDowns)
      ensures active != old(active) ==>
                && holdDowns == Unexpired(old(holdDowns), rebuiltAt) && retryRoundAt.None?
                && pending == Queue(AllCandidates(useAnycast, dnsCandidates), bind, holdDowns.Keys, [])
    {
      hide RelaysApart, OneRank, SortedByRank, Queue;
      if changed && active.Some? && !sent {
        var was := active.value;
        active := None;
        FailActive(was, QueryTimeout, heldAt, rebuiltAt);
      }
    }

    method Stop()
      requires Valid()
      modifies this`active, this`probes
      ensures Valid() && active.None? && probes == []
    {
      active, probes := None, [];
      StopApart(old(probes), pending);
    }
  }

  /** The candidates are the two well-known relays, if wanted, and those of the source's DNS. */
  lemma CandidateRelays(useAnycast: bool, dns: seq<Selection>, r: SocketAddr)
    ensures r in Relays(AllCandidates(useAnycast, dns)) <==>
              || (useAnycast && (r == SocketAddr(ANYCAST_IPV6, AMT_PORT) || r == SocketAddr(ANYCAST_IPV4, AMT_PORT)))
              || exists i :: 0 <= i < |dns| && dns[i].relay == r
  {
    var cs := AllCandidates(useAnycast, dns);
    var n := if useAnycast then 2 else 0;
    assert |cs| == n + |dns| && forall i :: 0 <= i < |dns| ==> cs[n + i] == Candidate(dns[i], SourceDns);
    if useAnycast {
      assert cs[0].Relay() == SocketAddr(ANYCAST_IPV6, AMT_PORT) && cs[1].Relay() == SocketAddr(ANYCAST_IPV4, AMT_PORT);
    }
    if i :| 0 <= i < |dns| && dns[i].relay == r {
      assert cs[n + i].Relay() == r;
    }
  }

  lemma NothingApart()
    ensures RelaysApart([], []) && SortedByRank([]) && forall r :: OneRank([], r)
  {
  }

  lemma PolledNone(probes: seq<Probe>, answers: Answers, now: int)
    ensures Polled(probes, probes, 0, [], answers, now)
  {
  }

  lemma StaysIs(p: Probe, answers: Answers, now: int)
    ensures Stays(p, answers, now) <==> AnswerTo(p, answers).StillPending? && now < p.deadline
  {
  }

  function HoldDownsAfter(held: map<SocketAddr, int>, p: Probe, answers: Answers, holdDown: nat): map<SocketAddr, int> {
    if AnswerTo(p, answers).Loaded? then
      var expires := AnswerTo(p, answers).heldAt + holdDown;
      held[p.candidate.Relay() := expires][AnswerTo(p, answers).relay := expires]
    else held
  }

  predicate AnswerMoved(p: Probe, answers: Answers) {
    AnswerTo(p, answers).StillPending? && AnswerTo(p, answers).moved
  }

  /** One of the first probes said something and still waits. */
  ghost predicate MovedBefore(probes: seq<Probe>, index: nat, answers: Answers) {
    exists i :: 0 <= i < index <= |probes| && AnswerMoved(probes[i], answers)
  }

  lemma MovedStart(probes: seq<Probe>, answers: Answers)
    ensures !MovedBefore(probes, 0, answers)
  {
  }

  lemma MovedNext(probes: seq<Probe>, index: nat, answers: Answers)
    requires index < |probes| && AnswerTo(probes[index], answers).StillPending?
    ensures MovedBefore(probes, index + 1, answers) <==>
              MovedBefore(probes, index, answers) || AnswerTo(probes[index], answers).moved
  {
    if i :| 0 <= i < index + 1 && AnswerMoved(probes[i], answers) && i < index {
      assert MovedBefore(probes, index, answers);
    }
    if AnswerTo(probes[index], answers).moved {
      assert AnswerMoved(probes[index], answers);
    }
    if MovedBefore(probes, index, answers) {
      var i :| 0 <= i < index && AnswerMoved(probes[i], answers);
    }
  }

  lemma WinnerMoves(probes: seq<Probe>, p: Probe, answers: Answers, now: int)
    requires p in probes && AnswerTo(p, answers).Winner? && AnswerTo(p, answers).activates
    ensures Wins(p, answers) && SomeoneWins(probes, answers) && SomethingMoves(probes, answers, now)
  {
    assert Moves(p, answers, now);
  }

  lemma AsSetSnoc(done: seq<Probe>, p: Probe)
    ensures AsSet(done + [p]) == AsSet(done) + {p}
  {
  }

  lemma PolledSets(all: seq<Probe>, probes: seq<Probe>, done: seq<Probe>, answers: Answers, now: int)
    requires Polled(all, probes, |probes|, done, answers, now)
    ensures AsSet(done) <= AsSet(all)
    ensures forall p :: p in AsSet(all) && p !in AsSet(done) ==> Stays(p, answers, now)
  {
    PolledMembers(all, probes, |probes|, done, answers, now);
  }

  lemma PolledMoves(all: seq<Probe>, probes: seq<Probe>, done: seq<Probe>, answers: Answers, now: int)
    requires Polled(all, probes, |probes|, done, answers, now)
    ensures SomethingMoves(all, answers, now) <==> done != [] || MovedBefore(probes, |probes|, answers)
  {
    PolledMembers(all, probes, |probes|, done, answers, now);
    if done != [] {
      assert done[0] in all && Moves(done[0], answers, now);
    }
    if MovedBefore(probes, |probes|, answers) {
      var i :| 0 <= i < |probes| && AnswerMoved(probes[i], answers);
      assert probes[i] in all && Moves(probes[i], answers, now);
    }
  }

  lemma SameSize(a: seq<Probe>, b: seq<Probe>)
    requires multiset(a) == multiset(b)
    ensures |a| == |b|
  {
    assert |multiset(a)| == |a| && |multiset(b)| == |b|;
  }

  lemma NoProbesHold(before: map<SocketAddr, int>, after: map<SocketAddr, int>, probes: seq<Probe>, answers: Answers,
                     holdDown: nat)
    requires HeldAfter(before, after, AsSet(probes), answers, holdDown)
    ensures probes == [] ==> after == before
  {
    if probes == [] {
      assert forall r :: !HeldBy(AsSet(probes), answers, r);
      assert after.Keys == before.Keys;
    }
  }

  /** The tunnel holds the plan, up to the order of its probes. */
  predicate Realizes(t: Tunnel, plan: Plan) {
    && t.active.None? && t.pending == plan.queue && multiset(t.probes) == multiset(plan.left)
    && |t.probes| == |plan.left| && t.currentRank == plan.rank && t.retryRoundAt == plan.retry
    && t.nextProbeAt == plan.next
  }

  lemma DueAsPlanned(plan: Plan, t: Tunnel, maxProbes: nat, now: int)
    requires Realizes(t, plan)
    ensures Due(t, maxProbes, now) <==> PlanDue(plan, maxProbes, now)
  {
  }

  /** The order of the probes in flight does not matter, nor the next queue without a retry timer. */
  lemma SameDue(plan: Plan, left: seq<Probe>, maxProbes: nat, now: int)
    requires |left| == |plan.left|
    ensures PlanDue(plan.(left := left), maxProbes, now) <==> PlanDue(plan, maxProbes, now)
  {
  }

  lemma SameCarried(plan: Plan, left: seq<Probe>, t: Tunnel, other: seq<Candidate>, again: seq<Candidate>,
                    maxProbes: nat, spacing: nat, launchedAt: int, rebuiltAt: int, scheduledAt: int, delay: nat,
                    works: bool)
    requires |left| == |plan.left| && multiset(left) == multiset(plan.left) && (plan.retry.Some? ==> other == again)
    requires Carried(plan.(left := left), t, other, maxProbes, spacing, launchedAt, rebuiltAt, scheduledAt, delay,
                     works)
    ensures Carried(plan, t, again, maxProbes, spacing, launchedAt, rebuiltAt, scheduledAt, delay, works)
  {
    hide PlanDue;
    SameDue(plan, left, maxProbes, launchedAt);
  }

  /** What the scheduler makes of a tunnel. */
  predicate Scheduled(t: Tunnel, end: Tunnel, scheduledAt: int, delay: nat) {
    end == if Alive(t) then t else t.(retryRoundAt := Some(scheduledAt + delay))
  }

  lemma CarriedNow(plan: Plan, mid: Tunnel, next: Tunnel, end: Tunnel, again: seq<Candidate>, maxProbes: nat,
                   spacing: nat, launchedAt: int, rebuiltAt: int, scheduledAt: int, delay: nat, works: bool)
    requires plan.retry.None? && Realizes(mid, plan) && Scheduled(next, end, scheduledAt, delay)
    requires next.active.None? && next.retryRoundAt.None?
    requires if PlanDue(plan, maxProbes, launchedAt)
             then && next.pending == mid.pending[1..] && next.nextProbeAt == launchedAt + spacing
                  && next.probes == Launched(mid.probes, mid.pending[0], launchedAt, works)
             else next.pending == mid.pending && next.probes == mid.probes && next.nextProbeAt == mid.nextProbeAt
    ensures Carried(plan, end, again, maxProbes, spacing, launchedAt, rebuiltAt, scheduledAt, delay, works)
  {
  }

  lemma CarriedLater(plan: Plan, next: Tunnel, end: Tunnel, again: seq<Candidate>, maxProbes: nat, spacing: nat,
                     launchedAt: int, rebuiltAt: int, scheduledAt: int, delay: nat, works: bool)
    requires plan.retry.Some? && Scheduled(next, end, scheduledAt, delay) && next.active.None?
    requires launchedAt < plan.retry.value ==>
               next.probes == [] && next.pending == [] && next.retryRoundAt == plan.retry
    requires plan.retry.value <= launchedAt ==>
               var launch := again != [] && rebuiltAt <= launchedAt;
               && next.pending == (if launch then again[1..] else again)
               && next.probes == (if launch then Launched([], again[0], launchedAt, works) else [])
    ensures Carried(plan, end, again, maxProbes, spacing, launchedAt, rebuiltAt, scheduledAt, delay, works)
  {
  }

  /** With nothing in flight the rank does not matter. */
  lemma RankOfNothing(plan: Plan, rank: Option<nat>, t: Tunnel, again: seq<Candidate>, maxProbes: nat, spacing: nat,
                      launchedAt: int, rebuiltAt: int, scheduledAt: int, delay: nat, works: bool)
    requires plan.left == []
    requires Carried(plan, t, again, maxProbes, spacing, launchedAt, rebuiltAt, scheduledAt, delay, works)
    ensures Carried(plan.(rank := rank), t, again, maxProbes, spacing, launchedAt, rebuiltAt, scheduledAt, delay, works)
  {
    assert PlanDue(plan, maxProbes, launchedAt) == PlanDue(plan.(rank := rank), maxProbes, launchedAt);
  }

  lemma NoSurvivors(answers: Answers, now: int)
    ensures Survivors([], answers, now) == []
  {
  }

  lemma StopApart(probes: seq<Probe>, pending: seq<Candidate>)
    requires RelaysApart(probes, pending)
    ensures RelaysApart([], pending)
  {
  }

  function LowestRank(probes: seq<Probe>): nat
    requires probes != []
  {
    if |probes| == 1 then probes[0].candidate.Rank()
    else
      var rest, last := LowestRank(probes[..|probes| - 1]), probes[|probes| - 1].candidate.Rank();
      if last < rest then last else rest
  }

  lemma {:induction false} SharedRank(probes: seq<Probe>, rank: Option<nat>)
    requires probes != [] && OneRank(probes, rank)
    ensures rank == Some(LowestRank(probes))
  {
    if |probes| > 1 {
      SharedRank(probes[..|probes| - 1], rank);
    }
  }
}
