/** The relay daemon as a transition system: membership transactions, native joins and idle expiry
    together, with every join and leave free to fail. */
module RelayRun {
  import opened Bytes
  import opened Interest
  import opened RelayState
  import opened RelayDatabase
  import opened Upstream

  datatype Daemon = Daemon(
    endpoints: Endpoints,                // the committed database
    active: set<Subscription>,           // native joins held by the capture worker
    lastSeen: map<SocketAddr, int>)      // activity of the gateways

  const START := Daemon(map[], {}, map[])

  /** What happens to the daemon, with what the world decides: whether the native joins of the transaction
      succeed, and whether a relay near its limits ignores an update of a new endpoint. */
  datatype Event =
    | Update(peer: SocketAddr, report: MembershipReport, now: int, ignored: bool, joins: bool)
    | Teardown(sender: SocketAddr, target: SocketAddr, now: int, joins: bool)
    | Prune(timeout: Option<nat>, now: int, joins: bool)

  // ---- the two ways a transaction ends ----

  /** `sync_upstream`: on failure the reconcile has restored the joins it found. */
  predicate Synced(before: set<Subscription>, desired: set<Subscription>, after: set<Subscription>, ok: bool) {
    if ok then ReconcileOk(before, desired, after) else after == before
  }

  function MarkIfPresent(d: Daemon, e: SocketAddr, now: int): map<SocketAddr, int> {
    if e in d.endpoints then d.lastSeen[e := now] else d.lastSeen
  }

  function MarkOrRemove(endpoints: Endpoints, lastSeen: map<SocketAddr, int>, e: SocketAddr,
                        now: int): map<SocketAddr, int> {
    if e in endpoints then lastSeen[e := now] else lastSeen - {e}
  }

  /** A candidate database is committed only after its native joins are in place; `ok` tells whether they are. */
  ghost predicate Commit(d: Daemon, d': Daemon, next: Endpoints, onFailure: map<SocketAddr, int>,
                         onSuccess: map<SocketAddr, int>, ok: bool) {
    && Synced(d.active, Subscriptions(next), d'.active, ok)
    && d'.endpoints == (if ok then next else d.endpoints)
    && d'.lastSeen == (if ok then onSuccess else onFailure)
  }

  /** An authenticated Membership Update the relay does not ignore: one that changes nothing is an activity
      mark, one the limits refuse changes nothing, any other is committed if the native joins allow it. */
  ghost predicate UpdateResolved(d: Daemon, d': Daemon, peer: SocketAddr, report: MembershipReport, now: int,
                                 limits: RelayLimits, ok: bool) {
    var next := AfterReport(d.endpoints, peer, report);
    if next == d.endpoints then d' == d.(lastSeen := MarkOrRemove(d.endpoints, d.lastSeen, peer, now))
    else if Accepts(d.endpoints, peer, report, limits).Err? then d' == d
    else Commit(d, d', next, MarkIfPresent(d, peer, now), MarkOrRemove(next, d.lastSeen, peer, now), ok)
  }

  /** A resource is near its limit in the last tenth below it. */
  predicate NearLimit(value: nat, limit: nat) {
    limit != 0 && value >= limit - limit / 10
  }

  /** That is from nine tenths on, and never for a limit of zero. */
  lemma NearLimitExactly(value: nat, limit: nat)
    ensures NearLimit(value, limit) <==> limit != 0 && 10 * value >= 9 * limit
  {
    assert limit == limit / 10 * 10 + limit % 10;
  }

  /** `refusing_new_endpoint`: the relay is told to, or some resource is near its limit. */
  ghost predicate RefusesNew(eps: Endpoints, ip: IpAddr, limits: RelayLimits, limitFlag: bool) {
    || limitFlag
    || NearLimit(|eps|, limits.maxEndpoints)
    || NearLimit(|Pairs(eps)|, limits.maxTotalEndpointGroups)
    || NearLimit(|Triples(eps)|, limits.maxTotalSources)
    || NearLimit(|Subscriptions(eps)|, limits.maxUpstreamSubscriptions)
    || NearLimit(|AtIp(eps, ip)|, limits.maxEndpointsPerIp)
  }

  /** In numbers: a flag, or some limit that is not zero and nine tenths used up. */
  lemma RefusesNewExactly(eps: Endpoints, ip: IpAddr, limits: RelayLimits, limitFlag: bool)
    ensures RefusesNew(eps, ip, limits, limitFlag) <==>
              || limitFlag
              || (limits.maxEndpoints != 0 && 10 * |eps| >= 9 * limits.maxEndpoints)
              || (limits.maxTotalEndpointGroups != 0 && 10 * |Pairs(eps)| >= 9 * limits.maxTotalEndpointGroups)
              || (limits.maxTotalSources != 0 && 10 * |Triples(eps)| >= 9 * limits.maxTotalSources)
              || (limits.maxUpstreamSubscriptions != 0
                  && 10 * |Subscriptions(eps)| >= 9 * limits.maxUpstreamSubscriptions)
              || (limits.maxEndpointsPerIp != 0
                  && 10 * |set e | e in eps && e.ip == ip| >= 9 * limits.maxEndpointsPerIp)
  {
    hide NearLimit, Pairs, Triples, Subscriptions;
    NearLimitExactly(|eps|, limits.maxEndpoints);
    NearLimitExactly(|Pairs(eps)|, limits.maxTotalEndpointGroups);
    NearLimitExactly(|Triples(eps)|, limits.maxTotalSources);
    NearLimitExactly(|Subscriptions(eps)|, limits.maxUpstreamSubscriptions);
    NearLimitExactly(|AtIp(eps, ip)|, limits.maxEndpointsPerIp);
  }

  /** A relay near its limits ignores a new endpoint. */
  ghost predicate UpdateStep(d: Daemon, d': Daemon, peer: SocketAddr, report: MembershipReport, now: int,
                             limits: RelayLimits, ignored: bool, ok: bool) {
    if ignored then peer !in d.endpoints && d' == d
    else UpdateResolved(d, d', peer, report, now, limits, ok)
  }

  /** An authenticated Teardown. */
  ghost predicate TeardownStep(d: Daemon, d': Daemon, sender: SocketAddr, target: SocketAddr, now: int, ok: bool) {
    if target !in d.endpoints then d' == d.(lastSeen := d.lastSeen - {target})
    else Commit(d, d', d.endpoints - {target}, MarkIfPresent(d, sender, now), d.lastSeen - {target}, ok)
  }

  function Stale(lastSeen: map<SocketAddr, int>, timeout: Option<nat>, now: int): set<SocketAddr> {
    set e | e in lastSeen && timeout.Some? && now - lastSeen[e] >= timeout.value
  }

  /** The periodic prune removes idle gateways first and only then synchronises, possibly in vain. */
  ghost predicate PruneStep(d: Daemon, d': Daemon, timeout: Option<nat>, now: int, ok: bool) {
    var stale := Stale(d.lastSeen, timeout, now);
    && d'.endpoints == d.endpoints - stale
    && d'.lastSeen == d.lastSeen - stale
    && Synced(d.active, Subscriptions(d'.endpoints), d'.active, ok)
  }

  ghost predicate Step(d: Daemon, d': Daemon, event: Event, limits: RelayLimits) {
    match event
    case Update(peer, report, now, ignored, joins) => UpdateStep(d, d', peer, report, now, limits, ignored, joins)
    case Teardown(sender, target, now, joins) => TeardownStep(d, d', sender, target, now, joins)
    case Prune(timeout, now, joins) => PruneStep(d, d', timeout, now, joins)
  }

  /** A run of the daemon, oldest step innermost. */
  datatype Trace = Begin | Then(before: Trace, event: Event, state: Daemon)

  function Last(t: Trace): Daemon {
    if t.Begin? then START else t.state
  }

  ghost predicate IsRun(t: Trace, limits: RelayLimits) {
    t.Then? ==> IsRun(t.before, limits) && Step(Last(t.before), t.state, t.event, limits)
  }

  // ---- what every run keeps ----

  /** Every (source, group) an endpoint wants arrives through some native join. */
  ghost predicate Covered(eps: Endpoints, active: set<Subscription>) {
    forall g, s :: Wanted(eps, g, s) ==> Asm(g) in active || Ssm(g, s) in active
  }

  ghost predicate Inv(d: Daemon, limits: RelayLimits) {
    && WellFormed(d.endpoints)
    && WithinLimits(d.endpoints, limits)
    && Covered(d.endpoints, d.active)
    && d.lastSeen.Keys == d.endpoints.Keys
  }

  lemma SubscriptionsCover(eps: Endpoints, active: set<Subscription>)
    requires Subscriptions(eps) <= active
    ensures Covered(eps, active)
  {
  }

  /** Removing endpoints only shrinks what is wanted, so old joins still cover the rest. */
  lemma CoverSurvivesRemoval(eps: Endpoints, gone: set<SocketAddr>, active: set<Subscription>)
    requires Covered(eps, active)
    ensures Covered(eps - gone, active)
  {
    forall g, s | Wanted(eps - gone, g, s)
      ensures Asm(g) in active || Ssm(g, s) in active
    {
      var e :| EndpointWants(eps - gone, e, g, s);
      assert EndpointWants(eps, e, g, s);
    }
  }

  lemma CommitCovers(d: Daemon, d': Daemon, next: Endpoints, onFailure: map<SocketAddr, int>,
                     onSuccess: map<SocketAddr, int>, ok: bool)
    requires Covered(d.endpoints, d.active) && Commit(d, d', next, onFailure, onSuccess, ok)
    ensures Covered(d'.endpoints, d'.active)
  {
  }

  lemma UpdateKeepsInv(d: Daemon, d': Daemon, peer: SocketAddr, report: MembershipReport, now: int, limits: RelayLimits,
                       ignored: bool, ok: bool)
    requires Inv(d, limits) && UpdateStep(d, d', peer, report, now, limits, ignored, ok)
    ensures Inv(d', limits)
  {
    hide WellFormed, WithinLimits, Covered, Subscriptions, Accepts, AfterReport;
    var next := AfterReport(d.endpoints, peer, report);
    AfterReportWellFormed(d.endpoints, peer, report);
    AfterReportKeys(d.endpoints, peer, report);
    WatchedAfter(d.endpoints, next, d.lastSeen, peer, now);
    WatchedAfter(d.endpoints, d.endpoints, d.lastSeen, peer, now);
    if Accepts(d.endpoints, peer, report, limits).Ok? {
      UpdateWithinLimits(d.endpoints, peer, report, limits);
      var onFailure, onSuccess := MarkIfPresent(d, peer, now), MarkOrRemove(next, d.lastSeen, peer, now);
      if Commit(d, d', next, onFailure, onSuccess, ok) {
        CommitCovers(d, d', next, onFailure, onSuccess, ok);
      }
    }
  }

  lemma TeardownKeepsInv(d: Daemon, d': Daemon, sender: SocketAddr, target: SocketAddr, now: int, limits: RelayLimits,
                         ok: bool)
    requires Inv(d, limits) && TeardownStep(d, d', sender, target, now, ok)
    ensures Inv(d', limits)
  {
    hide WellFormed, WithinLimits, Covered, Subscriptions;
    RemoveWithinLimits(d.endpoints, {target}, limits);
    RemovalWellFormed(d.endpoints, {target});
    if target in d.endpoints {
      var next, onFailure, onSuccess := d.endpoints - {target}, MarkIfPresent(d, sender, now), d.lastSeen - {target};
      CommitCovers(d, d', next, onFailure, onSuccess, ok);
    }
  }

  lemma PruneKeepsInv(d: Daemon, d': Daemon, timeout: Option<nat>, now: int, limits: RelayLimits, ok: bool)
    requires Inv(d, limits) && PruneStep(d, d', timeout, now, ok)
    ensures Inv(d', limits)
  {
    hide WellFormed, WithinLimits, Covered, Subscriptions, Stale;
    var stale := Stale(d.lastSeen, timeout, now);
    RemoveWithinLimits(d.endpoints, stale, limits);
    CoverSurvivesRemoval(d.endpoints, stale, d.active);
    RemovalWellFormed(d.endpoints, stale);
    if d'.active != d.active {
      SubscriptionsCover(d'.endpoints, d'.active);
    }
  }

  lemma RemovalWellFormed(eps: Endpoints, gone: set<SocketAddr>)
    requires WellFormed(eps)
    ensures WellFormed(eps - gone)
  {
  }

  /** Marking or forgetting the peer keeps exactly the database's endpoints watched. */
  lemma WatchedAfter(eps: Endpoints, next: Endpoints, lastSeen: map<SocketAddr, int>, e: SocketAddr, now: int)
    requires lastSeen.Keys == eps.Keys && next.Keys - {e} == eps.Keys - {e}
    ensures MarkOrRemove(next, lastSeen, e, now).Keys == next.Keys
  {
    forall f
      ensures f in MarkOrRemove(next, lastSeen, e, now) <==> f in next
    {
      assert f in next.Keys - {e} <==> f in eps.Keys - {e};
    }
  }

  lemma AfterReportKeys(eps: Endpoints, e: SocketAddr, report: MembershipReport)
    ensures AfterReport(eps, e, report).Keys - {e} == eps.Keys - {e}
  {
  }

  lemma StartInv(limits: RelayLimits)
    ensures Inv(START, limits)
  {
  }

  /** In every run, with joins and leaves failing arbitrarily, every wanted flow is covered by a
      native join, the database is well formed and within its limits, and every gateway in it is
      watched for idleness. */
  lemma {:induction false} EveryRunCovered(t: Trace, limits: RelayLimits)
    requires IsRun(t, limits)
    ensures Inv(Last(t), limits)
  {
    hide Inv, UpdateStep, TeardownStep, PruneStep;
    match t
    case Begin => StartInv(limits);
    case Then(before, event, state) =>
      EveryRunCovered(before, limits);
      match event {
        case Update(peer, report, now, ignored, joins) =>
          UpdateKeepsInv(Last(before), state, peer, report, now, limits, ignored, joins);
        case Teardown(sender, target, now, joins) =>
          TeardownKeepsInv(Last(before), state, sender, target, now, limits, joins);
        case Prune(timeout, now, joins) => PruneKeepsInv(Last(before), state, timeout, now, limits, joins);
      }
  }

  // ---- the database and the activity table as the history has them ----

  /** The event is a sign of life of `e` that the relay takes notice of: an update of its own that is not ignored
      or refused by the limits and after which it is in the database, or a teardown of its own that failed while
      it was. */
  ghost predicate Marks(d: Daemon, event: Event, limits: RelayLimits, e: SocketAddr) {
    match event
    case Update(peer, report, _, ignored, joins) =>
      var next := AfterReport(d.endpoints, peer, report);
      && peer == e && !ignored
      && (next == d.endpoints || Accepts(d.endpoints, peer, report, limits).Ok?)
      && e in (if joins then next else d.endpoints)
    case Teardown(sender, target, _, joins) => sender == e && !joins && target in d.endpoints && e in d.endpoints
    case Prune(_, _, _) => false
  }

  /** When `e` last gave a sign of life. */
  ghost function LastMark(t: Trace, limits: RelayLimits, e: SocketAddr): Option<int> {
    match t
    case Begin => None
    case Then(before, event, _) =>
      if Marks(Last(before), event, limits, e) then Some(event.now) else LastMark(before, limits, e)
  }

  /** The filters of `e` as its history has them: the accepted updates in order, from nothing and from nothing
      again after a teardown of it or a prune that came a whole timeout after its last sign of life. */
  ghost function Replay(t: Trace, limits: RelayLimits, e: SocketAddr): Groups {
    match t
    case Begin => map[]
    case Then(before, event, _) =>
      var was := Replay(before, limits, e);
      match event
      case Update(peer, report, _, ignored, joins) =>
        if peer == e && !ignored && joins && Accepts(Last(before).endpoints, peer, report, limits).Ok?
        then ApplyAll(was, report.records) else was
      case Teardown(_, target, _, joins) => if target == e && joins then map[] else was
      case Prune(timeout, now, _) =>
        var seen := LastMark(before, limits, e);
        if timeout.Some? && seen.Some? && now - seen.value >= timeout.value then map[] else was
  }

  /** The database and the activity table hold of `e` what its history says. */
  ghost predicate Remembers(t: Trace, limits: RelayLimits, e: SocketAddr) {
    var d := Last(t);
    && EntryOf(d.endpoints, e) == Replay(t, limits, e)
    && (e in d.endpoints ==> e in d.lastSeen && LastMark(t, limits, e) == Some(d.lastSeen[e]))
  }

  /** What a transaction makes of one endpoint's entry. */
  lemma EntryAfterReport(eps: Endpoints, peer: SocketAddr, report: MembershipReport, e: SocketAddr)
    ensures EntryOf(AfterReport(eps, peer, report), e) ==
            if peer == e then ApplyAll(EntryOf(eps, e), report.records) else EntryOf(eps, e)
    ensures peer != e ==> (e in AfterReport(eps, peer, report) <==> e in eps)
  {
    hide ApplyAll;
  }

  lemma UpdateRemembers(t: Trace, limits: RelayLimits, e: SocketAddr)
    requires t.Then? && t.event.Update? && Remembers(t.before, limits, e) && Inv(Last(t.before), limits)
    requires Step(Last(t.before), t.state, t.event, limits)
    ensures Remembers(t, limits, e)
  {
    hide ApplyAll, AfterReport, Accepts, Synced, Subscriptions, WellFormed, WithinLimits, Covered;
    var d := Last(t.before);
    EntryAfterReport(d.endpoints, t.event.peer, t.event.report, e);
  }

  lemma TeardownRemembers(t: Trace, limits: RelayLimits, e: SocketAddr)
    requires t.Then? && t.event.Teardown? && Remembers(t.before, limits, e) && Inv(Last(t.before), limits)
    requires Step(Last(t.before), t.state, t.event, limits)
    ensures Remembers(t, limits, e)
  {
    hide Synced, Subscriptions, WellFormed, WithinLimits, Covered;
  }

  lemma PruneRemembers(t: Trace, limits: RelayLimits, e: SocketAddr)
    requires t.Then? && t.event.Prune? && Remembers(t.before, limits, e) && Inv(Last(t.before), limits)
    requires Step(Last(t.before), t.state, t.event, limits)
    ensures Remembers(t, limits, e)
  {
    hide Synced, Subscriptions, WellFormed, WithinLimits, Covered;
  }

  /** In every run the database holds exactly the filters each endpoint's history gives it, and the activity
      table the time of its last sign of life. */
  lemma {:induction false} EveryRunRemembers(t: Trace, limits: RelayLimits, e: SocketAddr)
    requires IsRun(t, limits)
    ensures Remembers(t, limits, e)
  {
    hide Inv, Step;
    if t.Then? {
      EveryRunRemembers(t.before, limits, e);
      EveryRunCovered(t.before, limits);
      match t.event {
        case Update(_, _, _, _, _) => UpdateRemembers(t, limits, e);
        case Teardown(_, _, _, _) => TeardownRemembers(t, limits, e);
        case Prune(_, _, _) => PruneRemembers(t, limits, e);
      }
    }
  }

  ghost predicate MarkedAt(t: Trace, limits: RelayLimits, e: SocketAddr, at: int) {
    && t.Then?
    && ((Marks(Last(t.before), t.event, limits, e) && t.event.now == at) || MarkedAt(t.before, limits, e, at))
  }

  /** The clock does not go back between events. */
  predicate InTime(t: Trace) {
    t.Then? && t.before.Then? ==> InTime(t.before) && t.before.event.now <= t.event.now
  }

  lemma {:induction false} MarksNotOlder(t: Trace, limits: RelayLimits, e: SocketAddr, at: int)
    requires InTime(t) && MarkedAt(t, limits, e, at)
    ensures LastMark(t, limits, e).Some? && at <= LastMark(t, limits, e).value <= t.event.now
    decreases t
  {
    hide Marks;
    if !(Marks(Last(t.before), t.event, limits, e) && t.event.now == at) {
      MarksNotOlder(t.before, limits, e, at);
    }
  }

  /** A prune removes exactly the gateways whose last sign of life is a timeout old, and spares every gateway with
      any sign of life younger than that. */
  lemma PruneAfterRun(t: Trace, timeout: nat, now: int, joins: bool, state: Daemon, limits: RelayLimits, e: SocketAddr,
                      at: int)
    requires IsRun(Then(t, Prune(Some(timeout), now, joins), state), limits)
    ensures e in state.endpoints <==>
              && e in Last(t).endpoints && LastMark(t, limits, e).Some?
              && now - LastMark(t, limits, e).value < timeout
    ensures InTime(t) && MarkedAt(t, limits, e, at) && now - at < timeout && e in Last(t).endpoints ==>
              e in state.endpoints && state.endpoints[e] == Last(t).endpoints[e]
  {
    hide Synced, Subscriptions, Inv, MarkedAt, InTime, LastMark, Replay;
    EveryRunRemembers(t, limits, e);
    if InTime(t) && MarkedAt(t, limits, e, at) {
      MarksNotOlder(t, limits, e, at);
    }
  }

  /** After a prune no gateway idle for the timeout is left, and no other one was touched. */
  lemma PruneExpiresExactly(d: Daemon, d': Daemon, timeout: nat, now: int, ok: bool, limits: RelayLimits,
                            e: SocketAddr)
    requires Inv(d, limits) && PruneStep(d, d', Some(timeout), now, ok)
    ensures e in d'.endpoints <==> e in d.endpoints && now - d.lastSeen[e] < timeout
    ensures e in d'.endpoints ==> d'.endpoints[e] == d.endpoints[e]
  {
  }
}
