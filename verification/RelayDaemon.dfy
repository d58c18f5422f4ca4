/** The relay daemon's handlers, shown to take only the steps of the transition system. */
module RelayDaemon {
  import opened Bytes
  import opened Interest
  import opened RelayState
  import opened RelayDatabase
  import opened Upstream
  import opened RelayRun

  class RelayDaemon {
    var relay: Database
    const upstream: UpstreamManager
    var lastSeen: map<SocketAddr, int>
    const limits: RelayLimits
    const limitFlag: bool

    ghost predicate Valid()
      reads this, relay, upstream
    {
      relay.Valid() && upstream.Valid()
    }

    ghost function View(): Daemon
      reads this, relay, upstream
    {
      Daemon(relay.endpoints, upstream.active.Keys, lastSeen)
    }

    constructor (limits: RelayLimits, limitFlag: bool)
      ensures Valid() && fresh(relay) && fresh(upstream) && View() == START
      ensures this.limits == limits && this.limitFlag == limitFlag
    {
      relay := new Database();
      upstream := new UpstreamManager();
      lastSeen := map[];
      this.limits, this.limitFlag := limits, limitFlag;
    }

    predicate RefusingNewEndpoint(ip: IpAddr)
      requires relay.Valid()
      reads this, relay
      ensures RefusingNewEndpoint(ip) == RefusesNew(relay.endpoints, ip, limits, limitFlag)
    {
      CountersOf(relay.View());
      || limitFlag
      || NearLimit(|relay.endpoints|, limits.maxEndpoints)
      || NearLimit(relay.totalEndpointGroups, limits.maxTotalEndpointGroups)
      || NearLimit(relay.totalSources, limits.maxTotalSources)
      || NearLimit(|relay.subscriptions|, limits.maxUpstreamSubscriptions)
      || NearLimit(|AtIp(relay.endpoints, ip)|, limits.maxEndpointsPerIp)
    }

    /** An authenticated Membership Update: preview, candidate, native joins, commit. Only a new endpoint at
        a relay near its limits is ignored. `joined` tells whether the native joins succeeded, if there were any
        to make. */
    method HandleUpdate(peer: SocketAddr, report: MembershipReport, now: int, host: Host) returns (joined: bool)
      requires Valid()
      modifies this, relay, upstream
      ensures Valid()
      ensures var ignored :=
                peer !in old(relay.endpoints) && RefusesNew(old(relay.endpoints), peer.ip, limits, limitFlag);
              var next := AfterReport(old(relay.endpoints), peer, report);
              && Step(old(View()), View(), RelayRun.Update(peer, report, now, ignored, joined), limits)
              && (!ignored && next != old(relay.endpoints)
                  && Accepts(old(relay.endpoints), peer, report, limits).Ok? ==>
                    (joined <==> AllJoinable(host, Subscriptions(next), old(upstream.active).Keys)))
    {
      hide ValidState, Registered, Accepts, AfterReport, AppliedCount, Commit, RefusingNewEndpoint, RefusesNew,
           MarkOrRemove, Subscriptions, AllJoinable;
      if peer !in relay.endpoints && RefusingNewEndpoint(peer.ip) {
        return true;
      }
      var applied, changed := relay.PreviewReport(peer, report);
      if changed {
        joined := CommitUpdate(peer, report, now, host);
      } else {
        NoteActivity(peer, now);
        joined := true;
      }
    }

    /** `sync_upstream`: the native joins of a candidate database. */
    method SyncUpstream(candidate: Database, host: Host) returns (ok: bool)
      requires upstream.Valid() && candidate.Valid()
      modifies upstream
      ensures upstream.Valid()
      ensures Synced(old(upstream.active).Keys, Subscriptions(candidate.endpoints), upstream.active.Keys, ok)
      ensures !ok ==> upstream.active == old(upstream.active)
      ensures ok <==> AllJoinable(host, Subscriptions(candidate.endpoints), old(upstream.active).Keys)
    {
      hide ValidState, Registered, Subscriptions;
      SubscriptionsIndexed(candidate.View());
      var r := upstream.Reconcile(candidate.subscriptions, host);
      ok := r.Ok?;
    }

    /** A gateway in the database is marked as seen, any other one is forgotten. */
    method NoteActivity(peer: SocketAddr, now: int)
      modifies this`lastSeen
      ensures lastSeen == MarkOrRemove(relay.endpoints, old(lastSeen), peer, now)
    {
      if peer in relay.endpoints {
        lastSeen := lastSeen[peer := now];
      } else {
        lastSeen := lastSeen - {peer};
      }
    }

    method CommitUpdate(peer: SocketAddr, report: MembershipReport, now: int, host: Host) returns (joined: bool)
      requires Valid() && AfterReport(relay.endpoints, peer, report) != relay.endpoints
      modifies this, relay, upstream
      ensures Valid() && UpdateResolved(old(View()), View(), peer, report, now, limits, joined)
      ensures Accepts(old(relay.endpoints), peer, report, limits).Ok? ==>
                (joined <==> AllJoinable(host, Subscriptions(AfterReport(old(relay.endpoints), peer, report)),
                                         old(upstream.active).Keys))
    {
      hide ValidState, Registered, Subscriptions, Accepts, AfterReport, AppliedCount, Synced, MarkOrRemove,
           UpdateResolved, AllJoinable;
      ghost var d := View();
      var candidate := new Database.Clone(relay);
      var r := candidate.ApplyReportLimited(peer, report, limits);
      if r.Err? {
        RefusedResolves(d, View(), peer, report, now, limits);
        return false;
      }
      joined := SyncUpstream(candidate, host);
      if !joined {
        if peer in relay.endpoints {
          lastSeen := lastSeen[peer := now];
        }
      } else {
        relay := candidate;
        NoteActivity(peer, now);
      }
      CommitResolves(d, View(), peer, report, now, limits, joined);
    }

    /** An authenticated Teardown, sent by `sender` for the endpoint named in the message. */
    method HandleTeardown(sender: SocketAddr, target: SocketAddr, now: int, host: Host) returns (joined: bool)
      requires Valid()
      modifies this, relay, upstream
      ensures Valid() && Step(old(View()), View(), Teardown(sender, target, now, joined), limits)
      ensures target in old(relay.endpoints) ==>
                (joined <==> AllJoinable(host, Subscriptions(old(relay.endpoints) - {target}),
                                         old(upstream.active).Keys))
      ensures joined ==> relay.endpoints == old(relay.endpoints) - {target}
      ensures !joined ==> relay.endpoints == old(relay.endpoints) && upstream.active == old(upstream.active)
    {
      hide ValidState, Registered, Subscriptions, Synced, AllJoinable;
      if target !in relay.endpoints {
        lastSeen := lastSeen - {target};
        return true;
      }
      ghost var d := View();
      var candidate := new Database.Clone(relay);
      var removed := candidate.RemoveEndpoint(target);
      joined := SyncUpstream(candidate, host);
      if !joined {
        if sender in relay.endpoints {
          lastSeen := lastSeen[sender := now];
        }
      } else {
        relay := candidate;
        lastSeen := lastSeen - {target};
      }
      assert Commit(d, View(), d.endpoints - {target}, MarkIfPresent(d, sender, now), d.lastSeen - {target}, joined);
    }

    /** Removes every gateway idle for the timeout from the activity table and the database. */
    method PruneStaleGateways(timeout: Option<nat>, now: int) returns (expired: nat)
      requires Valid()
      modifies this`lastSeen, relay
      ensures Valid()
      ensures Pruned(old(relay.endpoints), old(lastSeen), Stale(old(lastSeen), timeout, now), {}, relay.endpoints,
          lastSeen, expired)
    {
      hide ValidState, Registered, Pruned, Stale;
      var todo := Stale(lastSeen, timeout, now);
      ghost var stale := todo;
      expired := 0;
      PrunedNone(relay.endpoints, lastSeen, stale);
      while todo != {}
        invariant Valid() && todo <= stale
        invariant Pruned(old(relay.endpoints), old(lastSeen), stale, todo, relay.endpoints, lastSeen, expired)
        decreases todo
      {
        var e :| e in todo;
        PrunedOne(old(relay.endpoints), old(lastSeen), stale, todo, relay.endpoints, lastSeen, expired, e);
        lastSeen := lastSeen - {e};
        var removed := relay.RemoveEndpoint(e);
        if removed {
          expired := expired + 1;
        }
        todo := todo - {e};
      }
    }

    /** Idle expiry followed by the periodic synchronisation. */
    method PruneAndSync(timeout: Option<nat>, now: int, host: Host) returns (expired: nat, joined: bool)
      requires Valid()
      modifies this`lastSeen, relay, upstream
      ensures Valid() && Step(old(View()), View(), Prune(timeout, now, joined), limits)
      ensures expired == |Stale(old(lastSeen), timeout, now) * old(relay.endpoints).Keys|
      ensures joined <==> AllJoinable(host, Subscriptions(relay.endpoints), old(upstream.active).Keys)
    {
      hide ValidState, Registered, Subscriptions, Stale, Synced, AllJoinable;
      expired := PruneStaleGateways(timeout, now);
      assert Stale(old(lastSeen), timeout, now) - {} == Stale(old(lastSeen), timeout, now);
      joined := SyncUpstream(relay, host);
    }
  }

  /** Of the gateways in `stale`, all but `todo` have been removed, and nobody else. */
  ghost predicate Pruned(eps0: Endpoints, seen0: map<SocketAddr, int>, stale: set<SocketAddr>, todo: set<SocketAddr>,
                         eps: Endpoints, seen: map<SocketAddr, int>, expired: nat) {
    eps == eps0 - (stale - todo) && seen == seen0 - (stale - todo) && expired == |(stale - todo) * eps0.Keys|
  }

  lemma PrunedNone(eps: Endpoints, seen: map<SocketAddr, int>, stale: set<SocketAddr>)
    ensures Pruned(eps, seen, stale, stale, eps, seen, 0)
  {
  }

  lemma PrunedOne(eps0: Endpoints, seen0: map<SocketAddr, int>, stale: set<SocketAddr>, todo: set<SocketAddr>,
                  eps: Endpoints, seen: map<SocketAddr, int>, expired: nat, e: SocketAddr)
    requires Pruned(eps0, seen0, stale, todo, eps, seen, expired) && e in todo && todo <= stale
    ensures Pruned(eps0, seen0, stale, todo - {e}, eps - {e}, seen - {e}, expired + (if e in eps then 1 else 0))
  {
    var done := stale - todo;
    assert stale - (todo - {e}) == done + {e};
    RemoveTwice(eps0, done, e);
    RemoveTwice(seen0, done, e);
    CountOne(eps0.Keys, done, e);
  }

  lemma RemoveTwice<K, V>(m: map<K, V>, done: set<K>, e: K)
    ensures (m - done) - {e} == m - (done + {e})
  {
  }

  lemma CountOne<K>(keys: set<K>, done: set<K>, e: K)
    requires e !in done
    ensures |(done + {e}) * keys| == |done * keys| + (if e in keys then 1 else 0)
  {
    if e in keys {
      assert (done + {e}) * keys == done * keys + {e};
    } else {
      assert (done + {e}) * keys == done * keys;
    }
  }

  lemma RefusedResolves(d: Daemon, d': Daemon, peer: SocketAddr, report: MembershipReport, now: int,
                        limits: RelayLimits)
    requires AfterReport(d.endpoints, peer, report) != d.endpoints
    requires Accepts(d.endpoints, peer, report, limits).Err? && d' == d
    ensures UpdateResolved(d, d', peer, report, now, limits, false)
  {
    hide Accepts, AfterReport;
  }

  lemma CommitResolves(d: Daemon, d': Daemon, peer: SocketAddr, report: MembershipReport, now: int, limits: RelayLimits,
                       ok: bool)
    requires AfterReport(d.endpoints, peer, report) != d.endpoints && Accepts(d.endpoints, peer, report, limits).Ok?
    requires var next := AfterReport(d.endpoints, peer, report);
             && Synced(d.active, Subscriptions(next), d'.active, ok)
             && d'.endpoints == (if ok then next else d.endpoints)
             && d'.lastSeen == (if ok then MarkOrRemove(next, d.lastSeen, peer, now) else MarkIfPresent(d, peer, now))
    ensures UpdateResolved(d, d', peer, report, now, limits, ok)
  {
    hide Accepts, AfterReport, Subscriptions, Synced, MarkOrRemove, MarkIfPresent;
  }

  lemma SubscriptionsIndexed(st: State)
    requires ValidState(st)
    ensures st.subscriptions == Subscriptions(st.endpoints)
  {
  }
}
