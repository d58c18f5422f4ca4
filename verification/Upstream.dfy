/** Native multicast joins: reconciling the active subscriptions with the wanted ones. */
module Upstream {
  import opened Bytes
  import opened RelayState

  datatype Reconciled = Reconciled(added: nat, removed: nat, failedRemovals: nat, active: nat)

  datatype Failure = AddFailed | JoinFailed

  /** The receive context cannot be seen from here: which of its calls succeed during one reconcile. */
  datatype Host = Host(adds: Subscription -> bool, joins: Subscription -> bool, leaves: Subscription -> bool)

  predicate Joinable(host: Host, s: Subscription) { host.adds(s) && host.joins(s) }

  /** Everything that is wanted and not active can be joined. */
  ghost predicate AllJoinable(host: Host, desired: set<Subscription>, active: set<Subscription>) {
    forall s :: s in desired && s !in active ==> Joinable(host, s)
  }

  // ---- what one reconcile may do to the set of active subscriptions ----

  /** Success: everything wanted is active; what is active beyond that was active before and could
      not be left. */
  predicate ReconcileOk(before: set<Subscription>, desired: set<Subscription>, after: set<Subscription>) {
    desired <= after <= desired + before
  }

  class UpstreamManager {
    var active: map<Subscription, int>
    var context: set<int>
    var nextId: int

    /** The context holds exactly the registrations of the active subscriptions: none is lost, none leaks. */
    ghost predicate Valid()
      reads this
    {
      Registered(active, context, nextId)
    }

    constructor ()
      ensures Valid() && active == map[]
    {
      active, context, nextId := map[], {}, 0;
    }

    /** `add_subscription` followed by `join_subscription`; a failed join is removed again. */
    method AddAndJoin(subscription: Subscription, host: Host) returns (failed: Option<Failure>)
      requires Valid() && subscription !in active
      modifies this
      ensures Valid()
      ensures failed == if !host.adds(subscription) then Some(AddFailed)
                        else if !host.joins(subscription) then Some(JoinFailed) else None
      ensures failed.Some? ==> active == old(active)
      ensures failed.None? ==> active.Keys == old(active).Keys + {subscription}
                               && forall k :: k in old(active) ==> active[k] == old(active)[k]
    {
      if !host.adds(subscription) {
        return Some(AddFailed);
      }
      var id := nextId;
      nextId := nextId + 1;
      context := context + {id};
      if !host.joins(subscription) {
        context := context - {id};
        return Some(JoinFailed);
      }
      JoinOne(active, old(context), old(nextId), subscription);
      active := active[subscription := id];
      return None;
    }

    /** Drops an active subscription together with its registration. */
    method Forget(subscription: Subscription)
      requires Valid() && subscription in active
      modifies this
      ensures Valid() && active == old(active) - {subscription}
    {
      LeaveOne(active, context, nextId, subscription);
      context := context - {active[subscription]};
      active := active - {subscription};
    }

    /** Undoes the additions of a failed reconcile, newest first, whether or not leaving works. */
    method RollbackAdditions(subscriptions: seq<Subscription>, ghost base: map<Subscription, int>)
      requires Valid() && Extends(base, active, subscriptions)
      modifies this
      ensures Valid() && active == base
    {
      hide Registered, Extends;
      var i: nat := |subscriptions|;
      assert subscriptions[..i] == subscriptions;
      while i > 0
        invariant i <= |subscriptions|
        invariant Valid() && Extends(base, active, subscriptions[..i])
      {
        i := i - 1;
        ExtendsShrink(base, active, subscriptions, i);
        Forget(subscriptions[i]);
      }
      assert subscriptions[..i] == [];
      ExtendsNothing(base, active);
    }

    /** The first half of a reconcile: join everything wanted and missing, or change nothing. */
    method JoinMissing(desired: set<Subscription>, host: Host) returns (failed: Option<Failure>, added: nat)
      requires Valid()
      modifies this
      ensures Valid()
      ensures failed.None? <==> AllJoinable(host, desired, old(active).Keys)
      ensures failed.Some? ==> exists s :: s in desired && s !in old(active) && !Joinable(host, s)
                                           && failed.value == if host.adds(s) then JoinFailed else AddFailed
      ensures failed.Some? ==> active == old(active)
      ensures failed.None? ==> active.Keys == old(active).Keys + desired
                               && (forall k :: k in old(active) ==> active[k] == old(active)[k])
                               && added == |desired - old(active).Keys|
    {
      hide Registered, Extends, Joining, AllJoinable, Joinable;
      ghost var base := active;
      var newSubscriptions: seq<Subscription> := [];
      var todo := desired - active.Keys;
      ghost var missing := todo;
      JoiningStart(base, missing);
      NoneToJoin(host, missing);
      while todo != {}
        invariant Valid() && Joining(base, active, missing, todo, newSubscriptions) && todo <= missing
        invariant AllJoinable(host, missing, todo)
        decreases todo
      {
        var subscription :| subscription in todo;
        JoiningFacts(base, active, missing, todo, newSubscriptions);
        ghost var before := active;
        failed := AddAndJoin(subscription, host);
        JoinableIs(host, desired, base.Keys, subscription);
        if failed.Some? {
          RollbackAdditions(newSubscriptions, base);
          return failed, 0;
        }
        OneMoreJoinable(host, missing, todo, subscription);
        JoiningStep(base, before, active, missing, todo, newSubscriptions, subscription);
        newSubscriptions := newSubscriptions + [subscription];
        todo := todo - {subscription};
      }
      JoiningDone(base, active, missing, newSubscriptions);
      MissingJoinable(host, desired, base.Keys);
      failed, added := None, |newSubscriptions|;
    }

    /** The second half: try to leave every stale subscription, keeping those that cannot be left. */
    method LeaveStale(stale: set<Subscription>, host: Host) returns (removed: nat, failedRemovals: nat)
      requires Valid() && stale <= active.Keys
      modifies this
      ensures Valid()
      ensures Leaving(old(active), active, stale, {}, removed, failedRemovals)
      ensures Left(host, active.Keys, stale, {})
    {
      hide Registered, Leaving, Left;
      removed, failedRemovals := 0, 0;
      ghost var base := active;
      var todo := stale;
      LeavingStart(base, stale);
      NoneLeft(host, active.Keys, stale);
      while todo != {}
        invariant Valid() && Leaving(base, active, stale, todo, removed, failedRemovals)
        invariant Left(host, active.Keys, stale, todo)
        decreases todo
      {
        var subscription :| subscription in todo;
        LeavingStep(base, active, stale, todo, removed, failedRemovals, subscription);
        OneMoreLeft(host, active.Keys, stale, todo, subscription);
        if host.leaves(subscription) {
          Forget(subscription);
          removed := removed + 1;
        } else {
          failedRemovals := failedRemovals + 1;
        }
        todo := todo - {subscription};
      }
    }

    /** Joins what is missing, then leaves what is stale. A failed join puts every earlier join of the
        call back and changes nothing; a failed leave only keeps that subscription for the next call. */
    method Reconcile(desired: set<Subscription>, host: Host) returns (r: Result<Reconciled, Failure>)
      requires Valid()
      modifies this
      ensures Valid()
      ensures r.Ok? <==> AllJoinable(host, desired, old(active).Keys)
      ensures r.Err? ==> exists s :: s in desired && s !in old(active) && !Joinable(host, s)
                                     && r.error == if host.adds(s) then JoinFailed else AddFailed
      ensures r.Ok? ==> forall s :: s in active <==> s in desired || (s in old(active) && !host.leaves(s))
      ensures r.Err? ==> active == old(active) && context == old(context)
      ensures r.Ok? ==> ReconcileOk(old(active).Keys, desired, active.Keys)
      ensures r.Ok? ==> forall k :: k in active && k in old(active) ==> active[k] == old(active)[k]
      ensures r.Ok? ==> r.value.active == |active|
                        && r.value.added == |desired - old(active).Keys|
                        && r.value.failedRemovals == |active.Keys - desired|
                        && r.value.removed + r.value.failedRemovals == |old(active).Keys - desired|
    {
      hide Registered, Leaving, ReconcileOk, AllJoinable, Joinable, Left;
      var stale := active.Keys - desired;
      var failed, added := JoinMissing(desired, host);
      if failed.Some? {
        SameContext(active, old(context), old(nextId), context, nextId);
        return Err(failed.value);
      }
      ghost var joined := active;
      var removed, failedRemovals := LeaveStale(stale, host);
      LeavingDone(joined, active, stale, removed, failedRemovals);
      ReconciledSets(old(active).Keys, desired, active.Keys);
      LeftOver(host, old(active).Keys, desired, active.Keys);
      r := Ok(Reconciled(added, removed, failedRemovals, |active|));
    }
  }

  ghost predicate Registered(active: map<Subscription, int>, context: set<int>, nextId: int) {
    && (forall k :: k in active ==> active[k] in context)
    && (forall id :: id in context ==> id < nextId && exists k :: k in active && active[k] == id)
    && (forall j, k :: j in active && k in active && active[j] == active[k] ==> j == k)
  }

  lemma LeaveOne(active: map<Subscription, int>, context: set<int>, nextId: int, k: Subscription)
    requires Registered(active, context, nextId) && k in active
    ensures Registered(active - {k}, context - {active[k]}, nextId)
  {
    forall id | id in context - {active[k]}
      ensures exists j :: j in active - {k} && (active - {k})[j] == id
    {
      var j :| j in active && active[j] == id;
      assert j in active - {k};
    }
  }

  lemma JoinOne(active: map<Subscription, int>, context: set<int>, nextId: int, k: Subscription)
    requires Registered(active, context, nextId) && k !in active
    ensures Registered(active[k := nextId], context + {nextId}, nextId + 1)
  {
    var next := active[k := nextId];
    forall id | id in context + {nextId}
      ensures exists j :: j in next && next[j] == id
    {
      if id in context {
        var j :| j in active && active[j] == id;
        assert j in next && next[j] == id;
      } else {
        assert k in next && next[k] == id;
      }
    }
  }

  /** Of the stale subscriptions dealt with, those are active that could not be left. */
  ghost predicate Left(host: Host, active: set<Subscription>, stale: set<Subscription>, todo: set<Subscription>) {
    forall k :: k in stale && k !in todo ==> (k in active <==> !host.leaves(k))
  }

  lemma NoneLeft(host: Host, active: set<Subscription>, stale: set<Subscription>)
    ensures Left(host, active, stale, stale)
  {
  }

  lemma OneMoreLeft(host: Host, active: set<Subscription>, stale: set<Subscription>, todo: set<Subscription>,
                    k: Subscription)
    requires Left(host, active, stale, todo)
    ensures host.leaves(k) ==> Left(host, active - {k}, stale, todo - {k})
    ensures !host.leaves(k) && k in active ==> Left(host, active, stale, todo - {k})
  {
  }

  lemma LeftOver(host: Host, before: set<Subscription>, desired: set<Subscription>, after: set<Subscription>)
    requires ReconcileOk(before, desired, after) && Left(host, after, before - desired, {})
    ensures forall s :: s in after <==> s in desired || (s in before && !host.leaves(s))
  {
  }

  lemma NoneToJoin(host: Host, missing: set<Subscription>)
    ensures AllJoinable(host, missing, missing)
  {
  }

  lemma OneMoreJoinable(host: Host, missing: set<Subscription>, todo: set<Subscription>, s: Subscription)
    requires AllJoinable(host, missing, todo) && host.adds(s) && host.joins(s)
    ensures AllJoinable(host, missing, todo - {s})
  {
  }

  lemma JoinableIs(host: Host, desired: set<Subscription>, active: set<Subscription>, s: Subscription)
    ensures Joinable(host, s) <==> host.adds(s) && host.joins(s)
    ensures !Joinable(host, s) && s in desired && s !in active ==> !AllJoinable(host, desired, active)
  {
  }

  lemma MissingJoinable(host: Host, desired: set<Subscription>, active: set<Subscription>)
    ensures AllJoinable(host, desired - active, {}) ==> AllJoinable(host, desired, active)
  {
  }

  lemma ReconciledSets(before: set<Subscription>, desired: set<Subscription>, after: set<Subscription>)
    requires (before + desired) - (before - desired) <= after <= before + desired
    ensures ReconcileOk(before, desired, after) && after * (before - desired) == after - desired
  {
  }

  lemma SameContext(active: map<Subscription, int>, a: set<int>, n: int, b: set<int>, m: int)
    requires Registered(active, a, n) && Registered(active, b, m)
    ensures a == b
  {
    assert forall id :: id in a <==> id in b;
  }

  /** `active` is `base` with the distinct, new `added` subscriptions on top. */
  ghost predicate Extends(base: map<Subscription, int>, active: map<Subscription, int>, added: seq<Subscription>) {
    && (forall k :: k in active <==> k in base || k in added)
    && (forall k :: k in base ==> k !in added && active[k] == base[k])
    && (forall i, j :: 0 <= i < j < |added| ==> added[i] != added[j])
  }

  lemma ExtendsShrink(base: map<Subscription, int>, active: map<Subscription, int>, added: seq<Subscription>, i: nat)
    requires i < |added| && Extends(base, active, added[..i + 1])
    ensures added[i] in active && Extends(base, active - {added[i]}, added[..i])
  {
  }

  lemma ExtendsNothing(base: map<Subscription, int>, active: map<Subscription, int>)
    ensures Extends(base, active, []) <==> active == base
  {
  }

  /** Progress of the join loop: `added` are the missing subscriptions no longer in `todo`. */
  ghost predicate Joining(base: map<Subscription, int>, active: map<Subscription, int>, missing: set<Subscription>,
                          todo: set<Subscription>, added: seq<Subscription>) {
    && Extends(base, active, added)
    && todo <= missing && missing !! base.Keys
    && (forall k :: k in added <==> k in missing && k !in todo)
    && |added| + |todo| == |missing|
  }

  lemma JoiningStart(base: map<Subscription, int>, missing: set<Subscription>)
    requires missing !! base.Keys
    ensures Joining(base, base, missing, missing, [])
  {
  }

  lemma JoiningFacts(base: map<Subscription, int>, active: map<Subscription, int>, missing: set<Subscription>,
                     todo: set<Subscription>, added: seq<Subscription>)
    requires Joining(base, active, missing, todo, added)
    ensures Extends(base, active, added) && forall k :: k in todo ==> k !in active
  {
  }

  lemma JoiningStep(base: map<Subscription, int>, active: map<Subscription, int>, next: map<Subscription, int>,
                    missing: set<Subscription>, todo: set<Subscription>, added: seq<Subscription>, k: Subscription)
    requires Joining(base, active, missing, todo, added) && k in todo
    requires next.Keys == active.Keys + {k} && forall j :: j in active ==> next[j] == active[j]
    ensures Joining(base, next, missing, todo - {k}, added + [k])
  {
  }

  lemma JoiningDone(base: map<Subscription, int>, active: map<Subscription, int>, missing: set<Subscription>,
                    added: seq<Subscription>)
    requires Joining(base, active, missing, {}, added)
    ensures active.Keys == base.Keys + missing && |added| == |missing|
    ensures forall k :: k in base ==> k in active && active[k] == base[k]
  {
  }

  /** Progress of the leave loop: stale subscriptions are left, kept after a failure, or still to do. */
  ghost predicate Leaving(base: map<Subscription, int>, active: map<Subscription, int>, stale: set<Subscription>,
                          todo: set<Subscription>, removed: nat, failedRemovals: nat) {
    && todo <= stale <= base.Keys
    && (base.Keys - stale) + todo <= active.Keys <= base.Keys
    && (forall k :: k in active ==> active[k] == base[k])
    && failedRemovals == |active.Keys * stale - todo|
    && removed + failedRemovals + |todo| == |stale|
  }

  lemma LeavingStart(base: map<Subscription, int>, stale: set<Subscription>)
    requires stale <= base.Keys
    ensures Leaving(base, base, stale, stale, 0, 0)
  {
  }

  lemma LeavingStep(base: map<Subscription, int>, active: map<Subscription, int>, stale: set<Subscription>,
                    todo: set<Subscription>, removed: nat, failedRemovals: nat, k: Subscription)
    requires Leaving(base, active, stale, todo, removed, failedRemovals) && k in todo
    ensures k in active
    ensures Leaving(base, active - {k}, stale, todo - {k}, removed + 1, failedRemovals)
    ensures Leaving(base, active, stale, todo - {k}, removed, failedRemovals + 1)
  {
    assert (active - {k}).Keys == active.Keys - {k};
    StaleCounts(active.Keys, stale, todo, k);
  }

  lemma StaleCounts(keys: set<Subscription>, stale: set<Subscription>, todo: set<Subscription>, k: Subscription)
    requires k in todo && todo <= keys && todo <= stale
    ensures (keys - {k}) * stale - (todo - {k}) == keys * stale - todo
    ensures |keys * stale - (todo - {k})| == |keys * stale - todo| + 1 && |todo - {k}| == |todo| - 1
  {
    assert keys * stale - (todo - {k}) == (keys * stale - todo) + {k};
  }

  lemma LeavingDone(base: map<Subscription, int>, active: map<Subscription, int>, stale: set<Subscription>,
                    removed: nat, failedRemovals: nat)
    requires Leaving(base, active, stale, {}, removed, failedRemovals)
    ensures base.Keys - stale <= active.Keys <= base.Keys
    ensures forall k :: k in active ==> active[k] == base[k]
    ensures failedRemovals == |active.Keys * stale| && removed + failedRemovals == |stale|
  {
  }
}
