/** The sliding-window limiter in front of DNS queries. */
module QueryLimiter {
  import opened Bytes

  type Time = nat

  ghost predicate Sorted(s: seq<Time>) {
    forall i, j :: 0 <= i < j < |s| ==> s[i] <= s[j]
  }

  /** Queries that have left the window are popped from the front. */
  function Unexpired(queries: seq<Time>, window: nat, now: Time): seq<Time> {
    if queries != [] && now - queries[0] >= window then Unexpired(queries[1..], window, now) else queries
  }

  function Reserve(queries: seq<Time>, maximum: nat, window: nat, now: Time): (seq<Time>, Option<nat>) {
    var left := Unexpired(queries, window, now);
    if |left| < maximum then (left + [now], None)
    else if left == [] then (left, None)
    else (left, Some(if window >= now - left[0] then window - (now - left[0]) else 0))
  }

  class DnsQueryLimiter {
    const maximum: nat
    const window: nat
    var queries: seq<Time>

    /** As every resolver constructs it: at least one query per window, at least one time unit. */
    constructor (maximum: nat, window: nat)
      ensures this.maximum == (if maximum == 0 then 1 else maximum)
          && this.window == (if window == 0 then 1 else window)
      ensures queries == []
    {
      this.maximum := if maximum == 0 then 1 else maximum;
      this.window := if window == 0 then 1 else window;
      queries := [];
    }

    /** None grants the query; otherwise the time to wait. */
    method ReserveAt(now: Time) returns (wait: Option<nat>)
      modifies this
      ensures (queries, wait) == Reserve(old(queries), maximum, window, now)
    {
      while queries != [] && now - queries[0] >= window
        invariant Unexpired(queries, window, now) == Unexpired(old(queries), window, now)
        decreases |queries|
      {
        queries := queries[1..];
      }
      if |queries| < maximum {
        queries := queries + [now];
        return None;
      }
      if queries == [] {
        return None;
      }
      var age := now - queries[0];
      wait := Some(if window >= age then window - age else 0);
    }
  }

  // ---- every run ----

  datatype Log = Log(queries: seq<Time>, granted: seq<Time>)

  function Step(log: Log, maximum: nat, window: nat, now: Time): Log {
    var (queries, wait) := Reserve(log.queries, maximum, window, now);
    Log(queries, if wait.None? then log.granted + [now] else log.granted)
  }

  function Run(maximum: nat, window: nat, calls: seq<Time>): Log {
    if calls == [] then Log([], [])
    else Step(Run(maximum, window, calls[..|calls| - 1]), maximum, window, calls[|calls| - 1])
  }

  ghost predicate NoneAfter(granted: seq<Time>, now: Time) {
    forall i :: 0 <= i < |granted| ==> granted[i] <= now
  }

  /** The first `k` grants have left the window by `now`. */
  ghost predicate OldBefore(granted: seq<Time>, k: nat, window: nat, now: Time) {
    forall i :: 0 <= i < k && i < |granted| ==> granted[i] + window <= now
  }

  ghost predicate Apart(granted: seq<Time>, maximum: nat, window: nat) {
    forall i, j :: 0 <= i && j == i + maximum && j < |granted| ==> granted[i] + window <= granted[j]
  }

  /** The queue is the recent end of the grants; everything older has left the window by `now`. */
  ghost predicate Inv(log: Log, maximum: nat, window: nat, now: Time) {
    && |log.queries| <= maximum && |log.queries| <= |log.granted|
    && log.queries == log.granted[|log.granted| - |log.queries|..]
    && Sorted(log.granted) && NoneAfter(log.granted, now)
    && OldBefore(log.granted, |log.granted| - |log.queries|, window, now)
    && Apart(log.granted, maximum, window)
  }

  lemma {:induction false} UnexpiredSuffix(queries: seq<Time>, window: nat, now: Time)
    requires Sorted(queries)
    ensures var left := Unexpired(queries, window, now);
            && |left| <= |queries| && left == queries[|queries| - |left|..]
            && (forall i :: 0 <= i < |queries| - |left| ==> now - queries[i] >= window)
            && (forall i :: 0 <= i < |left| ==> now - left[i] < window)
    decreases |queries|
  {
    if queries != [] && now - queries[0] >= window {
      UnexpiredSuffix(queries[1..], window, now);
      var left := Unexpired(queries[1..], window, now);
      forall i | 0 <= i < |queries| - |left| ensures now - queries[i] >= window {
        if i > 0 {
          assert queries[i] == queries[1..][i - 1];
        }
      }
    }
  }

  lemma SuffixSorted(granted: seq<Time>, k: nat)
    requires Sorted(granted) && k <= |granted|
    ensures Sorted(granted[k..])
  {
  }

  /** Dropping `d` more expired entries from the front of the queue. */
  lemma OlderBefore(granted: seq<Time>, k: nat, d: nat, window: nat, now: Time)
    requires k + d <= |granted| && OldBefore(granted, k, window, now)
    requires forall i :: 0 <= i < d ==> now - granted[k..][i] >= window
    ensures OldBefore(granted, k + d, window, now) && granted[k..][d..] == granted[k + d..]
  {
  }

  lemma PruneKeepsInv(log: Log, maximum: nat, window: nat, now: Time)
    requires Inv(log, maximum, window, now)
    ensures Inv(log.(queries := Unexpired(log.queries, window, now)), maximum, window, now)
  {
    hide Sorted, NoneAfter, OldBefore, Apart, Unexpired;
    var k, left := |log.granted| - |log.queries|, Unexpired(log.queries, window, now);
    SuffixSorted(log.granted, k);
    UnexpiredSuffix(log.queries, window, now);
    OlderBefore(log.granted, k, |log.queries| - |left|, window, now);
  }

  lemma GrantKeepsInv(log: Log, maximum: nat, window: nat, now: Time)
    requires Inv(log, maximum, window, now) && |log.queries| < maximum
    ensures Inv(Log(log.queries + [now], log.granted + [now]), maximum, window, now)
  {
  }

  lemma LaterInv(log: Log, maximum: nat, window: nat, before: Time, now: Time)
    requires Inv(log, maximum, window, before) && before <= now
    ensures Inv(log, maximum, window, now)
  {
  }

  lemma {:induction false} EveryRun(maximum: nat, window: nat, calls: seq<Time>, now: Time)
    requires maximum > 0 && window > 0 && Sorted(calls) && (calls != [] ==> calls[|calls| - 1] <= now)
    ensures Inv(Run(maximum, window, calls), maximum, window, now)
    decreases |calls|
  {
    hide Inv, Unexpired;
    if calls == [] {
      NothingGranted(maximum, window, now);
    } else {
      var t := calls[|calls| - 1];
      var before := Run(maximum, window, calls[..|calls| - 1]);
      EveryRun(maximum, window, calls[..|calls| - 1], t);
      PruneKeepsInv(before, maximum, window, t);
      var pruned := before.(queries := Unexpired(before.queries, window, t));
      if |pruned.queries| < maximum {
        GrantKeepsInv(pruned, maximum, window, t);
      }
      LaterInv(Run(maximum, window, calls), maximum, window, t, now);
    }
  }

  lemma NothingGranted(maximum: nat, window: nat, now: Time)
    ensures Inv(Log([], []), maximum, window, now)
  {
  }

  /** In every run, a grant and the one `maximum` grants later are a whole window apart. */
  lemma GrantsPerWindow(maximum: nat, window: nat, calls: seq<Time>, i: nat)
    requires maximum > 0 && window > 0 && Sorted(calls)
    requires i + maximum < |Run(maximum, window, calls).granted|
    ensures Run(maximum, window, calls).granted[i] + window <= Run(maximum, window, calls).granted[i + maximum]
  {
    EveryRun(maximum, window, calls, if calls == [] then 0 else calls[|calls| - 1]);
  }

  /** A refusal is never premature: the queue is full of queries still inside the window. The wait it names
      is exact: asked again at `later`, the limiter grants if and only if the wait has passed. */
  lemma WaitIsExact(queries: seq<Time>, maximum: nat, window: nat, now: Time, later: Time)
    requires maximum > 0 && Sorted(queries) && |queries| <= maximum && now <= later
    requires Reserve(queries, maximum, window, now).1.Some?
    ensures var (left, wait) := Reserve(queries, maximum, window, now);
            && left == queries && |left| == maximum && (forall i :: 0 <= i < |left| ==> now - left[i] < window)
            && wait.value > 0
            && (Reserve(left, maximum, window, later).1.None? <==> later >= now + wait.value)
  {
    UnexpiredSuffix(queries, window, now);
    UnexpiredSuffix(queries, window, later);
  }
}
