/** The limiter on path-MTU feedback: one message per flow and interval, a bounded number of flows. */
module FeedbackLimiter {
  import opened Bytes

  type Time = nat
  datatype Flow = Flow(source: IpAddr, group: IpAddr)
  datatype Sent = Sent(flow: Flow, at: Time)

  datatype Table = Table(last: map<Flow, Time>, queue: seq<Sent>)

  ghost predicate DistinctFlows(queue: seq<Sent>) {
    forall i, j :: 0 <= i < j < |queue| ==> queue[i].flow != queue[j].flow
  }

  /** The map the queue stands for. */
  ghost function LastOf(queue: seq<Sent>): map<Flow, Time> {
    if queue == [] then map[]
    else LastOf(queue[..|queue| - 1])[queue[|queue| - 1].flow := queue[|queue| - 1].at]
  }

  /** The map and the queue hold the same flows, each once. */
  ghost predicate TableOk(t: Table) {
    DistinctFlows(t.queue) && t.last == LastOf(t.queue)
  }

  lemma {:induction false} LastOfFlows(queue: seq<Sent>, f: Flow)
    ensures f in LastOf(queue) <==> exists i :: 0 <= i < |queue| && queue[i].flow == f
  {
    if queue != [] {
      var n := |queue| - 1;
      LastOfFlows(queue[..n], f);
      if f in LastOf(queue[..n]) {
        var i :| 0 <= i < n && queue[..n][i].flow == f;
        assert queue[i].flow == f;
      }
      assert queue[n].flow in LastOf(queue);
      if i :| 0 <= i < n && queue[i].flow == f {
        assert queue[..n][i].flow == f;
      }
    }
  }

  lemma {:induction false} LastOfSize(queue: seq<Sent>)
    requires DistinctFlows(queue)
    ensures |LastOf(queue)| == |queue|
  {
    if queue != [] {
      var front, e := queue[..|queue| - 1], queue[|queue| - 1];
      LastOfSize(front);
      LastOfFlows(front, e.flow);
      assert LastOf(queue).Keys == LastOf(front).Keys + {e.flow};
    }
  }

  lemma {:induction false} LastOfTail(queue: seq<Sent>)
    requires queue != [] && DistinctFlows(queue)
    ensures queue[0].flow in LastOf(queue) && LastOf(queue)[queue[0].flow] == queue[0].at
    ensures LastOf(queue[1..]) == LastOf(queue) - {queue[0].flow}
  {
    var n := |queue| - 1;
    if n > 0 {
      LastOfTail(queue[..n]);
      assert queue[1..][..n - 1] == queue[..n][1..];
      assert queue[1..][n - 1] == queue[n];
    }
  }

  lemma PopKeepsTable(t: Table)
    requires TableOk(t) && t.queue != []
    ensures t.queue[0].flow in t.last && t.last[t.queue[0].flow] == t.queue[0].at
    ensures TableOk(Table(t.last - {t.queue[0].flow}, t.queue[1..]))
  {
    LastOfTail(t.queue);
  }

  lemma PushKeepsTable(t: Table, f: Flow, now: Time)
    requires TableOk(t) && f !in t.last
    ensures TableOk(Table(t.last[f := now], t.queue + [Sent(f, now)]))
  {
    LastOfFlows(t.queue, f);
    var queue := t.queue + [Sent(f, now)];
    assert queue[..|queue| - 1] == t.queue;
  }

  function Pruned(t: Table, interval: nat, now: Time): Table
    decreases |t.queue|
  {
    if t.queue != [] && now - t.queue[0].at >= interval then
      var (flow, at) := (t.queue[0].flow, t.queue[0].at);
      var last := if flow in t.last && t.last[flow] == at then t.last - {flow} else t.last;
      Pruned(Table(last, t.queue[1..]), interval, now)
    else t
  }

  function Allow(t: Table, interval: nat, capacity: nat, flow: Flow, now: Time): (Table, bool) {
    var left := Pruned(t, interval, now);
    if flow in left.last || |left.last| >= capacity then (left, false)
    else (Table(left.last[flow := now], left.queue + [Sent(flow, now)]), true)
  }

  class FeedbackRateLimiter {
    const interval: nat
    const capacity: nat
    var last: map<Flow, Time>
    var queue: seq<Sent>

    constructor (interval: nat, capacity: nat)
      ensures last == map[] && queue == [] && this.interval == interval && this.capacity == capacity
    {
      this.interval, this.capacity, last, queue := interval, capacity, map[], [];
    }

    method AllowFlow(flow: Flow, now: Time) returns (allowed: bool)
      modifies this
      ensures (Table(last, queue), allowed) == Allow(Table(old(last), old(queue)), interval, capacity, flow, now)
    {
      while queue != [] && now - queue[0].at >= interval
        invariant Pruned(Table(last, queue), interval, now) == Pruned(Table(old(last), old(queue)), interval, now)
        decreases |queue|
      {
        var head := queue[0];
        queue := queue[1..];
        if head.flow in last && last[head.flow] == head.at {
          last := last - {head.flow};
        }
      }
      if flow in last || |last| >= capacity {
        return false;
      }
      last := last[flow := now];
      queue := queue + [Sent(flow, now)];
      allowed := true;
    }
  }

  // ---- every run ----

  datatype Call = Call(flow: Flow, now: Time)
  datatype Log = Log(table: Table, sent: seq<Sent>)

  function Step(log: Log, interval: nat, capacity: nat, c: Call): Log {
    var (table, allowed) := Allow(log.table, interval, capacity, c.flow, c.now);
    Log(table, if allowed then log.sent + [Sent(c.flow, c.now)] else log.sent)
  }

  function Run(interval: nat, capacity: nat, calls: seq<Call>): Log {
    if calls == [] then Log(Table(map[], []), [])
    else Step(Run(interval, capacity, calls[..|calls| - 1]), interval, capacity, calls[|calls| - 1])
  }

  /** Two messages for one flow are an interval apart. */
  ghost predicate FlowsApart(sent: seq<Sent>, interval: nat) {
    forall i, j :: 0 <= i < j < |sent| && sent[i].flow == sent[j].flow ==> sent[i].at + interval <= sent[j].at
  }

  /** Any `capacity` + 1 messages span an interval. */
  ghost predicate BoundedRate(sent: seq<Sent>, interval: nat, capacity: nat) {
    forall i, j :: 0 <= i && j == i + capacity && j < |sent| ==> sent[i].at + interval <= sent[j].at
  }

  /** The first `k` messages are an interval old by `now`. */
  ghost predicate OldBefore(sent: seq<Sent>, k: nat, interval: nat, now: Time) {
    forall i :: 0 <= i < k && i < |sent| ==> sent[i].at + interval <= now
  }

  ghost predicate InTime(sent: seq<Sent>, now: Time) {
    && (forall i, j :: 0 <= i < j < |sent| ==> sent[i].at <= sent[j].at)
    && (forall i :: 0 <= i < |sent| ==> sent[i].at <= now)
  }

  /** The queue is the recent end of what was sent; everything before it is an interval old by `now`. */
  ghost predicate Inv(log: Log, interval: nat, capacity: nat, now: Time) {
    && TableOk(log.table) && |log.table.queue| <= capacity && |log.table.queue| <= |log.sent|
    && log.table.queue == log.sent[|log.sent| - |log.table.queue|..]
    && OldBefore(log.sent, |log.sent| - |log.table.queue|, interval, now)
    && FlowsApart(log.sent, interval) && BoundedRate(log.sent, interval, capacity) && InTime(log.sent, now)
  }

  lemma {:induction false} PruneKeepsInv(log: Log, interval: nat, capacity: nat, now: Time)
    requires Inv(log, interval, capacity, now)
    ensures Inv(log.(table := Pruned(log.table, interval, now)), interval, capacity, now)
    decreases |log.table.queue|
  {
    hide TableOk, FlowsApart, BoundedRate, InTime;
    var t := log.table;
    if t.queue != [] && now - t.queue[0].at >= interval {
      PopKeepsTable(t);
      var k := |log.sent| - |t.queue|;
      assert log.sent[k] == t.queue[0] && log.sent[k..][1..] == log.sent[k + 1..];
      PruneKeepsInv(log.(table := Table(t.last - {t.queue[0].flow}, t.queue[1..])), interval, capacity, now);
    }
  }

  lemma GrantFlowsApart(log: Log, interval: nat, capacity: nat, flow: Flow, now: Time)
    requires Inv(log, interval, capacity, now) && flow !in log.table.last
    ensures FlowsApart(log.sent + [Sent(flow, now)], interval)
  {
    hide BoundedRate;
    LastOfFlows(log.table.queue, flow);
    var k := |log.sent| - |log.table.queue|;
    forall i | k <= i < |log.sent| ensures log.sent[i].flow != flow {
      assert log.sent[i] == log.table.queue[i - k];
    }
  }

  lemma GrantBounded(sent: seq<Sent>, k: nat, interval: nat, capacity: nat, s: Sent)
    requires OldBefore(sent, k, interval, s.at) && BoundedRate(sent, interval, capacity) && InTime(sent, s.at)
    requires k <= |sent| < k + capacity
    ensures OldBefore(sent + [s], k, interval, s.at) && BoundedRate(sent + [s], interval, capacity)
        && InTime(sent + [s], s.at)
  {
  }

  lemma GrantKeepsInv(log: Log, interval: nat, capacity: nat, flow: Flow, now: Time)
    requires Inv(log, interval, capacity, now) && flow !in log.table.last && |log.table.last| < capacity
    ensures Inv(Log(Table(log.table.last[flow := now], log.table.queue + [Sent(flow, now)]), log.sent + [Sent(flow,
        now)]),
                interval, capacity, now)
  {
    hide FlowsApart, BoundedRate, OldBefore, InTime, DistinctFlows, LastOf;
    GrantFlowsApart(log, interval, capacity, flow, now);
    LastOfSize(log.table.queue);
    GrantBounded(log.sent, |log.sent| - |log.table.queue|, interval, capacity, Sent(flow, now));
    PushKeepsTable(log.table, flow, now);
    var k := |log.sent| - |log.table.queue|;
    assert (log.sent + [Sent(flow, now)])[k..] == log.sent[k..] + [Sent(flow, now)];
  }

  ghost predicate InOrder(calls: seq<Call>) {
    forall i, j :: 0 <= i < j < |calls| ==> calls[i].now <= calls[j].now
  }

  lemma LaterInv(log: Log, interval: nat, capacity: nat, before: Time, now: Time)
    requires Inv(log, interval, capacity, before) && before <= now
    ensures Inv(log, interval, capacity, now)
  {
  }

  lemma {:induction false} EveryRun(interval: nat, capacity: nat, calls: seq<Call>, now: Time)
    requires InOrder(calls) && (calls != [] ==> calls[|calls| - 1].now <= now)
    ensures Inv(Run(interval, capacity, calls), interval, capacity, now)
    decreases |calls|
  {
    hide Inv;
    if calls == [] {
      NothingSent(interval, capacity, now);
    } else {
      var c := calls[|calls| - 1];
      var before := Run(interval, capacity, calls[..|calls| - 1]);
      EveryRun(interval, capacity, calls[..|calls| - 1], c.now);
      PruneKeepsInv(before, interval, capacity, c.now);
      var pruned := before.(table := Pruned(before.table, interval, c.now));
      if c.flow !in pruned.table.last && |pruned.table.last| < capacity {
        GrantKeepsInv(pruned, interval, capacity, c.flow, c.now);
      }
      LaterInv(Run(interval, capacity, calls), interval, capacity, c.now, now);
    }
  }

  lemma NothingSent(interval: nat, capacity: nat, now: Time)
    ensures Inv(Log(Table(map[], []), []), interval, capacity, now)
  {
  }

  /** In every run: two messages for one flow are at least the interval apart, any `capacity` + 1 messages
      span at least the interval, and the map and the queue always hold the same flows. */
  lemma FeedbackIsSpaced(interval: nat, capacity: nat, calls: seq<Call>)
    requires InOrder(calls)
    ensures var log := Run(interval, capacity, calls);
            && FlowsApart(log.sent, interval) && BoundedRate(log.sent, interval, capacity)
            && TableOk(log.table) && |log.table.last| <= capacity
  {
    EveryRun(interval, capacity, calls, if calls == [] then 0 else calls[|calls| - 1].now);
    LastOfSize(Run(interval, capacity, calls).table.queue);
  }

  lemma {:induction false} PrunedAreRecent(t: Table, interval: nat, now: Time)
    requires InTime(t.queue, now)
    ensures forall i :: 0 <= i < |Pruned(t, interval, now).queue| ==>
              now - Pruned(t, interval, now).queue[i].at < interval
    decreases |t.queue|
  {
    if t.queue != [] && now - t.queue[0].at >= interval {
      var head := t.queue[0];
      var last := if head.flow in t.last && t.last[head.flow] == head.at then t.last - {head.flow} else t.last;
      PrunedAreRecent(Table(last, t.queue[1..]), interval, now);
    }
  }

  /** Nor is a message ever held back without cause: after every run, a flow is refused only while its own
      last message is younger than the interval, or while `capacity` messages are. */
  lemma RefusalIsJustified(interval: nat, capacity: nat, calls: seq<Call>, flow: Flow, now: Time)
    requires InOrder(calls) && (calls != [] ==> calls[|calls| - 1].now <= now)
    requires !Allow(Run(interval, capacity, calls).table, interval, capacity, flow, now).1
    ensures var sent := Run(interval, capacity, calls).sent;
            || (exists i :: 0 <= i < |sent| && sent[i].flow == flow && now - sent[i].at < interval)
            || (capacity <= |sent| && forall i :: |sent| - capacity <= i < |sent| ==> now - sent[i].at < interval)
  {
    hide TableOk, FlowsApart, BoundedRate, OldBefore, Pruned;
    var log := Run(interval, capacity, calls);
    EveryRun(interval, capacity, calls, now);
    QueueInTime(log, now);
    PruneKeepsInv(log, interval, capacity, now);
    PrunedAreRecent(log.table, interval, now);
    var left := Pruned(log.table, interval, now);
    var k := |log.sent| - |left.queue|;
    TableFacts(left, flow);
    if flow in left.last {
      var i :| 0 <= i < |left.queue| && left.queue[i].flow == flow;
      assert log.sent[k + i] == left.queue[i];
    } else {
      forall i | |log.sent| - capacity <= i < |log.sent| ensures now - log.sent[i].at < interval {
        assert log.sent[i] == left.queue[i - k];
      }
    }
  }

  lemma QueueInTime(log: Log, now: Time)
    requires InTime(log.sent, now) && |log.table.queue| <= |log.sent|
        && log.table.queue == log.sent[|log.sent| - |log.table.queue|..]
    ensures InTime(log.table.queue, now)
  {
  }

  lemma TableFacts(t: Table, flow: Flow)
    requires TableOk(t)
    ensures |t.last| == |t.queue| && (flow in t.last <==> exists i :: 0 <= i < |t.queue| && t.queue[i].flow == flow)
  {
    LastOfSize(t.queue);
    LastOfFlows(t.queue, flow);
  }
}
