/** The hand-off from the capture thread to the relay loop: one producer, one consumer, a bounded
    channel, an atomic depth counter and a sticky wake-up. Each action below is one atomic operation,
    and a run is any interleaving of the actions of the two threads. */
module CaptureWorker {

  type Packet = int

  /** Where the capture thread is inside its receive loop. */
  datatype Producer =
    | Idle
    | Holding(packet: Packet)                                       // received, not yet counted
    | Accepted(packet: Packet)                                      // counted, no slot reserved
    | Reserved(packet: Packet, wasEmpty: bool, reservedDepth: nat)  // depth counted, not sent
    | Sent(wasEmpty: bool, reservedDepth: nat)
    | Loaded(wasEmpty: bool, depth: nat)                            // high-water value computed
    | Notifying                                                     // must wake the relay
    | Full                                                          // channel refused the packet
    | Released                                                      // slot given back, drop not counted
    | Failing                                                       // receive failed, about to wake the relay
    | Stopped
    | Unheard                                                       // stopped because the wake-up failed

  /** Where the relay loop is. */
  datatype Consumer =
    | Working
    | Popped(packet: Packet)  // taken from the channel, depth not yet decremented
    | Deciding                // read depth zero after draining
    | Waiting                 // blocked in the poller

  datatype System = System(
    capacity: nat,
    channel: seq<Packet>,
    depth: int,
    highWater: nat,
    acceptedPackets: nat,
    queueDrops: nat,
    notified: bool,
    failure: bool,
    producer: Producer,
    consumer: Consumer,
    // history, for stating what was lost and in which order
    taken: seq<Packet>,      // every packet counted as accepted
    kept: seq<bool>,         // for each packet the channel decided on: was it queued?
    delivered: seq<Packet>)  // every packet handed to the relay

  datatype Action =
    // capture thread
    | Receive(packet: Packet)
    | ReceiveError
    | CountAccepted
    | Reserve
    | TrySend
    | LoadDepth
    | RaiseHighWater
    | Notify(ok: bool)
    | Release
    | CountDrop
    | Shutdown
    // relay loop
    | Pop
    | RecordDequeued
    | SeeEmpty
    | Block
    | WakeNotified
    | WakeOther(cleared: bool)  // socket event or timeout; the poller may drop a pending notification

  function Start(capacity: nat): System {
    System(capacity, [], 0, 0, 0, 0, false, false, Idle, Working, [], [], [])
  }

  function Max(a: nat, b: nat): nat { if a < b then b else a }
  function Min(a: nat, b: int): int { if a < b then a else b }

  /** The capture thread's operations; an action out of turn changes nothing. */
  function ProducerNext(s: System, a: Action): System {
    match (a, s.producer)
    case (Receive(p), Idle) => s.(producer := Holding(p))
    case (ReceiveError, Idle) => s.(producer := Failing, failure := true)
    case (CountAccepted, Holding(p)) =>
      s.(producer := Accepted(p), acceptedPackets := s.acceptedPackets + 1, taken := s.taken + [p])
    case (Reserve, Accepted(p)) =>
      if s.depth < 0 then s
      else s.(producer := Reserved(p, s.depth == 0, s.depth + 1), depth := s.depth + 1)
    case (TrySend, Reserved(p, wasEmpty, reservedDepth)) =>
      if |s.channel| < s.capacity then
        s.(producer := Sent(wasEmpty, reservedDepth), channel := s.channel + [p], kept := s.kept + [true])
      else
        s.(producer := Full, kept := s.kept + [false])
    case (LoadDepth, Sent(wasEmpty, reservedDepth)) =>
      if s.depth < 0 then s else s.(producer := Loaded(wasEmpty, Min(reservedDepth, s.depth)))
    case (RaiseHighWater, Loaded(wasEmpty, depth)) =>
      s.(producer := (if wasEmpty then Notifying else Idle), highWater := Max(s.highWater, depth))
    case (Notify(ok), Notifying) =>
      if ok then s.(producer := Idle, notified := true) else s.(producer := Unheard, failure := true)
    case (Notify(ok), Failing) => s.(producer := Stopped, notified := s.notified || ok)
    case (Release, Full) => s.(producer := Released, depth := s.depth - 1)
    case (CountDrop, Released) => s.(producer := Idle, queueDrops := s.queueDrops + 1)
    case (Shutdown, Idle) => s.(producer := Stopped)
    case _ => s
  }

  /** The relay loop's operations. */
  function ConsumerNext(s: System, a: Action): System {
    match (a, s.consumer)
    case (Pop, Working) =>
      if s.channel == [] then s else s.(consumer := Popped(s.channel[0]), channel := s.channel[1..])
    case (RecordDequeued, Popped(p)) =>
      s.(consumer := Working, depth := s.depth - 1, delivered := s.delivered + [p])
    case (SeeEmpty, Working) => if s.depth == 0 then s.(consumer := Deciding) else s
    case (Block, Deciding) => s.(consumer := Waiting)
    case (WakeNotified, Waiting) => if s.notified then s.(consumer := Working, notified := false) else s
    case (WakeOther(cleared), Waiting) => s.(consumer := Working, notified := s.notified && !cleared)
    case _ => s
  }

  function Next(s: System, a: Action): System {
    ConsumerNext(ProducerNext(s, a), a)
  }

  function Run(capacity: nat, actions: seq<Action>): System {
    if actions == [] then Start(capacity)
    else Next(Run(capacity, actions[..|actions| - 1]), actions[|actions| - 1])
  }

  // ---- the invariant ----

  function Unsent(p: Producer): nat { if p.Reserved? || p.Full? then 1 else 0 }
  function Uncounted(c: Consumer): nat { if c.Popped? then 1 else 0 }

  /** The depth counter is the channel plus what each thread has in hand. */
  predicate DepthExact(s: System) {
    s.depth == |s.channel| + Unsent(s.producer) + Uncounted(s.consumer)
  }

  predicate Asleep(c: Consumer) { c.Deciding? || c.Waiting? }

  /** The producer will wake the relay before it takes the next packet. */
  predicate Pledged(p: Producer) {
    || (p.Reserved? && p.wasEmpty)
    || (p.Sent? && p.wasEmpty)
    || (p.Loaded? && p.wasEmpty)
    || p.Notifying?
  }

  /** A relay that is going to sleep, or asleep, has nothing to fetch or is about to be woken, unless
      the wake-up itself failed and the worker stopped over it. */
  predicate WakeUpDue(s: System) {
    Asleep(s.consumer) ==>
      || (s.channel == [] && Unsent(s.producer) == 0)
      || s.notified
      || Pledged(s.producer)
      || s.producer.Unheard?
  }

  predicate Bounded(s: System) {
    && |s.channel| <= s.capacity
    && s.highWater <= s.capacity + 1
    && (s.producer.Loaded? ==> s.producer.depth <= s.capacity + 1)
    && (s.producer.Reserved? && s.producer.wasEmpty ==> s.channel == [])
  }

  /** The packets the channel accepted, in the order they were taken. */
  function Queued(taken: seq<Packet>, kept: seq<bool>): seq<Packet>
    requires |kept| <= |taken|
  {
    if kept == [] then []
    else
      var n := |kept| - 1;
      Queued(taken, kept[..n]) + if kept[n] then [taken[n]] else []
  }

  function Dropped(kept: seq<bool>): nat {
    if kept == [] then 0 else Dropped(kept[..|kept| - 1]) + if kept[|kept| - 1] then 0 else 1
  }

  /** The packet the producer has counted but the channel has not decided on. */
  function InHand(p: Producer): seq<Packet> {
    if p.Accepted? || p.Reserved? then [p.packet] else []
  }

  function PoppedPacket(c: Consumer): seq<Packet> { if c.Popped? then [c.packet] else [] }

  /** Delivery is the queue order, nothing is duplicated or invented, and only refused packets are lost. */
  predicate History(s: System) {
    && |s.kept| + |InHand(s.producer)| == |s.taken|
    && s.taken[|s.kept|..] == InHand(s.producer)
    && s.delivered + PoppedPacket(s.consumer) + s.channel == Queued(s.taken, s.kept)
    && s.acceptedPackets == |s.taken|
    && s.queueDrops + (if s.producer.Full? || s.producer.Released? then 1 else 0) == Dropped(s.kept)
  }

  predicate Inv(s: System) {
    s.capacity > 0 && DepthExact(s) && WakeUpDue(s) && Bounded(s) && History(s)
  }

  lemma QueuedSnoc(taken: seq<Packet>, kept: seq<bool>, b: bool)
    requires |kept| < |taken|
    ensures Queued(taken, kept + [b]) == Queued(taken, kept) + (if b then [taken[|kept|]] else [])
    ensures Dropped(kept + [b]) == Dropped(kept) + (if b then 0 else 1)
  {
  }

  lemma {:induction false} QueuedPrefix(taken: seq<Packet>, more: seq<Packet>, kept: seq<bool>)
    requires |kept| <= |taken|
    ensures Queued(taken + more, kept) == Queued(taken, kept)
  {
    if kept != [] {
      QueuedPrefix(taken, more, kept[..|kept| - 1]);
    }
  }

  lemma {:induction false} QueuedSize(taken: seq<Packet>, kept: seq<bool>)
    requires |kept| <= |taken|
    ensures |Queued(taken, kept)| + Dropped(kept) == |kept|
  {
    if kept != [] {
      QueuedSize(taken, kept[..|kept| - 1]);
    }
  }

  lemma CountingKeepsHistory(s: System)
    requires History(s) && s.producer.Holding?
    ensures History(ProducerNext(s, CountAccepted))
  {
    QueuedPrefix(s.taken, [s.producer.packet], s.kept);
    assert s.taken[|s.kept|..] == [];
  }

  lemma SendingKeepsHistory(s: System)
    requires History(s) && s.producer.Reserved?
    ensures History(ProducerNext(s, TrySend))
  {
    var p := s.producer.packet;
    assert s.taken[|s.kept|] == s.taken[|s.kept|..][0] == p;
    QueuedSnoc(s.taken, s.kept, |s.channel| < s.capacity);
    assert s.delivered + PoppedPacket(s.consumer) + (s.channel + [p])
        == s.delivered + PoppedPacket(s.consumer) + s.channel + [p];
  }

  lemma ProducerKeepsHistory(s: System, a: Action)
    requires History(s)
    ensures History(ProducerNext(s, a))
  {
    hide Queued, Dropped;
    if a.CountAccepted? && s.producer.Holding? {
      CountingKeepsHistory(s);
    } else if a.TrySend? && s.producer.Reserved? {
      SendingKeepsHistory(s);
    }
  }

  lemma ConsumerKeepsHistory(s: System, a: Action)
    requires History(s)
    ensures History(ConsumerNext(s, a))
  {
  }

  lemma ProducerKeepsDepth(s: System, a: Action)
    requires DepthExact(s)
    ensures DepthExact(ProducerNext(s, a))
  {
  }

  lemma ProducerKeepsWakeUp(s: System, a: Action)
    requires s.capacity > 0 && DepthExact(s) && WakeUpDue(s) && Bounded(s)
    ensures WakeUpDue(ProducerNext(s, a))
  {
  }

  lemma ProducerKeepsBound(s: System, a: Action)
    requires DepthExact(s) && Bounded(s)
    ensures Bounded(ProducerNext(s, a)) && ProducerNext(s, a).capacity == s.capacity
  {
  }

  lemma ConsumerKeepsRest(s: System, a: Action)
    requires s.capacity > 0 && DepthExact(s) && WakeUpDue(s) && Bounded(s)
    ensures var t := ConsumerNext(s, a); t.capacity == s.capacity && DepthExact(t) && WakeUpDue(t) && Bounded(t)
  {
  }

  /** Every interleaving, of any length and with any failures, keeps the invariant. */
  lemma {:induction false} EveryInterleaving(capacity: nat, actions: seq<Action>)
    requires capacity > 0
    ensures Inv(Run(capacity, actions))
    ensures Run(capacity, actions).capacity == capacity
  {
    hide History, DepthExact, WakeUpDue, Bounded, ProducerNext, ConsumerNext;
    if actions == [] {
      StartInv(capacity);
    } else {
      var before := Run(capacity, actions[..|actions| - 1]);
      var a := actions[|actions| - 1];
      EveryInterleaving(capacity, actions[..|actions| - 1]);
      ProducerKeepsDepth(before, a);
      ProducerKeepsWakeUp(before, a);
      ProducerKeepsBound(before, a);
      ProducerKeepsHistory(before, a);
      ConsumerKeepsRest(ProducerNext(before, a), a);
      ConsumerKeepsHistory(ProducerNext(before, a), a);
    }
  }

  lemma StartInv(capacity: nat)
    requires capacity > 0
    ensures Inv(Start(capacity))
  {
  }

  // ---- what it means ----

  /** No lost wake-up: a relay blocked while packets are queued has a notification pending, or the
      producer is between its send and its notify, or that notify failed and stopped the worker. */
  lemma NoLostWakeUp(capacity: nat, actions: seq<Action>)
    requires capacity > 0
    ensures var s := Run(capacity, actions);
            s.consumer.Waiting? && s.channel != [] ==>
              s.notified || (Pledged(s.producer) && !s.producer.Reserved?) || s.producer.Unheard?
  {
    EveryInterleaving(capacity, actions);
  }

  /** A notification was refused while the worker was waking the relay for a packet. */
  ghost predicate RefusedAt(capacity: nat, actions: seq<Action>, k: nat) {
    k < |actions| && actions[k] == Notify(false) && Run(capacity, actions[..k]).producer.Notifying?
  }

  lemma UnheardStep(s: System, a: Action)
    ensures Next(s, a).producer.Unheard? <==> s.producer.Unheard? || (a == Notify(false) && s.producer.Notifying?)
    ensures Next(s, a).producer.Unheard? && !s.producer.Unheard? ==> Next(s, a).failure
    ensures s.failure ==> Next(s, a).failure
  {
  }

  /** A worker has stopped unheard exactly when the poller refused such a notification, and then it has
      recorded a failure. */
  lemma {:induction false} UnheardExactly(capacity: nat, actions: seq<Action>)
    ensures Run(capacity, actions).producer.Unheard? <==> exists k: nat :: RefusedAt(capacity, actions, k)
    ensures Run(capacity, actions).producer.Unheard? ==> Run(capacity, actions).failure
  {
    hide Next;
    if actions != [] {
      var front, a := actions[..|actions| - 1], actions[|actions| - 1];
      UnheardExactly(capacity, front);
      UnheardStep(Run(capacity, front), a);
      if Run(capacity, front).producer.Unheard? {
        var k: nat :| RefusedAt(capacity, front, k);
        assert actions[..k] == front[..k];
        assert RefusedAt(capacity, actions, k);
      } else if a == Notify(false) && Run(capacity, front).producer.Notifying? {
        assert RefusedAt(capacity, actions, |front|);
      }
      if k: nat :| RefusedAt(capacity, actions, k) && k < |front| {
        assert actions[..k] == front[..k];
        assert RefusedAt(capacity, front, k);
      }
    }
  }

  /** A relay waiting in front of a queued packet that no notification announces or will announce: only the timeout
      of its wait is left to end it. */
  predicate WakeUpLost(s: System) {
    s.consumer.Waiting? && s.channel != [] && !s.notified && !Pledged(s.producer)
  }

  /** So the wake-up is lost exactly when the relay waits on a non-empty channel with nothing pending and
      some notification has been refused. */
  lemma WakeUpLostExactly(capacity: nat, actions: seq<Action>)
    requires capacity > 0
    ensures var s := Run(capacity, actions);
            WakeUpLost(s) <==>
              && s.consumer.Waiting? && s.channel != [] && !s.notified
              && exists k: nat :: RefusedAt(capacity, actions, k)
  {
    EveryInterleaving(capacity, actions);
    UnheardExactly(capacity, actions);
  }

  /** Counting: the depth never underflows and the high-water mark is at most one above capacity. */
  lemma DepthCounterSound(capacity: nat, actions: seq<Action>)
    requires capacity > 0
    ensures var s := Run(capacity, actions);
            && s.depth == |s.channel| + Unsent(s.producer) + Uncounted(s.consumer)
            && ((s.producer.Full? || s.consumer.Popped?) ==> s.depth >= 1)
            && s.highWater <= capacity + 1
  {
    EveryInterleaving(capacity, actions);
  }

  /** Conservation: every accepted packet is delivered, in the relay's hand, queued, dropped, or in
      the producer's hand. */
  lemma Conservation(capacity: nat, actions: seq<Action>)
    requires capacity > 0
    ensures var s := Run(capacity, actions);
            s.acceptedPackets == |s.delivered| + |PoppedPacket(s.consumer)| + |s.channel| + s.queueDrops
                                 + (if s.producer.Full? || s.producer.Released? then 1 else 0) + |InHand(s.producer)|
  {
    EveryInterleaving(capacity, actions);
    var s := Run(capacity, actions);
    QueuedSize(s.taken, s.kept);
  }

  /** Delivery is first-in first-out over the packets that were not dropped. */
  lemma DeliveryIsFifo(capacity: nat, actions: seq<Action>)
    requires capacity > 0
    ensures var s := Run(capacity, actions);
            |s.kept| <= |s.taken| && s.delivered <= Queued(s.taken, s.kept)
  {
    EveryInterleaving(capacity, actions);
    var s := Run(capacity, actions);
    PrefixOfSum(s.delivered, PoppedPacket(s.consumer), s.channel);
  }

  lemma PrefixOfSum(a: seq<Packet>, b: seq<Packet>, c: seq<Packet>)
    ensures a <= a + b + c
  {
  }

  // ---- when the high-water mark exceeds the capacity ----

  /** A depth above the capacity has been loaded, whether or not the mark has been raised to it yet. */
  predicate Over(s: System) {
    s.highWater > s.capacity || (s.producer.Loaded? && s.producer.depth > s.capacity)
  }

  /** The depth is read while the channel is full again and the packet popped from it is not yet counted. */
  predicate LoadsOver(s: System, a: Action) {
    a == LoadDepth && s.producer.Sent? && |s.channel| == s.capacity && s.consumer.Popped?
  }

  /** Since the reservation only the relay has changed the depth, so the smaller of the two that the source
      takes is always the depth just read. */
  predicate ReservationTops(s: System) {
    s.producer.Reserved? || s.producer.Sent? ==> s.producer.reservedDepth >= s.depth
  }

  lemma ReservationStep(s: System, a: Action)
    requires Inv(s) && ReservationTops(s)
    ensures ReservationTops(Next(s, a))
  {
    hide History, WakeUpDue;
  }

  lemma {:induction false} ReservationAlwaysTops(capacity: nat, actions: seq<Action>)
    requires capacity > 0
    ensures ReservationTops(Run(capacity, actions))
  {
    hide Next, Inv, ReservationTops;
    if actions == [] {
      StartTops(capacity);
    } else {
      var front := actions[..|actions| - 1];
      EveryInterleaving(capacity, front);
      ReservationAlwaysTops(capacity, front);
      ReservationStep(Run(capacity, front), actions[|actions| - 1]);
    }
  }

  lemma StartTops(capacity: nat)
    ensures ReservationTops(Start(capacity))
  {
  }

  lemma OverStep(s: System, a: Action)
    requires Inv(s) && ReservationTops(s)
    ensures Over(Next(s, a)) <==> Over(s) || LoadsOver(s, a)
  {
    hide History, WakeUpDue;
  }

  ghost predicate LoadsOverAt(capacity: nat, actions: seq<Action>, k: nat) {
    k < |actions| && LoadsOver(Run(capacity, actions[..k]), actions[k])
  }

  /** In every interleaving the mark exceeds the capacity exactly when the depth was once read at such a
      moment: a pop from a full channel, refilled before the pop is counted. */
  lemma {:induction false} HighWaterOverExactly(capacity: nat, actions: seq<Action>)
    requires capacity > 0
    ensures Over(Run(capacity, actions)) <==> exists k: nat :: LoadsOverAt(capacity, actions, k)
    ensures Run(capacity, actions).highWater > capacity ==> Over(Run(capacity, actions))
  {
    hide Next, Inv, LoadsOver, ReservationTops;
    EveryInterleaving(capacity, actions);
    if actions != [] {
      var front, a := actions[..|actions| - 1], actions[|actions| - 1];
      EveryInterleaving(capacity, front);
      ReservationAlwaysTops(capacity, front);
      HighWaterOverExactly(capacity, front);
      OverStep(Run(capacity, front), a);
      if Over(Run(capacity, front)) {
        var k: nat :| LoadsOverAt(capacity, front, k);
        assert actions[..k] == front[..k];
        assert LoadsOverAt(capacity, actions, k);
      } else if LoadsOver(Run(capacity, front), a) {
        assert LoadsOverAt(capacity, actions, |front|);
      }
      if k: nat :| LoadsOverAt(capacity, actions, k) && k < |front| {
        assert actions[..k] == front[..k];
        assert LoadsOverAt(capacity, front, k);
      }
    }
  }

  // ---- and it can: the bound is tight ----

  function After(s: System, actions: seq<Action>): System
    decreases |actions|
  {
    if actions == [] then s else After(Next(s, actions[0]), actions[1..])
  }

  lemma AfterOne(s: System, a: Action)
    ensures After(s, [a]) == Next(s, a)
  {
    hide Next;
    assert [a][1..] == [];
  }

  lemma {:induction false} AfterThen(s: System, first: seq<Action>, rest: seq<Action>)
    ensures After(s, first + rest) == After(After(s, first), rest)
    decreases |first|
  {
    hide Next;
    if first == [] {
      assert first + rest == rest;
    } else {
      AfterThen(Next(s, first[0]), first[1..], rest);
      assert (first + rest)[1..] == first[1..] + rest;
    }
  }

  lemma {:induction false} RunThenAfter(capacity: nat, first: seq<Action>, rest: seq<Action>)
    ensures Run(capacity, first + rest) == After(Run(capacity, first), rest)
    decreases |rest|
  {
    hide Next;
    if rest == [] {
      assert first + rest == first;
    } else {
      RunThenAfter(capacity, first + [rest[0]], rest[1..]);
      assert first + [rest[0]] + rest[1..] == first + rest;
      assert (first + [rest[0]])[..|first|] == first;
    }
  }

  function OnePacket(heard: bool): seq<Action> {
    [Receive(0)] + [CountAccepted] + [Reserve] + [TrySend] + [LoadDepth] + [RaiseHighWater] + [Notify(heard)]
  }

  function ReserveSteps(s: System): System {
    Next(Next(Next(s, Receive(0)), CountAccepted), Reserve)
  }

  function SendSteps(s: System, heard: bool): System {
    Next(Next(Next(Next(s, TrySend), LoadDepth), RaiseHighWater), Notify(heard))
  }

  lemma AfterSnoc(s: System, first: seq<Action>, a: Action)
    ensures After(s, first + [a]) == Next(After(s, first), a)
  {
    hide Next, After;
    AfterThen(s, first, [a]);
    AfterOne(After(s, first), a);
  }

  lemma AfterOnePacket(s: System, heard: bool)
    ensures After(s, OnePacket(heard)) == SendSteps(ReserveSteps(s), heard)
  {
    hide Next, After;
    var received := [Receive(0)];
    var counted := received + [CountAccepted];
    var reserved := counted + [Reserve];
    var sent := reserved + [TrySend];
    var loaded := sent + [LoadDepth];
    var raised := loaded + [RaiseHighWater];
    AfterOne(s, Receive(0));
    AfterSnoc(s, received, CountAccepted);
    AfterSnoc(s, counted, Reserve);
    AfterSnoc(s, reserved, TrySend);
    AfterSnoc(s, sent, LoadDepth);
    AfterSnoc(s, loaded, RaiseHighWater);
    AfterSnoc(s, raised, Notify(heard));
  }

  lemma ReserveOne(s: System)
    requires s.producer.Idle? && s.depth >= 0
    ensures var t := ReserveSteps(s);
            && t.producer == Reserved(0, s.depth == 0, s.depth + 1) && t.depth == s.depth + 1
            && t.notified == s.notified && t.channel == s.channel && t.capacity == s.capacity
            && t.consumer == s.consumer && t.highWater == s.highWater
  {
  }

  lemma SendAndLoad(s: System)
    requires s.producer.Reserved? && s.depth == s.producer.reservedDepth && |s.channel| < s.capacity
    ensures var t := Next(Next(s, TrySend), LoadDepth);
            && t.producer == Loaded(s.producer.wasEmpty, s.depth) && |t.channel| == |s.channel| + 1
            && t.depth == s.depth && t.capacity == s.capacity && t.consumer == s.consumer
            && t.notified == s.notified && t.highWater == s.highWater
  {
  }

  lemma RaiseAndNotify(s: System, heard: bool)
    requires s.producer.Loaded?
    ensures var t := Next(Next(s, RaiseHighWater), Notify(heard));
            && t.producer == (if s.producer.wasEmpty && !heard then Unheard else Idle)
            && t.notified == (s.notified || (s.producer.wasEmpty && heard))
            && t.highWater == Max(s.highWater, s.producer.depth)
            && t.channel == s.channel && t.depth == s.depth && t.capacity == s.capacity && t.consumer == s.consumer
  {
  }

  lemma SendOne(s: System, heard: bool)
    requires s.producer.Reserved? && s.depth == s.producer.reservedDepth && |s.channel| < s.capacity
    ensures var t := SendSteps(s, heard);
            && t.producer == (if s.producer.wasEmpty && !heard then Unheard else Idle)
            && t.notified == (s.notified || (s.producer.wasEmpty && heard))
            && t.depth == s.depth && |t.channel| == |s.channel| + 1
            && t.capacity == s.capacity && t.consumer == s.consumer && t.highWater == Max(s.highWater, s.depth)
  {
    hide Next;
    SendAndLoad(s);
    RaiseAndNotify(Next(Next(s, TrySend), LoadDepth), heard);
  }

  /** One packet captured while there is room. */
  lemma CaptureOne(s: System, heard: bool)
    requires s.producer.Idle? && DepthExact(s) && |s.channel| < s.capacity
    ensures var t := After(s, OnePacket(heard));
            && t.producer == (if s.depth == 0 && !heard then Unheard else Idle)
            && t.consumer == s.consumer && DepthExact(t)
            && |t.channel| == |s.channel| + 1 && t.capacity == s.capacity
            && t.highWater == Max(s.highWater, s.depth + 1)
            && t.notified == (s.notified || (s.depth == 0 && heard))
  {
    hide ReserveSteps, SendSteps, After;
    AfterOnePacket(s, heard);
    ReserveOne(s);
    SendOne(ReserveSteps(s), heard);
  }

  lemma {:induction false} FillChannel(capacity: nat, n: nat) returns (actions: seq<Action>)
    requires n <= capacity
    ensures var s := Run(capacity, actions);
            s.producer.Idle? && s.consumer.Working? && DepthExact(s) && |s.channel| == n && s.capacity == capacity
  {
    hide After, OnePacket, Next;
    if n == 0 {
      actions := [];
    } else {
      var before := FillChannel(capacity, n - 1);
      CaptureOne(Run(capacity, before), true);
      RunThenAfter(capacity, before, OnePacket(true));
      actions := before + OnePacket(true);
    }
  }

  lemma PopOne(s: System)
    requires s.producer.Idle? && s.consumer.Working? && DepthExact(s) && s.channel != []
    ensures var t := Next(s, Pop);
            && t.producer.Idle? && DepthExact(t) && |t.channel| == |s.channel| - 1
            && t.capacity == s.capacity && t.depth == s.depth && t.highWater == s.highWater
  {
  }

  /** For every capacity some interleaving drives the high-water mark to capacity + 1: the relay pops
      a packet from a full channel, and a new one arrives before the pop is counted. */
  lemma HighWaterBoundIsTight(capacity: nat)
    requires capacity > 0
    ensures exists actions :: Run(capacity, actions).highWater == capacity + 1
  {
    hide After, OnePacket, Next, Run;
    var full := FillChannel(capacity, capacity);
    RunThenAfter(capacity, full, [Pop]);
    AfterOne(Run(capacity, full), Pop);
    PopOne(Run(capacity, full));
    var s := Run(capacity, full + [Pop]);
    CaptureOne(s, true);
    RunThenAfter(capacity, full + [Pop], OnePacket(true));
    var actions := full + [Pop] + OnePacket(true);
    DepthCounterSound(capacity, actions);
    assert Run(capacity, actions).highWater == capacity + 1;
  }

  lemma FallAsleep(capacity: nat)
    ensures After(Start(capacity), [SeeEmpty] + [Block]) == Start(capacity).(consumer := Waiting)
  {
    hide After;
    AfterOne(Start(capacity), SeeEmpty);
    AfterSnoc(Start(capacity), [SeeEmpty], Block);
  }

  /** The exception of `NoLostWakeUp` is real: for every capacity, a refused notification can leave
      the relay blocked in front of a queued packet with nothing to wake it. */
  lemma RefusedNotifyLosesWakeUp(capacity: nat)
    requires capacity > 0
    ensures exists actions :: WakeUpLost(Run(capacity, actions))
  {
    hide After, OnePacket, Next;
    var sleep := [SeeEmpty] + [Block];
    FallAsleep(capacity);
    RunThenAfter(capacity, [], sleep);
    assert [] + sleep == sleep;
    var asleep := Start(capacity).(consumer := Waiting);
    CaptureOne(asleep, false);
    RunThenAfter(capacity, sleep, OnePacket(false));
    assert WakeUpLost(Run(capacity, sleep + OnePacket(false)));
  }
}
