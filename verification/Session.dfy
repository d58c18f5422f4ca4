/** The relay's stateless authentication: response MACs under a rotating secret. Every clock reading of the
    source is a separate parameter; readings never go back. The MAC itself is a function parameter. */
module Session {
  import opened Bytes
  import opened Wire

  type Secret = s: seq<Byte> | |s| == 32 witness Zeros(32)
  type Time = nat

  datatype Retired = Retired(secret: Secret, at: Time)

  /** The current secret, when it came in, and the secret it replaced. */
  datatype Keys = Keys(current: Secret, since: Time, previous: Option<Retired>)

  /** `interval` between rotations (None never rotates) and the `grace` of a replaced secret,
      twice the query interval. */
  datatype Policy = Policy(interval: Option<nat>, grace: nat)

  /** One call of the rotation check: the clock is read for the age of the secret, then for the age of
      the previous one, then for the new rotation time. Generating a secret can fail. */
  datatype Tick = Tick(due: Time, checked: Time, now: Time, generated: Option<Secret>)

  predicate InOrder(t: Tick) { t.due <= t.checked <= t.now }

  /** The current secret has lasted the interval, the one before it is past its grace, and there is a new one. */
  predicate Due(k: Keys, policy: Policy, t: Tick) {
    && policy.interval.Some? && t.due >= k.since + policy.interval.value
    && (k.previous.Some? ==> t.checked > k.previous.value.at + policy.grace)
    && t.generated.Some?
  }

  function Rotate(k: Keys, policy: Policy, t: Tick): Keys {
    if Due(k, policy, t) then Keys(t.generated.value, t.now, Some(Retired(k.current, t.now))) else k
  }

  /** The secrets whose MACs are accepted at `now`. */
  predicate Live(k: Keys, policy: Policy, now: Time, s: Secret) {
    s == k.current || (k.previous.Some? && now - k.previous.value.at <= policy.grace && s == k.previous.value.secret)
  }

  /** The keyed hash over the sixteen address octets, the port and the nonce. */
  type MacFunction = (Secret, Octets16, Word16, Word32) -> Mac

  /** `response_mac_with_secret`: an IPv4 gateway is hashed in its IPv4-compatible form. */
  function ResponseMac(mac: MacFunction, s: Secret, ip: IpAddr, port: Word16, nonce: Word32): Mac {
    mac(s, FromIp(ip), port, nonce)
  }

  /** Some secret live at `now` produces `actual` for that endpoint and nonce. */
  ghost predicate Authentic(k: Keys, policy: Policy, mac: MacFunction, actual: Mac, ip: IpAddr, port: Word16,
                            nonce: Word32, now: Time) {
    exists s :: Live(k, policy, now, s) && mac(s, FromIp(ip), port, nonce) == actual
  }

  class RelaySecrets {
    var keys: Keys
    const policy: Policy

    constructor (secret: Secret, policy: Policy, now: Time)
      ensures keys == Keys(secret, now, None) && this.policy == policy
    {
      keys := Keys(secret, now, None);
      this.policy := policy;
    }

    /** The check of every datagram. It rotates exactly when a rotation is due, and whatever it does, no secret
        that is live at that moment stops being live. */
    method RotateSecretIfDue(t: Tick)
      modifies this
      ensures if Due(old(keys), policy, t)
              then keys == Keys(t.generated.value, t.now, Some(Retired(old(keys).current, t.now)))
              else keys == old(keys)
      ensures InOrder(t) ==> forall s :: Live(old(keys), policy, t.now, s) ==> Live(keys, policy, t.now, s)
    {
      if policy.interval.None? {
        return;
      }
      if t.due - keys.since < policy.interval.value {
        return;
      }
      if keys.previous.Some? && t.checked - keys.previous.value.at <= policy.grace {
        return;
      }
      if t.generated.None? {
        return;
      }
      keys := Keys(t.generated.value, t.now, Some(Retired(keys.current, t.now)));
    }

    /** A MAC is accepted exactly when some live secret produces it for that endpoint and nonce. */
    method ValidResponseMac(mac: MacFunction, actual: Mac, ip: IpAddr, port: Word16, nonce: Word32, now: Time)
      returns (valid: bool)
      ensures valid <==> exists s :: Live(keys, policy, now, s) && mac(s, FromIp(ip), port, nonce) == actual
    {
      if actual == ResponseMac(mac, keys.current, ip, port, nonce) {
        assert Live(keys, policy, now, keys.current);
        return true;
      }
      if keys.previous.None? || now - keys.previous.value.at > policy.grace {
        return false;
      }
      assert Live(keys, policy, now, keys.previous.value.secret);
      valid := actual == ResponseMac(mac, keys.previous.value.secret, ip, port, nonce);
    }
  }

  // ---- every run of rotations ----

  ghost predicate IsRun(ticks: seq<Tick>, from: Time, until: Time) {
    && from <= until
    && (ticks != [] ==> from <= ticks[0].due && InOrder(ticks[0]) && IsRun(ticks[1..], ticks[0].now, until))
  }

  function Run(k: Keys, policy: Policy, ticks: seq<Tick>): Keys
    decreases |ticks|
  {
    if ticks == [] then k else Run(Rotate(k, policy, ticks[0]), policy, ticks[1..])
  }

  /** `s` is still held: as the current secret, or as one replaced no earlier than `issued`. */
  ghost predicate Held(k: Keys, s: Secret, issued: Time) {
    s == k.current || (k.previous.Some? && k.previous.value.secret == s && k.previous.value.at >= issued)
  }

  lemma CurrentIsHeld(k: Keys, issued: Time)
    ensures Held(k, k.current, issued)
  {
  }

  /** A rotation check within the grace does not let go of a secret held since `issued`. */
  lemma RotationHolds(k: Keys, policy: Policy, s: Secret, issued: Time, t: Tick)
    requires Held(k, s, issued) && InOrder(t) && issued <= t.due && t.now <= issued + policy.grace
    ensures Held(Rotate(k, policy, t), s, issued)
  {
  }

  lemma HeldIsLive(k: Keys, policy: Policy, s: Secret, issued: Time, now: Time)
    requires Held(k, s, issued) && now <= issued + policy.grace
    ensures Live(k, policy, now, s)
  {
  }

  lemma {:induction false} StaysHeld(k: Keys, policy: Policy, s: Secret, issued: Time, ticks: seq<Tick>, from: Time,
                        until: Time)
    requires issued <= from && IsRun(ticks, from, until) && until <= issued + policy.grace
    requires Held(k, s, issued)
    ensures Held(Run(k, policy, ticks), s, issued)
    decreases |ticks|
  {
    if ticks != [] {
      var t := ticks[0];
      StaysHeld(Rotate(k, policy, t), policy, s, issued, ticks[1..], t.now, until);
    }
  }

  /** A response MAC stays acceptable for two query intervals after it was issued, however often the
      relay checks or performs a rotation in between and whatever the clock readings inside a check. */
  lemma IssuedMacAccepted(k: Keys, policy: Policy, issued: Time, ticks: seq<Tick>, now: Time)
    requires IsRun(ticks, issued, now) && now <= issued + policy.grace
    ensures Live(Run(k, policy, ticks), policy, now, k.current)
  {
    StaysHeld(k, policy, k.current, issued, ticks, issued, now);
  }

  /** A replaced secret that is never generated again is refused once its grace is over. */
  lemma {:induction false} RetiredSecretRefused(k: Keys, policy: Policy, ticks: seq<Tick>, s: Secret, retired: Time,
                        now: Time)
    requires k.current != s && (k.previous.Some? && k.previous.value.secret == s ==> k.previous.value.at == retired)
    requires forall i :: 0 <= i < |ticks| ==> ticks[i].generated != Some(s)
    requires now > retired + policy.grace
    ensures !Live(Run(k, policy, ticks), policy, now, s)
    decreases |ticks|
  {
    if ticks != [] {
      RetiredSecretRefused(Rotate(k, policy, ticks[0]), policy, ticks[1..], s, retired, now);
    }
  }

  /** Rotations are spaced: a rotation makes a new secret current only when the old one is at least the
      interval old, and no secret is dropped before its grace is over. */
  lemma RotationDropsOnlyExpired(k: Keys, policy: Policy, t: Tick)
    requires InOrder(t) && Rotate(k, policy, t) != k
    ensures policy.interval.Some? && t.now >= k.since + policy.interval.value
    ensures k.previous.Some? ==> t.now > k.previous.value.at + policy.grace
    ensures forall s :: Live(k, policy, t.now, s) ==> Live(Rotate(k, policy, t), policy, t.now, s)
  {
  }

  /** A due rotation ends the current secret: once the old one's successor is in and the grace is over, its
      MACs are refused for good. */
  lemma DueRotationEndsSecret(k: Keys, policy: Policy, t: Tick, ticks: seq<Tick>, now: Time)
    requires policy.interval.Some? && t.due >= k.since + policy.interval.value
    requires k.previous.Some? ==> t.checked > k.previous.value.at + policy.grace
    requires t.generated.Some? && t.generated.value != k.current
    requires forall i :: 0 <= i < |ticks| ==> ticks[i].generated != Some(k.current)
    requires now > t.now + policy.grace
    ensures !Live(Run(k, policy, [t] + ticks), policy, now, k.current)
  {
    assert ([t] + ticks)[1..] == ticks;
    RetiredSecretRefused(Rotate(k, policy, t), policy, ticks, k.current, t.now, now);
  }

  /** What goes into one MAC. */
  datatype Hashed = Hashed(secret: Secret, octets: Octets16, port: Word16, nonce: Word32)

  function HashOf(mac: MacFunction, h: Hashed): Mac { mac(h.secret, h.octets, h.port, h.nonce) }

  /** No two of the inputs collide under `mac`. */
  predicate Separates(mac: MacFunction, inputs: set<Hashed>) {
    forall a, b :: a in inputs && b in inputs && HashOf(mac, a) == HashOf(mac, b) ==> a == b
  }

  /** Within its lifetime a MAC is accepted for the address octets, port and nonce it was issued for, and, as far as
      the hash does not collide, for no others. */
  lemma IssuedForOneEndpoint(k: Keys, policy: Policy, mac: MacFunction, inputs: set<Hashed>, peer: SocketAddr,
                             nonce: Word32, other: SocketAddr, otherNonce: Word32, issued: Time, ticks: seq<Tick>,
                             now: Time)
    requires IsRun(ticks, issued, now) && now <= issued + policy.grace
    requires Separates(mac, inputs) && Hashed(k.current, FromIp(peer.ip), peer.port, nonce) in inputs
    requires forall s :: Live(Run(k, policy, ticks), policy, now, s) ==>
               Hashed(s, FromIp(other.ip), other.port, otherNonce) in inputs
    ensures Authentic(Run(k, policy, ticks), policy, mac, mac(k.current, FromIp(peer.ip), peer.port, nonce), other.ip,
                      other.port, otherNonce, now)
            <==> FromIp(other.ip) == FromIp(peer.ip) && other.port == peer.port && otherNonce == nonce
  {
    hide Run, IsRun, FromIp;
    IssuedMacAccepted(k, policy, issued, ticks, now);
    var end, actual := Run(k, policy, ticks), mac(k.current, FromIp(peer.ip), peer.port, nonce);
    if s :| Live(end, policy, now, s) && mac(s, FromIp(other.ip), other.port, otherNonce) == actual {
      assert Hashed(s, FromIp(other.ip), other.port, otherNonce) in inputs;
    }
  }

  /** The hash does not tell an IPv6 gateway from the IPv4 gateway its address form stands for. */
  lemma SameOctets(ip: IpAddr)
    ensures FromIp(TeardownIp(FromIp(ip))) == FromIp(ip)
  {
    var octets := FromIp(ip);
    if octets[..12] == Zeros(12) {
      assert octets == Zeros(12) + octets[12..];
    }
  }

  /** A Teardown that echoes the endpoint fields of its query is accepted for two query intervals, whatever the
      address. It names the gateway the query went to exactly when the address form is unambiguous; otherwise
      it is accepted for the IPv4 endpoint the form stands for, and that is the endpoint it removes. */
  lemma EchoedTeardown(k: Keys, policy: Policy, mac: MacFunction, peer: SocketAddr, nonce: Word32, issued: Time,
                       ticks: seq<Tick>, now: Time)
    requires IsRun(ticks, issued, now) && now <= issued + policy.grace
    ensures var response := ResponseMac(mac, k.current, peer.ip, peer.port, nonce);
            var named := TeardownIp(FromIp(peer.ip));
            && Authentic(Run(k, policy, ticks), policy, mac, response, named, peer.port, nonce, now)
            && (named == peer.ip <==> peer.ip.V4? || peer.ip.octets6[..12] != Zeros(12))
            && (named != peer.ip ==> named == V4(peer.ip.octets6[12..]))
  {
    TeardownNamesTheGateway(peer.ip);
    SameOctets(peer.ip);
    IssuedMacAccepted(k, policy, issued, ticks, now);
    assert Live(Run(k, policy, ticks), policy, now, k.current);
  }
}
