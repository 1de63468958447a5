/** The bounded limiter: three token buckets for each identity, in a table of fixed capacity whose
    idle entries are reclaimed only when it is full.

    The specification is a function on tables; the class below runs it in place. The module
    RateLimiterRefinement says when the bounded table behaves like one that never forgets. */
module RateLimiter {
  import opened TokenBuckets

  /** A 32-byte identity digest. */
  const DIGESTS: nat :=
    0x1_0000000000000000_0000000000000000_0000000000000000_0000000000000000
  type Digest = d: nat | d < DIGESTS witness 0

  datatype Surface = Control | Diagnostics | Webhook

  datatype RatePolicy = RatePolicy(
    control: BucketPolicy, diagnostics: BucketPolicy, webhook: BucketPolicy,
    maxTracked: nat, idleTtlSecs: nat)
  {
    /** What configuration validation guarantees. */
    predicate Valid() {
      && control.Valid() && diagnostics.Valid() && webhook.Valid()
      && 1 <= maxTracked <= 100_000
      && 1 <= idleTtlSecs <= 3_600
    }

    function For(s: Surface): BucketPolicy {
      match s
      case Control => control
      case Diagnostics => diagnostics
      case Webhook => webhook
    }

    function IdleTtl(): nat {
      idleTtlSecs * ONE
    }
  }

  datatype IdentityBuckets = IdentityBuckets(
    control: TokenBucket, diagnostics: TokenBucket, webhook: TokenBucket, lastSeen: int)
  {
    static function Fresh(p: RatePolicy, now: int): IdentityBuckets {
      IdentityBuckets(
        TokenBucket.Full(p.control, now), TokenBucket.Full(p.diagnostics, now),
        TokenBucket.Full(p.webhook, now), now)
    }

    function Bucket(s: Surface): TokenBucket {
      match s
      case Control => control
      case Diagnostics => diagnostics
      case Webhook => webhook
    }

    function With(s: Surface, b: TokenBucket): IdentityBuckets {
      match s
      case Control => this.(control := b)
      case Diagnostics => this.(diagnostics := b)
      case Webhook => this.(webhook := b)
    }

    predicate Valid(p: RatePolicy) {
      control.Valid(p.control) && diagnostics.Valid(p.diagnostics) && webhook.Valid(p.webhook)
    }

    /** Seen now, with one surface charged. */
    function Charged(p: RatePolicy, s: Surface, now: int): (e: IdentityBuckets)
      requires p.Valid() && Valid(p)
      ensures e.Valid(p) && e.lastSeen == now
      ensures forall other: Surface :: other != s ==> e.Bucket(other) == Bucket(other)
    {
      With(s, Bucket(s).Admit(p.For(s), now).0).(lastSeen := now)
    }
  }

  type Table = map<Digest, IdentityBuckets>

  predicate ValidTable(p: RatePolicy, t: Table) {
    forall id :: id in t ==> t[id].Valid(p)
  }

  datatype Request = Request(surface: Surface, identity: Digest, now: int)

  datatype Decision = Allowed | Limited(retryAfter: nat) | CapacityRefused(retryAfter: nat)

  /** Entries seen within the idle TTL. */
  function Retain(p: RatePolicy, t: Table, now: int): Table {
    map id | id in t && Elapsed(now, t[id].lastSeen) < p.IdleTtl() :: t[id]
  }

  /** Make room for `id` if that is allowed: reclaim when full, then insert if there is space. */
  function Reserve(p: RatePolicy, t: Table, id: Digest, now: int): Table {
    if id in t then t
    else
      var kept := if |t| >= p.maxTracked then Retain(p, t, now) else t;
      if |kept| < p.maxTracked then kept[id := IdentityBuckets.Fresh(p, now)] else kept
  }

  /** Mark a tracked identity as seen and charge one surface. */
  function Charge(p: RatePolicy, t: Table, r: Request): (Table, Decision)
    requires p.Valid() && ValidTable(p, t) && r.identity in t
  {
    var entry := t[r.identity];
    (t[r.identity := entry.Charged(p, r.surface, r.now)],
     match entry.Bucket(r.surface).Admit(p.For(r.surface), r.now).1
     case Admitted => Allowed
     case Wait(nanos) => Limited(RetryAfterSeconds(nanos)))
  }

  function CheckAt(p: RatePolicy, t: Table, r: Request): (Table, Decision)
    requires p.Valid() && ValidTable(p, t)
  {
    var reserved := Reserve(p, t, r.identity, r.now);
    if r.identity in reserved then Charge(p, reserved, r)
    else (reserved, CapacityRefused(Max(Min(p.idleTtlSecs, 60), 1)))
  }

  // ---- The table is bounded, and refuses exactly when it must ----

  lemma RetainShrinks(p: RatePolicy, t: Table, now: int)
    ensures |Retain(p, t, now)| <= |t|
    ensures Retain(p, t, now) != t ==> |Retain(p, t, now)| < |t|
  {
    var kept := Retain(p, t, now);
    var gone := t.Keys - kept.Keys;
    assert t.Keys == kept.Keys + gone;
    assert |t.Keys| == |kept.Keys| + |gone|;
    if gone == {} {
      assert kept == t;
    }
  }

  lemma ReserveBounded(p: RatePolicy, t: Table, id: Digest, now: int)
    requires |t| <= p.maxTracked
    ensures |Reserve(p, t, id, now)| <= p.maxTracked
  {
    RetainShrinks(p, t, now);
    if id !in t {
      var kept := if |t| >= p.maxTracked then Retain(p, t, now) else t;
      assert kept[id := IdentityBuckets.Fresh(p, now)].Keys == kept.Keys + {id};
    }
  }

  /** Every call keeps the table valid and within its capacity, whatever the clock does. */
  lemma CheckKeepsTable(p: RatePolicy, t: Table, r: Request)
    requires p.Valid() && ValidTable(p, t) && |t| <= p.maxTracked
    ensures ValidTable(p, CheckAt(p, t, r).0)
    ensures |CheckAt(p, t, r).0| <= p.maxTracked
  {
    ReserveBounded(p, t, r.identity, r.now);
    var reserved := Reserve(p, t, r.identity, r.now);
    if r.identity in reserved {
      assert CheckAt(p, t, r).0.Keys == reserved.Keys;
    }
  }

  /** A request is refused for capacity exactly when the table is full of other identities that
      were all seen within the idle TTL, and then nothing changes. */
  lemma CapacityRefusalExactly(p: RatePolicy, t: Table, r: Request)
    requires p.Valid() && ValidTable(p, t) && |t| <= p.maxTracked
    ensures CheckAt(p, t, r).1.CapacityRefused?
       <==> (|t| == p.maxTracked && r.identity !in t
             && forall id :: id in t ==> Elapsed(r.now, t[id].lastSeen) < p.IdleTtl())
    ensures CheckAt(p, t, r).1.CapacityRefused? ==> CheckAt(p, t, r).0 == t
  {
    RetainShrinks(p, t, r.now);
    if forall id :: id in t ==> Elapsed(r.now, t[id].lastSeen) < p.IdleTtl() {
      assert Retain(p, t, r.now) == t;
    } else {
      var id :| id in t && Elapsed(r.now, t[id].lastSeen) >= p.IdleTtl();
      assert id !in Retain(p, t, r.now);
    }
  }

  /** The limiter object: the table behind the mutex, updated in place by each call. */
  class ApiRateLimiter {
    const enabled: bool
    const policy: RatePolicy
    var identities: Table

    ghost predicate Valid()
      reads this
    {
      policy.Valid() && ValidTable(policy, identities) && |identities| <= policy.maxTracked
    }

    constructor (enabled: bool, policy: RatePolicy)
      requires policy.Valid()
      ensures Valid() && identities == map[]
      ensures this.enabled == enabled && this.policy == policy
    {
      this.enabled, this.policy, this.identities := enabled, policy, map[];
    }

    /** A disabled policy admits everything and keeps no state. */
    method Check(r: Request) returns (d: Decision)
      requires Valid()
      modifies this
      ensures Valid()
      ensures !enabled ==> d == Allowed && identities == old(identities)
      ensures enabled ==> (identities, d) == CheckAt(policy, old(identities), r)
    {
      if !enabled {
        return Allowed;
      }
      d := CheckLocked(r);
    }

    method CheckLocked(r: Request) returns (d: Decision)
      requires Valid()
      modifies this
      ensures Valid()
      ensures (identities, d) == CheckAt(policy, old(identities), r)
    {
      CheckKeepsTable(policy, identities, r);
      ReserveLocked(r.identity, r.now);
      if r.identity in identities {
        var entry := identities[r.identity].(lastSeen := r.now);
        var (bucket, a) := entry.Bucket(r.surface).Admit(policy.For(r.surface), r.now);
        identities := identities[r.identity := entry.With(r.surface, bucket)];
        d := match a
          case Admitted => Allowed
          case Wait(nanos) => Limited(RetryAfterSeconds(nanos));
      } else {
        d := CapacityRefused(Max(Min(policy.idleTtlSecs, 60), 1));
      }
    }

    /** Track a new identity, reclaiming idle ones only when the table is full. */
    method ReserveLocked(id: Digest, now: int)
      requires Valid()
      modifies this
      ensures identities == Reserve(policy, old(identities), id, now)
    {
      if id !in identities {
        if |identities| >= policy.maxTracked {
          identities := Retain(policy, identities, now);
        }
        if |identities| < policy.maxTracked {
          identities := identities[id := IdentityBuckets.Fresh(policy, now)];
        }
      }
    }
  }
}
