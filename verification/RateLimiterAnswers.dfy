/** What one call of the limiter answers and leaves, in the fields of the policy and of the entry, and
    that a surface of an identity is one token bucket of its own, whatever the other traffic. */
module RateLimiterAnswers {
  import opened TokenBuckets
  import opened RateLimiter
  import opened RateLimiterRefinement

  /** Tokens a bucket holds at `now`, written out. */
  function Found(policy: BucketPolicy, b: TokenBucket, now: int): int {
    Min(b.tokens + policy.rate * Elapsed(now, b.lastRefill), policy.burst * ONE)
  }

  /** The bucket after a call at `now`. */
  function Left(policy: BucketPolicy, b: TokenBucket, now: int): TokenBucket {
    TokenBucket(Found(policy, b, now) - (if Found(policy, b, now) >= ONE then ONE else 0), now)
  }

  /** Admitted exactly with a whole token; a rejection advertises one second. */
  function Answer(policy: BucketPolicy, b: TokenBucket, now: int): Decision {
    if Found(policy, b, now) >= ONE then Allowed else Limited(1)
  }

  lemma AdmitInFields(policy: BucketPolicy, b: TokenBucket, now: int)
    requires policy.Valid() && b.Valid(policy)
    ensures b.TokensAt(policy, now) == Found(policy, b, now)
    ensures b.Admit(policy, now).0 == Left(policy, b, now)
    ensures b.Admit(policy, now).1.Admitted? <==> Answer(policy, b, now) == Allowed
    ensures b.Admit(policy, now).1.Wait? ==>
      Limited(RetryAfterSeconds(b.Admit(policy, now).1.nanos)) == Answer(policy, b, now)
  {
    RefillIsProduct(policy.rate, Elapsed(now, b.lastRefill));
    RejectionAdvertisesOneSecond(b, policy, now);
  }

  /** A call for a tracked identity charges the bucket of its surface at the policy of that surface,
      marks the entry as seen, and touches nothing else. */
  lemma TrackedControl(p: RatePolicy, t: Table, id: Digest, now: int)
    requires p.Valid() && ValidTable(p, t) && id in t
    ensures CheckAt(p, t, Request(Control, id, now)).1 == Answer(p.control, t[id].control, now)
    ensures CheckAt(p, t, Request(Control, id, now)).0
         == t[id := t[id].(control := Left(p.control, t[id].control, now), lastSeen := now)]
  {
    AdmitInFields(p.control, t[id].control, now);
  }

  lemma TrackedDiagnostics(p: RatePolicy, t: Table, id: Digest, now: int)
    requires p.Valid() && ValidTable(p, t) && id in t
    ensures CheckAt(p, t, Request(Diagnostics, id, now)).1 == Answer(p.diagnostics, t[id].diagnostics, now)
    ensures CheckAt(p, t, Request(Diagnostics, id, now)).0
         == t[id := t[id].(diagnostics := Left(p.diagnostics, t[id].diagnostics, now), lastSeen := now)]
  {
    AdmitInFields(p.diagnostics, t[id].diagnostics, now);
  }

  lemma TrackedWebhook(p: RatePolicy, t: Table, id: Digest, now: int)
    requires p.Valid() && ValidTable(p, t) && id in t
    ensures CheckAt(p, t, Request(Webhook, id, now)).1 == Answer(p.webhook, t[id].webhook, now)
    ensures CheckAt(p, t, Request(Webhook, id, now)).0
         == t[id := t[id].(webhook := Left(p.webhook, t[id].webhook, now), lastSeen := now)]
  {
    AdmitInFields(p.webhook, t[id].webhook, now);
  }

  /** The entry of an identity seen for the first time at `now`. */
  function NewEntry(p: RatePolicy, now: int): IdentityBuckets {
    IdentityBuckets(TokenBucket(p.control.burst * ONE, now), TokenBucket(p.diagnostics.burst * ONE, now),
      TokenBucket(p.webhook.burst * ONE, now), now)
  }

  lemma NewIsAllowed(p: RatePolicy, kept: Table, r: Request)
    requires p.Valid() && ValidTable(p, kept)
    ensures ValidTable(p, kept[r.identity := NewEntry(p, r.now)])
    ensures CheckAt(p, kept[r.identity := NewEntry(p, r.now)], r).1 == Allowed
  {
    var t := kept[r.identity := NewEntry(p, r.now)];
    match r.surface
    case Control => TrackedControl(p, t, r.identity, r.now);
    case Diagnostics => TrackedDiagnostics(p, t, r.identity, r.now);
    case Webhook => TrackedWebhook(p, t, r.identity, r.now);
  }

  /** Those a new identity finds: all of them if there is room, and otherwise those seen less than the
      idle TTL ago. */
  function Kept(p: RatePolicy, t: Table, now: int): Table {
    if |t| < p.maxTracked then t
    else map id | id in t && now - t[id].lastSeen < p.idleTtlSecs * 1_000_000_000 :: t[id]
  }

  lemma KeptIsRetained(p: RatePolicy, t: Table, r: Request)
    requires p.Valid() && r.identity !in t
    ensures Reserve(p, t, r.identity, r.now) ==
      var kept := Kept(p, t, r.now); if |kept| < p.maxTracked then kept[r.identity := NewEntry(p, r.now)] else kept
  {
    assert IdentityBuckets.Fresh(p, r.now) == NewEntry(p, r.now);
    if |t| >= p.maxTracked {
      assert Retain(p, t, r.now) == Kept(p, t, r.now);
    }
  }

  /** A new identity is admitted with full buckets beside those that are kept, if that leaves room. If
      not, nothing changes and the call is refused for the idle TTL, but for a minute at most. */
  lemma NewcomerExactly(p: RatePolicy, t: Table, r: Request)
    requires p.Valid() && ValidTable(p, t) && |t| <= p.maxTracked && r.identity !in t
    ensures var kept := Kept(p, t, r.now);
      if |kept| < p.maxTracked then
        CheckAt(p, t, r) == CheckAt(p, kept[r.identity := NewEntry(p, r.now)], r) && CheckAt(p, t, r).1 == Allowed
      else
        CheckAt(p, t, r) == (t, CapacityRefused(if p.idleTtlSecs < 60 then p.idleTtlSecs else 60))
  {
    KeptIsRetained(p, t, r);
    NewIsAllowed(p, Kept(p, t, r.now), r);
    CapacityRefusalExactly(p, t, r);
  }

  /** The condition of the refinement for ordered times, in the configuration's own fields. */
  lemma CompliantInFields(p: RatePolicy)
    requires p.Valid()
    ensures var ttl := if p.maxTracked == 1 then 2 * p.idleTtlSecs else p.idleTtlSecs;
      Compliant(p, 0) <==>
        && p.control.burst <= p.control.rate * ttl
        && p.diagnostics.burst <= p.diagnostics.rate * ttl
        && p.webhook.burst <= p.webhook.rate * ttl
  {
    ReplenishesInSeconds(p, Control, 0);
    ReplenishesInSeconds(p, Diagnostics, 0);
    ReplenishesInSeconds(p, Webhook, 0);
  }

  /** The bound on a window, for each surface at its own burst and rate. */
  lemma {:induction false} WindowBoundInFields(p: RatePolicy, d: nat, before: seq<Request>, window: seq<Request>, id: Digest)
    requires p.Valid() && Compliant(p, d) && window != [] && Disorder(d, before + window)
    ensures var t, moved := Run(p, map[], before), Advance(window[0].now, window[1..]);
      && AllowedCount(p, t, window, id, Control) * ONE <= p.control.burst * ONE + p.control.rate * moved
      && AllowedCount(p, t, window, id, Diagnostics) * ONE <= p.diagnostics.burst * ONE + p.diagnostics.rate * moved
      && AllowedCount(p, t, window, id, Webhook) * ONE <= p.webhook.burst * ONE + p.webhook.rate * moved
  {
    LimiterWindowBound(p, d, before, window, id, Control);
    LimiterWindowBound(p, d, before, window, id, Diagnostics);
    LimiterWindowBound(p, d, before, window, id, Webhook);
  }

  // ---- One surface of one identity is a bucket of its own ----

  /** The times at which an identity asks on one surface and is not refused for capacity. */
  function Asked(p: RatePolicy, t: Table, reqs: seq<Request>, id: Digest, s: Surface): seq<int>
    requires p.Valid() && ValidTable(p, t) && |t| <= p.maxTracked
    decreases |reqs|
  {
    if reqs == [] then []
    else
      var r := reqs[0];
      var (t', a) := CheckAt(p, t, r);
      CheckKeepsTable(p, t, r);
      (if Uses(r, id, s) && !a.CapacityRefused? then [r.now] else [])
      + Asked(p, t', reqs[1..], id, s)
  }

  /** The bucket of one surface; a missing identity stands for a full one. */
  function BucketOf(p: RatePolicy, u: Table, id: Digest, s: Surface): (b: TokenBucket)
    requires p.Valid() && ValidTable(p, u)
    ensures b.Valid(p.For(s)) && p.For(s).Valid()
  {
    if id in u then u[id].Bucket(s) else TokenBucket.Full(p.For(s), 0)
  }

  /** Since when a full bucket is full makes no difference. */
  lemma {:induction false} FullSinceAnyTime(policy: BucketPolicy, a: TokenBucket, b: TokenBucket, times: seq<int>)
    requires policy.Valid() && a.tokens == b.tokens == policy.Cap()
    ensures Admissions(a, policy, times) == Admissions(b, policy, times)
  {
    if times != [] {
      FullBucketHolds(policy, a, times[0]);
      FullBucketHolds(policy, b, times[0]);
      assert a.Admit(policy, times[0]) == b.Admit(policy, times[0]);
    }
  }

  /** Two buckets that admit alike at any times from now on. */
  ghost predicate Equivalent(policy: BucketPolicy, a: TokenBucket, b: TokenBucket)
    requires policy.Valid() && a.Valid(policy) && b.Valid(policy)
  {
    forall times: seq<int> :: Admissions(a, policy, times) == Admissions(b, policy, times)
  }

  lemma FullIsEquivalent(policy: BucketPolicy, a: TokenBucket, b: TokenBucket)
    requires policy.Valid() && a.tokens == b.tokens == policy.Cap()
    ensures Equivalent(policy, a, b)
  {
    forall times: seq<int> ensures Admissions(a, policy, times) == Admissions(b, policy, times) {
      FullSinceAnyTime(policy, a, b, times);
    }
  }

  /** Tracking an identity that was missing gives it full buckets. */
  lemma TrackedEquivalent(p: RatePolicy, u: Table, newcomer: Digest, now: int, id: Digest, s: Surface)
    requires p.Valid() && ValidTable(p, u) && ValidTable(p, Track(p, u, newcomer, now))
    ensures Equivalent(p.For(s), BucketOf(p, u, id, s), BucketOf(p, Track(p, u, newcomer, now), id, s))
    ensures BucketOf(p, u, id, s).Admit(p.For(s), now) == BucketOf(p, Track(p, u, newcomer, now), id, s).Admit(p.For(s), now)
  {
    var policy, a, b := p.For(s), BucketOf(p, u, id, s), BucketOf(p, Track(p, u, newcomer, now), id, s);
    if id == newcomer && id !in u {
      FullIsEquivalent(policy, a, b);
      FullBucketHolds(policy, a, now);
      FullBucketHolds(policy, b, now);
    }
  }

  predicate Uses(r: Request, id: Digest, s: Surface) {
    r.identity == id && r.surface == s
  }

  /** A charge uses the bucket of its identity and surface, and no other. */
  lemma ChargeUses(p: RatePolicy, u: Table, r: Request, id: Digest, s: Surface)
    requires p.Valid() && ValidTable(p, u) && r.identity in u
    ensures ValidTable(p, Charge(p, u, r).0)
    ensures BucketOf(p, Charge(p, u, r).0, id, s)
         == if Uses(r, id, s) then BucketOf(p, u, id, s).Admit(p.For(s), r.now).0 else BucketOf(p, u, id, s)
    ensures Uses(r, id, s) ==> (Charge(p, u, r).1 == Allowed <==> BucketOf(p, u, id, s).Admit(p.For(s), r.now).1.Admitted?)
  {
    ChargeFrame(p, u, r);
  }

  /** What the unbounded limiter does to one bucket in a call that the bounded one answers with `a`. */
  lemma FollowsUses(p: RatePolicy, u: Table, r: Request, a: Decision, u': Table, id: Digest, s: Surface)
    requires p.Valid() && ValidTable(p, u) && Follows(p, u, r, a, u')
    ensures ValidTable(p, u')
    ensures var b := BucketOf(p, u, id, s);
      if Uses(r, id, s) && !a.CapacityRefused? then
        && (a == Allowed <==> b.Admit(p.For(s), r.now).1.Admitted?)
        && BucketOf(p, u', id, s) == b.Admit(p.For(s), r.now).0
      else Equivalent(p.For(s), b, BucketOf(p, u', id, s))
  {
    if !a.CapacityRefused? {
      TrackIsValid(p, u, r.identity, r.now);
      TrackedEquivalent(p, u, r.identity, r.now, id, s);
      ChargeUses(p, Track(p, u, r.identity, r.now), r, id, s);
    }
  }

  lemma {:induction false} LoneBucketFrom(
    p: RatePolicy, d: nat, t: Table, u: Table, reqs: seq<Request>, id: Digest, s: Surface, hi: int)
    requires p.Valid() && Compliant(p, d) && Simulates(p, d, t, u, hi) && Within(d, hi, reqs)
    ensures AllowedCount(p, t, reqs, id, s) == Admissions(BucketOf(p, u, id, s), p.For(s), Asked(p, t, reqs, id, s))
    decreases |reqs|
  {
    if reqs != [] {
      var r := reqs[0];
      var a, u' := SimulatedCheck(p, d, t, u, r, hi);
      LoneBucketFrom(p, d, CheckAt(p, t, r).0, u', reqs[1..], id, s, Max(hi, r.now));
      FollowsUses(p, u, r, a, u', id, s);
      FirstAsked(p, t, reqs, id, s, BucketOf(p, u, id, s), BucketOf(p, u', id, s));
    }
  }

  /** The first call counts if it asks the bucket, and then the rest follows. */
  lemma {:induction false} FirstAsked(
    p: RatePolicy, t: Table, reqs: seq<Request>, id: Digest, s: Surface, b: TokenBucket, b': TokenBucket)
    requires p.Valid() && ValidTable(p, t) && |t| <= p.maxTracked && reqs != []
    requires ValidTable(p, CheckAt(p, t, reqs[0]).0) && |CheckAt(p, t, reqs[0]).0| <= p.maxTracked
    requires p.For(s).Valid() && b.Valid(p.For(s)) && b'.Valid(p.For(s))
    requires var r, a := reqs[0], CheckAt(p, t, reqs[0]).1;
      if Uses(r, id, s) && !a.CapacityRefused? then
        (a == Allowed <==> b.Admit(p.For(s), r.now).1.Admitted?) && b' == b.Admit(p.For(s), r.now).0
      else Equivalent(p.For(s), b, b')
    requires var t' := CheckAt(p, t, reqs[0]).0;
      AllowedCount(p, t', reqs[1..], id, s) == Admissions(b', p.For(s), Asked(p, t', reqs[1..], id, s))
    ensures AllowedCount(p, t, reqs, id, s) == Admissions(b, p.For(s), Asked(p, t, reqs, id, s))
  {
    var r, rest := reqs[0], Asked(p, CheckAt(p, t, reqs[0]).0, reqs[1..], id, s);
    assert ([r.now] + rest)[1..] == rest;
    assert [] + rest == rest;
  }

  /** Under a compliant policy, what an identity is admitted on one surface is what one token bucket of
      that surface's policy admits at the times it asks, whatever the rest of the traffic and however
      often the identity was reclaimed. */
  lemma {:induction false} LoneBucket(p: RatePolicy, d: nat, reqs: seq<Request>, id: Digest, s: Surface)
    requires p.Valid() && Compliant(p, d) && Disorder(d, reqs)
    ensures p.For(s).Valid()
    ensures AllowedCount(p, map[], reqs, id, s)
         == Admissions(TokenBucket.Full(p.For(s), 0), p.For(s), Asked(p, map[], reqs, id, s))
  {
    assert p.For(s).Valid();
    if reqs != [] {
      assert Simulates(p, d, map[], map[], reqs[0].now);
      LoneBucketFrom(p, d, map[], map[], reqs, id, s, reqs[0].now);
    }
  }
}
