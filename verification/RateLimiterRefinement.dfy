/** The bounded limiter against the one it stands for: a limiter that tracks every identity for ever.

    A capacity refusal has no counterpart in the unbounded limiter, so that limiter is fed only the
    requests the bounded one answered. A request takes its time before it takes the lock, so times may
    come out of order; `d` bounds by how much, in nanoseconds. The two limiters give the same answers on
    every such run exactly when a reclaimed bucket is always full again before its identity can return. */
module RateLimiterRefinement {
  import opened TokenBuckets
  import opened RateLimiter

  /** The same call on a table with no capacity: a missing identity is always inserted. */
  function UnboundedCheck(p: RatePolicy, t: Table, r: Request): (Table, Decision)
    requires p.Valid() && ValidTable(p, t)
  {
    Charge(p, if r.identity in t then t else t[r.identity := IdentityBuckets.Fresh(p, r.now)], r)
  }

  /** No request is more than `d` behind the latest one before it, `hi` at first. */
  predicate Within(d: nat, hi: int, reqs: seq<Request>)
    decreases |reqs|
  {
    reqs == [] || (hi - d <= reqs[0].now && Within(d, Max(hi, reqs[0].now), reqs[1..]))
  }

  predicate Disorder(d: nat, reqs: seq<Request>) {
    reqs == [] || Within(d, reqs[0].now, reqs)
  }

  /** Every answer that is not a capacity refusal is the unbounded limiter's answer. */
  predicate SameAnswers(p: RatePolicy, t: Table, u: Table, reqs: seq<Request>)
    requires p.Valid() && ValidTable(p, t) && ValidTable(p, u) && |t| <= p.maxTracked
    decreases |reqs|
  {
    reqs == [] ||
    var (t', d) := CheckAt(p, t, reqs[0]);
    CheckKeepsTable(p, t, reqs[0]);
    if d.CapacityRefused? then SameAnswers(p, t', u, reqs[1..])
    else
      var (u', e) := UnboundedCheck(p, u, reqs[0]);
      d == e && SameAnswers(p, t', u', reqs[1..])
  }

  /** A reclaimed identity cannot return before this many idle TTLs: one when another slot may be
      free, two when the only slot is held by the identity that displaced it. */
  function Absence(p: RatePolicy): nat {
    if p.maxTracked == 1 then 2 else 1
  }

  /** The least time a reclaimed bucket goes unused, with times out of order by up to `d`: each idle TTL
      of absence may be measured short by `d`, and so may the bucket's own last refill. */
  function Span(p: RatePolicy, d: nat): int {
    Absence(p) * p.IdleTtl() - (Absence(p) + 1) * d
  }

  predicate Replenishes(p: RatePolicy, s: Surface, d: nat) {
    Span(p, d) >= 0 && p.For(s).Cap() <= Refill(p.For(s).rate, Span(p, d))
  }

  /** The condition as an inequality; with ordered times, in the configuration's own units. */
  lemma ReplenishesInSeconds(p: RatePolicy, s: Surface, d: nat)
    requires p.Valid()
    ensures Replenishes(p, s, d) <==> p.For(s).burst * ONE <= p.For(s).rate * Span(p, d)
    ensures Replenishes(p, s, 0) <==> p.For(s).burst <= p.For(s).rate * p.idleTtlSecs * Absence(p)
  {
    assert p.For(s).Valid();
    InNanoseconds(p, s, d);
    InNanoseconds(p, s, 0);
    MulSwap(p.For(s).rate, Absence(p), p.idleTtlSecs, ONE);
  }

  lemma InNanoseconds(p: RatePolicy, s: Surface, d: nat)
    requires p.For(s).Valid()
    ensures Replenishes(p, s, d) <==> p.For(s).burst * ONE <= p.For(s).rate * Span(p, d)
  {
    if Span(p, d) >= 0 {
      RefillIsProduct(p.For(s).rate, Span(p, d));
    } else {
      MulAtLeast(p.For(s).rate, Span(p, d), -1);
    }
  }

  predicate Compliant(p: RatePolicy, d: nat) {
    Replenishes(p, Control, d) && Replenishes(p, Diagnostics, d) && Replenishes(p, Webhook, d)
  }

  // ---- Sufficiency: a simulation ----

  predicate IsFull(p: RatePolicy, s: Surface, b: TokenBucket, now: int) {
    b.TokensAt(p.For(s), now) == p.For(s).Cap()
  }

  predicate AllFull(p: RatePolicy, e: IdentityBuckets, now: int) {
    forall s: Surface :: IsFull(p, s, e.Bucket(s), now)
  }

  /** Two buckets no call at `low` or later can tell apart. */
  predicate Alike(p: RatePolicy, s: Surface, a: TokenBucket, b: TokenBucket, low: int) {
    a == b || (IsFull(p, s, a, low) && IsFull(p, s, b, low))
  }

  predicate AlikeEntries(p: RatePolicy, d: nat, a: IdentityBuckets, b: IdentityBuckets, hi: int) {
    && a.lastSeen <= hi
    && RefilledBy(b, a.lastSeen + d)
    && forall s: Surface :: Alike(p, s, a.Bucket(s), b.Bucket(s), hi - d)
  }

  predicate RefilledBy(e: IdentityBuckets, now: int) {
    forall s: Surface :: e.Bucket(s).lastRefill <= now
  }

  /** No request made when the only slot has opened, nor any after it, is earlier than this. */
  function Opening(p: RatePolicy, d: nat, held: IdentityBuckets, low: int): int {
    Max(low, Min(low, held.lastSeen) + p.IdleTtl() - d)
  }

  /** An identity the bounded table has dropped is full again by the time it could come back. */
  predicate ForgottenFull(p: RatePolicy, d: nat, t: Table, e: IdentityBuckets, low: int) {
    if p.maxTracked == 1 && t != map[] then
      forall k :: k in t ==> AllFull(p, e, Opening(p, d, t[k], low))
    else
      AllFull(p, e, low)
  }

  /** What the two tables hold of one identity. */
  predicate Matched(p: RatePolicy, d: nat, t: Table, u: Table, id: Digest, hi: int) {
    && (id in u ==> RefilledBy(u[id], hi))
    && (id in t ==> id in u && AlikeEntries(p, d, t[id], u[id], hi))
    && (id in u && id !in t ==> ForgottenFull(p, d, t, u[id], hi - d))
  }

  /** `hi` is the latest time so far, so no later call comes before `hi - d`. */
  ghost predicate Simulates(p: RatePolicy, d: nat, t: Table, u: Table, hi: int) {
    && ValidTable(p, t) && ValidTable(p, u) && |t| <= p.maxTracked
    && forall id: Digest :: Matched(p, d, t, u, id, hi)
  }

  lemma FullStaysFull(p: RatePolicy, s: Surface, b: TokenBucket, now: int, later: int)
    requires IsFull(p, s, b, now) && now <= later
    ensures IsFull(p, s, b, later)
  {
    RefillGrows(p.For(s).rate, Elapsed(now, b.lastRefill), Elapsed(later, b.lastRefill));
  }

  lemma AllFullStays(p: RatePolicy, e: IdentityBuckets, now: int, later: int)
    requires AllFull(p, e, now) && now <= later
    ensures AllFull(p, e, later)
  {
    forall s: Surface ensures IsFull(p, s, e.Bucket(s), later) {
      FullStaysFull(p, s, e.Bucket(s), now, later);
    }
  }

  lemma AlikeLater(p: RatePolicy, d: nat, a: IdentityBuckets, b: IdentityBuckets, hi: int, later: int)
    requires AlikeEntries(p, d, a, b, hi) && hi <= later
    ensures AlikeEntries(p, d, a, b, later)
  {
    forall s: Surface ensures Alike(p, s, a.Bucket(s), b.Bucket(s), later - d) {
      assert Alike(p, s, a.Bucket(s), b.Bucket(s), hi - d);
      if a.Bucket(s) != b.Bucket(s) {
        FullStaysFull(p, s, a.Bucket(s), hi - d, later - d);
        FullStaysFull(p, s, b.Bucket(s), hi - d, later - d);
      }
    }
  }

  lemma ForgottenLater(p: RatePolicy, d: nat, t: Table, e: IdentityBuckets, low: int, later: int)
    requires ForgottenFull(p, d, t, e, low) && low <= later
    ensures ForgottenFull(p, d, t, e, later)
  {
    if p.maxTracked == 1 && t != map[] {
      forall k | k in t ensures AllFull(p, e, Opening(p, d, t[k], later)) {
        AllFullStays(p, e, Opening(p, d, t[k], low), Opening(p, d, t[k], later));
      }
    } else {
      AllFullStays(p, e, low, later);
    }
  }

  lemma MatchedLater(p: RatePolicy, d: nat, t: Table, u: Table, id: Digest, hi: int, later: int)
    requires Matched(p, d, t, u, id, hi) && hi <= later
    ensures Matched(p, d, t, u, id, later)
  {
    if id in t {
      AlikeLater(p, d, t[id], u[id], hi, later);
    } else if id in u {
      ForgottenLater(p, d, t, u[id], hi - d, later - d);
    }
  }

  lemma SimulatesLater(p: RatePolicy, d: nat, t: Table, u: Table, hi: int, later: int)
    requires Simulates(p, d, t, u, hi) && hi <= later
    ensures Simulates(p, d, t, u, later)
  {
    forall id: Digest ensures Matched(p, d, t, u, id, later) {
      MatchedLater(p, d, t, u, id, hi, later);
    }
  }

  /** Every bucket of an entry that has not been used for the span is full again, if a burst refills in it. */
  lemma IdleRefills(p: RatePolicy, d: nat, e: IdentityBuckets, now: int)
    requires p.Valid() && Compliant(p, d) && e.Valid(p)
    requires forall s: Surface :: e.Bucket(s).lastRefill + Span(p, d) <= now
    ensures AllFull(p, e, now)
  {
    forall s: Surface ensures IsFull(p, s, e.Bucket(s), now) {
      var b := e.Bucket(s);
      assert Replenishes(p, s, d) && b.Valid(p.For(s));
      RefillGrows(p.For(s).rate, Span(p, d), Elapsed(now, b.lastRefill));
    }
  }

  lemma MulSwap(a: int, b: int, c: int, d: int)
    ensures a * (b * (c * d)) == (a * c * b) * d
  {
  }

  lemma FreshIsFull(p: RatePolicy, now: int, low: int)
    requires p.Valid()
    ensures IdentityBuckets.Fresh(p, now).Valid(p)
    ensures AllFull(p, IdentityBuckets.Fresh(p, now), low) && RefilledBy(IdentityBuckets.Fresh(p, now), now)
  {
  }

  /** A fresh entry stands for any entry that is full, so for a forgotten one that returns. */
  lemma FreshStandsForFull(p: RatePolicy, d: nat, e: IdentityBuckets, now: int, hi: int)
    requires p.Valid() && hi - d <= now <= hi && RefilledBy(e, hi) && AllFull(p, e, hi - d)
    ensures AlikeEntries(p, d, IdentityBuckets.Fresh(p, now), e, hi)
  {
    FreshIsFull(p, now, hi - d);
    forall s: Surface ensures Alike(p, s, IdentityBuckets.Fresh(p, now).Bucket(s), e.Bucket(s), hi - d) {
      assert IsFull(p, s, e.Bucket(s), hi - d);
      assert IsFull(p, s, IdentityBuckets.Fresh(p, now).Bucket(s), hi - d);
    }
  }

  /** Being full when the only slot can open again, or at once if there are others, is what a dropped
      identity owes after a newcomer has been inserted. */
  lemma FullOnceSlotOpens(p: RatePolicy, d: nat, t: Table, id: Digest, e: IdentityBuckets, low: int)
    requires t.Keys == {id} && low <= t[id].lastSeen
    requires AllFull(p, e, if p.maxTracked == 1 then Max(low, low + p.IdleTtl() - d) else low)
    ensures ForgottenFull(p, d, t, e, low)
  {
  }

  lemma FullIsForgottenFull(p: RatePolicy, d: nat, id: Digest, e: IdentityBuckets, now: int, low: int)
    requires AllFull(p, e, low) && low <= now
    ensures ForgottenFull(p, d, map[id := IdentityBuckets.Fresh(p, now)], e, low)
  {
    AllFullStays(p, e, low, Max(low, low + p.IdleTtl() - d));
    FullOnceSlotOpens(p, d, map[id := IdentityBuckets.Fresh(p, now)], id, e, low);
  }

  /** What the unbounded table holds once `id` has been inserted if it was missing. */
  function Track(p: RatePolicy, u: Table, id: Digest, now: int): Table {
    if id in u then u else u[id := IdentityBuckets.Fresh(p, now)]
  }

  /** A call at `now`, when the latest call so far, this one included, was at `hi`. */
  predicate Timely(d: nat, now: int, hi: int) {
    hi - d <= now <= hi
  }

  /** An entry dropped for idleness is full again before it can return. */
  lemma ReclaimedIsForgottenFull(p: RatePolicy, d: nat, t: Table, u: Table, id: Digest, gone: Digest, now: int, hi: int)
    requires p.Valid() && Compliant(p, d) && ValidTable(p, u) && Matched(p, d, t, u, gone, hi) && Timely(d, now, hi)
    requires id !in t && gone in t && gone !in Retain(p, t, now)
    ensures ForgottenFull(p, d, map[id := IdentityBuckets.Fresh(p, now)], u[gone], hi - d)
  {
    var low := hi - d;
    IdleRefills(p, d, u[gone], if p.maxTracked == 1 then low + p.IdleTtl() - d else low);
    if p.maxTracked == 1 {
      AllFullStays(p, u[gone], low + p.IdleTtl() - d, Max(low, low + p.IdleTtl() - d));
    }
    FullOnceSlotOpens(p, d, map[id := IdentityBuckets.Fresh(p, now)], id, u[gone], low);
  }

  /** A forgotten identity that returns, or a new one, is matched by a fresh entry. */
  lemma MatchedFresh(p: RatePolicy, d: nat, t: Table, u: Table, id: Digest, now: int, hi: int)
    requires p.Valid() && Timely(d, now, hi) && id in t && t[id] == IdentityBuckets.Fresh(p, now)
    requires id in u ==> RefilledBy(u[id], hi) && AllFull(p, u[id], hi - d)
    ensures Matched(p, d, t, Track(p, u, id, now), id, hi)
  {
    FreshIsFull(p, now, hi - d);
    FreshStandsForFull(p, d, Track(p, u, id, now)[id], now, hi);
  }

  lemma MatchedAsBefore(p: RatePolicy, d: nat, t: Table, u: Table, t': Table, u': Table, k: Digest, hi: int)
    requires Matched(p, d, t, u, k, hi)
    requires (k in t <==> k in t') && (k in t ==> t'[k] == t[k]) && (k in u <==> k in u') && (k in u ==> u'[k] == u[k])
    requires k in u && k !in t ==> ForgottenFull(p, d, t', u[k], hi - d)
    ensures Matched(p, d, t', u', k, hi)
  {
  }

  /** An insertion beside others, or into an empty table, keeps what is owed to the forgotten. */
  lemma ForgottenAfterInsert(p: RatePolicy, d: nat, t: Table, id: Digest, e: IdentityBuckets, now: int, low: int)
    requires p.maxTracked >= 1 && |t| < p.maxTracked && low <= now && ForgottenFull(p, d, t, e, low)
    ensures AllFull(p, e, low) && ForgottenFull(p, d, t[id := IdentityBuckets.Fresh(p, now)], e, low)
  {
    if p.maxTracked == 1 {
      assert t == map[];
      FullIsForgottenFull(p, d, id, e, now, low);
    }
  }

  lemma InsertFits(p: RatePolicy, t: Table, id: Digest, now: int)
    requires p.Valid() && ValidTable(p, t) && |t| < p.maxTracked
    ensures ValidTable(p, t[id := IdentityBuckets.Fresh(p, now)]) && |t[id := IdentityBuckets.Fresh(p, now)]| <= p.maxTracked
  {
    var t' := t[id := IdentityBuckets.Fresh(p, now)];
    FreshIsFull(p, now, now);
    assert t'.Keys == t.Keys + {id} && |t'| == |t'.Keys|;
  }

  lemma TrackIsValid(p: RatePolicy, u: Table, id: Digest, now: int)
    requires p.Valid() && ValidTable(p, u)
    ensures ValidTable(p, Track(p, u, id, now))
  {
    FreshIsFull(p, now, now);
  }

  lemma SimulatesInsert(p: RatePolicy, d: nat, t: Table, u: Table, id: Digest, now: int, hi: int)
    requires p.Valid() && Simulates(p, d, t, u, hi) && Timely(d, now, hi) && id !in t && |t| < p.maxTracked
    ensures Simulates(p, d, t[id := IdentityBuckets.Fresh(p, now)], Track(p, u, id, now), hi)
  {
    var t', u' := t[id := IdentityBuckets.Fresh(p, now)], Track(p, u, id, now);
    InsertFits(p, t, id, now);
    TrackIsValid(p, u, id, now);
    forall k: Digest ensures Matched(p, d, t', u', k, hi) {
      assert Matched(p, d, t, u, k, hi);
      if k in u && k !in t {
        ForgottenAfterInsert(p, d, t, id, u[k], now, hi - d);
      }
      if k == id {
        MatchedFresh(p, d, t', u, id, now, hi);
      } else {
        MatchedAsBefore(p, d, t, u, t', u', k, hi);
      }
    }
  }

  /** Reclaiming keeps the simulation when more than one identity can be tracked. */
  lemma SimulatesRetain(p: RatePolicy, d: nat, t: Table, u: Table, id: Digest, now: int, hi: int)
    requires p.Valid() && Compliant(p, d) && Simulates(p, d, t, u, hi) && Timely(d, now, hi)
    requires id !in t && p.maxTracked > 1
    ensures Simulates(p, d, Retain(p, t, now), u, hi)
  {
    RetainShrinks(p, t, now);
    forall k: Digest ensures Matched(p, d, Retain(p, t, now), u, k, hi) {
      assert Matched(p, d, t, u, k, hi);
      if k in t && k !in Retain(p, t, now) {
        ReclaimedIsForgottenFull(p, d, t, u, id, k, now, hi);
      }
    }
  }

  /** With a single slot, whoever was forgotten before is full when the slot opens. */
  lemma FullWhenOpened(p: RatePolicy, d: nat, t: Table, u: Table, held: Digest, k: Digest, now: int, hi: int)
    requires p.Valid() && Matched(p, d, t, u, k, hi) && Timely(d, now, hi) && p.maxTracked == 1
    requires held in t && held !in Retain(p, t, now) && k in u && k !in t
    ensures AllFull(p, u[k], hi - d)
  {
    assert Opening(p, d, t[held], hi - d) == hi - d;
  }

  lemma MatchedReplace(p: RatePolicy, d: nat, t: Table, u: Table, id: Digest, held: Digest, k: Digest, now: int, hi: int)
    requires p.Valid() && Compliant(p, d) && ValidTable(p, u) && Matched(p, d, t, u, k, hi) && Timely(d, now, hi)
    requires id !in t && p.maxTracked == 1 && held in t && Retain(p, t, now) == map[]
    ensures Matched(p, d, map[id := IdentityBuckets.Fresh(p, now)], Track(p, u, id, now), k, hi)
  {
    var t' := map[id := IdentityBuckets.Fresh(p, now)];
    assert held !in Retain(p, t, now) && k !in Retain(p, t, now);
    if k in u && k !in t {
      FullWhenOpened(p, d, t, u, held, k, now, hi);
      FullIsForgottenFull(p, d, id, u[k], now, hi - d);
    }
    if k == id {
      MatchedFresh(p, d, t', u, id, now, hi);
    } else if k in t {
      ReclaimedIsForgottenFull(p, d, t, u, id, k, now, hi);
    }
  }

  /** With a single slot, reclaiming and inserting happen together. */
  lemma SimulatesReplace(p: RatePolicy, d: nat, t: Table, u: Table, id: Digest, now: int, hi: int)
    requires p.Valid() && Compliant(p, d) && Simulates(p, d, t, u, hi) && Timely(d, now, hi)
    requires id !in t && p.maxTracked == 1 && |t| == 1 && Retain(p, t, now) == map[]
    ensures Simulates(p, d, map[id := IdentityBuckets.Fresh(p, now)], Track(p, u, id, now), hi)
  {
    var t' := map[id := IdentityBuckets.Fresh(p, now)];
    TrackIsValid(p, u, id, now);
    TrackIsValid(p, map[], id, now);
    assert t.Keys != {};
    var held :| held in t;
    forall k: Digest ensures Matched(p, d, t', Track(p, u, id, now), k, hi) {
      assert Matched(p, d, t, u, k, hi);
      MatchedReplace(p, d, t, u, id, held, k, now, hi);
    }
  }

  lemma SimulatesReserve(p: RatePolicy, d: nat, t: Table, u: Table, id: Digest, now: int, hi: int)
    requires p.Valid() && Compliant(p, d) && Simulates(p, d, t, u, hi) && Timely(d, now, hi)
    requires id in Reserve(p, t, id, now)
    ensures Simulates(p, d, Reserve(p, t, id, now), Track(p, u, id, now), hi)
  {
    if id in t {
      assert Matched(p, d, t, u, id, hi);
    } else if |t| < p.maxTracked {
      SimulatesInsert(p, d, t, u, id, now, hi);
    } else if p.maxTracked > 1 {
      SimulatesRetain(p, d, t, u, id, now, hi);
      SimulatesInsert(p, d, Retain(p, t, now), u, id, now, hi);
    } else {
      RetainShrinks(p, t, now);
      assert |Retain(p, t, now)| < 1;
      assert Retain(p, t, now) == map[];
      SimulatesReplace(p, d, t, u, id, now, hi);
    }
  }

  /** Alike buckets answer alike and are equal afterwards. */
  lemma AlikeCharge(p: RatePolicy, d: nat, s: Surface, a: IdentityBuckets, b: IdentityBuckets, now: int, hi: int)
    requires p.Valid() && a.Valid(p) && b.Valid(p) && AlikeEntries(p, d, a, b, hi) && RefilledBy(b, hi) && Timely(d, now, hi)
    ensures a.Bucket(s).Admit(p.For(s), now) == b.Bucket(s).Admit(p.For(s), now)
    ensures AlikeEntries(p, d, a.Charged(p, s, now), b.Charged(p, s, now), hi)
    ensures RefilledBy(b.Charged(p, s, now), hi)
  {
    AlikeAdmit(p, s, a.Bucket(s), b.Bucket(s), hi - d, now);
    var a', b' := a.Charged(p, s, now), b.Charged(p, s, now);
    forall v: Surface ensures Alike(p, v, a'.Bucket(v), b'.Bucket(v), hi - d) && b'.Bucket(v).lastRefill <= hi {
      assert Alike(p, v, a.Bucket(v), b.Bucket(v), hi - d) && b.Bucket(v).lastRefill <= hi;
    }
  }

  lemma AlikeAdmit(p: RatePolicy, s: Surface, a: TokenBucket, b: TokenBucket, low: int, now: int)
    requires p.Valid() && a.Valid(p.For(s)) && b.Valid(p.For(s)) && Alike(p, s, a, b, low) && low <= now
    ensures a.Admit(p.For(s), now) == b.Admit(p.For(s), now)
  {
    if a != b {
      FullStaysFull(p, s, a, low, now);
      FullStaysFull(p, s, b, low, now);
    }
  }

  lemma ForgottenAfterUpdate(p: RatePolicy, d: nat, t: Table, id: Digest, a: IdentityBuckets, e: IdentityBuckets, low: int)
    requires id in t && |t| <= p.maxTracked && low <= a.lastSeen
    requires ForgottenFull(p, d, t, e, low)
    ensures ForgottenFull(p, d, t[id := a], e, low)
  {
    if p.maxTracked == 1 {
      OnlyKey(t, id);
      AllFullStays(p, e, Opening(p, d, t[id], low), Opening(p, d, a, low));
    }
  }

  lemma MatchedOwn(p: RatePolicy, d: nat, t: Table, u: Table, id: Digest, hi: int)
    requires id in t && id in u && AlikeEntries(p, d, t[id], u[id], hi) && RefilledBy(u[id], hi)
    ensures Matched(p, d, t, u, id, hi)
  {
  }

  lemma MatchedUpdate(
    p: RatePolicy, d: nat, t: Table, u: Table, id: Digest, t': Table, u': Table, k: Digest, hi: int)
    requires |t| <= p.maxTracked && id in t && id in u && Matched(p, d, t, u, k, hi)
    requires id in t' && t' == t[id := t'[id]] && id in u' && u' == u[id := u'[id]]
    requires hi - d <= t'[id].lastSeen && AlikeEntries(p, d, t'[id], u'[id], hi) && RefilledBy(u'[id], hi)
    ensures Matched(p, d, t', u', k, hi)
  {
    if k == id {
      MatchedOwn(p, d, t', u', id, hi);
    } else {
      if k in u && k !in t {
        ForgottenAfterUpdate(p, d, t, id, t'[id], u[k], hi - d);
      }
      MatchedAsBefore(p, d, t, u, t', u', k, hi);
    }
  }

  lemma SimulatesUpdate(
    p: RatePolicy, d: nat, t: Table, u: Table, id: Digest, a: IdentityBuckets, b: IdentityBuckets, hi: int)
    requires Simulates(p, d, t, u, hi) && id in t
    requires a.Valid(p) && b.Valid(p) && hi - d <= a.lastSeen
    requires AlikeEntries(p, d, a, b, hi) && RefilledBy(b, hi)
    ensures Simulates(p, d, t[id := a], u[id := b], hi)
  {
    var t', u' := t[id := a], u[id := b];
    assert t'.Keys == t.Keys && |t'| == |t'.Keys|;
    assert Matched(p, d, t, u, id, hi);
    forall k: Digest ensures Matched(p, d, t', u', k, hi) {
      MatchedUpdate(p, d, t, u, id, t', u', k, hi);
    }
  }

  lemma SimulatesCharge(p: RatePolicy, d: nat, t: Table, u: Table, r: Request, hi: int)
    requires p.Valid() && Simulates(p, d, t, u, hi) && Timely(d, r.now, hi) && r.identity in t
    ensures r.identity in u
    ensures Charge(p, t, r).1 == Charge(p, u, r).1
    ensures Simulates(p, d, Charge(p, t, r).0, Charge(p, u, r).0, hi)
  {
    assert Matched(p, d, t, u, r.identity, hi);
    var a, b := t[r.identity], u[r.identity];
    AlikeCharge(p, d, r.surface, a, b, r.now, hi);
    SimulatesUpdate(p, d, t, u, r.identity, a.Charged(p, r.surface, r.now), b.Charged(p, r.surface, r.now), hi);
  }

  lemma OnlyKey(t: Table, id: Digest)
    requires id in t && |t| <= 1
    ensures t.Keys == {id}
  {
    assert |t.Keys - {id}| == |t.Keys| - 1;
  }

  lemma SimulatesCheck(p: RatePolicy, d: nat, t: Table, u: Table, r: Request, hi: int)
    requires p.Valid() && Compliant(p, d) && Simulates(p, d, t, u, hi) && hi - d <= r.now
    ensures var (t', a) := CheckAt(p, t, r);
            if a.CapacityRefused? then Simulates(p, d, t', u, Max(hi, r.now))
            else UnboundedCheck(p, u, r).1 == a && Simulates(p, d, t', UnboundedCheck(p, u, r).0, Max(hi, r.now))
  {
    var later := Max(hi, r.now);
    SimulatesLater(p, d, t, u, hi, later);
    if r.identity in Reserve(p, t, r.identity, r.now) {
      SimulatesReserve(p, d, t, u, r.identity, r.now, later);
      SimulatesCharge(p, d, Reserve(p, t, r.identity, r.now), Track(p, u, r.identity, r.now), r, later);
    } else {
      CapacityRefusalExactly(p, t, r);
    }
  }

  /** The simulation carries over whole runs. */
  lemma {:induction false} CompliantRunsAgree(p: RatePolicy, d: nat, t: Table, u: Table, reqs: seq<Request>, hi: int)
    requires p.Valid() && Compliant(p, d) && Simulates(p, d, t, u, hi) && Within(d, hi, reqs)
    ensures SameAnswers(p, t, u, reqs)
    decreases |reqs|
  {
    if reqs != [] {
      var r := reqs[0];
      SimulatesCheck(p, d, t, u, r, hi);
      var (t', a) := CheckAt(p, t, r);
      CompliantRunsAgree(p, d, t', if a.CapacityRefused? then u else UnboundedCheck(p, u, r).0, reqs[1..], Max(hi, r.now));
    }
  }

  // ---- Necessity: a run on which a policy that refills too slowly forgets a debt ----

  /** Whole tokens an empty bucket regains over the span. */
  function Regained(p: RatePolicy, s: Surface, e: nat): nat
    requires Span(p, e) >= 0
  {
    Refill(p.For(s).rate, Span(p, e)) / ONE
  }

  function Repeat(r: Request, n: nat): seq<Request> {
    if n == 0 then [] else [r] + Repeat(r, n - 1)
  }

  function Other(s: Surface): (o: Surface)
    ensures o != s
  {
    if s == Control then Diagnostics else Control
  }

  lemma {:induction false} WithinRepeat(d: nat, hi: int, r: Request, n: nat)
    requires hi - d <= r.now <= hi
    ensures Within(d, hi, Repeat(r, n))
    decreases n
  {
    if n > 0 {
      WithinRepeat(d, hi, r, n - 1);
    }
  }

  lemma ChargeFrame(p: RatePolicy, t: Table, r: Request)
    requires p.Valid() && ValidTable(p, t) && r.identity in t
    ensures var t' := Charge(p, t, r).0;
            && t'.Keys == t.Keys && t'[r.identity].lastSeen == r.now && ValidTable(p, t')
            && forall k :: k in t && k != r.identity ==> t'[k] == t[k]
    ensures !Charge(p, t, r).1.CapacityRefused?
  {
  }

  /** The tables after one call that has room. */
  predicate Steps(p: RatePolicy, t: Table, u: Table, r: Request, t': Table, u': Table)
    requires p.Valid() && ValidTable(p, t) && ValidTable(p, u)
  {
    && !CheckAt(p, t, r).1.CapacityRefused?
    && t' == CheckAt(p, t, r).0 && u' == UnboundedCheck(p, u, r).0
  }

  lemma StepsAreValid(p: RatePolicy, t: Table, u: Table, r: Request, t': Table, u': Table)
    requires p.Valid() && ValidTable(p, t) && ValidTable(p, u) && |t| <= p.maxTracked && Steps(p, t, u, r, t', u')
    ensures ValidTable(p, t') && |t'| <= p.maxTracked && ValidTable(p, u')
  {
    CheckKeepsTable(p, t, r);
    ChargeFrame(p, Track(p, u, r.identity, r.now), r);
  }

  /** A disagreement later is one of the whole run. */
  lemma {:induction false} Prepend(
    p: RatePolicy, d: nat, hi: int, t: Table, u: Table, r: Request, t': Table, u': Table, rest: seq<Request>)
    returns (run: seq<Request>)
    requires p.Valid() && ValidTable(p, t) && ValidTable(p, u) && |t| <= p.maxTracked && Steps(p, t, u, r, t', u')
    requires ValidTable(p, t') && ValidTable(p, u') && |t'| <= p.maxTracked && !SameAnswers(p, t', u', rest)
    requires hi - d <= r.now && Within(d, Max(hi, r.now), rest)
    ensures run == [r] + rest && Within(d, hi, run) && !SameAnswers(p, t, u, run)
  {
    run := [r] + rest;
    assert run[1..] == rest;
  }

  /** A bucket that owes a token refuses on a request where a fuller one still admits. */
  lemma {:induction false} Overdraft(p: RatePolicy, s: Surface, t: Table, u: Table, now: int, n: nat)
    requires p.Valid() && ValidTable(p, t) && ValidTable(p, u) && |t| <= p.maxTracked && n >= 1
    requires 0 in Reserve(p, t, 0, now) && 0 in u
    requires Reserve(p, t, 0, now)[0].Bucket(s).TokensAt(p.For(s), now) >= n * ONE
    requires u[0].Bucket(s).TokensAt(p.For(s), now) < n * ONE
    ensures !SameAnswers(p, t, u, Repeat(Request(s, 0, now), n))
    decreases n
  {
    var r := Request(s, 0, now);
    var (t', a) := CheckAt(p, t, r);
    CheckKeepsTable(p, t, r);
    var (u', b) := UnboundedCheck(p, u, r);
    assert a == Allowed;
    if u[0].Bucket(s).TokensAt(p.For(s), now) >= ONE {
      AfterCharge(p, s, Reserve(p, t, 0, now)[0], now);
      AfterCharge(p, s, u[0], now);
      Overdraft(p, s, t', u', now, n - 1);
    }
  }

  lemma AfterCharge(p: RatePolicy, s: Surface, e: IdentityBuckets, now: int)
    requires p.Valid() && e.Valid(p) && e.Bucket(s).TokensAt(p.For(s), now) >= ONE
    ensures e.Charged(p, s, now).Bucket(s).TokensAt(p.For(s), now) == e.Bucket(s).TokensAt(p.For(s), now) - ONE
  {
  }

  /** What a bucket emptied at time `e` holds when the probe comes, and that a full one holds more. */
  lemma RegainedByProbe(p: RatePolicy, s: Surface, e: nat)
    requires p.Valid() && Span(p, e) >= 0 && !Replenishes(p, s, e)
    ensures TokenBucket(0, e).TokensAt(p.For(s), e + Span(p, e)) < (Regained(p, s, e) + 1) * ONE <= p.For(s).Cap()
  {
    var gained, cap := Refill(p.For(s).rate, Span(p, e)), p.For(s).burst;
    assert gained < cap * ONE;
    assert Elapsed(e + Span(p, e), e) == Span(p, e);
    MulAtLeast(ONE, Regained(p, s, e) + 1, cap);
  }

  lemma {:induction false} DebtDisagrees(p: RatePolicy, s: Surface, t: Table, u: Table, now: int, n: nat)
    requires p.Valid() && ValidTable(p, t) && ValidTable(p, u) && |t| <= p.maxTracked && n >= 1
    requires 0 in Reserve(p, t, 0, now) && Reserve(p, t, 0, now)[0].Bucket(s).tokens == p.For(s).Cap()
    requires 0 in u && u[0].Bucket(s).TokensAt(p.For(s), now) < n * ONE <= p.For(s).Cap()
    ensures !SameAnswers(p, t, u, Repeat(Request(s, 0, now), n))
  {
    FullBucketHolds(p.For(s), Reserve(p, t, 0, now)[0].Bucket(s), now);
    Overdraft(p, s, t, u, now, n);
  }

  lemma FullBucketHolds(p: BucketPolicy, b: TokenBucket, now: int)
    requires b.tokens == p.Cap()
    ensures b.TokensAt(p, now) == p.Cap()
  {
  }

  /** Identity 0 owes what it spent on one surface at time `e`. */
  predicate Owes(p: RatePolicy, s: Surface, e: nat, u: Table) {
    ValidTable(p, u) && 0 in u && u[0].Bucket(s) == TokenBucket(0, e)
  }

  /** A disorder `e` that leaves a span, over which one surface refills too little. */
  predicate Falls(p: RatePolicy, s: Surface, e: nat) {
    p.Valid() && Span(p, e) >= 0 && !Replenishes(p, s, e)
  }

  /** Identity 0, found with a full bucket, asks for one token more than it has regained since time `e`. */
  lemma {:induction false} ProbeDisagrees(p: RatePolicy, s: Surface, e: nat, t: Table, u: Table, d: nat, hi: int)
    returns (run: seq<Request>)
    requires Falls(p, s, e) && ValidTable(p, t) && |t| <= p.maxTracked && Owes(p, s, e, u)
    requires 0 in Reserve(p, t, 0, e + Span(p, e))
    requires Reserve(p, t, 0, e + Span(p, e))[0].Bucket(s).tokens == p.For(s).Cap()
    requires hi - d <= e + Span(p, e) <= hi
    ensures Within(d, hi, run) && !SameAnswers(p, t, u, run)
  {
    var now, n := e + Span(p, e), Regained(p, s, e) + 1;
    RegainedByProbe(p, s, e);
    WithinRepeat(d, hi, Request(s, 0, now), n);
    DebtDisagrees(p, s, t, u, now, n);
    run := Repeat(Request(s, 0, now), n);
  }

  /** The only slot's holder is seen again, `e` back, so that the slot opens `e` sooner. */
  lemma {:induction false} SlotDisagrees(p: RatePolicy, s: Surface, e: nat, t: Table, u: Table, d: nat)
    returns (run: seq<Request>)
    requires Falls(p, s, e) && p.maxTracked == 1 && e <= d
    requires ValidTable(p, t) && t.Keys == {1} && |t| == 1 && Owes(p, s, e, u)
    ensures Within(d, p.IdleTtl(), run) && !SameAnswers(p, t, u, run)
  {
    var r := Request(s, 1, p.IdleTtl() - e);
    ChargeFrame(p, t, r);
    OthersUntouched(p, u, r, 0);
    var t', u' := CheckAt(p, t, r).0, UnboundedCheck(p, u, r).0;
    StepsAreValid(p, t, u, r, t', u');
    assert |t'| == |t'.Keys|;
    var rest := TakenSlotDisagrees(p, s, e, t', u', d);
    run := Prepend(p, d, p.IdleTtl(), t, u, r, t', u', rest);
  }

  /** Identity 0 takes the slot on another surface, `e` ahead of the probe. */
  lemma {:induction false} TakenSlotDisagrees(p: RatePolicy, s: Surface, e: nat, t: Table, u: Table, d: nat)
    returns (run: seq<Request>)
    requires Falls(p, s, e) && p.maxTracked == 1 && e <= d
    requires ValidTable(p, t) && t.Keys == {1} && |t| == 1 && t[1].lastSeen == p.IdleTtl() - e && Owes(p, s, e, u)
    ensures Within(d, p.IdleTtl(), run) && !SameAnswers(p, t, u, run)
  {
    var back := Request(Other(s), 0, 2 * p.IdleTtl() - e);
    assert Retain(p, t, back.now) == map[];
    NewcomerTracked(p, t, back, map[]);
    NewcomerFull(p, t, back, s);
    var t', u' := CheckAt(p, t, back).0, UnboundedCheck(p, u, back).0;
    StepsAreValid(p, t, u, back, t', u');
    var rest := ProbeDisagrees(p, s, e, t', u', d, back.now);
    run := Prepend(p, d, p.IdleTtl(), t, u, back, t', u', rest);
  }

  /** Identity 0 returns as soon as there is room. */
  lemma {:induction false} ReturnDisagrees(p: RatePolicy, s: Surface, e: nat, t: Table, u: Table, d: nat)
    returns (run: seq<Request>)
    requires Falls(p, s, e) && e <= d && ValidTable(p, t) && t.Keys == {p.maxTracked} && Owes(p, s, e, u)
    ensures |t| <= p.maxTracked && Within(d, p.IdleTtl(), run) && !SameAnswers(p, t, u, run)
  {
    assert |t| == |t.Keys|;
    if p.maxTracked == 1 {
      run := SlotDisagrees(p, s, e, t, u, d);
    } else {
      run := ProbeDisagrees(p, s, e, t, u, d, p.IdleTtl());
    }
  }

  /** The table tracks exactly the first `n` identities, all seen at time zero. */
  predicate Crowded(t: Table, n: nat) {
    |t| == n && forall id: Digest :: (id in t <==> id < n) && (id in t ==> t[id].lastSeen == 0)
  }

  /** A newcomer has full buckets on the surfaces it did not use. */
  lemma NewcomerFull(p: RatePolicy, t: Table, r: Request, s: Surface)
    requires p.Valid() && ValidTable(p, t) && r.identity !in t && r.identity in Reserve(p, t, r.identity, r.now)
    requires s != r.surface
    ensures r.identity in CheckAt(p, t, r).0 && CheckAt(p, t, r).0[r.identity].Bucket(s).tokens == p.For(s).Cap()
  {
  }

  /** A newcomer is tracked beside whatever is kept. */
  lemma NewcomerTracked(p: RatePolicy, t: Table, r: Request, kept: Table)
    requires p.Valid() && ValidTable(p, t) && r.identity !in t && |kept| < p.maxTracked
    requires kept == if |t| >= p.maxTracked then Retain(p, t, r.now) else t
    ensures !CheckAt(p, t, r).1.CapacityRefused?
    ensures var t' := CheckAt(p, t, r).0;
            && t'.Keys == kept.Keys + {r.identity} && |t'| == |kept| + 1
            && t'[r.identity].lastSeen == r.now
            && forall k :: k in kept ==> t'[k] == kept[k]
  {
    var reserved := Reserve(p, t, r.identity, r.now);
    assert reserved.Keys == kept.Keys + {r.identity};
    ChargeFrame(p, reserved, r);
    var t' := CheckAt(p, t, r).0;
    assert |t'| == |t'.Keys|;
  }

  lemma OthersUntouched(p: RatePolicy, u: Table, r: Request, id: Digest)
    requires p.Valid() && ValidTable(p, u) && id in u && id != r.identity
    ensures id in UnboundedCheck(p, u, r).0 && UnboundedCheck(p, u, r).0[id] == u[id]
  {
    ChargeFrame(p, Track(p, u, r.identity, r.now), r);
  }

  /** A newcomer one idle TTL later displaces everybody. */
  lemma {:induction false} DisplaceDisagrees(p: RatePolicy, s: Surface, e: nat, t: Table, u: Table, d: nat)
    returns (run: seq<Request>)
    requires Falls(p, s, e) && e <= d && ValidTable(p, t) && Owes(p, s, e, u)
    requires |t| == p.maxTracked && p.maxTracked !in t && Retain(p, t, p.IdleTtl()) == map[]
    ensures Within(d, e, run) && !SameAnswers(p, t, u, run)
  {
    var t', u' := DisplaceStep(p, s, e, t, u);
    SpanWithinTtl(p, e);
    var rest := ReturnDisagrees(p, s, e, t', u', d);
    run := Prepend(p, d, e, t, u, Request(s, p.maxTracked, p.IdleTtl()), t', u', rest);
  }

  lemma SpanWithinTtl(p: RatePolicy, e: nat)
    requires Span(p, e) >= 0
    ensures e <= p.IdleTtl() && Max(e, p.IdleTtl()) == p.IdleTtl()
  {
  }

  lemma DisplaceStep(p: RatePolicy, s: Surface, e: nat, t: Table, u: Table) returns (t': Table, u': Table)
    requires p.Valid() && ValidTable(p, t) && Owes(p, s, e, u)
    requires |t| == p.maxTracked && p.maxTracked !in t && Retain(p, t, p.IdleTtl()) == map[]
    ensures Steps(p, t, u, Request(s, p.maxTracked, p.IdleTtl()), t', u')
    ensures ValidTable(p, t') && t'.Keys == {p.maxTracked} && |t'| <= p.maxTracked && Owes(p, s, e, u')
  {
    var r := Request(s, p.maxTracked, p.IdleTtl());
    NewcomerTracked(p, t, r, map[]);
    OthersUntouched(p, u, r, 0);
    t', u' := CheckAt(p, t, r).0, UnboundedCheck(p, u, r).0;
    StepsAreValid(p, t, u, r, t', u');
  }

  lemma CrowdExpires(p: RatePolicy, t: Table)
    requires p.Valid() && Crowded(t, p.maxTracked)
    ensures p.maxTracked !in t && Retain(p, t, p.IdleTtl()) == map[]
  {
    forall id | id in t ensures id !in Retain(p, t, p.IdleTtl()) {
      assert Elapsed(p.IdleTtl(), t[id].lastSeen) == p.IdleTtl();
    }
  }

  /** One more identity arrives at time zero. */
  lemma CrowdStep(p: RatePolicy, s: Surface, e: nat, t: Table, u: Table, i: nat) returns (t': Table, u': Table)
    requires p.Valid() && ValidTable(p, t) && 1 <= i < p.maxTracked && Crowded(t, i) && Owes(p, s, e, u)
    ensures Steps(p, t, u, Request(s, i, 0), t', u')
    ensures ValidTable(p, t') && Crowded(t', i + 1) && Owes(p, s, e, u')
  {
    var r := Request(s, i, 0);
    NewcomerTracked(p, t, r, t);
    OthersUntouched(p, u, r, 0);
    t', u' := CheckAt(p, t, r).0, UnboundedCheck(p, u, r).0;
    StepsAreValid(p, t, u, r, t', u');
  }

  /** Identities `i` and up fill the table at time zero. */
  lemma {:induction false} CrowdDisagrees(p: RatePolicy, s: Surface, e: nat, t: Table, u: Table, i: nat, d: nat)
    returns (run: seq<Request>)
    requires Falls(p, s, e) && e <= d && ValidTable(p, t) && Owes(p, s, e, u)
    requires 1 <= i <= p.maxTracked && Crowded(t, i)
    ensures Within(d, e, run) && !SameAnswers(p, t, u, run)
    decreases p.maxTracked - i
  {
    if i == p.maxTracked {
      CrowdExpires(p, t);
      run := DisplaceDisagrees(p, s, e, t, u, d);
    } else {
      var t', u' := CrowdStep(p, s, e, t, u, i);
      var rest := CrowdDisagrees(p, s, e, t', u', i + 1, d);
      run := Prepend(p, d, e, t, u, Request(s, i, 0), t', u', rest);
    }
  }

  /** Identity 0 has `k` tokens left since time `e`, and nobody else is tracked. */
  predicate Draining(p: RatePolicy, s: Surface, e: nat, t: Table, u: Table, k: nat) {
    if k == p.For(s).burst then t == u == map[]
    else |t| == 1 && 0 in t && 0 in u && u[0].Bucket(s) == TokenBucket(k * ONE, e)
  }

  /** Spending one token of identity 0 at time `e`. */
  lemma DrainStep(p: RatePolicy, s: Surface, e: nat, t: Table, u: Table, k: nat) returns (t': Table, u': Table)
    requires p.Valid() && ValidTable(p, t) && ValidTable(p, u) && 1 <= k <= p.For(s).burst
    requires Draining(p, s, e, t, u, k)
    ensures Steps(p, t, u, Request(s, 0, e), t', u') && Draining(p, s, e, t', u', k - 1)
  {
    var r := Request(s, 0, e);
    ChargeFrame(p, Reserve(p, t, 0, e), r);
    t', u' := CheckAt(p, t, r).0, UnboundedCheck(p, u, r).0;
    assert |t'| == |t'.Keys|;
  }

  /** Drained, and then seen on another surface at time zero. */
  lemma SettleStep(p: RatePolicy, s: Surface, e: nat, t: Table, u: Table) returns (t': Table, u': Table)
    requires p.Valid() && ValidTable(p, t) && ValidTable(p, u) && Draining(p, s, e, t, u, 0)
    ensures Steps(p, t, u, Request(Other(s), 0, 0), t', u')
    ensures ValidTable(p, t') && Crowded(t', 1) && Owes(p, s, e, u')
  {
    assert p.For(s).Valid();
    OnlyKey(t, 0);
    var r := Request(Other(s), 0, 0);
    ChargeFrame(p, t, r);
    ChargeFrame(p, u, r);
    t', u' := CheckAt(p, t, r).0, UnboundedCheck(p, u, r).0;
    assert |t'| == |t'.Keys|;
  }

  /** Identity 0 spends its last `k` tokens at time `e`, is seen on another surface at time zero, and is
      displaced by a crowd and a newcomer; when it is back, only the bounded limiter has forgotten. */
  lemma {:induction false} DrainDisagrees(p: RatePolicy, s: Surface, e: nat, t: Table, u: Table, k: nat, d: nat)
    returns (run: seq<Request>)
    requires Falls(p, s, e) && e <= d
    requires ValidTable(p, t) && ValidTable(p, u) && k <= p.For(s).burst && Draining(p, s, e, t, u, k)
    ensures |t| <= p.maxTracked && Within(d, e, run) && !SameAnswers(p, t, u, run)
    ensures k > 0 ==> run != [] && run[0].now == e
    decreases k
  {
    if k == 0 {
      assert p.For(s).Valid();
      var t', u' := SettleStep(p, s, e, t, u);
      var rest := CrowdDisagrees(p, s, e, t', u', 1, d);
      run := Prepend(p, d, e, t, u, Request(Other(s), 0, 0), t', u', rest);
    } else {
      var t', u' := DrainStep(p, s, e, t, u, k);
      StepsAreValid(p, t, u, Request(s, 0, e), t', u');
      var rest := DrainDisagrees(p, s, e, t', u', k - 1, d);
      run := Prepend(p, d, e, t, u, Request(s, 0, e), t', u', rest);
    }
  }

  /** A policy that does not comply with disorder `d` fails with a disorder that leaves a span. */
  lemma FailingDisorder(p: RatePolicy, s: Surface, d: nat) returns (e: nat)
    requires p.Valid() && !Replenishes(p, s, d)
    ensures e <= d && Span(p, e) >= 0 && !Replenishes(p, s, e)
  {
    if Span(p, d) >= 0 {
      e := d;
    } else {
      e := if p.maxTracked == 1 then 2 * p.IdleTtl() / 3 else p.IdleTtl() / 2;
      assert 0 <= Span(p, e) <= 2;
      assert p.For(s).Valid();
      RefillGrows(p.For(s).rate, Span(p, e), 2);
      RefillIsProduct(p.For(s).rate, 2);
    }
  }

  /** The bounded limiter answers like the unbounded one, on every run whose times are out of order by
      at most `d`, exactly when on every surface a burst refills while a reclaimed bucket must go unused. */
  lemma {:induction false} BoundedMatchesUnboundedExactly(p: RatePolicy, d: nat)
    requires p.Valid()
    ensures (forall reqs: seq<Request> :: Disorder(d, reqs) ==> SameAnswers(p, map[], map[], reqs)) <==> Compliant(p, d)
  {
    if Compliant(p, d) {
      forall reqs: seq<Request> | Disorder(d, reqs) ensures SameAnswers(p, map[], map[], reqs) {
        if reqs != [] {
          CompliantRunsAgree(p, d, map[], map[], reqs, reqs[0].now);
        }
      }
    } else {
      var s: Surface :| !Replenishes(p, s, d);
      var e := FailingDisorder(p, s, d);
      assert p.For(s).Valid();
      var run := DrainDisagrees(p, s, e, map[], map[], p.For(s).burst, d);
      assert Disorder(d, run);
    }
  }

  /** So no policy makes them agree if nothing bounds the disorder. */
  lemma {:induction false} NoPolicyForAnyOrder(p: RatePolicy)
    requires p.Valid()
    ensures exists reqs: seq<Request> :: !SameAnswers(p, map[], map[], reqs)
  {
    BoundedMatchesUnboundedExactly(p, p.IdleTtl());
    assert Span(p, p.IdleTtl()) < 0;
  }

  // ---- What the bounded limiter therefore promises its clients ----

  function Run(p: RatePolicy, t: Table, reqs: seq<Request>): (r: Table)
    requires p.Valid() && ValidTable(p, t) && |t| <= p.maxTracked
    ensures ValidTable(p, r) && |r| <= p.maxTracked
    decreases |reqs|
  {
    if reqs == [] then t
    else CheckKeepsTable(p, t, reqs[0]); Run(p, CheckAt(p, t, reqs[0]).0, reqs[1..])
  }

  /** How many requests of one identity on one surface a run admits. */
  function AllowedCount(p: RatePolicy, t: Table, reqs: seq<Request>, id: Digest, s: Surface): nat
    requires p.Valid() && ValidTable(p, t) && |t| <= p.maxTracked
    decreases |reqs|
  {
    if reqs == [] then 0
    else
      var (t', d) := CheckAt(p, t, reqs[0]);
      CheckKeepsTable(p, t, reqs[0]);
      (if Admits(reqs[0], d, id, s) then 1 else 0) + AllowedCount(p, t', reqs[1..], id, s)
  }

  predicate Admits(r: Request, d: Decision, id: Digest, s: Surface) {
    d == Allowed && r.identity == id && r.surface == s
  }

  /** Tokens an identity would find on a surface; an untracked identity would find a full bucket. */
  function Available(p: RatePolicy, t: Table, id: Digest, s: Surface, now: int): int {
    if id in t then t[id].Bucket(s).TokensAt(p.For(s), now) else p.For(s).Cap()
  }

  /** The total forward movement of the clock over a run, starting from `at`. */
  function Advance(at: int, reqs: seq<Request>): nat
    decreases |reqs|
  {
    if reqs == [] then 0 else Elapsed(reqs[0].now, at) + Advance(reqs[0].now, reqs[1..])
  }

  lemma {:induction false} TokensGrowAtRate(p: BucketPolicy, b: TokenBucket, now: int, later: int)
    ensures b.TokensAt(p, later) <= b.TokensAt(p, now) + Refill(p.rate, Elapsed(later, now))
  {
    var most := Elapsed(now, b.lastRefill) + Elapsed(later, now);
    RefillAdds(p.rate, most, Elapsed(now, b.lastRefill), Elapsed(later, now));
    RefillGrows(p.rate, Elapsed(later, b.lastRefill), most);
  }

  lemma {:induction false} AvailableGrowsAtRate(p: RatePolicy, u: Table, id: Digest, s: Surface, now: int, later: int)
    ensures Available(p, u, id, s, later) <= Available(p, u, id, s, now) + Refill(p.For(s).rate, Elapsed(later, now))
  {
    if id in u {
      TokensGrowAtRate(p.For(s), u[id].Bucket(s), now, later);
    }
  }

  /** Each admission of the unbounded limiter is paid for. */
  lemma UnboundedSpends(p: RatePolicy, u: Table, r: Request, id: Digest, s: Surface)
    requires p.Valid() && ValidTable(p, u)
    ensures var (u', d) := UnboundedCheck(p, u, r);
            Available(p, u', id, s, r.now) + (if Admits(r, d, id, s) then ONE else 0) <= Available(p, u, id, s, r.now)
  {
    ChargeFrame(p, Track(p, u, r.identity, r.now), r);
  }

  /** One step of both limiters: what the unbounded one has left, and the admission if there was one,
      come out of the budget and the refill since the last call, at `at`. */
  lemma SpendStep(
    p: RatePolicy, d: nat, t: Table, u: Table, r: Request, id: Digest, s: Surface, hi: int, at: int, budget: int, gain: int)
    returns (u': Table, spent: nat, left: int)
    requires p.Valid() && Compliant(p, d) && Simulates(p, d, t, u, hi) && hi - d <= r.now
    requires budget == Available(p, u, id, s, at) && gain == Refill(p.For(s).rate, Elapsed(r.now, at))
    ensures Simulates(p, d, CheckAt(p, t, r).0, u', Max(hi, r.now)) && left == Available(p, u', id, s, r.now)
    ensures spent == if Admits(r, CheckAt(p, t, r).1, id, s) then 1 else 0
    ensures left + spent * ONE <= budget + gain
  {
    var a: Decision;
    a, u' := SimulatedCheck(p, d, t, u, r, hi);
    AvailableGrowsAtRate(p, u, id, s, at, r.now);
    spent, left := SpentOf(p, u, u', r, a, id, s);
  }

  /** How the unbounded table follows one call of the bounded one. */
  predicate Follows(p: RatePolicy, u: Table, r: Request, a: Decision, u': Table)
    requires p.Valid() && ValidTable(p, u)
  {
    if a.CapacityRefused? then u' == u else (u', a) == UnboundedCheck(p, u, r)
  }

  lemma SimulatedCheck(p: RatePolicy, d: nat, t: Table, u: Table, r: Request, hi: int) returns (a: Decision, u': Table)
    requires p.Valid() && Compliant(p, d) && Simulates(p, d, t, u, hi) && hi - d <= r.now
    ensures a == CheckAt(p, t, r).1 && Follows(p, u, r, a, u') && Simulates(p, d, CheckAt(p, t, r).0, u', Max(hi, r.now))
  {
    SimulatesCheck(p, d, t, u, r, hi);
    a := CheckAt(p, t, r).1;
    u' := if a.CapacityRefused? then u else UnboundedCheck(p, u, r).0;
  }

  lemma SpentOf(p: RatePolicy, u: Table, u': Table, r: Request, a: Decision, id: Digest, s: Surface)
    returns (spent: nat, left: int)
    requires p.Valid() && ValidTable(p, u) && Follows(p, u, r, a, u')
    ensures left == Available(p, u', id, s, r.now) && spent == if Admits(r, a, id, s) then 1 else 0
    ensures left + spent * ONE <= Available(p, u, id, s, r.now)
  {
    UnboundedSpends(p, u, r, id, s);
    spent, left := if Admits(r, a, id, s) then 1 else 0, Available(p, u', id, s, r.now);
  }

  lemma {:induction false} AllowedFromSimulation(
    p: RatePolicy, d: nat, t: Table, u: Table, reqs: seq<Request>, id: Digest, s: Surface, hi: int, at: int,
    budget: int, gain: int)
    returns (n: nat)
    requires p.Valid() && Compliant(p, d) && Simulates(p, d, t, u, hi) && Within(d, hi, reqs)
    requires budget == Available(p, u, id, s, at) && gain == Refill(p.For(s).rate, Advance(at, reqs))
    ensures n == AllowedCount(p, t, reqs, id, s)
    ensures n * ONE <= budget + gain
    decreases |reqs|
  {
    if reqs == [] {
      n := 0;
      AvailableInRange(p, u, id, s, at);
    } else {
      var r, rest := reqs[0], reqs[1..];
      var first, later := SplitGain(p.For(s).rate, Elapsed(r.now, at), Advance(r.now, rest), gain);
      var u', spent, left := SpendStep(p, d, t, u, r, id, s, hi, at, budget, first);
      var more := AllowedFromSimulation(p, d, CheckAt(p, t, r).0, u', rest, id, s, Max(hi, r.now), r.now, left, later);
      n := AddSpent(spent, more, left, budget, first, later);
    }
  }

  /** What the first call spent and what the later ones spend come out of the budget and both gains. */
  lemma AddSpent(spent: nat, later: nat, left: int, budget: int, first: int, rest: int) returns (n: nat)
    requires left + spent * ONE <= budget + first && later * ONE <= left + rest
    ensures n == spent + later && n * ONE <= budget + (first + rest)
  {
    n := spent + later;
  }

  lemma SplitGain(rate: nat, a: nat, b: nat, gain: int) returns (first: int, rest: int)
    requires gain == Refill(rate, a + b)
    ensures first == Refill(rate, a) && rest == Refill(rate, b) && gain == first + rest
  {
    RefillAdds(rate, a + b, a, b);
    first, rest := Refill(rate, a), Refill(rate, b);
  }

  lemma AvailableInRange(p: RatePolicy, u: Table, id: Digest, s: Surface, now: int)
    requires p.Valid() && ValidTable(p, u)
    ensures 0 <= Available(p, u, id, s, now) <= p.For(s).Cap()
  {
    if id in u {
      assert u[id].Bucket(s).Valid(p.For(s));
    }
  }

  /** The latest time of a run. */
  function Latest(hi: int, reqs: seq<Request>): int
    decreases |reqs|
  {
    if reqs == [] then hi else Latest(Max(hi, reqs[0].now), reqs[1..])
  }

  lemma {:induction false} WithinSplit(d: nat, hi: int, a: seq<Request>, b: seq<Request>)
    requires Within(d, hi, a + b)
    ensures Within(d, hi, a) && Within(d, Latest(hi, a), b)
    decreases |a|
  {
    if a == [] {
      assert a + b == b;
    } else {
      assert (a + b)[0] == a[0] && (a + b)[1..] == a[1..] + b;
      WithinSplit(d, Max(hi, a[0].now), a[1..], b);
    }
  }

  lemma {:induction false} SimulatesRun(p: RatePolicy, d: nat, t: Table, u: Table, reqs: seq<Request>, hi: int)
    returns (u': Table)
    requires p.Valid() && Compliant(p, d) && Simulates(p, d, t, u, hi) && Within(d, hi, reqs)
    ensures Simulates(p, d, Run(p, t, reqs), u', Latest(hi, reqs))
    decreases |reqs|
  {
    u' := u;
    if reqs != [] {
      var r := reqs[0];
      SimulatesCheck(p, d, t, u, r, hi);
      var (t', a) := CheckAt(p, t, r);
      u' := SimulatesRun(p, d, t', if a.CapacityRefused? then u else UnboundedCheck(p, u, r).0, reqs[1..], Max(hi, r.now));
    }
  }

  /** Under a compliant policy, whatever happened before and however often the identity was reclaimed, a
      window of requests admits at most a burst plus the rate over the forward movement of the clock
      during the window; with ordered times, over its length. */
  lemma {:induction false} LimiterWindowBound(
    p: RatePolicy, d: nat, before: seq<Request>, window: seq<Request>, id: Digest, s: Surface)
    requires p.Valid() && Compliant(p, d) && window != [] && Disorder(d, before + window)
    ensures var n := AllowedCount(p, Run(p, map[], before), window, id, s);
      && n * ONE <= p.For(s).Cap() + p.For(s).rate * Advance(window[0].now, window[1..])
      && (Ordered(window[0].now, window) ==>
            n * ONE <= p.For(s).Cap() + p.For(s).rate * (window[|window| - 1].now - window[0].now))
  {
    var hi := (before + window)[0].now;
    WithinSplit(d, hi, before, window);
    assert Simulates(p, d, map[], map[], hi);
    var u := SimulatesRun(p, d, map[], map[], before, hi);
    var n := WindowCount(p, d, Run(p, map[], before), u, window, id, s, Latest(hi, before));
    WindowInTime(p.For(s), window, n);
  }

  lemma {:induction false} WindowInTime(p: BucketPolicy, window: seq<Request>, n: nat)
    requires window != [] && n * ONE <= p.Cap() + Refill(p.rate, Advance(window[0].now, window[1..]))
    ensures n * ONE <= p.Cap() + p.rate * Advance(window[0].now, window[1..])
    ensures Ordered(window[0].now, window) ==>
      n * ONE <= p.Cap() + p.rate * (window[|window| - 1].now - window[0].now)
  {
    RefillIsProduct(p.rate, Advance(window[0].now, window[1..]));
    if Ordered(window[0].now, window) {
      OrderedAdvance(window[0].now, window[1..]);
    }
  }

  lemma {:induction false} WindowCount(
    p: RatePolicy, d: nat, t: Table, u: Table, window: seq<Request>, id: Digest, s: Surface, hi: int)
    returns (n: nat)
    requires p.Valid() && Compliant(p, d) && Simulates(p, d, t, u, hi) && window != [] && Within(d, hi, window)
    ensures n == AllowedCount(p, t, window, id, s)
    ensures n * ONE <= p.For(s).Cap() + Refill(p.For(s).rate, Advance(window[0].now, window[1..]))
  {
    var first := window[0].now;
    AvailableInRange(p, u, id, s, first);
    var budget, gain := Available(p, u, id, s, first), Refill(p.For(s).rate, Advance(first, window));
    n := AllowedFromSimulation(p, d, t, u, window, id, s, hi, first, budget, gain);
  }

  // ---- Ordered times ----

  predicate Ordered(now: int, reqs: seq<Request>)
    decreases |reqs|
  {
    reqs == [] || (now <= reqs[0].now && Ordered(reqs[0].now, reqs[1..]))
  }

  function EndTime(now: int, reqs: seq<Request>): int {
    if reqs == [] then now else reqs[|reqs| - 1].now
  }

  lemma {:induction false} OrderedAdvance(now: int, reqs: seq<Request>)
    requires Ordered(now, reqs)
    ensures Advance(now, reqs) == EndTime(now, reqs) - now
    decreases |reqs|
  {
    if reqs != [] {
      OrderedAdvance(reqs[0].now, reqs[1..]);
      assert EndTime(reqs[0].now, reqs[1..]) == EndTime(now, reqs);
    }
  }

  lemma {:induction false} OrderedSplit(now: int, a: seq<Request>, b: seq<Request>)
    requires Ordered(now, a + b)
    ensures Ordered(now, a) && Ordered(EndTime(now, a), b)
    decreases |a|
  {
    if a == [] {
      assert a + b == b;
    } else {
      assert (a + b)[0] == a[0] && (a + b)[1..] == a[1..] + b;
      OrderedSplit(a[0].now, a[1..], b);
      assert EndTime(a[0].now, a[1..]) == EndTime(now, a);
    }
  }

  /** The bucket, if tracked, was last refilled by `now` and holds at least what accrued since `since`. */
  predicate Accrued(p: RatePolicy, t: Table, id: Digest, s: Surface, since: int, now: int) {
    && since <= now
    && (id in t ==> t[id].Bucket(s).lastRefill <= now)
    && Available(p, t, id, s, now) >= Min(p.For(s).Cap(), Refill(p.For(s).rate, now - since))
  }

  lemma AccruesLater(p: RatePolicy, t: Table, id: Digest, s: Surface, since: int, now: int, later: int)
    requires Accrued(p, t, id, s, since, now) && now <= later
    ensures Accrued(p, t, id, s, since, later)
  {
    var rate := p.For(s).rate;
    RefillAdds(rate, later - since, now - since, later - now);
    if id in t {
      var last := t[id].Bucket(s).lastRefill;
      RefillAdds(rate, later - last, now - last, later - now);
    }
  }

  /** Other traffic, refusals and even reclaiming only help a bucket that admits nothing. */
  lemma AccruedKept(p: RatePolicy, t: Table, r: Request, id: Digest, s: Surface, since: int, now: int)
    requires p.Valid() && ValidTable(p, t) && |t| <= p.maxTracked
    requires Accrued(p, t, id, s, since, now) && now <= r.now
    requires !Admits(r, CheckAt(p, t, r).1, id, s)
    ensures Accrued(p, CheckAt(p, t, r).0, id, s, since, r.now)
  {
    AccruesLater(p, t, id, s, since, now, r.now);
    var reserved := Reserve(p, t, r.identity, r.now);
    AccruedReserve(p, t, r.identity, id, s, since, r.now);
    if r.identity in reserved {
      AccruedCharge(p, reserved, r, id, s, since);
    }
  }

  lemma AccruedReserve(p: RatePolicy, t: Table, newcomer: Digest, id: Digest, s: Surface, since: int, now: int)
    requires p.Valid() && Accrued(p, t, id, s, since, now)
    ensures Accrued(p, Reserve(p, t, newcomer, now), id, s, since, now)
  {
  }

  lemma AccruedCharge(p: RatePolicy, t: Table, r: Request, id: Digest, s: Surface, since: int)
    requires p.Valid() && ValidTable(p, t) && r.identity in t
    requires Accrued(p, t, id, s, since, r.now) && !Admits(r, Charge(p, t, r).1, id, s)
    ensures Accrued(p, Charge(p, t, r).0, id, s, since, r.now)
  {
    ChargeFrame(p, t, r);
  }

  lemma {:induction false} AccruedOverRun(
    p: RatePolicy, t: Table, reqs: seq<Request>, id: Digest, s: Surface, since: int, now: int)
    requires p.Valid() && ValidTable(p, t) && |t| <= p.maxTracked
    requires Accrued(p, t, id, s, since, now) && Ordered(now, reqs)
    requires AllowedCount(p, t, reqs, id, s) == 0
    ensures Accrued(p, Run(p, t, reqs), id, s, since, EndTime(now, reqs))
    decreases |reqs|
  {
    if reqs != [] {
      CheckKeepsTable(p, t, reqs[0]);
      AccruedKept(p, t, reqs[0], id, s, since, now);
      AccruedOverRun(p, CheckAt(p, t, reqs[0]).0, reqs[1..], id, s, since, reqs[0].now);
      assert EndTime(reqs[0].now, reqs[1..]) == EndTime(now, reqs);
    }
  }

  /** A client told to wait is not limited again if it waits that long and nothing was admitted on
      its bucket meanwhile: it is admitted, or refused for capacity if it was reclaimed. */
  lemma {:induction false} RetryIsHonoured(p: RatePolicy, t: Table, limited: Request, between: seq<Request>, retry: Request)
    requires p.Valid() && ValidTable(p, t) && |t| <= p.maxTracked
    requires CheckAt(p, t, limited).1.Limited?
    requires retry.identity == limited.identity && retry.surface == limited.surface
    requires Ordered(limited.now, between + [retry])
    requires AllowedCount(p, Run(p, t, [limited]), between, limited.identity, limited.surface) == 0
    requires retry.now >= limited.now + CheckAt(p, t, limited).1.retryAfter * ONE
    ensures var t' := Run(p, Run(p, t, [limited]), between);
            !CheckAt(p, t', retry).1.Limited?
            && (retry.identity in t' ==> CheckAt(p, t', retry).1 == Allowed)
  {
    LimitedAccrues(p, t, limited);
    RetryAccrues(p, Run(p, t, [limited]), limited, between, retry);
    var t' := Run(p, Run(p, t, [limited]), between);
    EnoughAccrued(p, t', limited.identity, limited.surface, limited.now, retry.now);
    EnoughIsAllowed(p, t', retry);
  }

  lemma EnoughAccrued(p: RatePolicy, t: Table, id: Digest, s: Surface, since: int, now: int)
    requires p.Valid() && Accrued(p, t, id, s, since, now) && now >= since + ONE
    ensures Available(p, t, id, s, now) >= ONE
  {
    WaitedLongEnough(p, s, now - since);
  }

  lemma {:induction false} RetryAccrues(p: RatePolicy, t: Table, limited: Request, between: seq<Request>, retry: Request)
    requires p.Valid() && ValidTable(p, t) && |t| <= p.maxTracked
    requires Accrued(p, t, limited.identity, limited.surface, limited.now, limited.now)
    requires Ordered(limited.now, between + [retry])
    requires AllowedCount(p, t, between, limited.identity, limited.surface) == 0
    ensures Accrued(p, Run(p, t, between), limited.identity, limited.surface, limited.now, retry.now)
  {
    var id, s := limited.identity, limited.surface;
    OrderedSplit(limited.now, between, [retry]);
    AccruedOverRun(p, t, between, id, s, limited.now, limited.now);
    AccruesLater(p, Run(p, t, between), id, s, limited.now, EndTime(limited.now, between), retry.now);
  }

  /** A limited request leaves its bucket tracked and refilled at that moment. */
  lemma {:induction false} LimitedAccrues(p: RatePolicy, t: Table, r: Request)
    requires p.Valid() && ValidTable(p, t) && |t| <= p.maxTracked && CheckAt(p, t, r).1.Limited?
    ensures CheckAt(p, t, r).1.retryAfter >= 1
    ensures Accrued(p, Run(p, t, [r]), r.identity, r.surface, r.now, r.now)
  {
    CheckKeepsTable(p, t, r);
    var t1 := CheckAt(p, t, r).0;
    assert Run(p, t, [r]) == t1 by {
      assert [r][1..] == [];
    }
    assert r.identity in t1 && t1[r.identity].Bucket(r.surface).lastRefill == r.now;
    AvailableInRange(p, t1, r.identity, r.surface, r.now);
  }

  lemma EnoughIsAllowed(p: RatePolicy, t: Table, r: Request)
    requires p.Valid() && ValidTable(p, t) && Available(p, t, r.identity, r.surface, r.now) >= ONE
    ensures !CheckAt(p, t, r).1.Limited?
    ensures r.identity in t ==> CheckAt(p, t, r).1 == Allowed
  {
    var reserved := Reserve(p, t, r.identity, r.now);
    assert r.identity in reserved ==> Available(p, reserved, r.identity, r.surface, r.now) >= ONE;
  }

  lemma {:induction false} WaitedLongEnough(p: RatePolicy, s: Surface, waited: int)
    requires p.Valid() && waited >= ONE
    ensures Min(p.For(s).Cap(), Refill(p.For(s).rate, waited)) >= ONE
  {
    assert p.For(s).Valid();
    RefillIsProduct(p.For(s).rate, waited);
    MulAtLeast(waited, 1, p.For(s).rate);
  }
}
