/** One token bucket of the control-API limiter, and what any sequence of calls on it can admit.

    Time is counted in nanoseconds and tokens in billionths of a token, so a refill of
    `elapsed * rate` is exact. The `f64` of the program approximates this arithmetic. The product
    is written as repeated addition, which keeps the proofs linear; RefillIsProduct says it is one. */
module TokenBuckets {

  /** One second in nanoseconds; also one whole token in billionths. */
  const ONE: nat := 1_000_000_000
  const MILLISECOND: nat := 1_000_000

  datatype BucketPolicy = BucketPolicy(rate: nat, burst: nat) {
    /** The per-surface bounds that configuration validation enforces. */
    predicate Valid() {
      1 <= rate <= 100_000 && 1 <= burst <= 1_000_000
    }

    function Cap(): nat {
      burst * ONE
    }
  }

  function Min(a: int, b: int): int {
    if a < b then a else b
  }

  function Max(a: int, b: int): int {
    if a < b then b else a
  }

  /** Saturating difference of two instants. */
  function Elapsed(now: int, since: int): nat {
    if since < now then now - since else 0
  }

  /** Billionths of a token gained in `nanos` nanoseconds at `rate` tokens a second. */
  function Refill(rate: nat, nanos: nat): nat {
    if nanos == 0 then 0 else Refill(rate, nanos - 1) + rate
  }

  lemma {:induction false} RefillIsProduct(rate: nat, nanos: nat)
    ensures Refill(rate, nanos) == rate * nanos
  {
    if nanos > 0 {
      RefillIsProduct(rate, nanos - 1);
    }
  }

  lemma {:induction false} RefillAdds(rate: nat, whole: nat, a: nat, b: nat)
    requires whole == a + b
    ensures Refill(rate, whole) == Refill(rate, a) + Refill(rate, b)
    decreases b
  {
    if b > 0 {
      RefillAdds(rate, whole - 1, a, b - 1);
    }
  }

  lemma {:induction false} RefillGrows(rate: nat, a: nat, b: nat)
    requires a <= b
    ensures Refill(rate, a) <= Refill(rate, b)
  {
    RefillAdds(rate, b, a, b - a);
  }

  datatype Admission = Admitted | Wait(nanos: nat)

  datatype TokenBucket = TokenBucket(tokens: int, lastRefill: int) {
    static function Full(policy: BucketPolicy, now: int): TokenBucket {
      TokenBucket(policy.Cap(), now)
    }

    predicate Valid(policy: BucketPolicy) {
      0 <= tokens <= policy.Cap()
    }

    /** Tokens the bucket would hold if it were used at `now`. */
    function TokensAt(policy: BucketPolicy, now: int): int {
      Min(tokens + Refill(policy.rate, Elapsed(now, lastRefill)), policy.Cap())
    }

    /** Refill, then take one token if there is one. A rejected call is told how long a
        whole token takes, rounded to the nearest nanosecond and at least a millisecond. */
    function Admit(policy: BucketPolicy, now: int): (r: (TokenBucket, Admission))
      requires policy.Valid() && Valid(policy)
      ensures r.0.Valid(policy) && r.0.lastRefill == now
      ensures r.1.Admitted? <==> TokensAt(policy, now) >= ONE
      ensures r.0.tokens + (if r.1.Admitted? then ONE else 0) == TokensAt(policy, now)
      ensures r.1.Wait? ==> MILLISECOND <= r.1.nanos <= ONE
    {
      var refilled := TokensAt(policy, now);
      assert refilled >= 0;
      if refilled >= ONE then
        (TokenBucket(refilled - ONE, now), Admitted)
      else
        WaitIsAtMostOneSecond(refilled, policy.rate);
        (TokenBucket(refilled, now), Wait(Max(NearestQuotient(ONE - refilled, policy.rate), MILLISECOND)))
    }
  }

  function NearestQuotient(a: nat, b: nat): nat
    requires b > 0
  {
    (2 * a + b) / (2 * b)
  }

  lemma WaitIsAtMostOneSecond(tokens: int, rate: nat)
    requires 0 <= tokens < ONE && rate >= 1
    ensures NearestQuotient(ONE - tokens, rate) <= ONE
  {
    var a := ONE - tokens;
    var q := NearestQuotient(a, rate);
    if q > ONE {
      MulAtLeast(2 * rate, ONE + 1, q);
      MulAtLeast(2 * ONE, 1, rate);
      assert false;
    }
  }

  /** Rounded to the nearest whole number. */
  lemma NearestIsNearest(a: nat, b: nat)
    requires b > 0
    ensures 2 * b * NearestQuotient(a, b) - b <= 2 * a < 2 * b * NearestQuotient(a, b) + b
  {
    var x, d := 2 * a + b, 2 * b;
    assert x == d * (x / d) + x % d;
  }

  /** A rejected call is told to wait as long as the missing part of a token takes at the rate, to the
      nearest nanosecond, but for a millisecond at least. */
  lemma WaitIsNearest(b: TokenBucket, policy: BucketPolicy, now: int)
    requires policy.Valid() && b.Valid(policy) && b.Admit(policy, now).1.Wait?
    ensures var missing, nanos := ONE - b.TokensAt(policy, now), b.Admit(policy, now).1.nanos;
      && 2 * missing < 2 * policy.rate * nanos + policy.rate
      && (nanos > MILLISECOND ==> 2 * policy.rate * nanos - policy.rate <= 2 * missing)
  {
    var missing := ONE - b.TokensAt(policy, now);
    NearestIsNearest(missing, policy.rate);
    MulAtLeast(2 * policy.rate, NearestQuotient(missing, policy.rate), b.Admit(policy, now).1.nanos);
  }

  lemma MulAtLeast(k: nat, a: int, b: int)
    requires a <= b
    ensures k * a <= k * b
  {
  }

  /** Whole seconds a rejection advertises: rounded up, never zero. */
  function RetryAfterSeconds(nanos: nat): (s: nat)
    ensures s >= 1
    ensures s * ONE >= nanos
    ensures s > 1 ==> (s - 1) * ONE < nanos
  {
    Max(nanos / ONE + (if nanos % ONE > 0 then 1 else 0), 1)
  }

  /** Under validated bounds every bucket rejection advertises exactly one second. */
  lemma RejectionAdvertisesOneSecond(b: TokenBucket, policy: BucketPolicy, now: int)
    requires policy.Valid() && b.Valid(policy)
    ensures b.Admit(policy, now).1.Wait? ==> RetryAfterSeconds(b.Admit(policy, now).1.nanos) == 1
  {
    var a := b.Admit(policy, now).1;
    if a.Wait? && RetryAfterSeconds(a.nanos) > 1 {
      MulAtLeast(ONE, 1, RetryAfterSeconds(a.nanos) - 1);
      assert false;
    }
  }

  // ---- Any sequence of calls, at any times ----

  function RunBucket(b: TokenBucket, policy: BucketPolicy, times: seq<int>): (r: TokenBucket)
    requires policy.Valid() && b.Valid(policy)
    ensures r.Valid(policy)
    decreases |times|
  {
    if times == [] then b else RunBucket(b.Admit(policy, times[0]).0, policy, times[1..])
  }

  function Admissions(b: TokenBucket, policy: BucketPolicy, times: seq<int>): nat
    requires policy.Valid() && b.Valid(policy)
    decreases |times|
  {
    if times == [] then 0
    else
      var (next, a) := b.Admit(policy, times[0]);
      (if a.Admitted? then 1 else 0) + Admissions(next, policy, times[1..])
  }

  /** Total forward movement of the clock over the calls, starting from `from`. */
  function Forward(from: int, times: seq<int>): nat
    decreases |times|
  {
    if times == [] then 0 else Elapsed(times[0], from) + Forward(times[0], times[1..])
  }

  ghost predicate Monotone(times: seq<int>) {
    forall i, j :: 0 <= i <= j < |times| ==> times[i] <= times[j]
  }

  /** Tokens are conserved: what was spent and what is left came from the start and the refill. */
  lemma {:induction false} TokenConservation(b: TokenBucket, policy: BucketPolicy, times: seq<int>)
    requires policy.Valid() && b.Valid(policy)
    ensures RunBucket(b, policy, times).tokens + Admissions(b, policy, times) * ONE
         <= b.tokens + Refill(policy.rate, Forward(b.lastRefill, times))
    decreases |times|
  {
    if times != [] {
      var (next, a) := b.Admit(policy, times[0]);
      TokenConservation(next, policy, times[1..]);
      var gained, later := Elapsed(times[0], b.lastRefill), Forward(times[0], times[1..]);
      RefillAdds(policy.rate, Forward(b.lastRefill, times), gained, later);
    }
  }

  /** Over any contiguous run of calls, in whatever order their times come, admissions are at
      most the burst plus the rate times the forward movement of the clock during the run. */
  lemma {:induction false} AdmissionBound(b: TokenBucket, policy: BucketPolicy, times: seq<int>)
    requires policy.Valid() && b.Valid(policy) && times != []
    ensures Admissions(b, policy, times) * ONE
         <= policy.Cap() + policy.rate * Forward(times[0], times[1..])
  {
    TokenConservation(b.Admit(policy, times[0]).0, policy, times[1..]);
    RefillIsProduct(policy.rate, Forward(times[0], times[1..]));
  }

  /** With ordered times the forward movement is the length of the window. */
  lemma {:induction false} MonotoneForward(from: int, times: seq<int>)
    requires Monotone([from] + times)
    ensures Forward(from, times) == ([from] + times)[|times|] - from
    decreases |times|
  {
    if times != [] {
      var all := [from] + times;
      assert all[0] <= all[1] && all[1] == times[0];
      assert [times[0]] + times[1..] == times;
      assert Monotone(times) by {
        forall i, j | 0 <= i <= j < |times| ensures times[i] <= times[j] {
          assert times[i] == all[i + 1] && times[j] == all[j + 1];
        }
      }
      MonotoneForward(times[0], times[1..]);
    }
  }

  lemma {:induction false} WindowBound(b: TokenBucket, policy: BucketPolicy, times: seq<int>)
    requires policy.Valid() && b.Valid(policy) && times != [] && Monotone(times)
    ensures Admissions(b, policy, times) * ONE
         <= policy.Cap() + policy.rate * (times[|times| - 1] - times[0])
  {
    AdmissionBound(b, policy, times);
    assert [times[0]] + times[1..] == times;
    MonotoneForward(times[0], times[1..]);
  }
}
