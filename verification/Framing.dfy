/** What the program feeds to its hashes. A digest is treated as a function of its preimage, so two
    things are told apart by a digest only if their preimages differ. */
module Framing {
  import opened Options

  type Byte = b: nat | b < 256 witness 0
  type Bytes = seq<Byte>

  /** The bytes of an ASCII literal. */
  function Octets(s: string): (r: Bytes)
    requires forall i :: 0 <= i < |s| ==> s[i] as int < 128
    ensures |r| == |s| && forall i :: 0 <= i < |s| ==> r[i] == s[i] as int
  {
    seq(|s|, i requires 0 <= i < |s| => s[i] as int)
  }

  // ---- Length-prefixed fields ----

  function Pow256(k: nat): (r: nat)
    ensures r >= 1
  {
    if k == 0 then 1 else 256 * Pow256(k - 1)
  }

  /** The `k` low-order bytes of `n`, most significant first. */
  function BigEndian(n: nat, k: nat): (r: Bytes)
    ensures |r| == k
  {
    if k == 0 then [] else BigEndian(n / 256, k - 1) + [n % 256]
  }

  lemma {:induction false} BigEndianInjective(m: nat, n: nat, k: nat)
    requires m < Pow256(k) && n < Pow256(k) && BigEndian(m, k) == BigEndian(n, k)
    ensures m == n
    decreases k
  {
    if k > 0 {
      var a, b := BigEndian(m, k), BigEndian(n, k);
      assert a[..k - 1] == BigEndian(m / 256, k - 1) && b[..k - 1] == BigEndian(n / 256, k - 1);
      assert a[k - 1] == m % 256 && b[k - 1] == n % 256;
      BigEndianInjective(m / 256, n / 256, k - 1);
    }
  }

  /** A field behind its length in `k` bytes. */
  function Frame(field: Bytes, k: nat): Bytes {
    BigEndian(|field|, k) + field
  }

  predicate Fits(field: Bytes, k: nat) {
    |field| < Pow256(k)
  }

  /** A frame can be read off the front of any message. */
  lemma FrameInjective(a: Bytes, x: Bytes, b: Bytes, y: Bytes, k: nat)
    requires Fits(a, k) && Fits(b, k) && Frame(a, k) + x == Frame(b, k) + y
    ensures a == b && x == y
  {
    var m := Frame(a, k) + x;
    assert m[..k] == BigEndian(|a|, k) && m[..k] == BigEndian(|b|, k);
    BigEndianInjective(|a|, |b|, k);
    assert a == m[k..k + |a|] && b == m[k..k + |a|];
    assert x == m[k + |a|..] && y == m[k + |a|..];
  }

  function Frames(fields: seq<Bytes>, k: nat): Bytes {
    if fields == [] then [] else Frame(fields[0], k) + Frames(fields[1..], k)
  }

  predicate AllFit(fields: seq<Bytes>, k: nat) {
    forall i :: 0 <= i < |fields| ==> Fits(fields[i], k)
  }

  /** Any list of framed fields can be recovered, whatever their number. */
  lemma {:induction false} FramesInjective(fs: seq<Bytes>, gs: seq<Bytes>, k: nat)
    requires k >= 1 && AllFit(fs, k) && AllFit(gs, k) && Frames(fs, k) == Frames(gs, k)
    ensures fs == gs
    decreases |fs|
  {
    assert fs != [] ==> |Frames(fs, k)| >= k;
    assert gs != [] ==> |Frames(gs, k)| >= k;
    if fs != [] {
      FrameInjective(fs[0], Frames(fs[1..], k), gs[0], Frames(gs[1..], k), k);
      FramesInjective(fs[1..], gs[1..], k);
      assert fs == [fs[0]] + fs[1..] && gs == [gs[0]] + gs[1..];
    }
  }

  lemma {:induction false} FramesAppend(fs: seq<Bytes>, f: Bytes, k: nat)
    ensures Frames(fs + [f], k) == Frames(fs, k) + Frame(f, k)
    decreases |fs|
  {
    if fs == [] {
      assert fs + [f] == [f] && [f][1..] == [];
    } else {
      assert (fs + [f])[0] == fs[0] && (fs + [f])[1..] == fs[1..] + [f];
      FramesAppend(fs[1..], f, k);
    }
  }

  /** Behind the same prefix, the fields decide. */
  lemma {:induction false} PrefixedFramesInjective(d: Bytes, fs: seq<Bytes>, gs: seq<Bytes>, k: nat)
    requires k >= 1 && AllFit(fs, k) && AllFit(gs, k)
    ensures d + Frames(fs, k) == d + Frames(gs, k) <==> fs == gs
  {
    if d + Frames(fs, k) == d + Frames(gs, k) {
      PrefixCancels(d, Frames(fs, k), Frames(gs, k));
      FramesInjective(fs, gs, k);
    }
  }

  lemma PrefixCancels(d: Bytes, x: Bytes, y: Bytes)
    requires d + x == d + y
    ensures x == y
  {
    assert x == (d + x)[|d|..] && y == (d + y)[|d|..];
  }

  // ---- Terminated parts ----

  predicate NulFree(s: Bytes) {
    forall i :: 0 <= i < |s| ==> s[i] != 0
  }

  function FirstNul(s: Bytes): nat {
    if s == [] || s[0] == 0 then 0 else 1 + FirstNul(s[1..])
  }

  lemma {:induction false} TerminatorFound(a: Bytes, x: Bytes)
    requires NulFree(a)
    ensures FirstNul(a + [0] + x) == |a|
    decreases |a|
  {
    if a != [] {
      assert (a + [0] + x)[0] == a[0] && (a + [0] + x)[1..] == a[1..] + [0] + x;
      TerminatorFound(a[1..], x);
    }
  }

  /** A NUL-free part and its terminator can be read off the front of any message. */
  lemma TerminatedInjective(a: Bytes, x: Bytes, b: Bytes, y: Bytes)
    requires NulFree(a) && NulFree(b) && a + [0] + x == b + [0] + y
    ensures a == b && x == y
  {
    var m, n := a + [0] + x, b + [0] + y;
    TerminatorFound(a, x);
    TerminatorFound(b, y);
    assert a == m[..|a|] && b == n[..|a|];
    assert x == m[|a| + 1..] && y == n[|a| + 1..];
  }

  // ---- Domains ----

  function Domain(name: string): Bytes
    requires forall i :: 0 <= i < |name| ==> 0 < name[i] as int < 128
  {
    Octets(name) + [0]
  }

  /** Every domain is a NUL-free name with a terminator, so messages of different domains differ. */
  lemma DomainsSeparate(d: string, e: string, x: Bytes, y: Bytes)
    requires forall i :: 0 <= i < |d| ==> 0 < d[i] as int < 128
    requires forall i :: 0 <= i < |e| ==> 0 < e[i] as int < 128
    requires Domain(d) + x == Domain(e) + y
    ensures d == e && x == y
  {
    TerminatedInjective(Octets(d), x, Octets(e), y);
    forall i | 0 <= i < |d| ensures d[i] == e[i] {
      assert Octets(d)[i] == Octets(e)[i];
    }
  }

  const RATE_DOMAIN := "bridgefu.api-principal-rate-key.v1"
  const FINGERPRINT_DOMAIN := "bridgefu.principal-fingerprint.v1"
  const IDEMPOTENCY_DOMAIN := "bridgefu.broadcast.idempotency.v1"
  const REQUEST_DOMAIN := "bridgefu.broadcast.request.v1"
  const WEBHOOK_DOMAIN := "bridgefu.provider-webhook.v1"

  // ---- Principals ----

  /** The identity of a validated principal. */
  datatype Principal = Principal(issuer: Option<Bytes>, tenant: Bytes, subject: Bytes)

  /** The part of principal validation the framings rely on: bounded fields, and no empty issuer. */
  predicate ValidPrincipal(p: Principal) {
    && Bounded(p)
    && (p.issuer.Some? ==> p.issuer.value != [])
  }

  predicate FitsPrincipal(p: Principal, k: nat) {
    && (p.issuer.Some? ==> Fits(p.issuer.value, k)) && Fits(p.tenant, k) && Fits(p.subject, k)
  }

  predicate Bounded(p: Principal) {
    FitsPrincipal(p, 4)
  }

  function IssuerOrEmpty(p: Principal): Bytes {
    match p.issuer case None => [] case Some(i) => i
  }

  /** Preimage of the key under which a principal's requests are rate limited. */
  function RatePreimage(p: Principal): Bytes {
    Domain(RATE_DOMAIN) + Frames([IssuerOrEmpty(p), p.tenant, p.subject], 8)
  }

  function LegacyRatePreimage(): Bytes {
    Domain(RATE_DOMAIN) + Octets("legacy-static-key")
  }

  lemma FitsMore(f: Bytes)
    requires Fits(f, 4)
    ensures Fits(f, 8)
  {
    assert Pow256(8) == 256 * Pow256(7) && Pow256(7) == 256 * Pow256(6);
    assert Pow256(6) == 256 * Pow256(5) && Pow256(5) == 256 * Pow256(4);
  }

  /** The rate key sees tenant, subject and issuer, except that it cannot tell an absent issuer from
      an empty one. */
  lemma RatePreimageSees(p: Principal, q: Principal)
    requires Bounded(p) && Bounded(q)
    ensures RatePreimage(p) == RatePreimage(q)
       <==> p.tenant == q.tenant && p.subject == q.subject && IssuerOrEmpty(p) == IssuerOrEmpty(q)
  {
    var fs, gs := [IssuerOrEmpty(p), p.tenant, p.subject], [IssuerOrEmpty(q), q.tenant, q.subject];
    RateFieldsFit(p);
    RateFieldsFit(q);
    PrefixedFramesInjective(Domain(RATE_DOMAIN), fs, gs, 8);
    assert fs == gs <==> fs[0] == gs[0] && fs[1] == gs[1] && fs[2] == gs[2];
  }

  lemma RateFieldsFit(p: Principal)
    requires Bounded(p)
    ensures AllFit([IssuerOrEmpty(p), p.tenant, p.subject], 8)
  {
    assert Fits(IssuerOrEmpty(p), 4);
    FitsMore(IssuerOrEmpty(p));
    FitsMore(p.tenant);
    FitsMore(p.subject);
  }

  /** On validated principals the rate key is one to one, because an empty issuer is rejected. */
  lemma RatePreimageInjective(p: Principal, q: Principal)
    requires ValidPrincipal(p) && ValidPrincipal(q) && RatePreimage(p) == RatePreimage(q)
    ensures p == q
  {
    RatePreimageSees(p, q);
  }

  /** Without that check two principals would share a bucket. */
  lemma AbsentAndEmptyIssuerCollide(tenant: Bytes, subject: Bytes)
    requires Fits(tenant, 4) && Fits(subject, 4)
    ensures var p, q := Principal(None, tenant, subject), Principal(Some([]), tenant, subject);
            p != q && Bounded(p) && Bounded(q) && RatePreimage(p) == RatePreimage(q)
  {
  }

  /** The shared legacy key is nobody's rate key. */
  lemma LegacyIsNoPrincipal(p: Principal)
    ensures RatePreimage(p) != LegacyRatePreimage()
  {
    var fields := [IssuerOrEmpty(p), p.tenant, p.subject];
    assert fields[1..] == [p.tenant, p.subject];
    assert [p.tenant, p.subject][1..] == [p.subject];
    assert |Frames(fields, 8)| == |Frame(fields[0], 8)| + |Frames([p.tenant, p.subject], 8)|;
    assert |Frames([p.tenant, p.subject], 8)| == |Frame(p.tenant, 8)| + |Frames([p.subject], 8)|;
    assert |RatePreimage(p)| >= |Domain(RATE_DOMAIN)| + 24;
    assert |LegacyRatePreimage()| == |Domain(RATE_DOMAIN)| + 17;
  }

  /** The issuer carries a tag that says whether it is there. */
  function TaggedFields(p: Principal, k: nat): Bytes {
    (match p.issuer case None => [0] case Some(i) => [1] + Frame(i, k)) + Frames([p.tenant, p.subject], k)
  }

  /** Preimage of the ownership fingerprint. */
  function FingerprintPreimage(p: Principal): Bytes {
    Domain(FINGERPRINT_DOMAIN) + TaggedFields(p, 4)
  }

  lemma TaggedFieldsInjective(p: Principal, q: Principal, k: nat)
    requires k >= 1 && FitsPrincipal(p, k) && FitsPrincipal(q, k) && TaggedFields(p, k) == TaggedFields(q, k)
    ensures p == q
  {
    var m, n := TaggedFields(p, k), TaggedFields(q, k);
    var fs, gs := [p.tenant, p.subject], [q.tenant, q.subject];
    assert m[0] == (if p.issuer.Some? then 1 else 0) && n[0] == (if q.issuer.Some? then 1 else 0);
    if p.issuer.Some? {
      assert m[1..] == Frame(p.issuer.value, k) + Frames(fs, k);
      assert n[1..] == Frame(q.issuer.value, k) + Frames(gs, k);
      FrameInjective(p.issuer.value, Frames(fs, k), q.issuer.value, Frames(gs, k), k);
    } else {
      assert m[1..] == Frames(fs, k) && n[1..] == Frames(gs, k);
    }
    FramesInjective(fs, gs, k);
    assert fs[0] == gs[0] && fs[1] == gs[1];
  }

  /** The ownership fingerprint tells all bounded principals apart, even with an empty issuer. */
  lemma FingerprintInjective(p: Principal, q: Principal)
    requires Bounded(p) && Bounded(q) && FingerprintPreimage(p) == FingerprintPreimage(q)
    ensures p == q
  {
    PrefixCancels(Domain(FINGERPRINT_DOMAIN), TaggedFields(p, 4), TaggedFields(q, 4));
    TaggedFieldsInjective(p, q, 4);
  }

  /** Feed framed components one after the other, as the rate key is built. */
  method FeedComponents(domain: Bytes, components: seq<Bytes>, k: nat) returns (fed: Bytes)
    ensures fed == domain + Frames(components, k)
  {
    fed := domain;
    for i := 0 to |components|
      invariant fed == domain + Frames(components[..i], k)
    {
      FramesAppend(components[..i], components[i], k);
      assert components[..i] + [components[i]] == components[..i + 1];
      fed := fed + BigEndian(|components[i]|, k);
      fed := fed + components[i];
    }
    assert components[..|components|] == components;
  }

  method PrincipalRateIdentity(p: Principal) returns (fed: Bytes)
    ensures fed == RatePreimage(p)
  {
    fed := FeedComponents(Domain(RATE_DOMAIN), [IssuerOrEmpty(p), p.tenant, p.subject], 8);
  }

  // ---- Broadcast operations ----

  datatype Operation = Operation(tenant: Bytes, key: Bytes, operation: Bytes, resource: Bytes, body: Bytes)

  predicate BoundedOperation(o: Operation) {
    Fits(o.tenant, 8) && Fits(o.key, 8) && Fits(o.operation, 8) && Fits(o.resource, 8) && Fits(o.body, 8)
  }

  function IdempotencyPreimage(o: Operation): Bytes {
    Domain(IDEMPOTENCY_DOMAIN) + Frames([o.tenant, o.key], 8)
  }

  function RequestPreimage(o: Operation): Bytes {
    Domain(REQUEST_DOMAIN) + Frames([o.tenant, o.operation, o.resource, o.body], 8)
  }

  /** The idempotency digest sees exactly tenant and key, the request digest exactly the tenant and
      what is asked, and no digest of one kind is one of the other. */
  lemma BroadcastPreimagesSee(o: Operation, p: Operation)
    requires BoundedOperation(o) && BoundedOperation(p)
    ensures IdempotencyPreimage(o) == IdempotencyPreimage(p) <==> o.tenant == p.tenant && o.key == p.key
    ensures RequestPreimage(o) == RequestPreimage(p)
       <==> o.tenant == p.tenant && o.operation == p.operation && o.resource == p.resource && o.body == p.body
    ensures IdempotencyPreimage(o) != RequestPreimage(p)
  {
    var fs, gs := [o.tenant, o.key], [p.tenant, p.key];
    PrefixedFramesInjective(Domain(IDEMPOTENCY_DOMAIN), fs, gs, 8);
    assert fs == gs <==> fs[0] == gs[0] && fs[1] == gs[1];
    RequestPreimageSees(o, p);
    KindsDiffer(Frames(fs, 8), Frames([p.tenant, p.operation, p.resource, p.body], 8));
  }

  lemma RequestPreimageSees(o: Operation, p: Operation)
    requires BoundedOperation(o) && BoundedOperation(p)
    ensures RequestPreimage(o) == RequestPreimage(p)
       <==> o.tenant == p.tenant && o.operation == p.operation && o.resource == p.resource && o.body == p.body
  {
    var fs, gs := [o.tenant, o.operation, o.resource, o.body], [p.tenant, p.operation, p.resource, p.body];
    PrefixedFramesInjective(Domain(REQUEST_DOMAIN), fs, gs, 8);
    assert fs == gs <==> fs[0] == gs[0] && fs[1] == gs[1] && fs[2] == gs[2] && fs[3] == gs[3];
  }

  lemma KindsDiffer(x: Bytes, y: Bytes)
    ensures Domain(IDEMPOTENCY_DOMAIN) + x != Domain(REQUEST_DOMAIN) + y
  {
    assert |IDEMPOTENCY_DOMAIN| != |REQUEST_DOMAIN|;
    if Domain(IDEMPOTENCY_DOMAIN) + x == Domain(REQUEST_DOMAIN) + y {
      DomainsSeparate(IDEMPOTENCY_DOMAIN, REQUEST_DOMAIN, x, y);
      assert false;
    }
  }

  // ---- The observer's correlation ----

  datatype Attempt = Attempt(nonce: string, caseId: string, hangup: string)

  predicate IsBase64Urlish(c: char) {
    '0' <= c <= '9' || 'a' <= c <= 'z' || 'A' <= c <= 'Z' || c == '-' || c == '_'
  }

  predicate ValidAttempt(a: Attempt) {
    && 16 <= |a.nonce| <= 96 && (forall i :: 0 <= i < |a.nonce| ==> IsBase64Urlish(a.nonce[i]))
    && a.caseId in {"static-sip-echo", "dynamic-sip-echo", "dynamic-bridgefu-sips"}
    && a.hangup in {"browser", "sip_peer"}
  }

  predicate PlainText(s: string) {
    forall i :: 0 <= i < |s| ==> 0 < s[i] as int < 128
  }

  predicate PlainParts(a: Attempt) {
    PlainText(a.nonce) && PlainText(a.caseId) && PlainText(a.hangup)
  }

  function CorrelationPreimage(a: Attempt): Bytes
    requires PlainParts(a)
  {
    Octets(a.nonce) + [0] + (Octets(a.caseId) + [0] + Octets(a.hangup))
  }

  lemma ValidIsPlain(a: Attempt)
    requires ValidAttempt(a)
    ensures PlainParts(a)
  {
    CaseIsPlain(a.caseId);
    HangupIsPlain(a.hangup);
  }

  lemma CaseIsPlain(s: string)
    requires s in {"static-sip-echo", "dynamic-sip-echo", "dynamic-bridgefu-sips"}
    ensures PlainText(s)
  {
    if s == "static-sip-echo" {
      assert PlainText("static-sip-echo");
    } else if s == "dynamic-sip-echo" {
      assert PlainText("dynamic-sip-echo");
    } else {
      assert PlainText("dynamic-bridgefu-sips");
    }
  }

  lemma HangupIsPlain(s: string)
    requires s in {"browser", "sip_peer"}
    ensures PlainText(s)
  {
    if s == "browser" {
      assert PlainText("browser");
    } else {
      assert PlainText("sip_peer");
    }
  }

  lemma OctetsInjective(s: string, t: string)
    requires PlainText(s) && PlainText(t) && Octets(s) == Octets(t)
    ensures s == t
  {
    forall i | 0 <= i < |s| ensures s[i] == t[i] {
      assert Octets(s)[i] == Octets(t)[i];
    }
  }

  /** The preimage of a validated request determines its nonce, case and hang-up origin. */
  lemma CorrelationSees(a: Attempt, b: Attempt)
    requires ValidAttempt(a) && ValidAttempt(b)
    ensures PlainParts(a) && PlainParts(b)
    ensures CorrelationPreimage(a) == CorrelationPreimage(b) <==> a == b
  {
    ValidIsPlain(a);
    ValidIsPlain(b);
    if CorrelationPreimage(a) == CorrelationPreimage(b) {
      CorrelationInjective(a, b);
    }
  }

  lemma CorrelationInjective(a: Attempt, b: Attempt)
    requires PlainParts(a) && PlainParts(b) && CorrelationPreimage(a) == CorrelationPreimage(b)
    ensures a == b
  {
    TerminatedInjective(
      Octets(a.nonce), Octets(a.caseId) + [0] + Octets(a.hangup),
      Octets(b.nonce), Octets(b.caseId) + [0] + Octets(b.hangup));
    TerminatedInjective(Octets(a.caseId), Octets(a.hangup), Octets(b.caseId), Octets(b.hangup));
    OctetsInjective(a.nonce, b.nonce);
    OctetsInjective(a.caseId, b.caseId);
    OctetsInjective(a.hangup, b.hangup);
  }
}
