/** Reading the preimages back: a reader that knows only the layout recovers every field in its place. */
module FramingReads {
  import opened Options
  import opened Framing
  import opened ProviderDigest

  /** The number that bytes write, the most significant first. */
  function Unsigned(bytes: Bytes): nat {
    if bytes == [] then 0 else Unsigned(bytes[..|bytes| - 1]) * 256 + bytes[|bytes| - 1]
  }

  lemma {:induction false} UnsignedReads(n: nat, k: nat)
    requires n < Pow256(k)
    ensures Unsigned(BigEndian(n, k)) == n
    decreases k
  {
    if k > 0 {
      var b := BigEndian(n, k);
      assert b[..k - 1] == BigEndian(n / 256, k - 1) && b[k - 1] == n % 256;
      UnsignedReads(n / 256, k - 1);
    }
  }

  /** Read one field behind its length in `k` bytes, and what follows it. */
  function ReadFrame(m: Bytes, k: nat): Option<(Bytes, Bytes)> {
    if |m| < k then None
    else
      var n := Unsigned(m[..k]);
      if |m| < k + n then None else Some((m[k..k + n], m[k + n..]))
  }

  lemma ReadsFrame(f: Bytes, rest: Bytes, k: nat)
    requires Fits(f, k)
    ensures ReadFrame(Frame(f, k) + rest, k) == Some((f, rest))
  {
    var m := Frame(f, k) + rest;
    assert m[..k] == BigEndian(|f|, k);
    UnsignedReads(|f|, k);
    assert m[k..k + |f|] == f && m[k + |f|..] == rest;
  }

  /** Read `n` fields, and nothing may follow them. */
  function ReadFrames(m: Bytes, k: nat, n: nat): Option<seq<Bytes>>
    decreases n
  {
    if n == 0 then if m == [] then Some([]) else None
    else
      match ReadFrame(m, k)
      case None => None
      case Some((f, rest)) =>
        match ReadFrames(rest, k, n - 1)
        case None => None
        case Some(fs) => Some([f] + fs)
  }

  lemma {:induction false} ReadsFrames(fs: seq<Bytes>, k: nat)
    requires AllFit(fs, k)
    ensures ReadFrames(Frames(fs, k), k, |fs|) == Some(fs)
    decreases |fs|
  {
    if fs != [] {
      ReadsFrame(fs[0], Frames(fs[1..], k), k);
      ReadsFrames(fs[1..], k);
      assert [fs[0]] + fs[1..] == fs;
    }
  }

  /** Read up to the first NUL, and what follows it. */
  function ReadName(m: Bytes): Option<(Bytes, Bytes)> {
    var n := FirstNul(m);
    if n < |m| then Some((m[..n], m[n + 1..])) else None
  }

  lemma ReadsName(a: Bytes, rest: Bytes)
    requires NulFree(a)
    ensures ReadName(a + [0] + rest) == Some((a, rest))
  {
    TerminatorFound(a, rest);
    var m := a + [0] + rest;
    assert m[..|a|] == a && m[|a| + 1..] == rest;
  }

  /** A message of one domain with `fields` behind 8-byte lengths. */
  predicate Reads(m: Bytes, name: string, fields: seq<Bytes>) {
    && PlainText(name)
    && ReadName(m).Some? && ReadName(m).value.0 == Octets(name)
    && ReadFrames(ReadName(m).value.1, 8, |fields|) == Some(fields)
  }

  lemma {:induction false} DomainReads(name: string, fields: seq<Bytes>)
    requires PlainText(name) && AllFit(fields, 8)
    ensures Reads(Domain(name) + Frames(fields, 8), name, fields)
  {
    ReadsName(Octets(name), Frames(fields, 8));
    ReadsFrames(fields, 8);
  }

  /** The rate key is made of the issuer, empty if there is none, the tenant and the subject. */
  lemma RateReads(p: Principal)
    requires Bounded(p)
    ensures Reads(RatePreimage(p), "bridgefu.api-principal-rate-key.v1",
              [if p.issuer.Some? then p.issuer.value else [], p.tenant, p.subject])
  {
    RateFieldsFit(p);
    DomainReads(RATE_DOMAIN, [IssuerOrEmpty(p), p.tenant, p.subject]);
  }

  /** The ownership fingerprint is made of a tag, the issuer if the tag is one, the tenant and the
      subject, behind 4-byte lengths. */
  lemma FingerprintReads(p: Principal)
    requires Bounded(p)
    ensures var m := FingerprintPreimage(p);
      && ReadName(m).Some? && PlainText("bridgefu.principal-fingerprint.v1")
      && ReadName(m).value.0 == Octets("bridgefu.principal-fingerprint.v1")
      && var body := ReadName(m).value.1;
         && body != []
         && (if p.issuer.Some? then body[0] == 1 && ReadFrames(body[1..], 4, 3) == Some([p.issuer.value, p.tenant, p.subject])
             else body[0] == 0 && ReadFrames(body[1..], 4, 2) == Some([p.tenant, p.subject]))
  {
    ReadsName(Octets(FINGERPRINT_DOMAIN), TaggedFields(p, 4));
    TagReads(p);
  }

  lemma TagReads(p: Principal)
    requires Bounded(p)
    ensures var body := TaggedFields(p, 4);
      && body != []
      && (if p.issuer.Some? then body[0] == 1 && ReadFrames(body[1..], 4, 3) == Some([p.issuer.value, p.tenant, p.subject])
          else body[0] == 0 && ReadFrames(body[1..], 4, 2) == Some([p.tenant, p.subject]))
  {
    if p.issuer.Some? {
      var fields := [p.issuer.value, p.tenant, p.subject];
      assert fields[1..] == [p.tenant, p.subject];
      assert TaggedFields(p, 4) == [1] + Frames(fields, 4);
      TaggedRead(1, fields, TaggedFields(p, 4), 3);
    } else {
      TaggedRead(0, [p.tenant, p.subject], TaggedFields(p, 4), 2);
    }
  }

  lemma {:induction false} TaggedRead(tag: Byte, fields: seq<Bytes>, body: Bytes, n: nat)
    requires AllFit(fields, 4) && body == [tag] + Frames(fields, 4) && n == |fields|
    ensures body != [] && body[0] == tag && ReadFrames(body[1..], 4, n) == Some(fields)
  {
    assert body[1..] == Frames(fields, 4);
    ReadsFrames(fields, 4);
  }

  /** The idempotency digest of a broadcast operation. */
  lemma IdempotencyReads(o: Operation)
    requires BoundedOperation(o)
    ensures Reads(IdempotencyPreimage(o), "bridgefu.broadcast.idempotency.v1", [o.tenant, o.key])
  {
    DomainReads(IDEMPOTENCY_DOMAIN, [o.tenant, o.key]);
  }

  /** Its request digest. */
  lemma RequestReads(o: Operation)
    requires BoundedOperation(o)
    ensures Reads(RequestPreimage(o), "bridgefu.broadcast.request.v1", [o.tenant, o.operation, o.resource, o.body])
  {
    DomainReads(REQUEST_DOMAIN, [o.tenant, o.operation, o.resource, o.body]);
  }

  /** The digest of a webhook value of one kind. */
  lemma WebhookReads(kind: Bytes, value: Bytes)
    requires Fits(kind, 8) && Fits(value, 8)
    ensures Reads(Preimage(kind, value), "bridgefu.provider-webhook.v1", [kind, value])
  {
    DomainReads(WEBHOOK_DOMAIN, [kind, value]);
  }

  /** The correlation of an observer request: nonce, case and hang-up origin between NULs. */
  lemma CorrelationReads(a: Attempt)
    requires PlainParts(a)
    ensures var m := CorrelationPreimage(a);
      && ReadName(m).Some? && ReadName(m).value.0 == Octets(a.nonce)
      && var rest := ReadName(m).value.1;
         ReadName(rest) == Some((Octets(a.caseId), Octets(a.hangup)))
  {
    ReadsName(Octets(a.nonce), Octets(a.caseId) + [0] + Octets(a.hangup));
    ReadsName(Octets(a.caseId), Octets(a.hangup));
  }
}
