/** The digests under which a provider's webhook events are stored. */
module ProviderDigest {
  import opened Framing
  import opened CanonicalJson

  /** Preimage of a webhook digest: a named kind and a value, both framed. */
  function Preimage(kind: Bytes, value: Bytes): Bytes {
    Domain(WEBHOOK_DOMAIN) + Frames([kind, value], 8)
  }

  lemma PreimageInjective(k: Bytes, v: Bytes, l: Bytes, w: Bytes)
    requires Fits(k, 8) && Fits(v, 8) && Fits(l, 8) && Fits(w, 8)
    ensures Preimage(k, v) == Preimage(l, w) <==> k == l && v == w
  {
    PrefixedFramesInjective(Domain(WEBHOOK_DOMAIN), [k, v], [l, w], 8);
    assert [k, v] == [l, w] <==> [k, v][0] == [l, w][0] && [k, v][1] == [l, w][1];
  }

  /** With any serialization that distinguishes values, two payloads have the same digest preimage
      exactly when they are equal up to the order of object members at every depth. */
  lemma {:induction false} PayloadDigestSeesUpToOrder(a: Json, b: Json, kind: Bytes, encode: Json -> Bytes)
    requires WellFormed(a) && WellFormed(b) && Fits(kind, 8)
    requires Fits(encode(Canonical(a)), 8) && Fits(encode(Canonical(b)), 8)
    requires encode(Canonical(a)) == encode(Canonical(b)) ==> Canonical(a) == Canonical(b)
    ensures Preimage(kind, encode(Canonical(a))) == Preimage(kind, encode(Canonical(b))) <==> SameUpToOrder(a, b)
  {
    PreimageInjective(kind, encode(Canonical(a)), kind, encode(Canonical(b)));
    CanonicalDecidesOrder(a, b);
  }
}
