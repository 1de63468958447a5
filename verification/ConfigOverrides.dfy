/** What a whole list of environment overrides makes of the tree, and what redaction hides of it. */
module ConfigOverrides {
  import opened Options
  import opened Ascii
  import opened ConfigTree

  /** No override of the list, from the `i`th on, is at, above or below `q`. */
  predicate Spared(os: seq<Override>, i: nat, q: seq<string>) {
    forall j :: i <= j < |os| && os[j].path != [] ==> Incomparable(os[j].path, q)
  }

  lemma SparedTail(os: seq<Override>, q: seq<string>)
    requires os != [] && Spared(os, 0, q)
    ensures Spared(os[1..], 0, q)
  {
    assert forall j :: 0 <= j < |os| - 1 ==> os[1..][j] == os[j + 1];
  }

  /** A path that every override spares reads what it read before. */
  lemma {:induction false} SparedReadsAsBefore(v: Value, os: seq<Override>, q: seq<string>)
    requires ApplyAll(v, os).Some? && Spared(os, 0, q)
    ensures Get(ApplyAll(v, os).value, q) == Get(v, q)
    decreases |os|
  {
    if os != [] {
      SparedTail(os, q);
      if os[0].path == [] {
        SparedReadsAsBefore(v, os[1..], q);
      } else {
        LeavesOthersAlone(v, os[0].path, os[0].value, q);
        SparedReadsAsBefore(SetPath(v, os[0].path, os[0].value).value, os[1..], q);
      }
    }
  }

  /** Below a path that was written the written value is read. */
  lemma {:induction false} ReadsBackBelow(v: Value, path: seq<string>, x: Value, below: seq<string>)
    requires SetPath(v, path, x).Some?
    ensures Get(SetPath(v, path, x).value, path + below) == Get(x, below)
    decreases |path|
  {
    if path == [] {
      assert path + below == below;
    } else {
      assert (path + below)[0] == path[0] && (path + below)[1..] == path[1..] + below;
      ReadsBackBelow(Child(v, path[0]), path[1..], x, below);
    }
  }

  /** The final tree reads, at and below the path of an override, what that override wrote there, unless
      a later one is at, above or below that place. */
  lemma {:induction false} LastWriteReadsBack(v: Value, os: seq<Override>, i: nat, below: seq<string>)
    requires ApplyAll(v, os).Some? && i < |os| && os[i].path != [] && Spared(os, i + 1, os[i].path + below)
    ensures Get(ApplyAll(v, os).value, os[i].path + below) == Get(os[i].value, below)
    ensures below == [] ==> Get(ApplyAll(v, os).value, os[i].path) == Some(os[i].value)
    decreases |os|
  {
    var o := os[0];
    var w := if o.path == [] then v else SetPath(v, o.path, o.value).value;
    assert ApplyAll(v, os) == ApplyAll(w, os[1..]);
    assert forall j :: 0 <= j < |os| - 1 ==> os[1..][j] == os[j + 1];
    if i == 0 {
      ReadsBackBelow(v, o.path, o.value, below);
      SparedReadsAsBefore(w, os[1..], o.path + below);
    } else {
      LastWriteReadsBack(w, os[1..], i - 1, below);
    }
    assert below == [] ==> os[i].path + below == os[i].path;
  }

  /** Overrides on incomparable paths that succeed alone succeed one after the other. */
  lemma {:induction false} SucceedTogether(v: Value, p: seq<string>, x: Value, q: seq<string>, y: Value)
    requires Incomparable(p, q) && SetPath(v, p, x).Some?
    ensures SetPath(SetPath(v, p, x).value, q, y).Some? <==> SetPath(v, q, y).Some?
    decreases |p|
  {
    if p[0] == q[0] {
      IncomparableTails(p, q);
      SucceedTogether(Child(v, p[0]), p[1..], x, q[1..], y);
    }
  }

  predicate NonemptyPaths(os: seq<Override>) {
    forall i :: 0 <= i < |os| ==> os[i].path != []
  }

  lemma {:induction false} FailsIfOneFails(v: Value, os: seq<Override>)
    requires PairwiseIncomparable(os) && NonemptyPaths(os)
    ensures ApplyAll(v, os).None? <==> exists i :: 0 <= i < |os| && SetPath(v, os[i].path, os[i].value).None?
    decreases |os|
  {
    if os != [] && SetPath(v, os[0].path, os[0].value).Some? {
      var w, rest := SetPath(v, os[0].path, os[0].value).value, os[1..];
      DropOne(os, 0);
      assert os[..0] + os[1..] == rest;
      assert forall i :: 0 <= i < |rest| ==> rest[i] == os[i + 1];
      FailsIfOneFails(w, rest);
      forall i | 0 <= i < |rest|
        ensures SetPath(w, rest[i].path, rest[i].value).None? <==> SetPath(v, os[i + 1].path, os[i + 1].value).None?
      {
        SucceedTogether(v, os[0].path, os[0].value, rest[i].path, rest[i].value);
      }
      if i :| 0 <= i < |os| && SetPath(v, os[i].path, os[i].value).None? {
        assert SetPath(w, rest[i - 1].path, rest[i - 1].value).None?;
      }
    }
  }

  /** A list of overrides on pairwise incomparable paths fails exactly when, in the tree it starts from, a
      proper prefix of one of them holds something other than a mapping. */
  lemma {:induction false} ListFailsExactly(v: Value, os: seq<Override>)
    requires PairwiseIncomparable(os) && NonemptyPaths(os)
    ensures ApplyAll(v, os).None? <==> exists i: nat, k: nat :: i < |os| && BlockedAt(v, os[i].path, k)
  {
    FailsIfOneFails(v, os);
    forall i | 0 <= i < |os|
      ensures SetPath(v, os[i].path, os[i].value).None? <==> exists k: nat :: BlockedAt(v, os[i].path, k)
    {
      FailsExactly(v, os[i].path, os[i].value);
    }
  }

  /** Any list fails exactly when some override is blocked in the tree that those before it have made. */
  lemma {:induction false} FailsAtFirst(v: Value, os: seq<Override>)
    ensures ApplyAll(v, os).None? <==>
      exists i: nat, k: nat :: i < |os| && ApplyAll(v, os[..i]).Some? && BlockedAt(ApplyAll(v, os[..i]).value, os[i].path, k)
    decreases |os|
  {
    if os != [] {
      var n := |os| - 1;
      assert os[..n] + [os[n]] == os;
      FailsAtFirst(v, os[..n]);
      ApplyLast(v, os[..n], os[n]);
      forall i: nat | i < n ensures os[..n][..i] == os[..i] && os[..n][i] == os[i] {
      }
      if ApplyAll(v, os[..n]).Some? {
        FailsExactly(ApplyAll(v, os[..n]).value, os[n].path, os[n].value);
      }
    }
  }

  lemma {:induction false} ApplyLast(v: Value, os: seq<Override>, o: Override)
    ensures ApplyAll(v, os + [o]) ==
      if ApplyAll(v, os).None? then None
      else if o.path == [] then ApplyAll(v, os) else SetPath(ApplyAll(v, os).value, o.path, o.value)
    decreases |os|
  {
    var all := os + [o];
    if os == [] {
      assert all[1..] == [];
    } else {
      assert all[0] == os[0] && all[1..] == os[1..] + [o];
      var w := if os[0].path == [] then Some(v) else SetPath(v, os[0].path, os[0].value);
      if w.Some? {
        ApplyLast(w.value, os[1..], o);
      }
    }
  }

  // ---- What redaction hides ----

  /** The keys whose values are credentials. */
  const CREDENTIALS := [
    "auth_token", "api_key", "private_key", "signature_secret", "token_secret", "bearer_token",
    "diagnostics_bearer_token", "control_hmac_key", "token_signing_secret", "database_url",
    "redis_url", "password", "media_sip_password", "credential", "trusted_subject", "trusted_issuer"]

  /** `text` is `word` but for capitals. */
  predicate Spells(text: string, word: string) {
    && |text| == |word|
    && forall i :: 0 <= i < |text| ==>
         if 'A' <= text[i] <= 'Z' then text[i] as int + 32 == word[i] as int else text[i] == word[i]
  }

  lemma SpellsExactly(text: string, word: string)
    ensures Lower(text) == word <==> Spells(text, word)
  {
    assert |text| == |word| ==>
      forall i :: 0 <= i < |text| ==>
        (Lower(text)[i] == word[i] <==>
           if 'A' <= text[i] <= 'Z' then text[i] as int + 32 == word[i] as int else text[i] == word[i]);
  }

  lemma CredentialsAreSensitive(w: string)
    ensures w in SENSITIVE <==> w in CREDENTIALS
  {
  }

  /** A key is hidden exactly when it spells one of the credential names, in any capitalization. */
  lemma SensitiveExactly(key: Value)
    ensures Sensitive(key) <==> key.Str? && exists w :: w in CREDENTIALS && Spells(key.text, w)
  {
    if key.Str? {
      CredentialsAreSensitive(Lower(key.text));
      forall w ensures Lower(key.text) == w <==> Spells(key.text, w) {
        SpellsExactly(key.text, w);
      }
    }
  }

  /** What stands under a credential name in any mapping is replaced by the marker, whatever it was. */
  lemma CredentialsAreHidden(m: map<Value, Value>, text: string, word: string)
    requires Str(text) in m && word in CREDENTIALS && Spells(text, word)
    ensures Redact(Mapping(m)).Mapping? && Str(text) in Redact(Mapping(m)).entries
    ensures Redact(Mapping(m)).entries[Str(text)] == Str("[redacted]")
  {
    SensitiveExactly(Str(text));
  }
}
