/** The effective configuration: a YAML tree rewritten by environment overrides, and its redaction.

    A mapping is a finite map, so two trees are equal when YAML mappings with the same entries in
    any order are; the order in which entries are printed is not modelled. Tags are not modelled. */
module ConfigTree {
  import opened Options
  import opened Ascii

  datatype Value =
    | Null
    | Bool(bool)
    | Number(string)
    | Str(text: string)
    | Sequence(items: seq<Value>)
    | Mapping(entries: map<Value, Value>)

  // ---- Environment overrides ----

  /** Write `x` at `path`, creating the mappings on the way; fails if one of them is something else.
      At the end of the path the old value does not matter. */
  function SetPath(v: Value, path: seq<string>, x: Value): Option<Value>
    decreases |path|
  {
    if path == [] then Some(x)
    else if !v.Mapping? then None
    else
      match SetPath(Child(v, path[0]), path[1..], x)
      case None => None
      case Some(child) => Some(Put(v, path[0], child))
  }

  /** The entry under a string key, or the empty mapping that would be inserted there. */
  function Child(v: Value, key: string): Value
    requires v.Mapping?
  {
    if Str(key) in v.entries then v.entries[Str(key)] else Mapping(map[])
  }

  function Put(v: Value, key: string, child: Value): Value
    requires v.Mapping?
  {
    Mapping(v.entries[Str(key) := child])
  }

  function Get(v: Value, path: seq<string>): Option<Value>
    decreases |path|
  {
    if path == [] then Some(v)
    else if v.Mapping? && Str(path[0]) in v.entries then Get(v.entries[Str(path[0])], path[1..])
    else None
  }

  /** Neither path is a prefix of the other. */
  predicate Incomparable(p: seq<string>, q: seq<string>) {
    !(p <= q) && !(q <= p)
  }

  /** The value that an override of `path` finds `k` segments down, when it gets that far. */
  predicate BlockedAt(v: Value, path: seq<string>, k: nat) {
    k < |path| && Get(v, path[..k]).Some? && !Get(v, path[..k]).value.Mapping?
  }

  /** An override fails exactly when a proper prefix of its path holds something other than a mapping. */
  lemma {:induction false} FailsExactly(v: Value, path: seq<string>, x: Value)
    ensures SetPath(v, path, x).None? <==> exists k: nat :: BlockedAt(v, path, k)
    decreases |path|
  {
    if path != [] {
      assert path[..0] == [];
      assert BlockedAt(v, path, 0) <==> !v.Mapping?;
      if v.Mapping? {
        var child := Child(v, path[0]);
        FailsExactly(child, path[1..], x);
        forall k: nat ensures BlockedAt(v, path, k + 1) <==> BlockedAt(child, path[1..], k) {
          BlockedBelow(v, path, k);
        }
        if exists k: nat :: BlockedAt(v, path, k) {
          var k: nat :| BlockedAt(v, path, k);
          assert BlockedAt(child, path[1..], k - 1);
        }
        if exists k: nat :: BlockedAt(child, path[1..], k) {
          var k: nat :| BlockedAt(child, path[1..], k);
          assert BlockedAt(v, path, k + 1);
        }
      }
    }
  }

  lemma BlockedBelow(v: Value, path: seq<string>, k: nat)
    requires path != [] && v.Mapping?
    ensures BlockedAt(v, path, k + 1) <==> BlockedAt(Child(v, path[0]), path[1..], k)
  {
    if k + 1 < |path| {
      assert path[..k + 1][1..] == path[1..][..k];
      if Str(path[0]) !in v.entries && k > 0 {
        assert path[1..][..k] != [];
      }
    }
  }

  /** What was written is read back. */
  lemma {:induction false} ReadsBack(v: Value, path: seq<string>, x: Value)
    requires SetPath(v, path, x).Some?
    ensures Get(SetPath(v, path, x).value, path) == Some(x)
    decreases |path|
  {
    if path != [] {
      ReadsBack(Child(v, path[0]), path[1..], x);
    }
  }

  lemma IncomparableTails(p: seq<string>, q: seq<string>)
    requires Incomparable(p, q) && p[0] == q[0]
    ensures Incomparable(p[1..], q[1..])
  {
    assert p == [p[0]] + p[1..] && q == [q[0]] + q[1..];
  }

  /** Nothing else changes: every incomparable path reads what it read before. */
  lemma {:induction false} LeavesOthersAlone(v: Value, path: seq<string>, x: Value, q: seq<string>)
    requires SetPath(v, path, x).Some? && Incomparable(path, q)
    ensures Get(SetPath(v, path, x).value, q) == Get(v, q)
    decreases |path|
  {
    if path[0] == q[0] {
      IncomparableTails(path, q);
      LeavesOthersAlone(Child(v, path[0]), path[1..], x, q[1..]);
    }
  }

  function Then(v: Option<Value>, path: seq<string>, x: Value): Option<Value> {
    if v.None? then None else SetPath(v.value, path, x)
  }

  /** Overrides on incomparable paths commute, and fail together. */
  lemma {:induction false} Commute(v: Value, p: seq<string>, x: Value, q: seq<string>, y: Value)
    requires Incomparable(p, q)
    ensures Then(SetPath(v, p, x), q, y) == Then(SetPath(v, q, y), p, x)
    decreases |p|
  {
    if v.Mapping? {
      if p[0] == q[0] {
        IncomparableTails(p, q);
        Commute(Child(v, p[0]), p[1..], x, q[1..], y);
        SameEntry(v, p, x, q, y);
        SameEntry(v, q, y, p, x);
      } else {
        OtherEntry(v, p, x, q, y);
        OtherEntry(v, q, y, p, x);
        var c, d := SetPath(Child(v, p[0]), p[1..], x), SetPath(Child(v, q[0]), q[1..], y);
        if c.Some? && d.Some? {
          assert Put(Put(v, p[0], c.value), q[0], d.value) == Put(Put(v, q[0], d.value), p[0], c.value);
        }
      }
    }
  }

  /** Two overrides below the same entry act on that entry one after the other. */
  lemma {:induction false} SameEntry(v: Value, p: seq<string>, x: Value, q: seq<string>, y: Value)
    requires v.Mapping? && p != [] && q != [] && p[0] == q[0]
    ensures Then(SetPath(v, p, x), q, y)
         == match Then(SetPath(Child(v, p[0]), p[1..], x), q[1..], y)
            case None => None
            case Some(c) => Some(Put(v, p[0], c))
  {
    var c := SetPath(Child(v, p[0]), p[1..], x);
    if c.Some? {
      var d := SetPath(c.value, q[1..], y);
      if d.Some? {
        assert Put(Put(v, p[0], c.value), p[0], d.value) == Put(v, p[0], d.value);
      }
    }
  }

  /** Two overrides below different entries do not see each other. */
  lemma {:induction false} OtherEntry(v: Value, p: seq<string>, x: Value, q: seq<string>, y: Value)
    requires v.Mapping? && p != [] && q != [] && p[0] != q[0]
    ensures Then(SetPath(v, p, x), q, y)
         == match (SetPath(Child(v, p[0]), p[1..], x), SetPath(Child(v, q[0]), q[1..], y))
            case (Some(c), Some(d)) => Some(Put(Put(v, p[0], c), q[0], d))
            case (_, _) => None
  {
  }

  /** One environment override: the segments of its name and its parsed value. */
  datatype Override = Override(path: seq<string>, value: Value)

  /** Apply overrides one after the other; an empty path is skipped and the first failure ends it. */
  function ApplyAll(v: Value, overrides: seq<Override>): Option<Value>
    decreases |overrides|
  {
    if overrides == [] then Some(v)
    else if overrides[0].path == [] then ApplyAll(v, overrides[1..])
    else
      match SetPath(v, overrides[0].path, overrides[0].value)
      case None => None
      case Some(w) => ApplyAll(w, overrides[1..])
  }

  predicate PairwiseIncomparable(overrides: seq<Override>) {
    forall i, j :: 0 <= i < j < |overrides| ==> Incomparable(overrides[i].path, overrides[j].path)
  }

  lemma {:induction false} SwapFirst(v: Value, a: Override, b: Override, rest: seq<Override>)
    requires Incomparable(a.path, b.path)
    ensures ApplyAll(v, [a, b] + rest) == ApplyAll(v, [b, a] + rest)
  {
    Commute(v, a.path, a.value, b.path, b.value);
    assert ([a, b] + rest)[1..] == [b] + rest && ([b, a] + rest)[1..] == [a] + rest;
    assert ([b] + rest)[1..] == rest && ([a] + rest)[1..] == rest;
  }

  /** An override may be applied first. */
  lemma {:induction false} MoveToFront(v: Value, before: seq<Override>, a: Override, rest: seq<Override>)
    requires forall i :: 0 <= i < |before| ==> Incomparable(before[i].path, a.path)
    ensures ApplyAll(v, before + [a] + rest) == ApplyAll(v, [a] + before + rest)
    decreases |before|
  {
    if before == [] {
      assert before + [a] + rest == [a] + before + rest;
    } else {
      var b, tail := before[0], before[1..];
      assert before + [a] + rest == [b] + (tail + [a] + rest);
      assert [a] + before + rest == [a, b] + (tail + rest);
      assert (([b] + (tail + [a] + rest))[1..]) == tail + [a] + rest;
      SwapFirst(v, b, a, tail + rest);
      assert ([b, a] + (tail + rest))[1..] == [a] + tail + rest;
      var w := SetPath(v, b.path, b.value);
      if w.Some? {
        MoveToFront(w.value, tail, a, rest);
      }
    }
  }

  /** Overrides on pairwise incomparable paths give the same tree, or fail, in every order. */
  lemma {:induction false} OrderDoesNotMatter(v: Value, xs: seq<Override>, ys: seq<Override>)
    requires multiset(xs) == multiset(ys) && PairwiseIncomparable(xs) && PairwiseIncomparable(ys)
    ensures ApplyAll(v, xs) == ApplyAll(v, ys)
    decreases |xs|
  {
    if xs == [] {
      assert |multiset(ys)| == 0;
    } else {
      var before, rest := FindFirst(xs, ys);
      var a, tail := xs[0], before + rest;
      MoveToFront(v, before, a, rest);
      assert [a] + before + rest == [a] + tail && ([a] + tail)[1..] == tail;
      if a.path == [] {
        OrderDoesNotMatter(v, xs[1..], tail);
      } else {
        var w := SetPath(v, a.path, a.value);
        if w.Some? {
          OrderDoesNotMatter(w.value, xs[1..], tail);
        }
      }
    }
  }

  /** Where the first of one order stands in the other. */
  lemma FindFirst(xs: seq<Override>, ys: seq<Override>) returns (before: seq<Override>, rest: seq<Override>)
    requires xs != [] && multiset(xs) == multiset(ys)
    requires PairwiseIncomparable(xs) && PairwiseIncomparable(ys)
    ensures ys == before + [xs[0]] + rest && multiset(xs[1..]) == multiset(before + rest)
    ensures PairwiseIncomparable(xs[1..]) && PairwiseIncomparable(before + rest)
    ensures forall i :: 0 <= i < |before| ==> Incomparable(before[i].path, xs[0].path)
  {
    var i := Locate(xs, ys);
    before, rest := ys[..i], ys[i + 1..];
    DropOne(xs, 0);
    assert xs[..0] + xs[1..] == xs[1..];
    DropOne(ys, i);
    forall j | 0 <= j < |before| ensures Incomparable(before[j].path, xs[0].path) {
      assert before[j] == ys[j] && ys[i] == xs[0];
    }
  }

  lemma Locate<T>(xs: seq<T>, ys: seq<T>) returns (i: nat)
    requires xs != [] && multiset(xs) == multiset(ys)
    ensures i < |ys| && ys[i] == xs[0] && ys == ys[..i] + [xs[0]] + ys[i + 1..]
    ensures multiset(xs[1..]) == multiset(ys[..i] + ys[i + 1..])
  {
    assert xs[0] in multiset(xs);
    assert xs[0] in multiset(ys);
    i :| 0 <= i < |ys| && ys[i] == xs[0];
    assert ys == ys[..i] + [xs[0]] + ys[i + 1..];
    assert xs == [xs[0]] + xs[1..];
    SameRest(xs[0], xs[1..], ys[..i], ys[i + 1..]);
  }

  lemma SameRest<T>(a: T, xs: seq<T>, before: seq<T>, rest: seq<T>)
    requires multiset([a] + xs) == multiset(before + [a] + rest)
    ensures multiset(xs) == multiset(before + rest)
  {
    assert multiset([a] + xs) == multiset{a} + multiset(xs);
    assert multiset(before + [a] + rest) == multiset(before) + multiset{a} + multiset(rest);
    assert multiset(xs) == multiset([a] + xs) - multiset{a};
  }

  lemma DropOne(ys: seq<Override>, i: nat)
    requires i < |ys| && PairwiseIncomparable(ys)
    ensures PairwiseIncomparable(ys[..i] + ys[i + 1..])
  {
    var zs := ys[..i] + ys[i + 1..];
    forall j, k | 0 <= j < k < |zs| ensures Incomparable(zs[j].path, zs[k].path) {
      assert zs[j] == ys[if j < i then j else j + 1] && zs[k] == ys[if k < i then k else k + 1];
    }
  }

  // ---- Overrides on comparable paths ----

  /** Writing below `p` and then at `p` is writing at `p`. */
  lemma {:induction false} Overwrites(v: Value, p: seq<string>, below: seq<string>, x: Value, y: Value)
    requires SetPath(v, p + below, y).Some?
    ensures Then(SetPath(v, p + below, y), p, x) == SetPath(v, p, x)
    decreases |p|
  {
    if p != [] {
      assert (p + below)[0] == p[0] && (p + below)[1..] == p[1..] + below;
      Overwrites(Child(v, p[0]), p[1..], below, x, y);
      SameEntry(v, p + below, y, p, x);
    }
  }

  /** Writing at `p` and then below it is writing the changed value at `p`. */
  lemma {:induction false} Nests(v: Value, p: seq<string>, below: seq<string>, x: Value, y: Value)
    ensures Then(SetPath(v, p, x), p + below, y)
         == match SetPath(x, below, y)
            case None => None
            case Some(z) => SetPath(v, p, z)
    decreases |p|
  {
    if p == [] {
      assert p + below == below;
    } else {
      assert (p + below)[0] == p[0] && (p + below)[1..] == p[1..] + below;
      if v.Mapping? {
        Nests(Child(v, p[0]), p[1..], below, x, y);
        SameEntry(v, p, x, p + below, y);
      }
    }
  }

  /** A write changes nothing exactly when the value was there already. */
  lemma {:induction false} NoChange(v: Value, path: seq<string>, x: Value)
    ensures SetPath(v, path, x) == Some(v) <==> Get(v, path) == Some(x)
    decreases |path|
  {
    if path != [] && v.Mapping? {
      var child := Child(v, path[0]);
      NoChange(child, path[1..], x);
      if Str(path[0]) in v.entries {
        if Get(v, path) == Some(x) {
          assert Put(v, path[0], child) == v;
        }
      } else if SetPath(v, path, x).Some? {
        assert Str(path[0]) in SetPath(v, path, x).value.entries;
      }
    }
  }

  lemma {:induction false} WritesDiffer(v: Value, path: seq<string>, x: Value, y: Value)
    requires SetPath(v, path, x) == SetPath(v, path, y) && SetPath(v, path, x).Some?
    ensures x == y
  {
    ReadsBack(v, path, x);
    ReadsBack(v, path, y);
  }

  /** The order of two writes, one at or below the other, does not matter exactly when the value
      written above already holds the one written below; or, if the lower write fails on its own,
      when the upper write fails too or writes something the lower one cannot be made in. */
  lemma {:induction false} ComparableOrderMatters(v: Value, p: seq<string>, below: seq<string>, x: Value, y: Value)
    ensures Then(SetPath(v, p, x), p + below, y) == Then(SetPath(v, p + below, y), p, x)
       <==> if SetPath(v, p + below, y).Some? then Get(x, below) == Some(y)
            else SetPath(v, p, x).None? || SetPath(x, below, y).None?
  {
    Nests(v, p, below, x, y);
    if SetPath(v, p + below, y).Some? {
      LowerWriteSucceeds(v, p, below, x, y);
    } else if SetPath(x, below, y).Some? {
      FailsAlike(v, p, x, SetPath(x, below, y).value);
    }
  }

  lemma {:induction false} LowerWriteSucceeds(v: Value, p: seq<string>, below: seq<string>, x: Value, y: Value)
    requires SetPath(v, p + below, y).Some?
    ensures Then(SetPath(v, p, x), p + below, y) == Then(SetPath(v, p + below, y), p, x)
       <==> Get(x, below) == Some(y)
  {
    Overwrites(v, p, below, x, y);
    Nests(v, p, below, x, y);
    NoChange(x, below, y);
    SucceedsAbove(v, p, below, x, y);
    var z := SetPath(x, below, y);
    if z.Some? && SetPath(v, p, z.value) == SetPath(v, p, x) {
      SucceedsAbove(v, p, below, z.value, y);
      WritesDiffer(v, p, z.value, x);
    }
  }

  lemma {:induction false} SucceedsAbove(v: Value, p: seq<string>, below: seq<string>, x: Value, y: Value)
    requires SetPath(v, p + below, y).Some?
    ensures SetPath(v, p, x).Some?
    decreases |p|
  {
    if p != [] {
      assert (p + below)[0] == p[0] && (p + below)[1..] == p[1..] + below;
      SucceedsAbove(Child(v, p[0]), p[1..], below, x, y);
    }
  }

  // ---- The program's own form: the tree is rewritten in place ----

  /** Rewrite `value` in place; `left` is what the caller's tree holds afterwards, whatever happens. */
  method SetYamlPath(value: Value, path: seq<string>, replacement: Value) returns (left: Value, ok: bool)
    requires path != []
    ensures ok <==> SetPath(value, path, replacement).Some?
    ensures ok ==> Some(left) == SetPath(value, path, replacement)
    ensures !ok ==> left == value
    decreases |path|
  {
    if !value.Mapping? {
      return value, false;
    }
    var entries, key := value.entries, Str(path[0]);
    if |path| == 1 {
      assert path[1..] == [];
      entries := entries[key := replacement];
      return Mapping(entries), true;
    }
    if key !in entries {
      entries := entries[key := Mapping(map[])];
      EmptyAccepts(path[1..], replacement);
    }
    var next;
    next, ok := SetYamlPath(entries[key], path[1..], replacement);
    entries := entries[key := next];
    left := Mapping(entries);
    assert entries == value.entries[key := next];
  }

  /** An override below a freshly inserted mapping cannot fail. */
  lemma {:induction false} EmptyAccepts(path: seq<string>, x: Value)
    ensures SetPath(Mapping(map[]), path, x).Some?
    decreases |path|
  {
    if path != [] {
      EmptyAccepts(path[1..], x);
    }
  }

  /** The loop over the environment. */
  method ApplyOverrides(value: Value, overrides: seq<Override>) returns (r: Option<Value>)
    ensures r == ApplyAll(value, overrides)
  {
    var v, i := value, 0;
    while i < |overrides|
      invariant 0 <= i <= |overrides|
      invariant ApplyAll(value, overrides) == ApplyAll(v, overrides[i..])
    {
      var o := overrides[i];
      assert overrides[i..][0] == o && overrides[i..][1..] == overrides[i + 1..];
      if o.path != [] {
        var ok;
        v, ok := SetYamlPath(v, o.path, o.value);
        if !ok {
          return None;
        }
      }
      i := i + 1;
    }
    return Some(v);
  }

  // ---- Redaction ----

  const REDACTED := Str("[redacted]")

  const SENSITIVE: set<string> := {
    "auth_token", "api_key", "private_key", "signature_secret", "token_secret", "bearer_token",
    "diagnostics_bearer_token", "control_hmac_key", "token_signing_secret", "database_url",
    "redis_url", "password", "media_sip_password", "credential", "trusted_subject", "trusted_issuer"
  }

  predicate Sensitive(key: Value) {
    key.Str? && Lower(key.text) in SENSITIVE
  }

  function Redact(v: Value): Value {
    match v
    case Mapping(entries) =>
      Mapping(map k | k in entries :: if Sensitive(k) then REDACTED else Redact(entries[k]))
    case Sequence(items) => Sequence(seq(|items|, i requires 0 <= i < |items| => Redact(items[i])))
    case _ => v
  }

  /** The two trees differ only beneath sensitive keys, at whatever depth and through sequences. */
  predicate PublicEqual(a: Value, b: Value) {
    match (a, b)
    case (Mapping(m), Mapping(n)) =>
      m.Keys == n.Keys && forall k :: k in m && !Sensitive(k) ==> PublicEqual(m[k], n[k])
    case (Sequence(xs), Sequence(ys)) =>
      |xs| == |ys| && forall i :: 0 <= i < |xs| ==> PublicEqual(xs[i], ys[i])
    case _ => a == b
  }

  /** Redaction reveals exactly the part outside sensitive keys: two trees redact alike if and only
      if they differ only beneath such keys. */
  lemma {:induction false} RedactsAlikeExactly(a: Value, b: Value)
    ensures Redact(a) == Redact(b) <==> PublicEqual(a, b)
  {
    match (a, b)
    case (Mapping(m), Mapping(n)) =>
      forall k | k in m && k in n ensures Redact(m[k]) == Redact(n[k]) <==> PublicEqual(m[k], n[k]) {
        RedactsAlikeExactly(m[k], n[k]);
      }
      MappingsRedactAlike(m, n);
    case (Sequence(xs), Sequence(ys)) =>
      forall i | 0 <= i < |xs| && i < |ys| ensures Redact(xs[i]) == Redact(ys[i]) <==> PublicEqual(xs[i], ys[i]) {
        RedactsAlikeExactly(xs[i], ys[i]);
      }
      SequencesRedactAlike(xs, ys);
    case _ =>
  }

  lemma MappingsRedactAlike(m: map<Value, Value>, n: map<Value, Value>)
    ensures Redact(Mapping(m)) == Redact(Mapping(n))
       <==> m.Keys == n.Keys && forall k :: k in m && !Sensitive(k) ==> Redact(m[k]) == Redact(n[k])
  {
    var r, t := Redact(Mapping(m)).entries, Redact(Mapping(n)).entries;
    assert r.Keys == m.Keys && t.Keys == n.Keys;
    if r == t {
      forall k | k in m && !Sensitive(k) ensures Redact(m[k]) == Redact(n[k]) {
        assert r[k] == t[k];
      }
    }
  }

  lemma SequencesRedactAlike(xs: seq<Value>, ys: seq<Value>)
    ensures Redact(Sequence(xs)) == Redact(Sequence(ys))
       <==> |xs| == |ys| && forall i :: 0 <= i < |xs| ==> Redact(xs[i]) == Redact(ys[i])
  {
    var r, t := Redact(Sequence(xs)).items, Redact(Sequence(ys)).items;
    if r == t {
      forall i | 0 <= i < |xs| ensures Redact(xs[i]) == Redact(ys[i]) {
        assert r[i] == t[i];
      }
    }
  }

  lemma {:induction false} RedactIsIdempotent(v: Value)
    ensures Redact(Redact(v)) == Redact(v)
  {
    match v
    case Mapping(m) =>
      forall k | k in m ensures Redact(Redact(m[k])) == Redact(m[k]) {
        RedactIsIdempotent(m[k]);
      }
      assert Redact(Redact(v)).entries == Redact(v).entries;
    case Sequence(xs) =>
      forall i | 0 <= i < |xs| ensures Redact(Redact(xs[i])) == Redact(xs[i]) {
        RedactIsIdempotent(xs[i]);
      }
      assert Redact(Redact(v)).items == Redact(v).items;
    case _ =>
  }

  /** A place in a tree: keys of any kind, and positions in sequences. */
  datatype Seg = Key(key: Value) | At(index: nat)

  function Lookup(v: Value, place: seq<Seg>): Option<Value>
    decreases |place|
  {
    if place == [] then Some(v)
    else
      match (place[0], v)
      case (Key(k), Mapping(m)) => if k in m then Lookup(m[k], place[1..]) else None
      case (At(i), Sequence(xs)) => if i < |xs| then Lookup(xs[i], place[1..]) else None
      case _ => None
  }

  /** Outside sensitive keys nothing changes but by the redaction below; at the first sensitive key
      the marker stands, and nothing can be looked up beneath it. */
  lemma {:induction false} RedactedAt(v: Value, place: seq<Seg>)
    ensures (forall i :: 0 <= i < |place| ==> !(place[i].Key? && Sensitive(place[i].key))) ==>
              Lookup(Redact(v), place) == match Lookup(v, place) case None => None case Some(x) => Some(Redact(x))
    ensures forall i {:trigger place[i]} :: 0 <= i < |place| && place[i].Key? && Sensitive(place[i].key) ==>
              Lookup(Redact(v), place).None? || Lookup(Redact(v), place) == Some(REDACTED)
    decreases |place|
  {
    if place != [] {
      match (place[0], v)
      case (Key(k), Mapping(m)) =>
        if k in m {
          if Sensitive(k) {
            assert Redact(v).entries[k] == REDACTED;
          } else {
            RedactedAt(m[k], place[1..]);
            SensitiveTail(place);
          }
        }
      case (At(i), Sequence(xs)) =>
        if i < |xs| {
          RedactedAt(xs[i], place[1..]);
          SensitiveTail(place);
        }
      case _ =>
    }
  }

  lemma SensitiveTail(place: seq<Seg>)
    requires place != [] && !(place[0].Key? && Sensitive(place[0].key))
    ensures forall i {:trigger place[i]} :: 0 <= i < |place| && place[i].Key? && Sensitive(place[i].key) ==>
              0 < i && place[1..][i - 1] == place[i]
  {
  }

  /** The value of an override through any sensitive segment cannot be seen in the redacted tree. */
  lemma {:induction false} OverrideIsHidden(v: Value, path: seq<string>, x: Value, y: Value)
    requires exists i :: 0 <= i < |path| && Sensitive(Str(path[i]))
    ensures SetPath(v, path, x).Some? <==> SetPath(v, path, y).Some?
    ensures SetPath(v, path, x).Some? ==> Redact(SetPath(v, path, x).value) == Redact(SetPath(v, path, y).value)
    decreases |path|
  {
    if v.Mapping? {
      FailsAlike(Child(v, path[0]), path[1..], x, y);
      if SetPath(v, path, x).Some? {
        var c, d := SetPath(Child(v, path[0]), path[1..], x).value, SetPath(Child(v, path[0]), path[1..], y).value;
        if !Sensitive(Str(path[0])) {
          var i :| 0 <= i < |path| && Sensitive(Str(path[i]));
          assert path[1..][i - 1] == path[i];
          OverrideIsHidden(Child(v, path[0]), path[1..], x, y);
        }
        MappingsRedactAlike(v.entries[Str(path[0]) := c], v.entries[Str(path[0]) := d]);
      }
    }
  }

  /** Whether an override fails does not depend on its value. */
  lemma {:induction false} FailsAlike(v: Value, path: seq<string>, x: Value, y: Value)
    ensures SetPath(v, path, x).Some? <==> SetPath(v, path, y).Some?
    decreases |path|
  {
    if path != [] && v.Mapping? {
      FailsAlike(Child(v, path[0]), path[1..], x, y);
    }
  }

  /** Redaction in place, entry by entry. */
  method RedactSecrets(value: Value) returns (left: Value)
    ensures left == Redact(value)
  {
    match value
    case Mapping(m) =>
      var entries, todo := m, m.Keys;
      while todo != {}
        invariant todo <= m.Keys && entries.Keys == m.Keys
        invariant forall k :: k in todo ==> entries[k] == m[k]
        invariant forall k :: k in m && k !in todo ==> entries[k] == if Sensitive(k) then REDACTED else Redact(m[k])
        decreases todo
      {
        var k :| k in todo;
        if Sensitive(k) {
          entries := entries[k := REDACTED];
        } else {
          var inner := RedactSecrets(entries[k]);
          entries := entries[k := inner];
        }
        todo := todo - {k};
      }
      assert entries == Redact(value).entries;
      left := Mapping(entries);
    case Sequence(xs) =>
      var items := xs;
      for i := 0 to |xs|
        invariant |items| == |xs|
        invariant forall j :: 0 <= j < i ==> items[j] == Redact(xs[j])
        invariant forall j :: i <= j < |xs| ==> items[j] == xs[j]
      {
        var inner := RedactSecrets(items[i]);
        items := items[i := inner];
      }
      assert items == Redact(value).items;
      left := Sequence(items);
    case _ =>
      left := value;
  }
}
