/** Canonical form of a provider's JSON payload: object members sorted by key at every depth.

    An object is a list of members with distinct keys, in the order they were received. */
module CanonicalJson {

  datatype Json =
    | Null
    | Bool(bool)
    | Number(string)
    | Str(string)
    | Array(items: seq<Json>)
    | Object(members: seq<Member>)

  datatype Member = Member(key: string, value: Json)

  /** Every object, at every depth, has distinct keys. */
  predicate WellFormed(j: Json) {
    match j
    case Array(xs) => forall i :: 0 <= i < |xs| ==> WellFormed(xs[i])
    case Object(ms) => Distinct(ms) && forall i :: 0 <= i < |ms| ==> WellFormed(ms[i].value)
    case _ => true
  }

  predicate Distinct(ms: seq<Member>) {
    forall i, j :: 0 <= i < j < |ms| ==> ms[i].key != ms[j].key
  }

  function Keys(ms: seq<Member>): set<string> {
    set i | 0 <= i < |ms| :: ms[i].key
  }

  // ---- The order of keys ----

  /** Lexicographic by code point, which is the byte order of the UTF-8 encodings. */
  predicate Before(a: string, b: string)
    decreases |a|
  {
    if b == [] then false
    else if a == [] then true
    else if a[0] == b[0] then Before(a[1..], b[1..])
    else a[0] < b[0]
  }

  /** The two agree up to `k`, where the first ends or has the smaller code point. */
  predicate DiffersAt(a: string, b: string, k: nat) {
    k <= |a| && k < |b| && a[..k] == b[..k] && (k == |a| || a[k] < b[k])
  }

  lemma {:induction false} BeforeExactly(a: string, b: string)
    ensures Before(a, b) <==> exists k: nat :: DiffersAt(a, b, k)
    decreases |a|
  {
    if b != [] && (a == [] || a[0] != b[0]) {
      assert a[..0] == b[..0];
      assert Before(a, b) <==> DiffersAt(a, b, 0);
      assert forall k: nat :: DiffersAt(a, b, k) && k > 0 ==> a[..k][0] == b[..k][0];
    } else if b != [] {
      BeforeExactly(a[1..], b[1..]);
      if k: nat :| DiffersAt(a[1..], b[1..], k) {
        assert a[..k + 1] == [a[0]] + a[1..][..k] && b[..k + 1] == [b[0]] + b[1..][..k];
        assert DiffersAt(a, b, k + 1);
      }
      if k: nat :| DiffersAt(a, b, k) {
        assert k > 0;
        assert a[1..][..k - 1] == a[..k][1..] && b[1..][..k - 1] == b[..k][1..];
        assert DiffersAt(a[1..], b[1..], k - 1);
      }
    }
  }

  lemma {:induction false} BeforeIsTotal(a: string, b: string)
    ensures a == b || Before(a, b) || Before(b, a)
    ensures !(Before(a, b) && Before(b, a))
    decreases |a|
  {
    if a != [] && b != [] {
      BeforeIsTotal(a[1..], b[1..]);
      if a[0] == b[0] && a[1..] == b[1..] {
        assert a == [a[0]] + a[1..] && b == [b[0]] + b[1..];
      }
    }
  }

  lemma {:induction false} BeforeIsTransitive(a: string, b: string, c: string)
    requires Before(a, b) && Before(b, c)
    ensures Before(a, c)
    decreases |a|
  {
    if a != [] && a[0] == b[0] && b[0] == c[0] {
      BeforeIsTransitive(a[1..], b[1..], c[1..]);
    }
  }

  predicate Sorted(ms: seq<Member>) {
    forall i, j :: 0 <= i < j < |ms| ==> Before(ms[i].key, ms[j].key)
  }

  // ---- Sorting the members of one object ----

  function Insert(m: Member, ms: seq<Member>): seq<Member> {
    if ms == [] || Before(m.key, ms[0].key) then [m] + ms
    else [ms[0]] + Insert(m, ms[1..])
  }

  function Sort(ms: seq<Member>): seq<Member> {
    if ms == [] then [] else Insert(ms[0], Sort(ms[1..]))
  }

  lemma {:induction false} InsertContents(m: Member, ms: seq<Member>)
    ensures multiset(Insert(m, ms)) == multiset{m} + multiset(ms)
    decreases |ms|
  {
    if ms == [] || Before(m.key, ms[0].key) {
    } else {
      InsertContents(m, ms[1..]);
      assert ms == [ms[0]] + ms[1..];
    }
  }

  lemma {:induction false} SortContents(ms: seq<Member>)
    ensures multiset(Sort(ms)) == multiset(ms)
    decreases |ms|
  {
    if ms != [] {
      SortContents(ms[1..]);
      InsertContents(ms[0], Sort(ms[1..]));
      assert ms == [ms[0]] + ms[1..];
    }
  }

  lemma {:induction false} InsertSorted(m: Member, ms: seq<Member>)
    requires Sorted(ms) && forall i :: 0 <= i < |ms| ==> ms[i].key != m.key
    ensures Sorted(Insert(m, ms))
    decreases |ms|
  {
    if ms == [] {
    } else if Before(m.key, ms[0].key) {
      forall j | 0 < j < |ms| ensures Before(m.key, ms[j].key) {
        BeforeIsTransitive(m.key, ms[0].key, ms[j].key);
      }
    } else {
      BeforeIsTotal(m.key, ms[0].key);
      InsertSorted(m, ms[1..]);
      InsertContents(m, ms[1..]);
      var rest := Insert(m, ms[1..]);
      forall j | 0 <= j < |rest| ensures Before(ms[0].key, rest[j].key) {
        assert rest[j] in multiset(rest);
        assert rest[j] == m || rest[j] in ms[1..];
      }
    }
  }

  lemma {:induction false} SortSorts(ms: seq<Member>)
    requires Distinct(ms)
    ensures Sorted(Sort(ms))
    decreases |ms|
  {
    if ms != [] {
      SortSorts(ms[1..]);
      SortContents(ms[1..]);
      var rest := Sort(ms[1..]);
      forall i | 0 <= i < |rest| ensures rest[i].key != ms[0].key {
        assert rest[i] in multiset(rest);
        assert rest[i] in ms[1..];
      }
      InsertSorted(ms[0], rest);
    }
  }

  /** A sorted list is determined by its members. */
  lemma {:induction false} SortedIsUnique(xs: seq<Member>, ys: seq<Member>)
    requires Sorted(xs) && Sorted(ys)
    requires forall m :: m in xs <==> m in ys
    ensures xs == ys
    decreases |xs|
  {
    assert xs != [] ==> xs[0] in xs;
    assert ys != [] ==> ys[0] in ys;
    if xs != [] {
      SameHead(xs, ys);
      forall m ensures m in xs[1..] <==> m in ys[1..] {
        TailMembers(xs, m);
        TailMembers(ys, m);
      }
      SortedIsUnique(xs[1..], ys[1..]);
    }
  }

  lemma SameHead(xs: seq<Member>, ys: seq<Member>)
    requires xs != [] && ys != [] && Sorted(xs) && Sorted(ys)
    requires forall m :: m in xs <==> m in ys
    ensures xs[0] == ys[0]
  {
    assert xs[0] in ys && ys[0] in xs;
    var i :| 0 <= i < |ys| && ys[i] == xs[0];
    var j :| 0 <= j < |xs| && xs[j] == ys[0];
    BeforeIsTotal(xs[0].key, ys[0].key);
  }

  lemma TailMembers(xs: seq<Member>, m: Member)
    requires xs != [] && Sorted(xs)
    ensures m in xs[1..] <==> m in xs && m != xs[0]
  {
    assert xs == [xs[0]] + xs[1..];
    if m in xs[1..] {
      var i :| 0 <= i < |xs[1..]| && xs[1..][i] == m;
      assert xs[i + 1] == m;
      BeforeIsTotal(xs[0].key, m.key);
    }
  }

  // ---- Canonical form ----

  function Canonical(j: Json): Json {
    match j
    case Array(xs) => Array(seq(|xs|, i requires 0 <= i < |xs| => Canonical(xs[i])))
    case Object(ms) => Object(Sort(seq(|ms|, i requires 0 <= i < |ms| => Member(ms[i].key, Canonical(ms[i].value)))))
    case _ => j
  }

  /** The members of an object with canonical values, still in the order received. */
  function CanonicalMembers(ms: seq<Member>): (r: seq<Member>)
    ensures |r| == |ms|
    ensures forall i :: 0 <= i < |ms| ==> r[i] == Member(ms[i].key, Canonical(ms[i].value))
  {
    seq(|ms|, i requires 0 <= i < |ms| => Member(ms[i].key, Canonical(ms[i].value)))
  }

  lemma CanonicalObject(ms: seq<Member>)
    ensures Canonical(Object(ms)) == Object(Sort(CanonicalMembers(ms)))
  {
    assert CanonicalMembers(ms) == seq(|ms|, i requires 0 <= i < |ms| => Member(ms[i].key, Canonical(ms[i].value)));
  }

  /** Equal up to the order of object members at every depth; arrays and scalars exactly. */
  predicate SameUpToOrder(a: Json, b: Json) {
    match (a, b)
    case (Array(xs), Array(ys)) =>
      |xs| == |ys| && forall i :: 0 <= i < |xs| ==> SameUpToOrder(xs[i], ys[i])
    case (Object(ms), Object(ns)) =>
      Keys(ms) == Keys(ns)
      && forall i, j :: 0 <= i < |ms| && 0 <= j < |ns| && ms[i].key == ns[j].key ==> SameUpToOrder(ms[i].value, ns[j].value)
    case _ => a == b
  }

  /** Members of the sorted list are the canonical members. */
  lemma SortedMembers(ms: seq<Member>, m: Member)
    ensures m in Sort(CanonicalMembers(ms))
       <==> exists i :: 0 <= i < |ms| && m == Member(ms[i].key, Canonical(ms[i].value))
  {
    var cs := CanonicalMembers(ms);
    SortContents(cs);
    assert m in Sort(cs) <==> m in multiset(Sort(cs));
    assert m in cs <==> m in multiset(cs);
    if m in cs {
      var i :| 0 <= i < |cs| && cs[i] == m;
    }
    if i :| 0 <= i < |ms| && m == Member(ms[i].key, Canonical(ms[i].value)) {
      assert cs[i] == m;
    }
  }

  lemma CanonicalMembersDistinct(ms: seq<Member>)
    requires Distinct(ms)
    ensures Distinct(CanonicalMembers(ms)) && Sorted(Sort(CanonicalMembers(ms)))
  {
    SortSorts(CanonicalMembers(ms));
  }

  /** Canonical forms are equal exactly when the values are equal up to member order. */
  lemma {:induction false} CanonicalDecidesOrder(a: Json, b: Json)
    requires WellFormed(a) && WellFormed(b)
    ensures Canonical(a) == Canonical(b) <==> SameUpToOrder(a, b)
  {
    match (a, b)
    case (Array(xs), Array(ys)) =>
      forall i | 0 <= i < |xs| && i < |ys| ensures Canonical(xs[i]) == Canonical(ys[i]) <==> SameUpToOrder(xs[i], ys[i]) {
        CanonicalDecidesOrder(xs[i], ys[i]);
      }
      ArraysAlike(xs, ys);
    case (Object(ms), Object(ns)) =>
      forall i, j | 0 <= i < |ms| && 0 <= j < |ns|
        ensures Canonical(ms[i].value) == Canonical(ns[j].value) <==> SameUpToOrder(ms[i].value, ns[j].value)
      {
        CanonicalDecidesOrder(ms[i].value, ns[j].value);
      }
      CanonicalObject(ms);
      CanonicalObject(ns);
      ObjectsAlike(ms, ns);
    case _ =>
  }

  lemma ArraysAlike(xs: seq<Json>, ys: seq<Json>)
    ensures Canonical(Array(xs)) == Canonical(Array(ys))
       <==> |xs| == |ys| && forall i :: 0 <= i < |xs| ==> Canonical(xs[i]) == Canonical(ys[i])
  {
    var cs, ds := Canonical(Array(xs)).items, Canonical(Array(ys)).items;
    if cs == ds {
      forall i | 0 <= i < |xs| ensures Canonical(xs[i]) == Canonical(ys[i]) {
        assert cs[i] == ds[i];
      }
    }
  }

  /** Equal canonical values under equal keys. */
  predicate AgreeOnCommonKeys(ms: seq<Member>, ns: seq<Member>) {
    forall i, j :: 0 <= i < |ms| && 0 <= j < |ns| && ms[i].key == ns[j].key ==>
      Canonical(ms[i].value) == Canonical(ns[j].value)
  }

  /** Two objects have the same canonical members exactly when they have the same keys, and equal
      canonical values under equal keys. */
  lemma ObjectsAlike(ms: seq<Member>, ns: seq<Member>)
    requires Distinct(ms) && Distinct(ns)
    ensures Sort(CanonicalMembers(ms)) == Sort(CanonicalMembers(ns))
       <==> Keys(ms) == Keys(ns) && AgreeOnCommonKeys(ms, ns)
  {
    if Sort(CanonicalMembers(ms)) == Sort(CanonicalMembers(ns)) {
      SameMembersAlike(ms, ns);
      SameMembersAlike(ns, ms);
    }
    if Keys(ms) == Keys(ns) && AgreeOnCommonKeys(ms, ns) {
      CanonicalMembersDistinct(ms);
      CanonicalMembersDistinct(ns);
      forall m ensures m in Sort(CanonicalMembers(ms)) <==> m in Sort(CanonicalMembers(ns)) {
        AlikeContains(ms, ns, m);
        AlikeContains(ns, ms, m);
      }
      SortedIsUnique(Sort(CanonicalMembers(ms)), Sort(CanonicalMembers(ns)));
    }
  }

  lemma SameMembersAlike(ms: seq<Member>, ns: seq<Member>)
    requires Distinct(ns) && Sort(CanonicalMembers(ms)) == Sort(CanonicalMembers(ns))
    ensures Keys(ms) <= Keys(ns) && AgreeOnCommonKeys(ms, ns)
  {
    forall i | 0 <= i < |ms|
      ensures exists j :: 0 <= j < |ns| && Member(ms[i].key, Canonical(ms[i].value)) == Member(ns[j].key, Canonical(ns[j].value))
    {
      SortedMembers(ms, Member(ms[i].key, Canonical(ms[i].value)));
      SortedMembers(ns, Member(ms[i].key, Canonical(ms[i].value)));
    }
  }

  lemma AlikeContains(ms: seq<Member>, ns: seq<Member>, m: Member)
    requires Keys(ms) <= Keys(ns) && AgreeOnCommonKeys(ms, ns)
    ensures m in Sort(CanonicalMembers(ms)) ==> m in Sort(CanonicalMembers(ns))
  {
    SortedMembers(ms, m);
    SortedMembers(ns, m);
    if m in Sort(CanonicalMembers(ms)) {
      var i :| 0 <= i < |ms| && m == Member(ms[i].key, Canonical(ms[i].value));
      assert ms[i].key in Keys(ns);
      var j :| 0 <= j < |ns| && ns[j].key == ms[i].key;
      assert m == Member(ns[j].key, Canonical(ns[j].value));
    }
  }

  /** Sorted at every depth. */
  predicate FullySorted(j: Json) {
    match j
    case Array(xs) => forall i :: 0 <= i < |xs| ==> FullySorted(xs[i])
    case Object(ms) => Sorted(ms) && forall i :: 0 <= i < |ms| ==> FullySorted(ms[i].value)
    case _ => true
  }

  /** The canonical form is sorted throughout, has distinct keys, and loses nothing but the order. */
  lemma {:induction false} CanonicalIsCanonical(j: Json)
    requires WellFormed(j)
    ensures FullySorted(Canonical(j)) && WellFormed(Canonical(j)) && SameUpToOrder(j, Canonical(j))
  {
    match j
    case Array(xs) =>
      forall i | 0 <= i < |xs|
        ensures FullySorted(Canonical(xs[i])) && WellFormed(Canonical(xs[i])) && SameUpToOrder(xs[i], Canonical(xs[i]))
      {
        CanonicalIsCanonical(xs[i]);
      }
    case Object(ms) =>
      forall i | 0 <= i < |ms|
        ensures FullySorted(Canonical(ms[i].value)) && WellFormed(Canonical(ms[i].value))
        ensures SameUpToOrder(ms[i].value, Canonical(ms[i].value))
      {
        CanonicalIsCanonical(ms[i].value);
      }
      CanonicalObject(ms);
      CanonicalMembersDistinct(ms);
      var cs := Sort(CanonicalMembers(ms));
      forall k | 0 <= k < |cs|
        ensures exists i :: 0 <= i < |ms| && cs[k] == Member(ms[i].key, Canonical(ms[i].value))
      {
        assert cs[k] in cs;
        SortedMembers(ms, cs[k]);
      }
      SortedIsDistinct(cs);
      KeysOfSorted(ms);
    case _ =>
  }

  lemma SortedIsDistinct(ms: seq<Member>)
    requires Sorted(ms)
    ensures Distinct(ms)
  {
    forall i, j | 0 <= i < j < |ms| ensures ms[i].key != ms[j].key {
      BeforeIsTotal(ms[i].key, ms[j].key);
    }
  }

  lemma KeysOfSorted(ms: seq<Member>)
    ensures Keys(Sort(CanonicalMembers(ms))) == Keys(ms)
  {
    var cs := Sort(CanonicalMembers(ms));
    forall key ensures key in Keys(cs) <==> key in Keys(ms) {
      if key in Keys(cs) {
        var k :| 0 <= k < |cs| && cs[k].key == key;
        SortedMembers(ms, cs[k]);
      }
      if key in Keys(ms) {
        var i :| 0 <= i < |ms| && ms[i].key == key;
        var m := Member(ms[i].key, Canonical(ms[i].value));
        SortedMembers(ms, m);
        var k :| 0 <= k < |cs| && cs[k] == m;
      }
    }
  }

  /** Canonicalizing again changes nothing. */
  lemma {:induction false} CanonicalIsIdempotent(j: Json)
    requires WellFormed(j)
    ensures Canonical(Canonical(j)) == Canonical(j)
  {
    CanonicalIsCanonical(j);
    CanonicalDecidesOrder(j, Canonical(j));
  }
}
