/** Projecting trusted signalling networks and certificate fingerprints onto SIP principals. */
module ListenerCidr {
  import opened Options
  import opened Ascii

  // ---- Networks ----

  datatype Family = V4 | V6

  function Width(f: Family): nat {
    match f case V4 => 32 case V6 => 128
  }

  function Pow2(n: nat): (r: nat)
    ensures r >= 1
  {
    if n == 0 then 1 else 2 * Pow2(n - 1)
  }

  /** A number without its `n` least significant bits. */
  function Shift(x: nat, n: nat): nat
    decreases n
  {
    if n == 0 then x else Shift(x / 2, n - 1)
  }

  /** A number with its `n` least significant bits cleared. */
  function Clear(x: nat, n: nat): (r: nat)
    ensures r <= x
    decreases n
  {
    if n == 0 then x else 2 * Clear(x / 2, n - 1)
  }

  datatype Address = Address(family: Family, bits: nat)

  datatype IpNet = IpNet(family: Family, bits: nat, prefix: nat) {
    predicate Valid() {
      prefix <= Width(family) && bits < Pow2(Width(family))
    }

    /** How many bits the addresses of the network may differ in. */
    function HostBits(): nat
      requires Valid()
    {
      Width(family) - prefix
    }

    /** The network address: every host bit cleared. */
    function Network(): (r: nat)
      requires Valid()
      ensures r <= bits
    {
      Clear(bits, HostBits())
    }

    function Trunc(): IpNet
      requires Valid()
    {
      IpNet(family, Network(), prefix)
    }

    predicate Contains(address: nat)
      requires Valid()
    {
      Shift(address, HostBits()) == Shift(bits, HostBits())
    }
  }

  predicate InNet(net: IpNet, a: Address)
    requires net.Valid()
  {
    net.family == a.family && a.bits < Pow2(Width(a.family)) && net.Contains(a.bits)
  }

  predicate Overlap(l: IpNet, r: IpNet)
    requires l.Valid() && r.Valid()
  {
    l.family == r.family && (l.Contains(r.Network()) || r.Contains(l.Network()))
  }

  lemma {:induction false} ShiftTwice(x: nat, a: nat, b: nat)
    ensures Shift(Shift(x, a), b) == Shift(x, a + b)
    decreases a
  {
    if a > 0 {
      ShiftTwice(x / 2, a - 1, b);
    }
  }

  lemma {:induction false} ShiftBelow(x: nat, n: nat, high: nat)
    requires n <= high && x < Pow2(high)
    ensures Shift(x, n) < Pow2(high - n)
    decreases n
  {
    if n > 0 {
      ShiftBelow(x / 2, n - 1, high - 1);
    }
  }

  lemma {:induction false} ClearKeeps(x: nat, n: nat)
    ensures Shift(Clear(x, n), n) == Shift(x, n)
    decreases n
  {
    if n > 0 {
      ClearKeeps(x / 2, n - 1);
    }
  }

  // ---- What it is to lie in a network ----

  /** Bit `i` of a number, counted from the least significant. */
  function Bit(x: nat, i: nat): nat {
    Shift(x, i) % 2
  }

  predicate SameBits(x: nat, y: nat, low: nat, high: nat) {
    forall i: nat :: low <= i < high ==> Bit(x, i) == Bit(y, i)
  }

  lemma {:induction false} BitsDecide(x: nat, y: nat, n: nat)
    requires x < Pow2(n) && y < Pow2(n)
    ensures x == y <==> SameBits(x, y, 0, n)
    decreases n
  {
    if n > 0 {
      BitsDecide(x / 2, y / 2, n - 1);
      assert forall i: nat :: Bit(x / 2, i) == Bit(x, i + 1) && Bit(y / 2, i) == Bit(y, i + 1);
      assert Bit(x, 0) == x % 2 && Bit(y, 0) == y % 2;
      if SameBits(x, y, 0, n) {
        assert SameBits(x / 2, y / 2, 0, n - 1);
        assert Bit(x, 0) == Bit(y, 0);
      }
    }
  }

  lemma {:induction false} ShiftedBits(x: nat, y: nat, low: nat, n: nat)
    ensures SameBits(Shift(x, low), Shift(y, low), 0, n) <==> SameBits(x, y, low, low + n)
  {
    forall i: nat ensures Bit(Shift(x, low), i) == Bit(x, low + i) && Bit(Shift(y, low), i) == Bit(y, low + i) {
      ShiftTwice(x, low, i);
      ShiftTwice(y, low, i);
    }
    if SameBits(Shift(x, low), Shift(y, low), 0, n) {
      forall i: nat | low <= i < low + n ensures Bit(x, i) == Bit(y, i) {
        assert Bit(Shift(x, low), i - low) == Bit(Shift(y, low), i - low);
      }
    }
  }

  /** An address lies in a network exactly when it agrees with it in its first `prefix` bits. */
  lemma PrefixDecides(net: IpNet, a: Address)
    requires net.Valid() && a.family == net.family && a.bits < Pow2(Width(a.family))
    ensures InNet(net, a) <==> SameBits(a.bits, net.bits, Width(net.family) - net.prefix, Width(net.family))
  {
    var low := net.HostBits();
    ShiftBelow(a.bits, low, Width(net.family));
    ShiftBelow(net.bits, low, Width(net.family));
    BitsDecide(Shift(a.bits, low), Shift(net.bits, low), net.prefix);
    ShiftedBits(a.bits, net.bits, low, net.prefix);
  }

  /** The network address lies in the network, and has no host bit set. */
  lemma NetworkInside(net: IpNet)
    requires net.Valid()
    ensures net.Contains(net.Network()) && net.Trunc().Valid()
  {
    ClearKeeps(net.bits, net.HostBits());
  }

  /** A shorter prefix that holds one address of a longer one holds all of them. */
  lemma Nested(wide: IpNet, narrow: IpNet, shared: nat, a: nat)
    requires wide.Valid() && narrow.Valid() && wide.family == narrow.family && wide.prefix <= narrow.prefix
    requires wide.Contains(shared) && narrow.Contains(shared) && narrow.Contains(a)
    ensures wide.Contains(a)
  {
    ShiftTwice(shared, narrow.HostBits(), wide.HostBits() - narrow.HostBits());
    ShiftTwice(a, narrow.HostBits(), wide.HostBits() - narrow.HostBits());
  }

  /** The overlap test holds exactly when the networks share an address. */
  lemma OverlapExactly(l: IpNet, r: IpNet)
    requires l.Valid() && r.Valid()
    ensures Overlap(l, r) <==> exists a :: InNet(l, a) && InNet(r, a)
  {
    NetworkInside(l);
    NetworkInside(r);
    if Overlap(l, r) {
      var a := Address(l.family, if l.Contains(r.Network()) then r.Network() else l.Network());
      assert InNet(l, a) && InNet(r, a);
    }
    if a :| InNet(l, a) && InNet(r, a) {
      if l.prefix <= r.prefix {
        Nested(l, r, a.bits, r.Network());
      } else {
        Nested(r, l, a.bits, l.Network());
      }
    }
  }

  /** Overlapping networks are nested. */
  lemma OverlapNests(l: IpNet, r: IpNet)
    requires l.Valid() && r.Valid() && Overlap(l, r)
    ensures (forall a :: InNet(l, a) ==> InNet(r, a)) || (forall a :: InNet(r, a) ==> InNet(l, a))
  {
    OverlapExactly(l, r);
    var s :| InNet(l, s) && InNet(r, s);
    if l.prefix <= r.prefix {
      forall a | InNet(r, a) ensures InNet(l, a) {
        Nested(l, r, s.bits, a.bits);
      }
    } else {
      forall a | InNet(l, a) ensures InNet(r, a) {
        Nested(r, l, s.bits, a.bits);
      }
    }
  }

  /** Clearing the host bits does not change which addresses a network holds. */
  lemma TruncHoldsTheSame(net: IpNet, a: Address)
    requires net.Valid()
    ensures net.Trunc().Valid() && (InNet(net.Trunc(), a) <==> InNet(net, a))
  {
    var h := net.HostBits();
    ClearKeeps(net.bits, h);
    assert net.Trunc().HostBits() == h;
    assert net.Trunc().Contains(a.bits) <==> net.Contains(a.bits);
  }

  // ---- Installing networks and fingerprints ----

  /** Who a matching peer becomes: the ownership key of a profile's principal, and its scopes. */
  datatype Identity = Identity(ownership: string, scopes: seq<string>)

  /** One referenced profile. A network that does not parse is `None`. */
  datatype Source = Source(
    profile: string, tenant: string, identity: Identity,
    cidrs: seq<Option<IpNet>>, fingerprints: seq<string>)

  datatype Installed = Installed(profile: string, net: IpNet, identity: Identity)

  datatype Projection = Projection(profile: string, identity: Identity, cidrs: seq<IpNet>, fingerprints: seq<string>)

  predicate ValidFingerprint(f: string) {
    |f| == 64 && forall i :: 0 <= i < |f| ==> IsHexDigit(f[i])
  }

  predicate WellFormedSource(s: Source, tenant: string) {
    && s.tenant == tenant
    && (forall i :: 0 <= i < |s.cidrs| ==> s.cidrs[i].Some?)
    && (forall i :: 0 <= i < |s.fingerprints| ==> ValidFingerprint(s.fingerprints[i]))
  }

  predicate Parses(cidrs: seq<Option<IpNet>>) {
    forall i :: 0 <= i < |cidrs| && cidrs[i].Some? ==> cidrs[i].value.Valid()
  }

  /** What parsing promises: a parsed network has a prefix that fits its family. */
  predicate ParsedSources(sources: seq<Source>) {
    forall i :: 0 <= i < |sources| ==> Parses(sources[i].cidrs)
  }

  /** The networks of one profile, truncated, up to the first that does not parse. */
  function Entries(s: Source, cidrs: seq<Option<IpNet>>): (r: seq<Installed>)
    requires Parses(cidrs)
    ensures |r| <= |cidrs|
    ensures (forall i :: 0 <= i < |cidrs| ==> cidrs[i].Some?) ==>
      |r| == |cidrs| && forall i :: 0 <= i < |r| ==> r[i] == Installed(s.profile, cidrs[i].value.Trunc(), s.identity)
    ensures forall i :: 0 <= i < |r| ==> r[i].net.Valid()
  {
    if cidrs == [] || cidrs[0].None? then []
    else [Installed(s.profile, cidrs[0].value.Trunc(), s.identity)] + Entries(s, cidrs[1..])
  }

  function AllEntries(sources: seq<Source>): (r: seq<Installed>)
    requires ParsedSources(sources)
    ensures forall i :: 0 <= i < |r| ==> r[i].net.Valid()
  {
    if sources == [] then []
    else AllEntries(sources[..|sources| - 1]) + Entries(sources[|sources| - 1], sources[|sources| - 1].cidrs)
  }

  function Lowered(fs: seq<string>): (r: seq<string>)
    ensures |r| == |fs| && forall i :: 0 <= i < |fs| ==> r[i] == Lower(fs[i])
  {
    seq(|fs|, i requires 0 <= i < |fs| => Lower(fs[i]))
  }

  function AllPrints(sources: seq<Source>): seq<string> {
    if sources == [] then []
    else AllPrints(sources[..|sources| - 1]) + Lowered(sources[|sources| - 1].fingerprints)
  }

  predicate Disjoint(es: seq<Installed>) {
    (forall i :: 0 <= i < |es| ==> es[i].net.Valid())
    && forall i, j :: 0 <= i < j < |es| ==> !Overlap(es[j].net, es[i].net)
  }

  predicate Unique(fs: seq<string>) {
    forall i, j :: 0 <= i < j < |fs| ==> fs[i] != fs[j]
  }

  /** When the projection must succeed. */
  predicate Acceptable(sources: seq<Source>, tenant: string)
    requires ParsedSources(sources)
  {
    && (forall i :: 0 <= i < |sources| ==> WellFormedSource(sources[i], tenant))
    && Disjoint(AllEntries(sources))
    && Unique(AllPrints(sources))
  }

  function ProjectionOf(s: Source): Projection
    requires Parses(s.cidrs) && forall i :: 0 <= i < |s.cidrs| ==> s.cidrs[i].Some?
  {
    Projection(
      s.profile, s.identity,
      seq(|s.cidrs|, i requires 0 <= i < |s.cidrs| => s.cidrs[i].value.Trunc()),
      Lowered(s.fingerprints))
  }

  method Conflicts(net: IpNet, installed: seq<Installed>) returns (b: bool)
    requires net.Valid() && Disjoint(installed)
    ensures b <==> exists i :: 0 <= i < |installed| && Overlap(net, installed[i].net)
  {
    for i := 0 to |installed|
      invariant forall j :: 0 <= j < i ==> !Overlap(net, installed[j].net)
    {
      if Overlap(net, installed[i].net) {
        return true;
      }
    }
    return false;
  }

  /** Install one network behind the others, unless it overlaps one of them. */
  method InstallCidr(e: Installed, installed: seq<Installed>) returns (r: Option<seq<Installed>>)
    requires e.net.Valid() && Disjoint(installed)
    ensures r == if Disjoint(installed + [e]) then Some(installed + [e]) else None
  {
    var conflict := Conflicts(e.net, installed);
    if conflict {
      OneMoreOverlaps(installed, e);
      return None;
    }
    OneMoreDisjoint(installed, e);
    return Some(installed + [e]);
  }

  lemma OneMoreOverlaps(es: seq<Installed>, e: Installed)
    requires Disjoint(es) && e.net.Valid() && exists k :: 0 <= k < |es| && Overlap(e.net, es[k].net)
    ensures !Disjoint(es + [e])
  {
    var all := es + [e];
    var k :| 0 <= k < |es| && Overlap(e.net, es[k].net);
    assert all[|es|] == e && all[k] == es[k];
  }

  lemma OneMoreDisjoint(es: seq<Installed>, e: Installed)
    requires Disjoint(es) && e.net.Valid() && forall k :: 0 <= k < |es| ==> !Overlap(e.net, es[k].net)
    ensures Disjoint(es + [e])
  {
  }

  lemma PrefixIsDisjoint(es: seq<Installed>, all: seq<Installed>)
    requires es <= all && Disjoint(all)
    ensures Disjoint(es)
  {
    assert forall i :: 0 <= i < |es| ==> es[i] == all[i];
  }

  /** Install the networks of one profile behind those already installed. */
  method InstallCidrs(s: Source, installed: seq<Installed>) returns (r: Option<seq<Installed>>)
    requires Parses(s.cidrs) && Disjoint(installed)
    ensures r.Some? <==> (forall i :: 0 <= i < |s.cidrs| ==> s.cidrs[i].Some?) && Disjoint(installed + Entries(s, s.cidrs))
    ensures r.Some? ==> r.value == installed + Entries(s, s.cidrs)
  {
    r := Some(installed);
    ghost var goal := installed + Entries(s, s.cidrs);
    for i := 0 to |s.cidrs|
      invariant forall j :: 0 <= j < i ==> s.cidrs[j].Some?
      invariant r.Some? && |r.value| == |installed| + i && r.value <= goal && Disjoint(r.value)
    {
      if s.cidrs[i].None? {
        return None;
      }
      var e := Installed(s.profile, s.cidrs[i].value.Trunc(), s.identity);
      NextOfGoal(s, installed, r.value, i, e, goal);
      r := InstallCidr(e, r.value);
      if r == None {
        return None;
      }
    }
  }

  /** The next network comes next in the goal, so the goal is not disjoint unless it fits. */
  lemma {:induction false} NextOfGoal(s: Source, installed: seq<Installed>, all: seq<Installed>, i: nat, e: Installed, goal: seq<Installed>)
    requires Parses(s.cidrs) && i < |s.cidrs| && forall j :: 0 <= j <= i ==> s.cidrs[j].Some?
    requires goal == installed + Entries(s, s.cidrs) && |all| == |installed| + i && all <= goal
    requires e == Installed(s.profile, s.cidrs[i].value.Trunc(), s.identity)
    ensures all + [e] <= goal && e.net.Valid() && (Disjoint(goal) ==> Disjoint(all + [e]))
  {
    EntryAt(s, s.cidrs, i);
    assert goal[|all|] == e;
    if Disjoint(goal) {
      PrefixIsDisjoint(all + [e], goal);
    }
  }

  lemma {:induction false} EntryAt(s: Source, cidrs: seq<Option<IpNet>>, i: nat)
    requires Parses(cidrs) && i < |cidrs| && forall j :: 0 <= j < i ==> cidrs[j].Some?
    ensures cidrs[i].Some? ==>
      |Entries(s, cidrs)| > i && Entries(s, cidrs)[i] == Installed(s.profile, cidrs[i].value.Trunc(), s.identity)
    decreases i
  {
    if i > 0 {
      EntryAt(s, cidrs[1..], i - 1);
    }
  }

  /** Install the case-normalized fingerprints of one profile. */
  method InstallPrints(fs: seq<string>, installed: seq<string>) returns (r: Option<seq<string>>)
    requires Unique(installed)
    ensures r.Some? <==> (forall i :: 0 <= i < |fs| ==> ValidFingerprint(fs[i])) && Unique(installed + Lowered(fs))
    ensures r.Some? ==> r.value == installed + Lowered(fs)
  {
    var all := installed;
    ghost var goal := installed + Lowered(fs);
    for i := 0 to |fs|
      invariant forall j :: 0 <= j < i ==> ValidFingerprint(fs[j])
      invariant |all| == |installed| + i && all <= goal && Unique(all)
    {
      if !ValidFingerprint(fs[i]) {
        return None;
      }
      var f := Lower(fs[i]);
      assert goal[|all|] == f;
      if f in all {
        var k :| 0 <= k < |all| && all[k] == f;
        assert goal[k] == f;
        return None;
      }
      all := all + [f];
    }
    return Some(all);
  }

  method InstallSource(s: Source, tenant: string, networks: seq<Installed>, prints: seq<string>)
    returns (r: Option<(seq<Installed>, seq<string>)>)
    requires Parses(s.cidrs) && Disjoint(networks) && Unique(prints)
    ensures r.Some? <==>
      WellFormedSource(s, tenant) && Disjoint(networks + Entries(s, s.cidrs)) && Unique(prints + Lowered(s.fingerprints))
    ensures r.Some? ==> r.value == (networks + Entries(s, s.cidrs), prints + Lowered(s.fingerprints))
  {
    if s.tenant != tenant {
      return None;
    }
    var more := InstallCidrs(s, networks);
    if more == None {
      return None;
    }
    var fingerprints := InstallPrints(s.fingerprints, prints);
    if fingerprints == None {
      return None;
    }
    return Some((more.value, fingerprints.value));
  }

  /** The projection succeeds exactly when every profile belongs to the listener's tenant and parses,
      no two networks overlap and no fingerprint repeats, across all profiles; it then installs
      every network truncated and every fingerprint in lower case. */
  method ProjectPrincipals(sources: seq<Source>, tenant: string)
    returns (r: Option<seq<Projection>>, networks: seq<Installed>, prints: seq<string>)
    requires ParsedSources(sources)
    ensures r.Some? <==> Acceptable(sources, tenant)
    ensures r.Some? ==> networks == AllEntries(sources) && prints == AllPrints(sources)
    ensures r.Some? ==> |r.value| == |sources|
    ensures r.Some? ==> forall i :: 0 <= i < |sources| ==> r.value[i] == ProjectionOf(sources[i])
  {
    var projections: seq<Projection> := [];
    networks, prints := [], [];
    for i := 0 to |sources|
      invariant InstalledUpTo(sources, tenant, i, networks, prints)
      invariant |projections| == i && forall j :: 0 <= j < i ==> projections[j] == ProjectionOf(sources[j])
    {
      NextInstalled(sources, tenant, i, networks, prints);
      var more := InstallSource(sources[i], tenant, networks, prints);
      if more == None {
        return None, networks, prints;
      }
      networks, prints := more.value.0, more.value.1;
      projections := projections + [ProjectionOf(sources[i])];
    }
    assert sources[..|sources|] == sources;
    return Some(projections), networks, prints;
  }

  /** The first `i` profiles are acceptable by themselves, and this is what they install. */
  ghost predicate InstalledUpTo(sources: seq<Source>, tenant: string, i: int, networks: seq<Installed>, prints: seq<string>)
    requires ParsedSources(sources) && 0 <= i <= |sources|
  {
    && networks == AllEntries(sources[..i]) && prints == AllPrints(sources[..i])
    && Disjoint(networks) && Unique(prints)
    && forall j :: 0 <= j < i ==> WellFormedSource(sources[j], tenant)
  }

  /** One more profile is acceptable exactly when it can be installed behind the others; if it cannot,
      the whole list is not. */
  lemma NextInstalled(sources: seq<Source>, tenant: string, i: nat, networks: seq<Installed>, prints: seq<string>)
    requires ParsedSources(sources) && i < |sources| && InstalledUpTo(sources, tenant, i, networks, prints)
    ensures var s := sources[i];
            var more, next := networks + Entries(s, s.cidrs), prints + Lowered(s.fingerprints);
            if WellFormedSource(s, tenant) && Disjoint(more) && Unique(next)
            then InstalledUpTo(sources, tenant, i + 1, more, next)
            else !Acceptable(sources, tenant)
  {
    PrefixStep(sources, i);
  }

  /** An unacceptable prefix makes the whole unacceptable. */
  lemma {:induction false} PrefixStep(sources: seq<Source>, i: nat)
    requires ParsedSources(sources) && i < |sources|
    ensures AllEntries(sources[..i + 1]) == AllEntries(sources[..i]) + Entries(sources[i], sources[i].cidrs)
    ensures AllPrints(sources[..i + 1]) == AllPrints(sources[..i]) + Lowered(sources[i].fingerprints)
    ensures AllEntries(sources[..i + 1]) <= AllEntries(sources) && AllPrints(sources[..i + 1]) <= AllPrints(sources)
  {
    assert sources[..i + 1][..i] == sources[..i];
    PrefixOfAll(sources, i + 1);
  }

  lemma {:induction false} PrefixOfAll(sources: seq<Source>, i: nat)
    requires ParsedSources(sources) && i <= |sources|
    ensures AllEntries(sources[..i]) <= AllEntries(sources) && AllPrints(sources[..i]) <= AllPrints(sources)
    decreases |sources|
  {
    if i == |sources| {
      assert sources[..i] == sources;
    } else {
      var shorter := sources[..|sources| - 1];
      PrefixOfAll(shorter, i);
      assert shorter[..i] == sources[..i];
    }
  }

  /** Once projected, an address lies in at most one installed network, so in the network of at most
      one profile, and determines at most one principal. */
  lemma {:induction false} AddressDeterminesPrincipal(sources: seq<Source>, tenant: string, a: Address, i: nat, j: nat)
    requires ParsedSources(sources) && Acceptable(sources, tenant)
    requires i < |AllEntries(sources)| && j < |AllEntries(sources)|
    requires InNet(AllEntries(sources)[i].net, a) && InNet(AllEntries(sources)[j].net, a)
    ensures i == j
  {
    var es := AllEntries(sources);
    OverlapExactly(es[i].net, es[j].net);
    OverlapExactly(es[j].net, es[i].net);
  }

  /** Two configured fingerprints that differ at most in case are the same installed one. */
  lemma {:induction false} FingerprintDeterminesPrincipal(sources: seq<Source>, tenant: string, f: string, i: nat, j: nat)
    requires ParsedSources(sources) && Acceptable(sources, tenant)
    requires i < |AllPrints(sources)| && j < |AllPrints(sources)|
    requires EqIgnoreCase(AllPrints(sources)[i], f) && EqIgnoreCase(AllPrints(sources)[j], f)
    ensures i == j
  {
    var fs := AllPrints(sources);
    AllPrintsLower(sources, i);
    AllPrintsLower(sources, j);
    assert fs[i] == fs[j];
  }

  lemma {:induction false} AllPrintsLower(sources: seq<Source>, i: nat)
    requires i < |AllPrints(sources)|
    ensures Lower(AllPrints(sources)[i]) == AllPrints(sources)[i]
    decreases |sources|
  {
    var shorter := sources[..|sources| - 1];
    if i < |AllPrints(shorter)| {
      AllPrintsLower(shorter, i);
    } else {
      var f := sources[|sources| - 1].fingerprints[i - |AllPrints(shorter)|];
      assert AllPrints(sources)[i] == Lower(f);
      assert Lower(Lower(f)) == Lower(f);
    }
  }

  // ---- Who a peer becomes ----

  /** A profile of this identity trusts the address. */
  ghost predicate Trusts(sources: seq<Source>, a: Address, identity: Identity) {
    exists i :: 0 <= i < |sources| && TrustsIn(sources[i], a, identity)
  }

  /** One of its networks holds it. */
  ghost predicate TrustsIn(s: Source, a: Address, identity: Identity) {
    exists j :: 0 <= j < |s.cidrs| && TrustsBy(s, j, a, identity)
  }

  predicate TrustsBy(s: Source, j: int, a: Address, identity: Identity)
    requires 0 <= j < |s.cidrs|
  {
    s.identity == identity && s.cidrs[j].Some? && s.cidrs[j].value.Valid() && InNet(s.cidrs[j].value, a)
  }

  /** An installed network of this identity holds the address. */
  ghost predicate Admits(es: seq<Installed>, a: Address, identity: Identity) {
    exists k :: 0 <= k < |es| && AdmitsBy(es[k], a, identity)
  }

  predicate AdmitsBy(e: Installed, a: Address, identity: Identity) {
    e.net.Valid() && InNet(e.net, a) && e.identity == identity
  }

  lemma AdmitsTogether(xs: seq<Installed>, ys: seq<Installed>, a: Address, identity: Identity)
    ensures Admits(xs + ys, a, identity) <==> Admits(xs, a, identity) || Admits(ys, a, identity)
  {
    var es := xs + ys;
    assert forall k :: 0 <= k < |xs| ==> es[k] == xs[k];
    assert forall k :: 0 <= k < |ys| ==> es[|xs| + k] == ys[k];
    if k :| 0 <= k < |es| && AdmitsBy(es[k], a, identity) {
      assert k < |xs| || AdmitsBy(ys[k - |xs|], a, identity);
    }
  }

  lemma {:induction false} EntriesAdmit(s: Source, a: Address, identity: Identity)
    requires Parses(s.cidrs) && forall j :: 0 <= j < |s.cidrs| ==> s.cidrs[j].Some?
    ensures Admits(Entries(s, s.cidrs), a, identity) <==> TrustsIn(s, a, identity)
  {
    var es := Entries(s, s.cidrs);
    forall j | 0 <= j < |s.cidrs| ensures AdmitsBy(es[j], a, identity) <==> TrustsBy(s, j, a, identity) {
      TruncHoldsTheSame(s.cidrs[j].value, a);
    }
  }

  predicate AllParse(s: Source) {
    forall j :: 0 <= j < |s.cidrs| ==> s.cidrs[j].Some?
  }

  lemma TrustsTogether(front: seq<Source>, last: Source, a: Address, identity: Identity)
    ensures Trusts(front + [last], a, identity) <==> Trusts(front, a, identity) || TrustsIn(last, a, identity)
  {
    var all := front + [last];
    assert all[|front|] == last && forall i :: 0 <= i < |front| ==> all[i] == front[i];
  }

  /** After a successful projection a peer is given an identity exactly when a profile of that identity
      trusts its address. */
  lemma {:induction false} PeerBecomes(sources: seq<Source>, a: Address, identity: Identity)
    requires ParsedSources(sources) && forall i :: 0 <= i < |sources| ==> AllParse(sources[i])
    ensures Admits(AllEntries(sources), a, identity) <==> Trusts(sources, a, identity)
    decreases |sources|
  {
    if sources != [] {
      var n := |sources| - 1;
      assert sources[..n] + [sources[n]] == sources;
      PeerBecomes(sources[..n], a, identity);
      EntriesAdmit(sources[n], a, identity);
      AdmitsTogether(AllEntries(sources[..n]), Entries(sources[n], sources[n].cidrs), a, identity);
      TrustsTogether(sources[..n], sources[n], a, identity);
    }
  }

  /** What a projection carries of its profile: name, identity, networks that hold the same addresses,
      and fingerprints in lower case, all in their order. */
  lemma ProjectionCarries(s: Source)
    requires Parses(s.cidrs) && forall j :: 0 <= j < |s.cidrs| ==> s.cidrs[j].Some?
    ensures var p := ProjectionOf(s);
      && p.profile == s.profile && p.identity == s.identity
      && |p.cidrs| == |s.cidrs| && |p.fingerprints| == |s.fingerprints|
      && (forall j, a :: 0 <= j < |s.cidrs| ==> (InNet(p.cidrs[j], a) <==> InNet(s.cidrs[j].value, a)))
      && (forall j :: 0 <= j < |s.fingerprints| ==> p.fingerprints[j] == Lower(s.fingerprints[j]))
  {
    forall j, a | 0 <= j < |s.cidrs| ensures InNet(ProjectionOf(s).cidrs[j], a) <==> InNet(s.cidrs[j].value, a) {
      TruncHoldsTheSame(s.cidrs[j].value, a);
    }
  }
}
