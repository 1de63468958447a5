/** What recipe projection guarantees: at most one bridge in a process, and exactly when route
    validation accepts what was projected. */
module RecipeRoutes {
  import opened Ascii
  import opened Options
  import opened Recipes
  import ListenerCidr

  // ---- One process holds one bridge ----

  /** The process is bound to one tenant, which is configured. */
  predicate Pinned(s: Settings) {
    s.staticTenant.Some? && s.staticTenant.value in s.tenants
  }

  /** Every success leaves a pinned process, and starts from one that is not. */
  ghost predicate Exclusive(project: Projector<Bridge>) {
    forall s, b :: project(s, b).Some? ==> !Pinned(s) && Pinned(project(s, b).value)
  }

  lemma BridgesAreExclusive(env: Env, r: Recipe)
    ensures Exclusive(BridgesOf(env, r))
  {
    forall s, b | BridgesOf(env, r)(s, b).Some?
      ensures !Pinned(s) && Pinned(BridgesOf(env, r)(s, b).value)
    {
      assert Allowed(env, s, r, b);
    }
  }

  /** After one bridge no other can be projected. */
  lemma {:induction false} AtMostOneInTurn(project: Projector<Bridge>, s: Settings, bridges: seq<Bridge>)
    requires Exclusive(project)
    ensures InTurn(project, s, bridges) ==
      match |bridges| { case 0 => Some(s) case 1 => project(s, bridges[0]) case _ => None }
    decreases |bridges|
  {
    if bridges != [] {
      var n := |bridges| - 1;
      AtMostOneInTurn(project, s, bridges[..n]);
    }
  }

  function CountBridges(recipes: seq<Recipe>): nat {
    if recipes == [] then 0
    else CountBridges(recipes[..|recipes| - 1]) + |recipes[|recipes| - 1].bridges|
  }

  /** The recipe that holds the only bridge. */
  function Holder(recipes: seq<Recipe>): (r: Recipe)
    requires CountBridges(recipes) == 1
    ensures r in recipes && |r.bridges| == 1
  {
    var n := |recipes| - 1;
    if |recipes[n].bridges| == 1 then recipes[n] else Holder(recipes[..n])
  }

  predicate ValidInstances(recipes: seq<Recipe>) {
    forall i :: 0 <= i < |recipes| ==> ValidId(recipes[i].instance)
  }

  /** What a whole list of recipes comes to, without the loops. */
  function Outcome(env: Env, s: Settings, recipes: seq<Recipe>): Option<Settings> {
    if !ValidInstances(recipes) || CountBridges(recipes) > 1 then None
    else if CountBridges(recipes) == 0 then Some(s)
    else ProjectBridge(env, s, Holder(recipes), Holder(recipes).bridges[0])
  }

  /** Recipes hold no bridge or exactly one, in all; two bridges, in one recipe or in two, never
      load. The only bridge is projected as if it were alone, so its route carries the instance's
      own name. */
  lemma {:induction false} ProjectsExactly(env: Env, s: Settings, recipes: seq<Recipe>)
    ensures ProjectRecipes(env, s, recipes) == Outcome(env, s, recipes)
    ensures CountBridges(recipes) == 1 && Outcome(env, s, recipes).Some? ==> Pinned(Outcome(env, s, recipes).value)
    decreases |recipes|
  {
    if recipes != [] {
      var n := |recipes| - 1;
      var rest, r := recipes[..n], recipes[n];
      ProjectsExactly(env, s, rest);
      ValidPrefix(recipes);
      BridgesAreExclusive(env, r);
      if Outcome(env, s, rest).Some? {
        AtMostOneInTurn(BridgesOf(env, r), Outcome(env, s, rest).value, r.bridges);
      }
    }
  }

  lemma ValidPrefix(recipes: seq<Recipe>)
    requires recipes != []
    ensures ValidInstances(recipes) <==>
      ValidInstances(recipes[..|recipes| - 1]) && ValidId(recipes[|recipes| - 1].instance)
  {
    var n := |recipes| - 1;
    assert forall i :: 0 <= i < n ==> recipes[..n][i] == recipes[i];
  }

  // ---- Route validation: tenants ----

  predicate ValidTenantId(s: string) {
    1 <= |s| <= 128 && forall i :: 0 <= i < |s| ==> IsAlphanumeric(s[i]) || s[i] in "._:-"
  }

  predicate TenantResolves(env: Env, name: string, t: Tenant) {
    && name != ""
    && (if t.routingOnly then t.instanceId == "" && t.flow == "" else t.instanceId != "" && t.flow != "")
    && (if t.unmapped.Some? then t.unmapped.value else env.unmapped) in {"drop", "pass_prefixed"}
  }

  /** The routing tenants; the single-tenant schema applies only when none is named. */
  function ResolvedTenants(env: Env, s: Settings): Option<set<string>> {
    if s.tenants == map[] then env.legacyTenants(s.defaultTenant)
    else if (forall name :: name in s.tenants ==> TenantResolves(env, name, s.tenants[name]))
            && (s.defaultTenant.Some? ==> s.defaultTenant.value in s.tenants)
    then Some(s.tenants.Keys)
    else None
  }

  // ---- Route validation: one route ----

  /** The listener has the posture that a route's security asks for. */
  predicate PostureFits(s: Settings, security: IngressSecurity) {
    match security
    case TlsSrtp => s.sip.listener.Some? && s.sip.srtp == Required
    case TlsOptionalSrtp => s.sip.listener.Some? && s.sip.srtp == Preferred
    case ClearRtp => s.sip.listener.None? && s.sip.srtp == Disabled
  }

  /** An ingress profile matches the shared listener. */
  predicate ListenerFits(s: Settings, p: IngressProfile) {
    && PostureFits(s, p.security)
    && (p.security != ClearRtp ==>
          && p.tls == Some(s.sip.listener.value.identity)
          && (p.mtlsCas != [] ==> |p.mtlsCas| == 1 && s.sip.listener.value.clientCa == Some(p.mtlsCas[0])))
  }

  predicate IngressAccepted(s: Settings, route: Route) {
    match route.ingress
    case FromSip(id) =>
      s.template.Some? && id in s.ingress && s.ingress[id].tenant == route.tenant && ListenerFits(s, s.ingress[id])
    case FromWebrtc(id) => s.webrtc.Some? && id in s.webrtcOrigins
  }

  predicate DestinationListed(env: Env, s: Settings, d: Destination) {
    match d
    case ToAmazon(_, _, _) => true
    case ToWebrtc(id, uri) => id in s.webrtcOrigins && env.origin(uri).Some? && env.origin(uri).value in s.webrtcOrigins[id]
    case ToSip(id, target) => id in s.sipTargets && target in s.sipTargets[id]
  }

  predicate HeaderAccepted(s: Settings, route: Route) {
    route.correlationHeader.Some? ==>
      && route.ingress.FromSip?
      && exists h :: h in s.allowHeaders && EqIgnoreCase(h, route.correlationHeader.value)
                     && s.allowHeaders[h] == CORRELATION_KEY
  }

  predicate RouteAccepted(env: Env, s: Settings, id: string, route: Route) {
    && ValidId(id) && ValidTenantId(route.tenant)
    && ResolvedTenants(env, s).Some? && route.tenant in ResolvedTenants(env, s).value
    && env.validDestination(route.destination)
    && IngressAccepted(s, route) && DestinationListed(env, s, route.destination) && HeaderAccepted(s, route)
  }

  function RouteSecurity(s: Settings, route: Route): Option<IngressSecurity> {
    if route.ingress.FromSip? && route.ingress.sipProfile in s.ingress
    then Some(s.ingress[route.ingress.sipProfile].security) else None
  }

  /** A recipe Contact is set exactly when the listener of a SIP route is a TLS one. */
  predicate ContactFits(s: Settings, route: Route) {
    route.ingress.FromSip? ==> (s.sip.contact.Some? <==> RouteSecurity(s, route) != Some(ClearRtp))
  }

  // ---- Route validation: the whole configuration ----

  /** A worker has no public surface; any other process has both, with an API credential. */
  predicate SurfacesAccepted(env: Env, s: Settings) {
    && env.hasControlKey
    && (if env.worker then !s.apiEnabled && !s.bridgeEnabled else s.apiEnabled && s.bridgeEnabled && env.hasBearer)
  }

  /** One process cannot mix SIP security profiles. */
  predicate SameSecurity(s: Settings) {
    forall a, b :: a in s.routes && b in s.routes && s.routes[a].ingress.FromSip? && s.routes[b].ingress.FromSip? ==>
      RouteSecurity(s, s.routes[a]) == RouteSecurity(s, s.routes[b])
  }

  /** The attachment URI has the scheme of the security, the token as its user part, and a valid rest. */
  predicate TemplateFits(env: Env, template: string, security: IngressSecurity) {
    && (if security == ClearRtp then "sip:{token}@" <= template else "sips:{token}@" <= template)
    && env.validTemplate(template)
  }

  /** A configured template is checked against the SIP routes, or as a secure one if there are none. */
  predicate TemplateAccepted(env: Env, s: Settings) {
    s.template.Some? ==>
      && (forall id :: id in s.routes && RouteSecurity(s, s.routes[id]).Some? ==>
            TemplateFits(env, s.template.value, RouteSecurity(s, s.routes[id]).value))
      && ((forall id :: id in s.routes ==> !s.routes[id].ingress.FromSip?) ==>
            TemplateFits(env, s.template.value, TlsSrtp))
  }

  predicate AttachmentAccepted(env: Env, s: Settings) {
    s.webrtc.Some? ==> env.origin(s.webrtc.value.uri).Some? && s.webrtc.value.iceValid
  }

  /** The SIP ingress profiles that routes refer to. */
  function Referenced(s: Settings): set<string> {
    set id | id in s.routes && s.routes[id].ingress.FromSip? :: s.routes[id].ingress.sipProfile
  }

  /** The listener's tenant: the bound one, or the only one there is. */
  predicate IsListenerTenant(env: Env, s: Settings, tenant: string) {
    if s.staticTenant.Some? then s.staticTenant.value == tenant
    else ResolvedTenants(env, s) == Some({tenant})
  }

  function NetOf(env: Env, cidr: string): (r: Option<ListenerCidr.IpNet>)
    ensures r.Some? ==> r.value.Valid()
  {
    match env.parseNet(cidr)
    case None => None
    case Some(net) => Some(net)
  }

  function Nets(env: Env, cidrs: seq<string>): (r: seq<Option<ListenerCidr.IpNet>>)
    ensures ListenerCidr.Parses(r)
  {
    seq(|cidrs|, i requires 0 <= i < |cidrs| => NetOf(env, cidrs[i]))
  }

  function SourceOf(env: Env, s: Settings, id: string): (r: ListenerCidr.Source)
    requires id in s.ingress
    ensures ListenerCidr.Parses(r.cidrs)
  {
    var p := s.ingress[id];
    ListenerCidr.Source(id, p.tenant, ListenerCidr.Identity(p.tenant, []), Nets(env, p.cidrs), p.fingerprints)
  }

  ghost predicate Lists(ids: seq<string>, s: set<string>) {
    |ids| == |s| && forall id :: id in ids <==> id in s
  }

  function Sources(env: Env, s: Settings, ids: seq<string>): (r: seq<ListenerCidr.Source>)
    requires forall id :: id in ids ==> id in s.ingress
    ensures ListenerCidr.ParsedSources(r)
  {
    seq(|ids|, i requires 0 <= i < |ids| => SourceOf(env, s, ids[i]))
  }

  /** The principal projection of the referenced profiles succeeds, in whatever order they are listed. */
  ghost predicate ProjectsFor(env: Env, s: Settings, tenant: string) {
    && IsListenerTenant(env, s, tenant) && Referenced(s) <= s.ingress.Keys
    && forall ids :: Lists(ids, Referenced(s)) ==> ListenerCidr.Acceptable(Sources(env, s, ids), tenant)
  }

  ghost predicate PrincipalsAccepted(env: Env, s: Settings) {
    Referenced(s) != {} ==> exists tenant :: ProjectsFor(env, s, tenant)
  }

  /** Route validation. */
  ghost predicate RoutesAccepted(env: Env, s: Settings) {
    s.routes == map[]
    || (&& SurfacesAccepted(env, s) && ResolvedTenants(env, s).Some?
        && (forall id :: id in s.routes ==> RouteAccepted(env, s, id, s.routes[id]))
        && SameSecurity(s) && TemplateAccepted(env, s) && AttachmentAccepted(env, s) && PrincipalsAccepted(env, s))
  }

  // ---- What a projected bridge always gives ----

  /** A SIP listener is in place for a recipe's security. */
  predicate SipReady(env: Env, p: Settings, security: SipSecurity) {
    && PostureFits(p, IngressOf(security)) && (p.sip.contact.Some? <==> security != SipRtp)
    && (security != SipRtp ==> Some(p.sip.listener.value.identity) == ProfileTls(env, security))
  }

  lemma PostureReady(env: Env, s: Settings, security: SipSecurity, amazon: bool)
    requires SipAllowed(env, s, security, amazon)
    ensures SipReady(env, SipResult(env, s, security, amazon), security)
    ensures if security == SipRtp then "sip:{token}@" <= Template(env, security) else "sips:{token}@" <= Template(env, security)
  {
  }

  /** A route whose ingress profile has the security of the listener that is in place. */
  lemma ProfileFits(env: Env, p: Settings, route: Route, security: SipSecurity, cidrs: seq<string>)
    requires SipReady(env, p, security) && p.template.Some? && route.ingress.FromSip?
    requires route.ingress.sipProfile in p.ingress
    requires p.ingress[route.ingress.sipProfile] == Profile(env, route.tenant, security, cidrs)
    ensures IngressAccepted(p, route) && ContactFits(p, route)
  {
  }

  lemma HeaderFits(p: Settings, route: Route)
    requires CORRELATION_HEADER in p.allowHeaders && p.allowHeaders[CORRELATION_HEADER] == CORRELATION_KEY
    requires route.ingress.FromSip? && route.correlationHeader in {None, Some(CORRELATION_HEADER)}
    ensures HeaderAccepted(p, route)
  {
  }

  lemma SipEndInPlace(env: Env, s: Settings, r: Recipe, b: Bridge)
    requires Allowed(env, s, r, b) && b.source.Sip?
    ensures var p, route := Result(env, s, r, b), RouteOf(env, s, r, b);
      IngressAccepted(p, route) && HeaderAccepted(p, route) && ContactFits(p, route)
  {
    var p, route := Result(env, s, r, b), RouteOf(env, s, r, b);
    PostureReady(env, s, b.source.security, b.destination.Amazon?);
    ProfileFits(env, p, route, b.source.security, b.source.admission.value);
    HeaderFits(p, route);
  }

  lemma WebrtcEndInPlace(env: Env, s: Settings, r: Recipe, b: Bridge)
    requires Allowed(env, s, r, b) && b.source.Webrtc?
    ensures var p, route := Result(env, s, r, b), RouteOf(env, s, r, b);
      IngressAccepted(p, route) && HeaderAccepted(p, route) && ContactFits(p, route)
  {
  }

  lemma DestinationInPlace(env: Env, s: Settings, r: Recipe, b: Bridge)
    requires Allowed(env, s, r, b)
    ensures DestinationListed(env, Result(env, s, r, b), DestinationOf(env, s, r, b))
  {
  }

  /** Whatever the explicit configuration, the ends of a projected route are in place: its ingress and
      destination profiles, the listener posture, the Contact and the correlation header agree. */
  lemma EndsAreInPlace(env: Env, s: Settings, r: Recipe, b: Bridge)
    requires Allowed(env, s, r, b)
    ensures var p, route := Result(env, s, r, b), RouteOf(env, s, r, b);
      && IngressAccepted(p, route) && HeaderAccepted(p, route) && ContactFits(p, route)
      && DestinationListed(env, p, route.destination)
  {
    DestinationInPlace(env, s, r, b);
    if b.source.Sip? {
      SipEndInPlace(env, s, r, b);
    } else {
      WebrtcEndInPlace(env, s, r, b);
    }
  }

  // ---- When validation accepts a projected bridge ----

  /** No address lies in two of the networks, and all of them parse. */
  ghost predicate NetworksApart(env: Env, cidrs: seq<string>) {
    && (forall i :: 0 <= i < |cidrs| ==> NetOf(env, cidrs[i]).Some?)
    && forall i, j, a :: 0 <= i < j < |cidrs| && NetOf(env, cidrs[i]).Some? && NetOf(env, cidrs[j]).Some? ==>
         !(ListenerCidr.InNet(NetOf(env, cidrs[i]).value, a) && ListenerCidr.InNet(NetOf(env, cidrs[j]).value, a))
  }

  /** The default tenant is not set, or is configured, or will be. */
  predicate DefaultKnown(s: Settings, instance: string) {
    s.defaultTenant.Some? ==> s.defaultTenant.value in s.tenants || s.defaultTenant.value == instance
  }

  predicate ExplicitTenantsResolve(env: Env, s: Settings) {
    forall name :: name in s.tenants ==> TenantResolves(env, name, s.tenants[name])
  }

  predicate Credentials(env: Env) {
    env.hasControlKey && (env.worker || env.hasBearer)
  }

  /** What must hold of the configuration and the bridge, before the load, for validation to accept. */
  ghost predicate Acceptable(env: Env, s: Settings, r: Recipe, b: Bridge)
    requires Allowed(env, s, r, b)
  {
    && Credentials(env)
    && DefaultKnown(s, r.instance) && ExplicitTenantsResolve(env, s)
    && |r.instance| <= 128
    && env.validDestination(DestinationOf(env, s, r, b))
    && (s.webrtc.Some? ==> env.origin(s.webrtc.value.uri).Some? && s.webrtc.value.iceValid)
    && (if b.source.Sip? then env.validTemplate(Template(env, b.source.security)) && NetworksApart(env, b.source.admission.value)
        else s.template.Some? ==> TemplateFits(env, s.template.value, TlsSrtp))
  }

  /** Adding a tenant that resolves. */
  lemma TenantsClause(env: Env, s: Settings, name: string, tenant: Tenant, p: Settings)
    requires name !in s.tenants && p.tenants == s.tenants[name := tenant] && TenantResolves(env, name, tenant)
    requires p.defaultTenant == if s.defaultTenant.Some? then s.defaultTenant else Some(name)
    ensures ResolvedTenants(env, p).Some? <==> DefaultKnown(s, name) && ExplicitTenantsResolve(env, s)
    ensures ResolvedTenants(env, p).Some? ==> name in ResolvedTenants(env, p).value
  {
    assert name in p.tenants;
    assert forall n :: n in s.tenants ==> n in p.tenants && p.tenants[n] == s.tenants[n];
  }

  lemma ProjectedTenant(env: Env, s: Settings, r: Recipe, b: Bridge)
    requires Allowed(env, s, r, b) && ValidId(r.instance)
    ensures TenantResolves(env, r.instance, TenantOf(env, s, r, b))
  {
  }

  lemma TenantIdClause(s: string)
    requires ValidId(s)
    ensures ValidTenantId(s) <==> |s| <= 128
  {
  }

  /** With one route, the template is checked against its security, or as a secure one. */
  lemma OneRouteTemplate(env: Env, p: Settings, id: string, route: Route)
    requires p.routes == map[id := route] && (route.ingress.FromSip? ==> route.ingress.sipProfile in p.ingress)
    ensures TemplateAccepted(env, p) <==>
      (p.template.Some? ==>
         TemplateFits(env, p.template.value, if route.ingress.FromSip? then RouteSecurity(p, route).value else TlsSrtp))
  {
    assert id in p.routes;
  }

  lemma TemplateClause(env: Env, s: Settings, r: Recipe, b: Bridge, p: Settings)
    requires Allowed(env, s, r, b) && p == Result(env, s, r, b) && p.routes == map[RouteId(r, b) := RouteOf(env, s, r, b)]
    ensures TemplateAccepted(env, p) <==>
      if b.source.Sip? then env.validTemplate(Template(env, b.source.security))
      else s.template.Some? ==> TemplateFits(env, s.template.value, TlsSrtp)
  {
    var route := RouteOf(env, s, r, b);
    OneRouteTemplate(env, p, RouteId(r, b), route);
    if b.source.Sip? {
      PostureReady(env, s, b.source.security, b.destination.Amazon?);
    }
  }

  lemma AttachmentClause(env: Env, s: Settings, r: Recipe, b: Bridge)
    requires Allowed(env, s, r, b)
    ensures AttachmentAccepted(env, Result(env, s, r, b)) <==>
      (s.webrtc.Some? ==> env.origin(s.webrtc.value.uri).Some? && s.webrtc.value.iceValid)
  {
  }

  /** The principal projection of one profile succeeds exactly when no address is in two networks. */
  lemma OneProfileProjects(env: Env, source: ListenerCidr.Source, cidrs: seq<string>)
    requires source.cidrs == Nets(env, cidrs) && source.fingerprints == []
    ensures ListenerCidr.ParsedSources([source])
    ensures ListenerCidr.Acceptable([source], source.tenant) <==> NetworksApart(env, cidrs)
  {
    OneSource(source);
    if forall i :: 0 <= i < |cidrs| ==> NetOf(env, cidrs[i]).Some? {
      EntriesApart(env, source, cidrs);
    } else {
      var i :| 0 <= i < |cidrs| && NetOf(env, cidrs[i]).None?;
      assert source.cidrs[i].None?;
    }
  }

  lemma {:induction false} OneSource(source: ListenerCidr.Source)
    requires ListenerCidr.Parses(source.cidrs) && source.fingerprints == []
    ensures ListenerCidr.ParsedSources([source]) && ListenerCidr.AllPrints([source]) == []
    ensures ListenerCidr.AllEntries([source]) == ListenerCidr.Entries(source, source.cidrs)
  {
    assert [source][..0] == [];
  }

  lemma {:induction false} EntriesApart(env: Env, source: ListenerCidr.Source, cidrs: seq<string>)
    requires source.cidrs == Nets(env, cidrs) && forall i :: 0 <= i < |cidrs| ==> NetOf(env, cidrs[i]).Some?
    ensures ListenerCidr.Disjoint(ListenerCidr.Entries(source, source.cidrs)) <==> NetworksApart(env, cidrs)
  {
    var es := ListenerCidr.Entries(source, source.cidrs);
    forall i, j | 0 <= i < j < |cidrs|
      ensures ListenerCidr.Overlap(es[j].net, es[i].net) <==>
        exists a :: ListenerCidr.InNet(NetOf(env, cidrs[i]).value, a) && ListenerCidr.InNet(NetOf(env, cidrs[j]).value, a)
    {
      TruncatedOverlap(NetOf(env, cidrs[i]).value, NetOf(env, cidrs[j]).value);
      assert es[i].net == NetOf(env, cidrs[i]).value.Trunc() && es[j].net == NetOf(env, cidrs[j]).value.Trunc();
    }
  }

  /** Truncated networks overlap exactly when the networks share an address. */
  lemma TruncatedOverlap(m: ListenerCidr.IpNet, n: ListenerCidr.IpNet)
    requires m.Valid() && n.Valid()
    ensures m.Trunc().Valid() && n.Trunc().Valid()
    ensures ListenerCidr.Overlap(n.Trunc(), m.Trunc()) <==> exists a :: ListenerCidr.InNet(m, a) && ListenerCidr.InNet(n, a)
  {
    ListenerCidr.OverlapExactly(n.Trunc(), m.Trunc());
    forall a ensures ListenerCidr.InNet(m.Trunc(), a) <==> ListenerCidr.InNet(m, a) {
      ListenerCidr.TruncHoldsTheSame(m, a);
    }
    forall a ensures ListenerCidr.InNet(n.Trunc(), a) <==> ListenerCidr.InNet(n, a) {
      ListenerCidr.TruncHoldsTheSame(n, a);
    }
  }

  lemma OneRoutePrincipals(env: Env, p: Settings, id: string, route: Route, cidrs: seq<string>)
    requires p.routes == map[id := route] && route.ingress.FromSip? && route.ingress.sipProfile in p.ingress
    requires p.staticTenant == Some(route.tenant)
    requires var q := p.ingress[route.ingress.sipProfile];
      q.tenant == route.tenant && q.cidrs == cidrs && q.fingerprints == []
    ensures PrincipalsAccepted(env, p) <==> NetworksApart(env, cidrs)
  {
    var profile := route.ingress.sipProfile;
    var source := SourceOf(env, p, profile);
    assert id in p.routes;
    assert Referenced(p) == {profile};
    OneProfileProjects(env, source, cidrs);
    assert Sources(env, p, [profile]) == [source];
    assert Lists([profile], {profile});
    forall ids | Lists(ids, {profile}) ensures ids == [profile] {
      OnlyListing(ids, profile);
    }
    if NetworksApart(env, cidrs) {
      assert ProjectsFor(env, p, route.tenant);
    }
  }

  lemma OnlyListing(ids: seq<string>, id: string)
    requires Lists(ids, {id})
    ensures ids == [id]
  {
    assert ids[0] in ids;
  }

  lemma PrincipalsClause(env: Env, s: Settings, r: Recipe, b: Bridge, p: Settings)
    requires Allowed(env, s, r, b) && p == Result(env, s, r, b) && p.routes == map[RouteId(r, b) := RouteOf(env, s, r, b)]
    ensures PrincipalsAccepted(env, p) <==> (b.source.Sip? ==> NetworksApart(env, b.source.admission.value))
  {
    var id, route := RouteId(r, b), RouteOf(env, s, r, b);
    if b.source.Sip? {
      OneRoutePrincipals(env, p, id, route, b.source.admission.value);
    } else {
      assert Referenced(p) == {};
    }
  }

  /** `t` is `p`, with both public surfaces switched off in a worker. */
  predicate Switched(env: Env, p: Settings, t: Settings) {
    t == if env.worker then p.(apiEnabled := false, bridgeEnabled := false) else p
  }

  /** No clause but the one about the surfaces looks at the two switches. */
  lemma SwitchingKeeps(env: Env, p: Settings, t: Settings)
    requires p.routes != map[] && p.apiEnabled && p.bridgeEnabled && Switched(env, p, t)
    ensures SurfacesAccepted(env, t) <==> Credentials(env)
    ensures ResolvedTenants(env, t) == ResolvedTenants(env, p)
    ensures TemplateAccepted(env, t) <==> TemplateAccepted(env, p)
    ensures AttachmentAccepted(env, t) <==> AttachmentAccepted(env, p)
  {
  }

  lemma SwitchingKeepsPrincipals(env: Env, p: Settings, t: Settings)
    requires Switched(env, p, t)
    ensures PrincipalsAccepted(env, t) <==> PrincipalsAccepted(env, p)
  {
    assert Referenced(t) == Referenced(p);
    forall ids | Lists(ids, Referenced(p)) && Referenced(p) <= p.ingress.Keys
      ensures Sources(env, t, ids) == Sources(env, p, ids)
    {
    }
    forall tenant ensures ProjectsFor(env, t, tenant) <==> ProjectsFor(env, p, tenant) {
    }
  }

  lemma SwitchingKeepsRoute(env: Env, p: Settings, t: Settings, id: string, route: Route)
    requires Switched(env, p, t)
    ensures RouteAccepted(env, t, id, route) <==> RouteAccepted(env, p, id, route)
    ensures ContactFits(t, route) <==> ContactFits(p, route)
  {
  }

  lemma RouteClause(env: Env, s: Settings, r: Recipe, b: Bridge, p: Settings)
    requires Allowed(env, s, r, b) && p == Result(env, s, r, b) && ValidId(r.instance)
    ensures RouteAccepted(env, p, RouteId(r, b), RouteOf(env, s, r, b)) <==>
      && |r.instance| <= 128 && env.validDestination(DestinationOf(env, s, r, b))
      && DefaultKnown(s, r.instance) && ExplicitTenantsResolve(env, s)
  {
    EndsAreInPlace(env, s, r, b);
    ProjectedTenant(env, s, r, b);
    TenantsClause(env, s, r.instance, TenantOf(env, s, r, b), p);
    TenantIdClause(r.instance);
  }

  // ---- Whole loads ----

  predicate LoadedBridge(env: Env, s: Settings, r: Recipe, b: Bridge, t: Settings) {
    ValidId(r.instance) && Allowed(env, s, r, b) && Switched(env, Result(env, s, r, b), t)
  }

  /** `t` is what the only bridge, if there is one, makes of `s`, switched in a worker. */
  predicate Loaded(env: Env, s: Settings, recipes: seq<Recipe>, t: Settings) {
    if CountBridges(recipes) == 1 then
      LoadedBridge(env, s, Holder(recipes), Holder(recipes).bridges[0], t)
    else CountBridges(recipes) == 0 && t.routes == s.routes
  }

  lemma AppliedIsLoaded(env: Env, s: Settings, recipes: seq<Recipe>, t: Settings)
    requires ApplyRecipes(env, s, recipes) == Some(t)
    ensures Loaded(env, s, recipes, t)
  {
    ProjectsExactly(env, s, recipes);
  }

  /** What validation demands of a configuration with one route, but for its surfaces. */
  ghost predicate Clauses(env: Env, p: Settings, id: string, route: Route) {
    && RouteAccepted(env, p, id, route) && TemplateAccepted(env, p) && AttachmentAccepted(env, p)
    && PrincipalsAccepted(env, p)
  }

  lemma OneRouteValidated(env: Env, t: Settings, id: string, route: Route)
    requires t.routes == map[id := route]
    ensures RoutesAccepted(env, t) <==> SurfacesAccepted(env, t) && Clauses(env, t, id, route)
  {
    assert id in t.routes;
  }

  lemma ClausesHold(env: Env, s: Settings, r: Recipe, b: Bridge, p: Settings)
    requires Allowed(env, s, r, b) && ValidId(r.instance) && p == Result(env, s, r, b)
    requires p.routes == map[RouteId(r, b) := RouteOf(env, s, r, b)]
    ensures Credentials(env) && Clauses(env, p, RouteId(r, b), RouteOf(env, s, r, b)) <==> Acceptable(env, s, r, b)
  {
    RouteClause(env, s, r, b, p);
    TemplateClause(env, s, r, b, p);
    AttachmentClause(env, s, r, b);
    PrincipalsClause(env, s, r, b, p);
  }

  lemma ClausesSwitched(env: Env, p: Settings, t: Settings, id: string, route: Route)
    requires p.routes != map[] && p.apiEnabled && p.bridgeEnabled && Switched(env, p, t)
    ensures SurfacesAccepted(env, t) && Clauses(env, t, id, route) <==> Credentials(env) && Clauses(env, p, id, route)
    ensures ContactFits(t, route) <==> ContactFits(p, route)
  {
    SwitchingKeeps(env, p, t);
    SwitchingKeepsPrincipals(env, p, t);
    SwitchingKeepsRoute(env, p, t, id, route);
  }

  lemma OneRouteAccepted(env: Env, s: Settings, r: Recipe, b: Bridge, p: Settings, t: Settings)
    requires s.routes == map[] && r.bridges == [b] && ValidId(r.instance) && Allowed(env, s, r, b)
    requires p == Result(env, s, r, b) && Switched(env, p, t)
    ensures RoutesAccepted(env, t) <==> Acceptable(env, s, r, b)
    ensures t.routes == map[r.instance := RouteOf(env, s, r, b)] && ContactFits(t, RouteOf(env, s, r, b))
    ensures t.staticTenant == Some(r.instance)
  {
    var route := RouteOf(env, s, r, b);
    assert p.routes == map[r.instance := route];
    EndsAreInPlace(env, s, r, b);
    ClausesHold(env, s, r, b, p);
    ClausesSwitched(env, p, t, r.instance, route);
    OneRouteValidated(env, t, r.instance, route);
  }

  lemma SingleRoute(t: Settings, id: string, route: Route)
    requires t.routes == map[id := route] && ContactFits(t, route) && t.staticTenant == Some(route.tenant)
    ensures |t.routes| == 1 && BoundRoutes(t)
  {
    assert t.routes.Keys == {id} && |t.routes| == |t.routes.Keys|;
  }

  /** Every route has the tenant the process is bound to, and a Contact is set exactly for SIPS. */
  predicate BoundRoutes(t: Settings) {
    forall id :: id in t.routes ==> ContactFits(t, t.routes[id]) && t.staticTenant == Some(t.routes[id].tenant)
  }

  /** What must hold before the load of the only bridge, if there is one. */
  ghost predicate AcceptableLoad(env: Env, s: Settings, recipes: seq<Recipe>) {
    CountBridges(recipes) == 1 ==> AcceptableBridge(env, s, Holder(recipes), Holder(recipes).bridges[0])
  }

  ghost predicate AcceptableBridge(env: Env, s: Settings, r: Recipe, b: Bridge) {
    Allowed(env, s, r, b) && Acceptable(env, s, r, b)
  }

  lemma LoadedBridgeExactly(env: Env, s: Settings, r: Recipe, b: Bridge, t: Settings)
    requires s.routes == map[] && r.bridges == [b] && LoadedBridge(env, s, r, b, t)
    ensures RoutesAccepted(env, t) <==> AcceptableBridge(env, s, r, b)
    ensures |t.routes| == 1 && BoundRoutes(t)
  {
    OneRouteAccepted(env, s, r, b, Result(env, s, r, b), t);
    SingleRoute(t, r.instance, RouteOf(env, s, r, b));
  }

  lemma {:induction false} LoadedExactly(env: Env, s: Settings, recipes: seq<Recipe>, t: Settings)
    requires s.routes == map[] && Loaded(env, s, recipes, t)
    ensures RoutesAccepted(env, t) <==> AcceptableLoad(env, s, recipes)
    ensures |t.routes| == CountBridges(recipes) <= 1 && BoundRoutes(t)
  {
    if CountBridges(recipes) == 1 {
      var r := Holder(recipes);
      LoadedBridgeExactly(env, s, r, r.bridges[0], t);
    }
  }

  /** A load without explicit routes is accepted by route validation exactly when it has no bridge, or
      its one bridge is acceptable: the credentials are there, the default tenant is known, the
      explicit tenants resolve, the instance name is short enough for a tenant, the attachments and
      the destination are valid, and no address lies in two of its trusted networks. Accepted or not,
      there is one route for each bridge, each with the tenant that the process is bound to. */
  lemma {:induction false} AcceptedExactly(env: Env, s: Settings, recipes: seq<Recipe>, t: Settings)
    requires s.routes == map[] && ApplyRecipes(env, s, recipes) == Some(t)
    ensures RoutesAccepted(env, t) <==> AcceptableLoad(env, s, recipes)
    ensures |t.routes| == CountBridges(recipes) <= 1 && BoundRoutes(t)
  {
    AppliedIsLoaded(env, s, recipes, t);
    LoadedExactly(env, s, recipes, t);
  }
}
