/** What a load makes of the one bridge it holds, in terms of the recipe and the edge alone, and that it
    overrides nothing that is configured explicitly. */
module RecipeOutcomes {
  import opened Ascii
  import opened Options
  import opened Recipes
  import opened RecipeRoutes
  import opened SipsUris

  // ---- Numbers in decimal ----

  /** A number as it is written: digits, no leading zero, and that value. */
  predicate Writes(digits: string, n: nat) {
    && digits != "" && AllDigits(digits) && (digits[0] == '0' ==> digits == "0")
    && Decimal(digits) == n
  }

  lemma {:induction false} DigitsWrite(n: nat)
    ensures Writes(Digits(n), n)
    decreases n
  {
    var d := Digits(n);
    var last := ('0' as int + n % 10) as char;
    if n < 10 {
      assert d == [last] && d[..0] == [];
    } else {
      DigitsWrite(n / 10);
      var head := Digits(n / 10);
      assert d == head + [last] && d[..|d| - 1] == head && d[0] == head[0];
      assert Decimal("0") == 0 by {
        assert "0"[..0] == [];
      }
    }
  }

  // ---- The parts of a load ----

  /** The route of the only bridge and its tenant, both named after the instance, lead where the recipe says. */
  predicate LeadsThere(env: Env, instance: string, destination: Endpoint, t: Settings) {
    && instance in t.routes && t.routes[instance].tenant == instance && instance in t.tenants
    && var route, tenant := t.routes[instance].destination, t.tenants[instance];
       match destination
       case Amazon(arn, flow) =>
         && route.ToAmazon? && Some(route.instanceId) == env.connectId(arn) && route.flow == flow
         && !tenant.routingOnly && Some(tenant.instanceId) == env.connectId(arn) && tenant.flow == flow
       case Webrtc(uri) =>
         && route.ToWebrtc? && Some(route.uri) == uri && tenant.routingOnly
         && route.profile in t.webrtcOrigins && env.origin(route.uri).Some?
         && t.webrtcOrigins[route.profile] == {env.origin(route.uri).value}
       case Sip(_, _, target, _, _) =>
         && route.ToSip? && Some(route.target) == target && tenant.routingOnly
         && route.profile in t.sipTargets && t.sipTargets[route.profile] == {route.target}
  }

  /** It is entered where the recipe says, from its networks and under its security. */
  predicate EnteredThere(env: Env, instance: string, source: Endpoint, t: Settings) {
    && instance in t.routes
    && var ingress := t.routes[instance].ingress;
       if source.Sip? then
         && ingress.FromSip? && ingress.sipProfile in t.ingress
         && var p := t.ingress[ingress.sipProfile];
            && p.tenant == instance && Some(p.cidrs) == source.admission && p.mtlsCas == [] && p.fingerprints == []
            && (match source.security
                case SipsSrtp => p.security == TlsSrtp
                case SipsOptionalSrtp => p.security == TlsOptionalSrtp
                case SipRtp => p.security == ClearRtp)
            && (if source.security == SipRtp then p.tls == None
                else env.edge.tls.Some? && p.tls == Some(env.edge.tls.value.identity))
       else
         && source.Webrtc? && ingress.FromWebrtc? && ingress.webrtcProfile in t.webrtcOrigins
         && source.uri.Some? && env.origin(source.uri.value).Some?
         && t.webrtcOrigins[ingress.webrtcProfile] == {env.origin(source.uri.value).value}
         && t.webrtc.Some? && t.webrtc.value.uri == source.uri.value
  }

  /** The template has this scheme and rest around the public host and a port. */
  ghost predicate TemplateReads(env: Env, t: Settings, scheme: string, port: nat, rest: string) {
    exists d :: Writes(d, port) && t.template == Some(scheme + (env.edge.publicHost + ":" + d + rest))
  }

  /** A SIPS source: the TLS listener of the edge, its SRTP policy and Contact, and clear SIP on loopback. */
  predicate SecureFields(env: Env, security: SipSecurity, t: Settings) {
    && env.edge.tls.Some? && t.sip.listener.Some?
    && var tls, listener := env.edge.tls.value, t.sip.listener.value;
       && listener.bind == tls.bind && listener.advertised == tls.advertised && listener.identity == tls.identity
       && t.sip.bind == "127.0.0.1:0" && t.sip.advertised == None
       && t.sip.srtp == (if security == SipsSrtp then Required else Preferred)
       && env.parse(tls.bind).Some? && env.parse(tls.bind).value.port > 0
       && t.sip.contact == env.contact(env.edge.publicHost, env.parse(tls.bind).value.port)
  }

  /** A clear source: the edge's clear listener, and nothing of TLS. */
  predicate ClearFields(env: Env, t: Settings) {
    && env.edge.rtp.Some?
    && var rtp := env.edge.rtp.value;
       && t.sip.bind == rtp.bind && t.sip.advertised == rtp.advertised
       && t.sip.listener == None && t.sip.srtp == Disabled && t.sip.contact == None
       && env.parse(rtp.bind).Some? && env.parse(rtp.bind).value.port > 0
  }

  /** The listener of a SIP source, with its port in the template. */
  ghost predicate SipListens(env: Env, security: SipSecurity, t: Settings) {
    if security == SipRtp then
      ClearFields(env, t) && TemplateReads(env, t, "sip:{token}@", env.parse(env.edge.rtp.value.bind).value.port, "")
    else
      && SecureFields(env, security, t)
      && TemplateReads(env, t, "sips:{token}@", env.parse(env.edge.tls.value.bind).value.port, ";transport=tls")
  }

  /** The listener is the one the source needs, with the edge's media address where SIP carries media. */
  ghost predicate ListensThere(env: Env, b: Bridge, t: Settings) {
    && (if b.source.Sip? then
          SipListens(env, b.source.security, t)
        else
          && t.sip.bind == "127.0.0.1:0" && env.edge.mediaAddr.Some? && env.parse(env.edge.mediaAddr.value).Some?
          && t.natIps == [env.parse(env.edge.mediaAddr.value).value.ip])
    && (b.source.Sip? || b.destination.Sip? ==> env.edge.mediaAddr.Some? && t.sip.mediaAddr == env.edge.mediaAddr)
  }

  /** The correlation header is demanded between SIP and Amazon, and mapped wherever SIP may carry it. */
  predicate CorrelatesThere(instance: string, b: Bridge, t: Settings) {
    && instance in t.routes
    && t.routes[instance].correlationHeader
       == (if b.source.Sip? && b.destination.Amazon? then Some("X-Correlation-Id") else None)
    && (b.source.Sip? || (b.destination.Sip? && "correlation_id" in b.destination.metadataKeys) ==>
          "X-Correlation-Id" in t.allowHeaders && t.allowHeaders["X-Correlation-Id"] == "correlation_id")
  }

  /** The settings hold the projected destination. */
  predicate HasDestination(env: Env, s: Settings, r: Recipe, b: Bridge, t: Settings)
    requires Supported(b) && DestinationAllowed(env, s, r, b)
  {
    && r.instance in t.routes && r.instance in t.tenants && t.routes[r.instance].tenant == r.instance
    && t.routes[r.instance].destination == DestinationOf(env, s, r, b)
    && t.tenants[r.instance] == TenantOf(env, s, r, b)
    && (b.destination.Webrtc? ==>
          && DestinationId(r, b) in t.webrtcOrigins
          && t.webrtcOrigins[DestinationId(r, b)] == {env.origin(b.destination.uri.value).value})
    && (b.destination.Sip? ==>
          && DestinationId(r, b) in t.sipTargets
          && t.sipTargets[DestinationId(r, b)] == {b.destination.target.value})
  }

  lemma ResultHasDestination(env: Env, s: Settings, r: Recipe, b: Bridge)
    requires Allowed(env, s, r, b) && r.bridges == [b]
    ensures HasDestination(env, s, r, b, Result(env, s, r, b))
  {
  }

  lemma Leads(env: Env, s: Settings, r: Recipe, b: Bridge, t: Settings)
    requires Supported(b) && DestinationAllowed(env, s, r, b) && HasDestination(env, s, r, b, t)
    ensures LeadsThere(env, r.instance, b.destination, t)
  {
  }

  lemma Enters(env: Env, s: Settings, r: Recipe, b: Bridge)
    requires Allowed(env, s, r, b) && r.bridges == [b]
    ensures EnteredThere(env, r.instance, b.source, Result(env, s, r, b))
  {
  }

  lemma SecureTemplate(env: Env, security: SipSecurity, t: Settings)
    requires security != SipRtp && env.edge.tls.Some? && Bound(env, env.edge.tls.value.bind)
    requires t.template == Some(Template(env, security))
    ensures TemplateReads(env, t, "sips:{token}@", env.parse(env.edge.tls.value.bind).value.port, ";transport=tls")
  {
    var d := Digits(env.parse(env.edge.tls.value.bind).value.port);
    DigitsWrite(env.parse(env.edge.tls.value.bind).value.port);
    assert t.template == Some("sips:{token}@" + (env.edge.publicHost + ":" + d + ";transport=tls"));
  }

  lemma ClearTemplate(env: Env, t: Settings)
    requires env.edge.rtp.Some? && Bound(env, env.edge.rtp.value.bind) && t.template == Some(Template(env, SipRtp))
    ensures TemplateReads(env, t, "sip:{token}@", env.parse(env.edge.rtp.value.bind).value.port, "")
  {
    var d := Digits(env.parse(env.edge.rtp.value.bind).value.port);
    DigitsWrite(env.parse(env.edge.rtp.value.bind).value.port);
    assert env.edge.publicHost + ":" + d + "" == env.edge.publicHost + ":" + d;
  }

  lemma SipFields(env: Env, s: Settings, security: SipSecurity, amazon: bool, t: Settings)
    requires SipAllowed(env, s, security, amazon) && t == SipResult(env, s, security, amazon)
    ensures t.template == Some(Template(env, security))
    ensures if security == SipRtp then ClearFields(env, t) else SecureFields(env, security, t)
  {
  }

  lemma SourceListens(env: Env, s: Settings, security: SipSecurity, amazon: bool, t: Settings)
    requires SipAllowed(env, s, security, amazon) && t == SipResult(env, s, security, amazon)
    ensures SipListens(env, security, t)
  {
    SipFields(env, s, security, amazon, t);
    if security == SipRtp {
      ClearTemplate(env, t);
    } else {
      SecureTemplate(env, security, t);
    }
  }

  /** The same listener settings, but for the media address. */
  predicate SameListener(t: Settings, u: Settings) {
    && t.template == u.template && t.natIps == u.natIps && t.sip.bind == u.sip.bind && t.sip.advertised == u.sip.advertised
    && t.sip.listener == u.sip.listener && t.sip.srtp == u.sip.srtp && t.sip.contact == u.sip.contact
  }

  lemma ListensAlike(env: Env, security: SipSecurity, t: Settings, u: Settings)
    requires SameListener(t, u) && SipListens(env, security, t)
    ensures SipListens(env, security, u)
  {
    if security == SipRtp {
      var d :| Writes(d, env.parse(env.edge.rtp.value.bind).value.port)
        && t.template == Some("sip:{token}@" + (env.edge.publicHost + ":" + d + ""));
    } else {
      var d :| Writes(d, env.parse(env.edge.tls.value.bind).value.port)
        && t.template == Some("sips:{token}@" + (env.edge.publicHost + ":" + d + ";transport=tls"));
    }
  }

  lemma ResultListener(env: Env, s: Settings, r: Recipe, b: Bridge)
    requires Allowed(env, s, r, b)
    ensures SameListener(SourceResult(env, s, r, b), Result(env, s, r, b))
    ensures b.source.Sip? || b.destination.Sip? ==>
      env.edge.mediaAddr.Some? && Result(env, s, r, b).sip.mediaAddr == env.edge.mediaAddr
  {
  }

  lemma Listens(env: Env, s: Settings, r: Recipe, b: Bridge, t: Settings)
    requires Allowed(env, s, r, b) && t == Result(env, s, r, b)
    ensures ListensThere(env, b, t)
  {
    ResultListener(env, s, r, b);
    if b.source.Sip? {
      SourceListens(env, s, b.source.security, b.destination.Amazon?, SourceResult(env, s, r, b));
      ListensAlike(env, b.source.security, SourceResult(env, s, r, b), t);
    }
  }

  /** The edge can serve the bridge: a concrete media address with no port, a valid host for SIP, HTTPS for
      WebRTC attachments, no client CA where networks admit, and a start that Amazon Connect accepts. */
  predicate EdgeServes(env: Env, b: Bridge, t: Settings, instance: string) {
    && env.edge.mediaAddr.Some? && env.parse(env.edge.mediaAddr.value).Some?
    && !env.parse(env.edge.mediaAddr.value).value.unspecified && env.parse(env.edge.mediaAddr.value).value.port == 0
    && (b.source.Sip? ==> env.validHost(env.edge.publicHost))
    && (b.source.Sip? && b.source.security != SipRtp ==>
          && env.edge.tls.Some? && env.edge.tls.value.clientCa == None
          && (b.destination.Amazon? ==> env.validIdentity(env.edge.tls.value.identity)))
    && (b.source.Webrtc? ==> env.apiTls)
    && (b.destination.Amazon? && instance in t.routes && t.routes[instance].destination.ToAmazon? ==>
          var d := t.routes[instance].destination;
          d.instanceId != "" && d.flow != "" && env.validStart(d.profile, d.instanceId, d.flow))
    && (b.destination.Sip? ==> b.destination.from.Some?)
  }

  lemma Serves(env: Env, s: Settings, r: Recipe, b: Bridge)
    requires Allowed(env, s, r, b) && r.bridges == [b]
    ensures EdgeServes(env, b, Result(env, s, r, b), r.instance)
  {
  }

  lemma CorrelatesAsAsked(env: Env, s: Settings, r: Recipe, b: Bridge)
    requires Allowed(env, s, r, b) && r.bridges == [b]
    ensures CorrelatesThere(r.instance, b, Result(env, s, r, b))
  {
  }

  // ---- What is configured explicitly stays ----

  predicate Extends<V(==)>(old_: map<string, V>, new_: map<string, V>) {
    forall k :: k in old_ ==> k in new_ && new_[k] == old_[k]
  }

  predicate Keeps<V(==)>(old_: Option<V>, new_: Option<V>) {
    old_.Some? ==> new_ == old_
  }

  /** Every route, tenant and header mapping stays what it was. */
  predicate KeepsRoutes(s: Settings, t: Settings) {
    Extends(s.routes, t.routes) && Extends(s.tenants, t.tenants) && Extends(s.allowHeaders, t.allowHeaders)
  }

  /** So does every named profile. */
  predicate KeepsProfiles(s: Settings, t: Settings) {
    Extends(s.ingress, t.ingress) && Extends(s.webrtcOrigins, t.webrtcOrigins) && Extends(s.sipTargets, t.sipTargets)
  }

  /** So does every setting that has a value. */
  predicate KeepsExplicit(s: Settings, t: Settings) {
    && Keeps(s.template, t.template) && Keeps(s.webrtc, t.webrtc)
    && Keeps(s.staticTenant, t.staticTenant) && Keeps(s.defaultTenant, t.defaultTenant)
    && (s.natIps != [] ==> t.natIps == s.natIps)
  }

  /** The listener of a bridge that is already running; a source that is not SIP leaves all but the
      clear listener's address as it was. */
  predicate KeepsListener(b: Bridge, s: Settings, t: Settings) {
    && (s.bridgeEnabled && b.source.Sip? ==>
          && t.sip.srtp == s.sip.srtp && Keeps(s.sip.listener, t.sip.listener) && Keeps(s.sip.mediaAddr, t.sip.mediaAddr))
    && (b.source.Sip? && b.source.security != SipRtp ==> Keeps(s.sip.listener, t.sip.listener))
    && (b.destination.Sip? ==> Keeps(s.sip.mediaAddr, t.sip.mediaAddr))
    && (b.source.Webrtc? ==>
          t.template == s.template && t.sip.(bind := s.sip.bind, mediaAddr := s.sip.mediaAddr) == s.sip)
    && (b.source.Sip? ==> t.webrtc == s.webrtc && t.natIps == s.natIps)
  }

  function Added<V>(old_: map<string, V>, new_: map<string, V>): nat {
    |new_.Keys - old_.Keys|
  }

  function Count(b: bool): nat {
    if b then 1 else 0
  }

  /** No profile is added but those the bridge needs. */
  predicate AddsProfiles(b: Bridge, s: Settings, t: Settings) {
    && Added(s.ingress, t.ingress) == Count(b.source.Sip?)
    && Added(s.webrtcOrigins, t.webrtcOrigins) == Count(b.source.Webrtc? || b.destination.Webrtc?)
    && Added(s.sipTargets, t.sipTargets) == Count(b.destination.Sip?)
  }

  /** Nothing else is added but one route and its tenant, to which the process is bound. */
  predicate AddsOne(instance: string, s: Settings, t: Settings) {
    && t.routes.Keys == s.routes.Keys + {instance} && t.tenants.Keys == s.tenants.Keys + {instance}
    && instance !in s.routes && instance !in s.tenants
    && t.allowHeaders.Keys <= s.allowHeaders.Keys + {"X-Correlation-Id"}
    && t.staticTenant == Some(instance)
    && t.defaultTenant == (if s.defaultTenant.Some? then s.defaultTenant else Some(instance))
  }

  lemma RoutesKept(env: Env, s: Settings, r: Recipe, b: Bridge)
    requires Allowed(env, s, r, b)
    ensures KeepsRoutes(s, Result(env, s, r, b))
  {
  }

  lemma ProfilesKept(env: Env, s: Settings, r: Recipe, b: Bridge)
    requires Allowed(env, s, r, b)
    ensures KeepsProfiles(s, Result(env, s, r, b))
  {
  }

  lemma ExplicitKept(env: Env, s: Settings, r: Recipe, b: Bridge)
    requires Allowed(env, s, r, b)
    ensures KeepsExplicit(s, Result(env, s, r, b))
  {
  }

  lemma ListenerKept(env: Env, s: Settings, r: Recipe, b: Bridge)
    requires Allowed(env, s, r, b)
    ensures KeepsListener(b, s, Result(env, s, r, b))
  {
  }

  lemma OneKeyAdded<V>(m: map<string, V>, n: map<string, V>, k: string, v: V, b: bool)
    requires k !in m || !b
    requires n == if b then m[k := v] else m
    ensures Added(m, n) == Count(b)
  {
    assert n.Keys - m.Keys == if b then {k} else {};
  }

  lemma ProfilesAdded(env: Env, s: Settings, r: Recipe, b: Bridge, t: Settings)
    requires Allowed(env, s, r, b) && t == Result(env, s, r, b)
    ensures AddsProfiles(b, s, t)
  {
    OriginsAdded(env, s, r, b);
    if b.source.Sip? {
      OneKeyAdded(s.ingress, t.ingress, IngressId(r, b), t.ingress[IngressId(r, b)], true);
    }
    if b.destination.Sip? {
      OneKeyAdded(s.sipTargets, t.sipTargets, DestinationId(r, b), {b.destination.target.value}, true);
    }
  }

  lemma OriginsAdded(env: Env, s: Settings, r: Recipe, b: Bridge)
    requires Allowed(env, s, r, b)
    ensures Added(s.webrtcOrigins, Origins(env, s, r, b)) == Count(b.source.Webrtc? || b.destination.Webrtc?)
  {
    var t := Origins(env, s, r, b);
    if b.source.Webrtc? {
      OneKeyAdded(s.webrtcOrigins, t, IngressId(r, b), {env.origin(b.source.uri.value).value}, true);
    } else if b.destination.Webrtc? {
      OneKeyAdded(s.webrtcOrigins, t, DestinationId(r, b), {env.origin(b.destination.uri.value).value}, true);
    }
  }

  lemma OneAdded(env: Env, s: Settings, r: Recipe, b: Bridge, t: Settings)
    requires Allowed(env, s, r, b) && r.bridges == [b] && t == Result(env, s, r, b)
    ensures AddsOne(r.instance, s, t)
  {
  }

  // ---- Whole loads ----

  /** All that a load with one bridge promises. */
  ghost predicate Honours(env: Env, s: Settings, instance: string, b: Bridge, t: Settings) {
    && LeadsThere(env, instance, b.destination, t) && EnteredThere(env, instance, b.source, t)
    && ListensThere(env, b, t) && CorrelatesThere(instance, b, t) && EdgeServes(env, b, t, instance)
    && KeepsRoutes(s, t) && KeepsProfiles(s, t) && KeepsExplicit(s, t) && KeepsListener(b, s, t)
    && AddsProfiles(b, s, t) && AddsOne(instance, s, t)
  }

  lemma ResultHonours(env: Env, s: Settings, r: Recipe, b: Bridge, t: Settings)
    requires Allowed(env, s, r, b) && r.bridges == [b] && t == Result(env, s, r, b)
    ensures Honours(env, s, r.instance, b, t) && t.apiEnabled && t.bridgeEnabled
  {
    ResultHasDestination(env, s, r, b);
    Leads(env, s, r, b, t);
    Enters(env, s, r, b);
    Listens(env, s, r, b, t);
    CorrelatesAsAsked(env, s, r, b);
    Serves(env, s, r, b);
    RoutesKept(env, s, r, b);
    ProfilesKept(env, s, r, b);
    ExplicitKept(env, s, r, b);
    ListenerKept(env, s, r, b);
    ProfilesAdded(env, s, r, b, t);
    OneAdded(env, s, r, b, t);
  }

  /** The two switches play no part in it. */
  lemma SwitchesApart(env: Env, s: Settings, instance: string, b: Bridge, p: Settings, t: Settings)
    requires Honours(env, s, instance, b, p) && t == p.(apiEnabled := t.apiEnabled, bridgeEnabled := t.bridgeEnabled)
    ensures Honours(env, s, instance, b, t)
  {
  }

  lemma BridgeHonours(env: Env, s: Settings, r: Recipe, b: Bridge, t: Settings)
    requires r.bridges == [b] && LoadedBridge(env, s, r, b, t)
    ensures Honours(env, s, r.instance, b, t) && t.apiEnabled == t.bridgeEnabled == !env.worker
  {
    var p := Result(env, s, r, b);
    ResultHonours(env, s, r, b, p);
    SwitchesApart(env, s, r.instance, b, p, t);
  }

  /** A load with one bridge leads its one new route where the recipe says, admits what the recipe
      admits, listens as the recipe and the edge demand, and overrides nothing that was configured. Both
      public surfaces are on, or off in a worker. */
  lemma {:induction false} LoadHonoursRecipe(env: Env, s: Settings, recipes: seq<Recipe>, t: Settings)
    requires ApplyRecipes(env, s, recipes) == Some(t) && CountBridges(recipes) == 1
    ensures Honours(env, s, Holder(recipes).instance, Holder(recipes).bridges[0], t)
    ensures t.apiEnabled == t.bridgeEnabled == !env.worker
  {
    AppliedIsLoaded(env, s, recipes, t);
    BridgeHonours(env, s, Holder(recipes), Holder(recipes).bridges[0], t);
  }

  /** A load without a bridge changes nothing, but for the switches of a worker. */
  lemma {:induction false} LoadWithoutBridge(env: Env, s: Settings, recipes: seq<Recipe>, t: Settings)
    requires ApplyRecipes(env, s, recipes) == Some(t) && CountBridges(recipes) == 0
    ensures t == if recipes != [] && env.worker then s.(apiEnabled := false, bridgeEnabled := false) else s
  {
    ProjectsExactly(env, s, recipes);
  }

  // ---- When a load succeeds ----

  /** Nothing is configured that a recipe could collide with. */
  predicate Bare(s: Settings) {
    && !s.bridgeEnabled && s.sip.listener == None && s.sip.mediaAddr == None && s.natIps == []
    && s.template == None && s.webrtc == None && s.staticTenant == None
    && s.routes == map[] && s.tenants == map[] && s.ingress == map[] && s.webrtcOrigins == map[]
    && s.sipTargets == map[] && s.allowHeaders == map[]
  }

  predicate SourceUsable(env: Env, b: Bridge) {
    && env.edge.mediaAddr.Some? && env.parse(env.edge.mediaAddr.value).Some?
    && !env.parse(env.edge.mediaAddr.value).value.unspecified && env.parse(env.edge.mediaAddr.value).value.port == 0
    && match b.source
       case Sip(SipRtp, admission, _, _, _) =>
         && admission.Some? && env.validHost(env.edge.publicHost)
         && env.edge.rtp.Some? && Bound(env, env.edge.rtp.value.bind)
       case Sip(_, admission, _, _, _) =>
         && admission.Some? && env.validHost(env.edge.publicHost)
         && env.edge.tls.Some? && Bound(env, env.edge.tls.value.bind) && env.edge.tls.value.clientCa == None
         && env.contact(env.edge.publicHost, env.parse(env.edge.tls.value.bind).value.port).Some?
         && (b.destination.Amazon? ==> env.validIdentity(env.edge.tls.value.identity))
       case Webrtc(uri) => uri.Some? && env.origin(uri.value).Some? && env.apiTls
       case Amazon(_, _) => false
  }

  predicate DestinationUsable(env: Env, instance: string, b: Bridge) {
    match b.destination
    case Amazon(arn, flow) =>
      && env.connectId(arn).Some? && env.connectId(arn).value != "" && flow != ""
      && env.validStart("recipe-" + instance + "-amazon", env.connectId(arn).value, flow)
    case Webrtc(uri) => b.source.Sip? && uri.Some? && env.origin(uri.value).Some?
    case Sip(_, _, target, from, _) => b.source.Webrtc? && target.Some? && from.Some?
  }

  /** Into a bare configuration a bridge projects exactly when its names are valid and the edge can serve
      both its ends. */
  lemma BareExactly(env: Env, s: Settings, r: Recipe, b: Bridge)
    requires Bare(s) && r.bridges == [b]
    ensures Allowed(env, s, r, b) <==>
      && ValidId(r.instance) && SourceUsable(env, b) && DestinationUsable(env, r.instance, b)
      && ValidId(IngressId(r, b)) && (!b.destination.Amazon? ==> ValidId(DestinationId(r, b)))
  {
  }

  /** The settings a load has left, without the route, tenant and profiles it added. */
  function Stripped(s: Settings, t: Settings): Settings {
    t.(routes := s.routes, tenants := s.tenants, ingress := s.ingress, webrtcOrigins := s.webrtcOrigins,
       sipTargets := s.sipTargets)
  }

  lemma SipAgain(env: Env, s: Settings, security: SipSecurity, amazon: bool, again: Settings)
    requires SipAllowed(env, s, security, amazon)
    requires var p := SipResult(env, s, security, amazon);
      again.sip == p.sip && again.template == p.template && again.bridgeEnabled
    ensures SipAllowed(env, again, security, amazon)
    ensures SipResult(env, again, security, amazon).sip == again.sip
  {
  }

  lemma SourceAgain(env: Env, s: Settings, r: Recipe, b: Bridge, again: Settings)
    requires Allowed(env, s, r, b) && again == Stripped(s, Result(env, s, r, b))
    ensures SourceAllowed(env, again, r, b)
  {
    if b.source.Sip? {
      SipAgain(env, s, b.source.security, b.destination.Amazon?, again);
    }
  }

  lemma AllowedAgain(env: Env, s: Settings, r: Recipe, b: Bridge, again: Settings)
    requires Allowed(env, s, r, b) && again == Stripped(s, Result(env, s, r, b))
    ensures Allowed(env, again, r, b)
  {
    SourceAgain(env, s, r, b, again);
  }

  lemma SourceResultAgain(env: Env, s: Settings, r: Recipe, b: Bridge, again: Settings)
    requires Allowed(env, s, r, b) && again == Stripped(s, Result(env, s, r, b)) && Allowed(env, again, r, b)
    ensures SourceResult(env, again, r, b).(allowHeaders := again.allowHeaders) == again
  {
    if b.source.Sip? {
      SipAgain(env, s, b.source.security, b.destination.Amazon?, again);
    }
  }

  /** The named things it adds depend on nothing it sets. */
  lemma AdditionsAgain(env: Env, s: Settings, r: Recipe, b: Bridge, again: Settings, p: Settings, q: Settings)
    requires Allowed(env, s, r, b) && again == Stripped(s, Result(env, s, r, b)) && Allowed(env, again, r, b)
    requires p == Result(env, s, r, b) && q == Result(env, again, r, b)
    ensures p.routes == q.routes && p.tenants == q.tenants && p.ingress == q.ingress
    ensures p.webrtcOrigins == q.webrtcOrigins && p.sipTargets == q.sipTargets
  {
  }

  lemma SettingsAgain(env: Env, s: Settings, r: Recipe, b: Bridge, again: Settings, p: Settings, q: Settings)
    requires Allowed(env, s, r, b) && again == Stripped(s, Result(env, s, r, b)) && Allowed(env, again, r, b)
    requires p == Result(env, s, r, b) && q == Result(env, again, r, b)
    ensures p.sip == q.sip && p.bridgeEnabled == q.bridgeEnabled && p.natIps == q.natIps && p.apiEnabled == q.apiEnabled
    ensures p.template == q.template && p.webrtc == q.webrtc
  {
    SourceResultAgain(env, s, r, b, again);
  }

  lemma BindingAgain(env: Env, s: Settings, r: Recipe, b: Bridge, again: Settings, p: Settings, q: Settings)
    requires Allowed(env, s, r, b) && again == Stripped(s, Result(env, s, r, b)) && Allowed(env, again, r, b)
    requires p == Result(env, s, r, b) && q == Result(env, again, r, b)
    ensures p.staticTenant == q.staticTenant && p.defaultTenant == q.defaultTenant && p.allowHeaders == q.allowHeaders
  {
  }

  /** What a recipe sets never collides with itself: with its settings already in place it projects
      again, and makes the same of them. */
  lemma ProjectsAgain(env: Env, s: Settings, r: Recipe, b: Bridge, again: Settings)
    requires Allowed(env, s, r, b) && again == Stripped(s, Result(env, s, r, b))
    ensures Allowed(env, again, r, b) && Result(env, again, r, b) == Result(env, s, r, b)
  {
    AllowedAgain(env, s, r, b, again);
    var p, q := Result(env, s, r, b), Result(env, again, r, b);
    AdditionsAgain(env, s, r, b, again, p, q);
    SettingsAgain(env, s, r, b, again, p, q);
    BindingAgain(env, s, r, b, again, p, q);
    SameSettings(p, q);
  }

  lemma SameSettings(p: Settings, q: Settings)
    requires p.sip == q.sip && p.bridgeEnabled == q.bridgeEnabled && p.natIps == q.natIps && p.apiEnabled == q.apiEnabled
    requires p.template == q.template && p.webrtc == q.webrtc && p.staticTenant == q.staticTenant
    requires p.defaultTenant == q.defaultTenant && p.allowHeaders == q.allowHeaders
    requires p.routes == q.routes && p.tenants == q.tenants && p.ingress == q.ingress
    requires p.webrtcOrigins == q.webrtcOrigins && p.sipTargets == q.sipTargets
    ensures p == q
  {
  }

  // ---- What route validation demands ----

  /** The shared listener has the posture that a SIP route's profile asks for. */
  predicate ListenerServes(s: Settings, p: IngressProfile) {
    match p.security
    case ClearRtp => s.sip.listener == None && s.sip.srtp == Disabled
    case TlsSrtp => s.sip.listener.Some? && s.sip.srtp == Required && p.tls == Some(s.sip.listener.value.identity)
    case TlsOptionalSrtp => s.sip.listener.Some? && s.sip.srtp == Preferred && p.tls == Some(s.sip.listener.value.identity)
  }

  predicate IngressServed(s: Settings, route: Route) {
    match route.ingress
    case FromSip(id) =>
      && id in s.ingress && s.ingress[id].tenant == route.tenant && ListenerServes(s, s.ingress[id])
      && s.template.Some?
      && (if s.ingress[id].security == ClearRtp then "sip:{token}@" <= s.template.value
          else "sips:{token}@" <= s.template.value)
      && (s.ingress[id].mtlsCas != [] && s.ingress[id].security != ClearRtp ==>
            |s.ingress[id].mtlsCas| == 1 && s.sip.listener.value.clientCa == Some(s.ingress[id].mtlsCas[0]))
    case FromWebrtc(id) => id in s.webrtcOrigins && s.webrtc.Some?
  }

  predicate DestinationServed(env: Env, s: Settings, d: Destination) {
    && env.validDestination(d)
    && match d
       case ToAmazon(_, _, _) => true
       case ToWebrtc(id, uri) =>
         id in s.webrtcOrigins && env.origin(uri).Some? && env.origin(uri).value in s.webrtcOrigins[id]
       case ToSip(id, target) => id in s.sipTargets && target in s.sipTargets[id]
  }

  predicate TenantServed(env: Env, s: Settings, tenant: string) {
    && 1 <= |tenant| <= 128
    && (s.tenants != map[] ==>
          && tenant in s.tenants && (s.defaultTenant.Some? ==> s.defaultTenant.value in s.tenants)
          && var t := s.tenants[tenant];
             && (t.routingOnly ==> t.instanceId == "" && t.flow == "")
             && (!t.routingOnly ==> t.instanceId != "" && t.flow != ""))
    && (s.tenants == map[] ==>
          var legacy := env.legacyTenants(s.defaultTenant);
          legacy.Some? && tenant in legacy.value)
  }

  predicate SurfacesServed(env: Env, s: Settings) {
    && env.hasControlKey
    && (if env.worker then !s.apiEnabled && !s.bridgeEnabled else s.apiEnabled && s.bridgeEnabled && env.hasBearer)
  }

  /** Every route of a configuration that validation accepts can be served: its tenant is configured, its
      ingress profile matches the listener, its destination is allowlisted, a correlation header it
      demands is mapped, and the process has the surfaces and credentials for its role. */
  lemma AcceptedIsServed(env: Env, s: Settings, id: string)
    requires RoutesAccepted(env, s) && id in s.routes
    ensures var route := s.routes[id];
      && ValidId(id) && SurfacesServed(env, s) && TenantServed(env, s, route.tenant)
      && IngressServed(s, route) && DestinationServed(env, s, route.destination)
    ensures s.routes[id].correlationHeader.Some? ==>
      s.routes[id].ingress.FromSip?
      && exists h :: h in s.allowHeaders && EqIgnoreCase(h, s.routes[id].correlationHeader.value)
                     && s.allowHeaders[h] == "correlation_id"
  {
    var route := s.routes[id];
    assert RouteAccepted(env, s, id, route);
    if route.ingress.FromSip? {
      assert RouteSecurity(s, route).Some?;
      assert TemplateFits(env, s.template.value, RouteSecurity(s, route).value);
    }
  }

  /** All SIP routes of an accepted configuration ask for the same security. */
  lemma AcceptedAgree(env: Env, s: Settings, a: string, b: string)
    requires RoutesAccepted(env, s) && a in s.routes && b in s.routes
    requires s.routes[a].ingress.FromSip? && s.routes[b].ingress.FromSip?
    ensures s.routes[a].ingress.sipProfile in s.ingress && s.routes[b].ingress.sipProfile in s.ingress
    ensures s.ingress[s.routes[a].ingress.sipProfile].security == s.ingress[s.routes[b].ingress.sipProfile].security
  {
    assert RouteAccepted(env, s, a, s.routes[a]) && RouteAccepted(env, s, b, s.routes[b]);
    assert RouteSecurity(s, s.routes[a]) == RouteSecurity(s, s.routes[b]);
  }
}
