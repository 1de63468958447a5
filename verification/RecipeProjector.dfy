/** Recipe projection as it runs: one configuration object whose settings are updated in place,
    check by check. A method that returns false has failed the load; its settings are abandoned. */
module RecipeProjector {
  import opened Options
  import opened RecipeRoutes
  import opened Recipes

  /** `project` stands for the projection of one recipe's bridges. */
  ghost predicate Implements(project: Projector<Bridge>, env: Env, r: Recipe) {
    forall s, b {:trigger Recipes.ProjectBridge(env, s, r, b)} :: project(s, b) == Recipes.ProjectBridge(env, s, r, b)
  }

  /** A failure of a prefix is a failure of the whole. */
  lemma {:induction false} StaysFailed<T>(project: Projector<T>, s: Settings, things: seq<T>, n: nat)
    requires n <= |things| && InTurn(project, s, things[..n]).None?
    ensures InTurn(project, s, things).None?
    decreases |things|
  {
    if n == |things| {
      assert things[..n] == things;
    } else {
      var m := |things| - 1;
      assert things[..m][..n] == things[..n];
      StaysFailed(project, s, things[..m], n);
    }
  }

  /** The media address plays no part in the posture. */
  lemma MediaFirst(env: Env, s: Settings, security: SipSecurity, amazon: bool)
    ensures var m := s.(sip := s.sip.(mediaAddr := env.edge.mediaAddr));
      && (PostureAllowed(env, m, security, amazon) <==> PostureAllowed(env, s, security, amazon))
      && (PostureAllowed(env, s, security, amazon) ==>
            Postured(env, m, security, amazon) == Postured(env, s, security, amazon).(mediaAddr := env.edge.mediaAddr))
  {
  }

  class BridgefuConfig {
    const env: Env
    var settings: Settings

    constructor (env: Env, settings: Settings)
      ensures this.env == env && this.settings == settings
    {
      this.env, this.settings := env, settings;
    }

    /** Two bridges never load; what loads without explicit routes is accepted by route validation exactly
        when the load was acceptable before it began. */
    method ApplyRecipes(recipes: seq<Recipe>) returns (ok: bool)
      modifies this
      ensures ok <==> Recipes.ApplyRecipes(env, old(settings), recipes).Some?
      ensures ok ==> settings == Recipes.ApplyRecipes(env, old(settings), recipes).value
      ensures ok && old(settings).routes == map[] ==>
        (RoutesAccepted(env, settings) <==> AcceptableLoad(env, old(settings), recipes))
      ensures CountBridges(recipes) > 1 ==> !ok
    {
      ghost var before := settings;
      if recipes == [] {
        if settings.routes == map[] {
          AcceptedExactly(env, before, recipes, settings);
        }
        return true;
      }
      ok := ProjectAll(recipes);
      ProjectsExactly(env, before, recipes);
      if !ok {
        return;
      }
      if env.worker {
        settings := settings.(apiEnabled := false, bridgeEnabled := false);
      }
      if before.routes == map[] {
        AcceptedExactly(env, before, recipes, settings);
      }
    }

    method ProjectAll(recipes: seq<Recipe>) returns (ok: bool)
      modifies this
      ensures ok <==> ProjectRecipes(env, old(settings), recipes).Some?
      ensures ok ==> settings == ProjectRecipes(env, old(settings), recipes).value
    {
      ghost var before, load := settings, RecipesOf(env);
      for i := 0 to |recipes|
        invariant InTurn(load, before, recipes[..i]) == Some(settings)
      {
        assert recipes[..i + 1][..i] == recipes[..i];
        ok := ValidId(recipes[i].instance);
        if ok {
          ok := ProjectCompiledRecipe(recipes[i], BridgesOf(env, recipes[i]));
        }
        if !ok {
          StaysFailed(load, before, recipes, i + 1);
          return;
        }
      }
      assert recipes[..|recipes|] == recipes;
      return true;
    }

    method ProjectCompiledRecipe(r: Recipe, ghost project: Projector<Bridge>) returns (ok: bool)
      requires Implements(project, env, r)
      modifies this
      ensures ok <==> InTurn(project, old(settings), r.bridges).Some?
      ensures ok ==> settings == InTurn(project, old(settings), r.bridges).value
    {
      ghost var before := settings;
      for i := 0 to |r.bridges|
        invariant InTurn(project, before, r.bridges[..i]) == Some(settings)
      {
        assert r.bridges[..i + 1][..i] == r.bridges[..i];
        ok := ProjectOne(r, r.bridges[i], project);
        if !ok {
          StaysFailed(project, before, r.bridges, i + 1);
          return;
        }
      }
      assert r.bridges[..|r.bridges|] == r.bridges;
      return true;
    }

    method ProjectOne(r: Recipe, b: Bridge, ghost project: Projector<Bridge>) returns (ok: bool)
      requires Implements(project, env, r)
      modifies this
      ensures ok <==> project(old(settings), b).Some?
      ensures ok ==> settings == project(old(settings), b).value
    {
      assert project(settings, b) == Recipes.ProjectBridge(env, settings, r, b);
      ok := ProjectBridge(r, b);
    }

    /** The four kinds of bridge, check by check. */
    method ProjectBridge(r: Recipe, b: Bridge) returns (ok: bool)
      modifies this
      ensures ok <==> Allowed(env, old(settings), r, b)
      ensures ok ==> settings == Result(env, old(settings), r, b)
    {
      match (b.source, b.destination)
      case (Sip(_, _, _, _, _), Amazon(_, _)) => ok := ProjectSipAmazon(r, b);
      case (Sip(_, _, _, _, _), Webrtc(_)) => ok := ProjectSipWebrtc(r, b);
      case (Webrtc(_), Sip(_, _, _, _, _)) => ok := ProjectWebrtcSip(r, b);
      case (Webrtc(_), Amazon(_, _)) => ok := ProjectWebrtcAmazon(r, b);
      case _ => ok := false;
    }

    method ProjectSipAmazon(r: Recipe, b: Bridge) returns (ok: bool)
      requires b.source.Sip? && b.destination.Amazon?
      modifies this
      ensures ok <==> Allowed(env, old(settings), r, b)
      ensures ok ==> settings == Result(env, old(settings), r, b)
    {
      var connect, admission := env.connectId(b.destination.arn), b.source.admission;
      if admission.None? || connect.None? {
        return false;
      }
      ok := ProjectSipIngress(b.source.security, true);
      if !ok || !ValidId(RouteId(r, b)) || RouteId(r, b) in settings.routes || r.instance in settings.tenants {
        return false;
      }
      var ingressId, amazonId := ProfileId(r.instance, "-sip-ingress"), ProfileId(r.instance, "-amazon");
      if !ValidId(ingressId) || ingressId in settings.ingress {
        return false;
      }
      if b.source.security != SipRtp && env.edge.tls.Some? && env.edge.tls.value.clientCa.Some? {
        return false;
      }
      if !StartAllowed(env, amazonId, connect.value, b.destination.flow) {
        return false;
      }
      var profile := Profile(env, r.instance, b.source.security, admission.value);
      settings := settings.(ingress := settings.ingress[ingressId := profile]);
      ok := EnsureCorrelationMapping();
      if ok {
        var destination := ToAmazon(amazonId, connect.value, b.destination.flow);
        ok := InstallRoute(RouteId(r, b),
          Route(r.instance, FromSip(ingressId), Some(CORRELATION_HEADER), destination),
          Tenant(connect.value, b.destination.flow, false, Some("drop")));
      }
    }

    method ProjectSipWebrtc(r: Recipe, b: Bridge) returns (ok: bool)
      requires b.source.Sip? && b.destination.Webrtc?
      modifies this
      ensures ok <==> Allowed(env, old(settings), r, b)
      ensures ok ==> settings == Result(env, old(settings), r, b)
    {
      var admission, uri := b.source.admission, b.destination.uri;
      if admission.None? || uri.None? {
        return false;
      }
      if !ValidId(RouteId(r, b)) || RouteId(r, b) in settings.routes || r.instance in settings.tenants {
        return false;
      }
      ok := ProjectSipIngress(b.source.security, false);
      if ok {
        ok := EnsureCorrelationMapping();
      }
      var ingressId := ProfileId(RouteId(r, b), "-sip-ingress");
      if !ok || !ValidId(ingressId) || ingressId in settings.ingress {
        return false;
      }
      var profile := Profile(env, r.instance, b.source.security, admission.value);
      settings := settings.(ingress := settings.ingress[ingressId := profile]);
      var destinationId := ProfileId(RouteId(r, b), "-webrtc-destination");
      if !ValidId(destinationId) || destinationId in settings.webrtcOrigins || env.origin(uri.value).None? {
        return false;
      }
      settings := settings.(webrtcOrigins := settings.webrtcOrigins[destinationId := {env.origin(uri.value).value}]);
      ok := InstallRoute(RouteId(r, b),
        Route(r.instance, FromSip(ingressId), None, ToWebrtc(destinationId, uri.value)), Tenant("", "", true, Some("drop")));
    }

    method ProjectWebrtcSip(r: Recipe, b: Bridge) returns (ok: bool)
      requires b.source.Webrtc? && b.destination.Sip?
      modifies this
      ensures ok <==> Allowed(env, old(settings), r, b)
      ensures ok ==> settings == Result(env, old(settings), r, b)
    {
      var uri, target := b.source.uri, b.destination.target;
      if uri.None? || target.None? || b.destination.from.None? {
        return false;
      }
      if !ValidId(RouteId(r, b)) || RouteId(r, b) in settings.routes || r.instance in settings.tenants || !env.apiTls {
        return false;
      }
      ok := ProjectWebrtcIngress(RouteId(r, b), uri.value);
      var destinationId := ProfileId(RouteId(r, b), "-sip-destination");
      if !ok || !ValidId(destinationId) || destinationId in settings.sipTargets {
        return false;
      }
      if settings.sip.mediaAddr.Some? && settings.sip.mediaAddr != env.edge.mediaAddr {
        return false;
      }
      settings := settings.(sip := settings.sip.(mediaAddr := env.edge.mediaAddr));
      settings := settings.(sipTargets := settings.sipTargets[destinationId := {target.value}]);
      if CORRELATION_KEY in b.destination.metadataKeys {
        ok := EnsureCorrelationMapping();
        if !ok {
          return;
        }
      }
      var ingressId := ProfileId(RouteId(r, b), "-webrtc-ingress");
      ok := InstallRoute(RouteId(r, b),
        Route(r.instance, FromWebrtc(ingressId), None, ToSip(destinationId, target.value)), Tenant("", "", true, Some("drop")));
    }

    method ProjectWebrtcAmazon(r: Recipe, b: Bridge) returns (ok: bool)
      requires b.source.Webrtc? && b.destination.Amazon?
      modifies this
      ensures ok <==> Allowed(env, old(settings), r, b)
      ensures ok ==> settings == Result(env, old(settings), r, b)
    {
      var uri, connect := b.source.uri, env.connectId(b.destination.arn);
      if uri.None? || connect.None? {
        return false;
      }
      if !ValidId(RouteId(r, b)) || RouteId(r, b) in settings.routes || r.instance in settings.tenants || !env.apiTls {
        return false;
      }
      ok := ProjectWebrtcIngress(RouteId(r, b), uri.value);
      var amazonId, ingressId := ProfileId(RouteId(r, b), "-amazon"), ProfileId(RouteId(r, b), "-webrtc-ingress");
      if !ok || !StartAllowed(env, amazonId, connect.value, b.destination.flow) {
        return false;
      }
      var destination := ToAmazon(amazonId, connect.value, b.destination.flow);
      ok := InstallRoute(RouteId(r, b), Route(r.instance, FromWebrtc(ingressId), None, destination),
        Tenant(connect.value, b.destination.flow, false, Some("drop")));
    }

    /** Set up the shared SIP listener for one of the three securities, in the order the program checks
        and writes. A listener that fits the security is in place exactly when this succeeds, and then
        nothing but the listener, the two switches and the attachment template has changed. */
    method ProjectSipIngress(security: SipSecurity, amazon: bool) returns (ok: bool)
      modifies this
      ensures ok <==> SipAllowed(env, old(settings), security, amazon)
      ensures ok ==> settings == SipResult(env, old(settings), security, amazon) && SipReady(env, settings, security)
    {
      ghost var before := settings;
      ok := ProjectMedia();
      if !ok {
        return;
      }
      var template;
      ok, template := ProjectPosture(security, amazon);
      MediaFirst(env, before, security, amazon);
      if !ok {
        return;
      }
      ok := ProjectTemplate(template);
      if ok {
        PostureReady(env, before, security, amazon);
      }
    }

    /** The media address of the edge: a concrete IP with port zero, and no other one configured. */
    method ProjectMedia() returns (ok: bool)
      modifies this
      ensures ok <==>
        && env.validHost(env.edge.publicHost) && MediaReady(env)
        && (old(settings).bridgeEnabled && old(settings).sip.mediaAddr.Some? ==> old(settings).sip.mediaAddr == env.edge.mediaAddr)
      ensures ok ==> settings == old(settings).(sip := old(settings).sip.(mediaAddr := env.edge.mediaAddr))
    {
      if !env.validHost(env.edge.publicHost) || env.edge.mediaAddr.None? {
        return false;
      }
      var media := env.parse(env.edge.mediaAddr.value);
      if media.None? || media.value.unspecified || media.value.port != 0 {
        return false;
      }
      if settings.bridgeEnabled && settings.sip.mediaAddr.Some? && settings.sip.mediaAddr != env.edge.mediaAddr {
        return false;
      }
      settings := settings.(sip := settings.sip.(mediaAddr := env.edge.mediaAddr));
      return true;
    }

    /** Switch on both surfaces and hand out `template`, unless another one is configured. */
    method ProjectTemplate(template: string) returns (ok: bool)
      modifies this
      ensures ok <==> (old(settings).template.Some? ==> old(settings).template.value == template)
      ensures ok ==> settings == old(settings).(bridgeEnabled := true, apiEnabled := true, template := Some(template))
    {
      settings := settings.(bridgeEnabled := true);
      if settings.template.Some? && settings.template.value != template {
        return false;
      }
      settings := settings.(template := Some(template), apiEnabled := true);
      return true;
    }

    method ProjectPosture(security: SipSecurity, amazon: bool) returns (ok: bool, template: string)
      modifies this
      ensures ok <==> PostureAllowed(env, old(settings), security, amazon)
      ensures ok ==> settings == old(settings).(sip := Postured(env, old(settings), security, amazon))
      ensures ok ==> template == Template(env, security)
    {
      match security
      case SipsSrtp => ok, template := ProjectTls(Required, amazon);
      case SipsOptionalSrtp => ok, template := ProjectTls(Preferred, amazon);
      case SipRtp => ok, template := ProjectClear();
    }

    /** A TLS listener with the given SRTP policy: the configured one if it agrees with the edge. */
    method ProjectTls(policy: SrtpPolicy, amazon: bool) returns (ok: bool, template: string)
      requires policy != Disabled
      modifies this
      ensures var security := if policy == Required then SipsSrtp else SipsOptionalSrtp;
        && (ok <==> SecureAllowed(env, old(settings), security, amazon))
        && (ok ==> settings == old(settings).(sip := Secured(env, old(settings), security, amazon)))
        && (ok ==> template == Template(env, security))
    {
      template := "";
      var contact, port;
      ok, contact, port := CheckTls(amazon);
      if !ok {
        return;
      }
      ok := ProjectListener(env.edge.tls.value, amazon);
      if !ok {
        return;
      }
      if settings.bridgeEnabled && settings.sip.srtp != policy {
        return false, template;
      }
      settings := settings.(sip := settings.sip.(srtp := policy, contact := contact, bind := LOOPBACK, advertised := None));
      template := "sips:{token}@" + (env.edge.publicHost + ":" + Digits(port) + ";transport=tls");
      return true, template;
    }

    /** The TLS edge: a bound port, a Contact for it, and an identity without a client CA unless the
        bridge leads to Amazon. */
    method CheckTls(amazon: bool) returns (ok: bool, contact: Option<string>, port: nat)
      ensures ok <==>
        && env.edge.tls.Some? && Bound(env, env.edge.tls.value.bind)
        && env.contact(env.edge.publicHost, env.parse(env.edge.tls.value.bind).value.port).Some?
        && (if amazon then env.validIdentity(env.edge.tls.value.identity) else env.edge.tls.value.clientCa.None?)
      ensures ok ==> port == env.parse(env.edge.tls.value.bind).value.port && contact == env.contact(env.edge.publicHost, port)
    {
      contact, port := None, 0;
      if env.edge.tls.None? {
        return false, contact, port;
      }
      var tls := env.edge.tls.value;
      var bind := env.parse(tls.bind);
      if bind.None? || bind.value.port == 0 {
        return false, contact, port;
      }
      port := bind.value.port;
      contact := env.contact(env.edge.publicHost, port);
      ok := contact.Some? && if amazon then env.validIdentity(tls.identity) else tls.clientCa.None?;
    }

    /** Install the edge's listener, or keep the configured one if it is the same. */
    method ProjectListener(tls: EdgeTls, amazon: bool) returns (ok: bool)
      modifies this
      ensures ok <==> (old(settings).sip.listener.Some? ==>
                         Compatible(old(settings).sip.listener.value, RecipeListener(tls, amazon), amazon))
      ensures ok ==> settings == old(settings).(sip := old(settings).sip.(listener :=
        if old(settings).sip.listener.Some? then old(settings).sip.listener else Some(RecipeListener(tls, amazon))))
    {
      match settings.sip.listener
      case Some(existing) =>
        if existing.bind != tls.bind || existing.advertised != tls.advertised || existing.identity != tls.identity {
          return false;
        }
        ok := !amazon || (existing.clientCa == tls.clientCa && existing.requireClient == tls.requireClient);
      case None =>
        var listener := Listener(tls.bind, tls.advertised, tls.identity, None, false);
        if amazon {
          listener := listener.(clientCa := tls.clientCa, requireClient := tls.requireClient);
        }
        settings := settings.(sip := settings.sip.(listener := Some(listener)));
        ok := true;
    }

    /** A clear listener, unless the process already has a secure configuration. */
    method ProjectClear() returns (ok: bool, template: string)
      modifies this
      ensures ok <==> ClearAllowed(env, old(settings))
      ensures ok ==> settings == old(settings).(sip := Cleared(env, old(settings))) && template == Template(env, SipRtp)
    {
      template := "";
      if env.edge.rtp.None? {
        return false, template;
      }
      var rtp := env.edge.rtp.value;
      var bind := env.parse(rtp.bind);
      if bind.None? || bind.value.port == 0 {
        return false, template;
      }
      if settings.bridgeEnabled && (settings.sip.listener.Some? || settings.sip.srtp != Disabled) {
        return false, template;
      }
      settings := settings.(sip := settings.sip.(listener := None, contact := None, srtp := Disabled));
      settings := settings.(sip := settings.sip.(bind := rtp.bind, advertised := rtp.advertised));
      template := "sip:{token}@" + (env.edge.publicHost + ":" + Digits(bind.value.port));
      return true, template;
    }

    /** The attachment, the public media address and the ingress profile of a WebRTC source. */
    method ProjectWebrtcIngress(routeId: string, uri: string) returns (ok: bool)
      modifies this
      ensures var id := ProfileId(routeId, "-webrtc-ingress");
        && (ok <==> WebrtcAllowed(env, old(settings), uri) && ValidId(id) && id !in old(settings).webrtcOrigins)
        && (ok ==> settings == WebrtcResult(env, old(settings), uri).(
              webrtcOrigins := old(settings).webrtcOrigins[id := {env.origin(uri).value}]))
    {
      settings := settings.(sip := settings.sip.(bind := LOOPBACK));
      if settings.webrtc.None? {
        settings := settings.(webrtc := Some(Attachment(uri, true)));
      } else if settings.webrtc.value.uri != uri {
        return false;
      }
      var media := if env.edge.mediaAddr.Some? then env.parse(env.edge.mediaAddr.value) else None;
      if media.None? || media.value.unspecified || media.value.port != 0 {
        return false;
      }
      if settings.natIps != [] && settings.natIps != [media.value.ip] {
        return false;
      }
      settings := settings.(natIps := [media.value.ip], bridgeEnabled := true, apiEnabled := true);
      var id := ProfileId(routeId, "-webrtc-ingress");
      if !ValidId(id) || id in settings.webrtcOrigins || env.origin(uri).None? {
        return false;
      }
      settings := settings.(webrtcOrigins := settings.webrtcOrigins[id := {env.origin(uri).value}]);
      return true;
    }

    /** Map the correlation header, or fail if it is mapped to something else. */
    method EnsureCorrelationMapping() returns (ok: bool)
      modifies this
      ensures ok <==> (CORRELATION_HEADER in old(settings).allowHeaders ==>
                         old(settings).allowHeaders[CORRELATION_HEADER] == CORRELATION_KEY)
      ensures ok ==> settings == old(settings).(allowHeaders := old(settings).allowHeaders[CORRELATION_HEADER := CORRELATION_KEY])
    {
      if CORRELATION_HEADER !in settings.allowHeaders {
        settings := settings.(allowHeaders := settings.allowHeaders[CORRELATION_HEADER := CORRELATION_KEY]);
        return true;
      }
      ok := settings.allowHeaders[CORRELATION_HEADER] == CORRELATION_KEY;
      assert ok ==> settings.allowHeaders[CORRELATION_HEADER := CORRELATION_KEY] == settings.allowHeaders;
    }

    /** Insert the route and the tenant, then pin the process to the tenant unless it has another. */
    method InstallRoute(id: string, route: Route, tenant: Tenant) returns (ok: bool)
      modifies this
      ensures ok <==> (old(settings).staticTenant.Some? ==> old(settings).staticTenant.value == route.tenant)
      ensures ok ==> settings == old(settings).(
        routes := old(settings).routes[id := route], tenants := old(settings).tenants[route.tenant := tenant],
        staticTenant := Some(route.tenant),
        defaultTenant := if old(settings).defaultTenant.Some? then old(settings).defaultTenant else Some(route.tenant))
      ensures ok ==> Pinned(settings)
    {
      settings := settings.(
        routes := settings.routes[id := route], tenants := settings.tenants[route.tenant := tenant]);
      if settings.staticTenant.Some? && settings.staticTenant.value != route.tenant {
        return false;
      }
      settings := settings.(staticTenant := Some(route.tenant));
      if settings.defaultTenant.None? {
        settings := settings.(defaultTenant := Some(route.tenant));
      }
      return true;
    }
  }
}
