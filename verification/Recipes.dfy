/** Projection of recipes into routes, profiles and listener settings.

    Parsers and syntax checks outside this model (socket addresses, networks, host names, instance
    ARNs, WSS origins, URIs) are the functions of `Env`. A projection that fails makes the whole load
    fail, so only its success and its result matter. Here they are stated at once: a bridge projects
    exactly when `Allowed`, and `Result` is what it makes of the settings. RecipeProjector does the
    same check by check, in place. */
module Recipes {
  import opened Options
  import opened Ascii
  import ListenerCidr

  // ---- Recipes ----

  datatype SipSecurity = SipsSrtp | SipsOptionalSrtp | SipRtp

  datatype Endpoint =
    | Sip(security: SipSecurity, admission: Option<seq<string>>, target: Option<string>, from: Option<string>,
          metadataKeys: set<string>)
    | Webrtc(uri: Option<string>)
    | Amazon(arn: string, flow: string)

  datatype Bridge = Bridge(id: string, source: Endpoint, destination: Endpoint)

  datatype Recipe = Recipe(instance: string, bridges: seq<Bridge>)

  // ---- Configuration ----

  datatype SrtpPolicy = Required | Preferred | Disabled

  datatype IngressSecurity = TlsSrtp | TlsOptionalSrtp | ClearRtp

  datatype Identity = Identity(chain: string, key: string)

  datatype Listener = Listener(
    bind: string, advertised: Option<string>, identity: Identity, clientCa: Option<string>, requireClient: bool)

  datatype SipSettings = SipSettings(
    mediaAddr: Option<string>, listener: Option<Listener>, srtp: SrtpPolicy, contact: Option<string>,
    bind: string, advertised: Option<string>)

  datatype IngressProfile = IngressProfile(
    tenant: string, security: IngressSecurity, tls: Option<Identity>,
    cidrs: seq<string>, mtlsCas: seq<string>, fingerprints: seq<string>)

  datatype RouteIngress = FromSip(sipProfile: string) | FromWebrtc(webrtcProfile: string)

  datatype Destination =
    | ToAmazon(profile: string, instanceId: string, flow: string)
    | ToWebrtc(profile: string, uri: string)
    | ToSip(profile: string, target: string)

  datatype Route = Route(
    tenant: string, ingress: RouteIngress, correlationHeader: Option<string>, destination: Destination)

  /** `unmapped` is the policy of the tenant's own attribute mapping, if it has one. */
  datatype Tenant = Tenant(instanceId: string, flow: string, routingOnly: bool, unmapped: Option<string>)

  /** A WebRTC attachment; `iceValid` says whether its configured ICE servers pass validation. */
  datatype Attachment = Attachment(uri: string, iceValid: bool)

  datatype Settings = Settings(
    bridgeEnabled: bool,
    sip: SipSettings,
    natIps: seq<string>,
    apiEnabled: bool,
    template: Option<string>,
    webrtc: Option<Attachment>,
    routes: map<string, Route>,
    staticTenant: Option<string>,
    defaultTenant: Option<string>,
    tenants: map<string, Tenant>,
    ingress: map<string, IngressProfile>,
    webrtcOrigins: map<string, set<string>>,
    sipTargets: map<string, set<string>>,
    allowHeaders: map<string, string>)

  datatype SocketAddr = SocketAddr(ip: string, unspecified: bool, port: nat)

  /** What parsing a network gives: a prefix that fits its family. */
  type Net = n: ListenerCidr.IpNet | n.Valid() witness ListenerCidr.IpNet(ListenerCidr.V4, 0, 0)

  datatype EdgeTls = EdgeTls(bind: string, advertised: Option<string>, identity: Identity,
    clientCa: Option<string>, requireClient: bool)

  datatype EdgeRtp = EdgeRtp(bind: string, advertised: Option<string>)

  datatype Edge = Edge(publicHost: string, mediaAddr: Option<string>, tls: Option<EdgeTls>, rtp: Option<EdgeRtp>)

  datatype Env = Env(
    edge: Edge,
    worker: bool,
    apiTls: bool,
    hasBearer: bool,
    hasControlKey: bool,
    unmapped: string,
    legacyTenants: Option<string> -> Option<set<string>>,
    parse: string -> Option<SocketAddr>,
    parseNet: string -> Option<Net>,
    validHost: string -> bool,
    validIdentity: Identity -> bool,
    contact: (string, nat) -> Option<string>,
    connectId: string -> Option<string>,
    validStart: (string, string, string) -> bool,
    validDestination: Destination -> bool,
    validTemplate: string -> bool,
    origin: string -> Option<string>)

  const CORRELATION_HEADER := "X-Correlation-Id"
  const CORRELATION_KEY := "correlation_id"
  const LOOPBACK := "127.0.0.1:0"

  /** Route and profile identifiers. */
  predicate ValidId(s: string) {
    && 1 <= |s| <= 256
    && (forall i :: 0 <= i < |s| ==> 'a' <= s[i] <= 'z' || IsDigit(s[i]) || s[i] in "-_")
    && s[0] !in "-_"
  }

  // ---- Posture of the shared SIP listener ----

  function IngressOf(s: SipSecurity): IngressSecurity {
    match s
    case SipsSrtp => TlsSrtp
    case SipsOptionalSrtp => TlsOptionalSrtp
    case SipRtp => ClearRtp
  }

  function SrtpOf(s: SipSecurity): SrtpPolicy {
    match s
    case SipsSrtp => Required
    case SipsOptionalSrtp => Preferred
    case SipRtp => Disabled
  }

  function Digits(n: nat): string {
    (if n < 10 then "" else Digits(n / 10)) + [('0' as int + n % 10) as char]
  }

  /** The edge has a media address with a concrete IP and port zero. */
  predicate MediaReady(env: Env) {
    env.edge.mediaAddr.Some?
    && var a := env.parse(env.edge.mediaAddr.value);
       a.Some? && !a.value.unspecified && a.value.port == 0
  }

  function PublicIp(env: Env): string
    requires MediaReady(env)
  {
    env.parse(env.edge.mediaAddr.value).value.ip
  }

  /** The listener of a SIPS recipe. An Amazon bridge keeps the edge's client-certificate settings. */
  function RecipeListener(tls: EdgeTls, amazon: bool): Listener {
    Listener(tls.bind, tls.advertised, tls.identity, if amazon then tls.clientCa else None, amazon && tls.requireClient)
  }

  predicate Compatible(existing: Listener, wanted: Listener, amazon: bool) {
    && existing.bind == wanted.bind && existing.advertised == wanted.advertised
    && existing.identity == wanted.identity
    && (amazon ==> existing.clientCa == wanted.clientCa && existing.requireClient == wanted.requireClient)
  }

  predicate Bound(env: Env, bind: string) {
    env.parse(bind).Some? && env.parse(bind).value.port != 0
  }

  /** A SIPS recipe needs a TLS edge that agrees with a configured listener and SRTP policy. */
  predicate SecureAllowed(env: Env, s: Settings, security: SipSecurity, amazon: bool) {
    env.edge.tls.Some?
    && var tls := env.edge.tls.value;
       && Bound(env, tls.bind)
       && env.contact(env.edge.publicHost, env.parse(tls.bind).value.port).Some?
       && (if amazon then env.validIdentity(tls.identity) else tls.clientCa.None?)
       && (s.sip.listener.Some? ==> Compatible(s.sip.listener.value, RecipeListener(tls, amazon), amazon))
       && (s.bridgeEnabled ==> s.sip.srtp == SrtpOf(security))
  }

  /** A clear recipe cannot share a process with a secure configuration. */
  predicate ClearAllowed(env: Env, s: Settings) {
    && env.edge.rtp.Some? && Bound(env, env.edge.rtp.value.bind)
    && (s.bridgeEnabled ==> s.sip.listener.None? && s.sip.srtp == Disabled)
  }

  predicate PostureAllowed(env: Env, s: Settings, security: SipSecurity, amazon: bool) {
    if security == SipRtp then ClearAllowed(env, s) else SecureAllowed(env, s, security, amazon)
  }

  /** SIPS: a TLS listener, the recipe's SRTP policy and Contact, and no clear listener in public. */
  function Secured(env: Env, s: Settings, security: SipSecurity, amazon: bool): SipSettings
    requires SecureAllowed(env, s, security, amazon)
  {
    var tls := env.edge.tls.value;
    s.sip.(
      listener := if s.sip.listener.Some? then s.sip.listener else Some(RecipeListener(tls, amazon)),
      srtp := SrtpOf(security),
      contact := env.contact(env.edge.publicHost, env.parse(tls.bind).value.port),
      bind := LOOPBACK,
      advertised := None)
  }

  /** Clear SIP: no TLS listener, no SRTP, no recipe Contact. */
  function Cleared(env: Env, s: Settings): SipSettings
    requires ClearAllowed(env, s)
  {
    var rtp := env.edge.rtp.value;
    s.sip.(listener := None, srtp := Disabled, contact := None, bind := rtp.bind, advertised := rtp.advertised)
  }

  function Postured(env: Env, s: Settings, security: SipSecurity, amazon: bool): SipSettings
    requires PostureAllowed(env, s, security, amazon)
  {
    if security == SipRtp then Cleared(env, s) else Secured(env, s, security, amazon)
  }

  /** The attachment URI that a route hands out. */
  function Template(env: Env, security: SipSecurity): string
    requires security == SipRtp ==> env.edge.rtp.Some? && Bound(env, env.edge.rtp.value.bind)
    requires security != SipRtp ==> env.edge.tls.Some? && Bound(env, env.edge.tls.value.bind)
  {
    if security == SipRtp then
      "sip:{token}@" + (env.edge.publicHost + ":" + Digits(env.parse(env.edge.rtp.value.bind).value.port))
    else
      "sips:{token}@"
      + (env.edge.publicHost + ":" + Digits(env.parse(env.edge.tls.value.bind).value.port) + ";transport=tls")
  }

  predicate SipAllowed(env: Env, s: Settings, security: SipSecurity, amazon: bool) {
    && env.validHost(env.edge.publicHost) && MediaReady(env)
    && (s.bridgeEnabled && s.sip.mediaAddr.Some? ==> s.sip.mediaAddr == env.edge.mediaAddr)
    && PostureAllowed(env, s, security, amazon)
    && (s.template.Some? ==> s.template.value == Template(env, security))
  }

  /** The listener settings of a recipe with a SIP source. */
  function SipResult(env: Env, s: Settings, security: SipSecurity, amazon: bool): Settings
    requires SipAllowed(env, s, security, amazon)
  {
    s.(sip := Postured(env, s, security, amazon).(mediaAddr := env.edge.mediaAddr),
       bridgeEnabled := true, apiEnabled := true, template := Some(Template(env, security)))
  }

  function ProfileTls(env: Env, security: SipSecurity): Option<Identity> {
    if security == SipRtp || env.edge.tls.None? then None else Some(env.edge.tls.value.identity)
  }

  /** The projected ingress profile; recipes never project client CAs or fingerprints. */
  function Profile(env: Env, instance: string, security: SipSecurity, cidrs: seq<string>): IngressProfile {
    IngressProfile(instance, IngressOf(security), ProfileTls(env, security), cidrs, [], [])
  }

  predicate WebrtcAllowed(env: Env, s: Settings, uri: string) {
    && (s.webrtc.Some? ==> s.webrtc.value.uri == uri) && MediaReady(env)
    && (s.natIps == [] || s.natIps == [PublicIp(env)]) && env.origin(uri).Some?
  }

  /** The attachment and media settings of a recipe with a WebRTC source; clear SIP stays private. */
  function WebrtcResult(env: Env, s: Settings, uri: string): Settings
    requires WebrtcAllowed(env, s, uri)
  {
    s.(sip := s.sip.(bind := LOOPBACK), natIps := [PublicIp(env)], bridgeEnabled := true, apiEnabled := true,
       webrtc := Some(if s.webrtc.Some? then s.webrtc.value else Attachment(uri, true)))
  }

  // ---- One bridge ----

  predicate Supported(b: Bridge) {
    (b.source.Sip? && (b.destination.Amazon? || b.destination.Webrtc?))
    || (b.source.Webrtc? && (b.destination.Sip? || b.destination.Amazon?))
  }

  function RouteId(r: Recipe, b: Bridge): string {
    if |r.bridges| == 1 then r.instance else r.instance + "-" + b.id
  }

  function ProfileId(name: string, role: string): string {
    "recipe-" + name + role
  }

  /** A SIP to Amazon bridge names its profiles after the instance, the others after the route. */
  function Stem(r: Recipe, b: Bridge): string {
    if b.source.Sip? && b.destination.Amazon? then r.instance else RouteId(r, b)
  }

  function IngressId(r: Recipe, b: Bridge): string {
    ProfileId(Stem(r, b), if b.source.Sip? then "-sip-ingress" else "-webrtc-ingress")
  }

  function DestinationId(r: Recipe, b: Bridge): string {
    ProfileId(Stem(r, b),
      if b.destination.Amazon? then "-amazon" else if b.destination.Sip? then "-sip-destination" else "-webrtc-destination")
  }

  predicate SourceAllowed(env: Env, s: Settings, r: Recipe, b: Bridge)
    requires Supported(b)
  {
    if b.source.Sip? then
      && b.source.admission.Some? && SipAllowed(env, s, b.source.security, b.destination.Amazon?)
      && (b.source.security != SipRtp ==> env.edge.tls.value.clientCa.None?)
      && ValidId(IngressId(r, b)) && IngressId(r, b) !in s.ingress
    else
      && b.source.uri.Some? && env.apiTls && WebrtcAllowed(env, s, b.source.uri.value)
      && ValidId(IngressId(r, b)) && IngressId(r, b) !in s.webrtcOrigins
  }

  predicate DestinationAllowed(env: Env, s: Settings, r: Recipe, b: Bridge)
    requires Supported(b)
  {
    match b.destination
    case Amazon(arn, flow) =>
      env.connectId(arn).Some? && StartAllowed(env, DestinationId(r, b), env.connectId(arn).value, flow)
    case Webrtc(uri) =>
      && uri.Some? && env.origin(uri.value).Some?
      && ValidId(DestinationId(r, b)) && DestinationId(r, b) !in s.webrtcOrigins
    case Sip(_, _, target, from, _) =>
      && target.Some? && from.Some? && MediaReady(env)
      && (s.sip.mediaAddr.Some? ==> s.sip.mediaAddr == env.edge.mediaAddr)
      && ValidId(DestinationId(r, b)) && DestinationId(r, b) !in s.sipTargets
  }

  /** A start specification names an instance and a flow, among other checks. */
  predicate StartAllowed(env: Env, profile: string, connect: string, flow: string) {
    connect != "" && flow != "" && env.validStart(profile, connect, flow)
  }

  /** The bridge maps the correlation header. */
  predicate Correlates(b: Bridge) {
    b.source.Sip? || (b.destination.Sip? && CORRELATION_KEY in b.destination.metadataKeys)
  }

  predicate Allowed(env: Env, s: Settings, r: Recipe, b: Bridge) {
    && Supported(b)
    && ValidId(RouteId(r, b)) && RouteId(r, b) !in s.routes && r.instance !in s.tenants
    && SourceAllowed(env, s, r, b) && DestinationAllowed(env, s, r, b)
    && (Correlates(b) && CORRELATION_HEADER in s.allowHeaders ==> s.allowHeaders[CORRELATION_HEADER] == CORRELATION_KEY)
    && (s.staticTenant.Some? ==> s.staticTenant.value == r.instance)
  }

  function DestinationOf(env: Env, s: Settings, r: Recipe, b: Bridge): Destination
    requires Supported(b) && DestinationAllowed(env, s, r, b)
  {
    match b.destination
    case Amazon(arn, flow) => ToAmazon(DestinationId(r, b), env.connectId(arn).value, flow)
    case Webrtc(uri) => ToWebrtc(DestinationId(r, b), uri.value)
    case Sip(_, _, target, _, _) => ToSip(DestinationId(r, b), target.value)
  }

  function RouteOf(env: Env, s: Settings, r: Recipe, b: Bridge): Route
    requires Supported(b) && DestinationAllowed(env, s, r, b)
  {
    Route(r.instance,
      if b.source.Sip? then FromSip(IngressId(r, b)) else FromWebrtc(IngressId(r, b)),
      if b.source.Sip? && b.destination.Amazon? then Some(CORRELATION_HEADER) else None,
      DestinationOf(env, s, r, b))
  }

  function TenantOf(env: Env, s: Settings, r: Recipe, b: Bridge): Tenant
    requires Supported(b) && DestinationAllowed(env, s, r, b)
  {
    if b.destination.Amazon? then Tenant(env.connectId(b.destination.arn).value, b.destination.flow, false, Some("drop"))
    else Tenant("", "", true, Some("drop"))
  }

  /** The settings for the source, before profiles and the route. */
  function SourceResult(env: Env, s: Settings, r: Recipe, b: Bridge): Settings
    requires Allowed(env, s, r, b)
  {
    if b.source.Sip? then SipResult(env, s, b.source.security, b.destination.Amazon?)
    else WebrtcResult(env, s, b.source.uri.value)
  }

  function Origins(env: Env, s: Settings, r: Recipe, b: Bridge): map<string, set<string>>
    requires Allowed(env, s, r, b)
  {
    if b.source.Webrtc? then s.webrtcOrigins[IngressId(r, b) := {env.origin(b.source.uri.value).value}]
    else if b.destination.Webrtc? then s.webrtcOrigins[DestinationId(r, b) := {env.origin(b.destination.uri.value).value}]
    else s.webrtcOrigins
  }

  function Result(env: Env, s: Settings, r: Recipe, b: Bridge): Settings
    requires Allowed(env, s, r, b)
  {
    var p := SourceResult(env, s, r, b);
    p.(
      sip := if b.destination.Sip? then p.sip.(mediaAddr := env.edge.mediaAddr) else p.sip,
      ingress := if b.source.Sip? then
          s.ingress[IngressId(r, b) := Profile(env, r.instance, b.source.security, b.source.admission.value)]
        else s.ingress,
      webrtcOrigins := Origins(env, s, r, b),
      sipTargets := if b.destination.Sip? then s.sipTargets[DestinationId(r, b) := {b.destination.target.value}] else s.sipTargets,
      allowHeaders := if Correlates(b) then s.allowHeaders[CORRELATION_HEADER := CORRELATION_KEY] else s.allowHeaders,
      routes := s.routes[RouteId(r, b) := RouteOf(env, s, r, b)],
      tenants := s.tenants[r.instance := TenantOf(env, s, r, b)],
      staticTenant := Some(r.instance),
      defaultTenant := if s.defaultTenant.Some? then s.defaultTenant else Some(r.instance))
  }

  function ProjectBridge(env: Env, s: Settings, r: Recipe, b: Bridge): Option<Settings> {
    if Allowed(env, s, r, b) then Some(Result(env, s, r, b)) else None
  }

  type Projector<!T> = (Settings, T) -> Option<Settings>

  /** Project things one after the other; the first failure is the failure of all. */
  function InTurn<T>(project: Projector<T>, s: Settings, things: seq<T>): Option<Settings>
    decreases |things|
  {
    if things == [] then Some(s)
    else
      var n := |things| - 1;
      match InTurn(project, s, things[..n])
      case None => None
      case Some(t) => project(t, things[n])
  }

  function BridgesOf(env: Env, r: Recipe): Projector<Bridge> {
    (s: Settings, b: Bridge) => ProjectBridge(env, s, r, b)
  }

  function RecipesOf(env: Env): Projector<Recipe> {
    (s: Settings, r: Recipe) => if !ValidId(r.instance) then None else InTurn(BridgesOf(env, r), s, r.bridges)
  }

  function ProjectRecipes(env: Env, s: Settings, recipes: seq<Recipe>): Option<Settings> {
    InTurn(RecipesOf(env), s, recipes)
  }

  /** A worker keeps the catalog and exposes neither the API nor signaling. */
  function ApplyRecipes(env: Env, s: Settings, recipes: seq<Recipe>): Option<Settings> {
    match ProjectRecipes(env, s, recipes)
    case None => None
    case Some(t) => Some(if recipes != [] && env.worker then t.(apiEnabled := false, bridgeEnabled := false) else t)
  }
}
