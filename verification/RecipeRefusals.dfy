/** Loads that succeed and that route validation then refuses: one whose default tenant is unknown, one
    whose trusted networks overlap, and one whose instance name is no tenant name. */
module RecipeRefusals {
  import opened Options
  import opened Recipes
  import opened RecipeRoutes
  import ListenerCidr

  const MEDIA := "198.51.100.1:0"
  const BIND := "0.0.0.0:5060"
  const ANYWHERE := "0.0.0.0/0"
  const LOWER_HALF := "0.0.0.0/1"
  const PEER := "wss://peer.example.com/s"

  const EDGE := Edge("edge.example.com", Some(MEDIA), None, Some(EdgeRtp(BIND, None)))

  /** What the socket address parser makes of the edge's two addresses. */
  function Parse(text: string): Option<SocketAddr> {
    if text == MEDIA then Some(SocketAddr("198.51.100.1", false, 0))
    else if text == BIND then Some(SocketAddr("0.0.0.0", true, 5060))
    else None
  }

  /** The whole IPv4 space, and half of it. */
  function ParseNet(text: string): Option<Net> {
    if text == ANYWHERE then Some(ListenerCidr.IpNet(ListenerCidr.V4, 0, 0))
    else if text == LOWER_HALF then Some(ListenerCidr.IpNet(ListenerCidr.V4, 0, 1))
    else None
  }

  function Origin(uri: string): Option<string> {
    if uri == PEER then Some("wss://peer.example.com") else None
  }

  /** An edge on which every check outside the model passes. */
  const ENV := Env(EDGE, false, true, true, true, "drop", _ => None, Parse, ParseNet, _ => true, _ => true,
    (_, _) => Some(""), _ => Some("i"), (_, _, _) => true, _ => true, _ => true, Origin)

  /** Clear SIP to WebRTC, admitting `cidrs`. */
  function Demo(instance: string, cidrs: seq<string>): Recipe {
    Recipe(instance, [Bridge("x", Sip(SipRtp, Some(cidrs), None, None, {}), Webrtc(Some(PEER)))])
  }

  /** A configuration that sets nothing but, perhaps, the default tenant. */
  function Plain(defaultTenant: Option<string>): Settings {
    Settings(false, SipSettings(None, None, Disabled, None, "", None), [], false, None, None,
      map[], None, defaultTenant, map[], map[], map[], map[], map[])
  }

  lemma ValidWithAffix(instance: string, prefix: string, suffix: string)
    requires ValidId(instance) && |prefix| + |instance| + |suffix| <= 256
    requires prefix == "recipe-" && (suffix == "-sip-ingress" || suffix == "-webrtc-destination")
    ensures ValidId(prefix + instance + suffix)
  {
    var s := prefix + instance + suffix;
    forall i | 0 <= i < |s| ensures 'a' <= s[i] <= 'z' || s[i] in "-_" || '0' <= s[i] <= '9' {
      if i < |prefix| {
        assert s[i] == prefix[i];
      } else if i < |prefix| + |instance| {
        assert s[i] == instance[i - |prefix|];
      } else {
        assert s[i] == suffix[i - |prefix| - |instance|];
      }
    }
    assert s[0] == 'r';
  }

  lemma DemoIsAllowed(instance: string, cidrs: seq<string>, defaultTenant: Option<string>)
    requires ValidId(instance) && |instance| <= 200
    ensures Allowed(ENV, Plain(defaultTenant), Demo(instance, cidrs), Demo(instance, cidrs).bridges[0])
  {
    ValidWithAffix(instance, "recipe-", "-sip-ingress");
    ValidWithAffix(instance, "recipe-", "-webrtc-destination");
  }

  /** Every such demo loads. */
  lemma DemoLoads(instance: string, cidrs: seq<string>, defaultTenant: Option<string>)
    requires ValidId(instance) && |instance| <= 200
    ensures var r := Demo(instance, cidrs); CountBridges([r]) == 1 && Holder([r]) == r
    ensures ApplyRecipes(ENV, Plain(defaultTenant), [Demo(instance, cidrs)]).Some?
  {
    var r := Demo(instance, cidrs);
    DemoIsAllowed(instance, cidrs, defaultTenant);
    assert [r][..0] == [];
    ProjectsExactly(ENV, Plain(defaultTenant), [r]);
  }

  ghost predicate DemoAccepted(instance: string, cidrs: seq<string>, defaultTenant: Option<string>) {
    var t := ApplyRecipes(ENV, Plain(defaultTenant), [Demo(instance, cidrs)]);
    t.Some? && RoutesAccepted(ENV, t.value)
  }

  /** And is accepted exactly without a foreign default tenant, a long name and overlapping networks. */
  lemma DemoExactly(instance: string, cidrs: seq<string>, defaultTenant: Option<string>)
    requires ValidId(instance) && |instance| <= 200
    ensures DemoAccepted(instance, cidrs, defaultTenant) <==>
      && (defaultTenant == None || defaultTenant == Some(instance)) && |instance| <= 128
      && NetworksApart(ENV, cidrs)
  {
    var s, r := Plain(defaultTenant), Demo(instance, cidrs);
    DemoLoads(instance, cidrs, defaultTenant);
    DemoIsAllowed(instance, cidrs, defaultTenant);
    AcceptedExactly(ENV, s, [r], ApplyRecipes(ENV, s, [r]).value);
  }

  /** One network cannot overlap another. */
  lemma AnywhereIsApart()
    ensures NetworksApart(ENV, [ANYWHERE])
  {
    assert NetOf(ENV, ANYWHERE).Some?;
  }

  /** A default tenant that nobody configures is refused after a load that succeeds; none, or the
      instance's own, is accepted. */
  lemma UnknownDefaultIsRefused(defaultTenant: Option<string>)
    ensures ApplyRecipes(ENV, Plain(defaultTenant), [Demo("demo", [ANYWHERE])]).Some?
    ensures DemoAccepted("demo", [ANYWHERE], defaultTenant) <==> defaultTenant == None || defaultTenant == Some("demo")
  {
    AnywhereIsApart();
    DemoLoads("demo", [ANYWHERE], defaultTenant);
    DemoExactly("demo", [ANYWHERE], defaultTenant);
  }

  /** A network within another is refused; the recipe compiler itself rejects only a list that is empty
      or too long, a network that does not parse, and one that is listed twice. */
  lemma NestedNetworksAreRefused()
    ensures ApplyRecipes(ENV, Plain(None), [Demo("demo", [ANYWHERE, LOWER_HALF])]).Some?
    ensures !DemoAccepted("demo", [ANYWHERE, LOWER_HALF], None)
  {
    var cidrs := [ANYWHERE, LOWER_HALF];
    DemoLoads("demo", cidrs, None);
    DemoExactly("demo", cidrs, None);
    var a := ListenerCidr.Address(ListenerCidr.V4, 0);
    assert ListenerCidr.InNet(NetOf(ENV, cidrs[0]).value, a) && ListenerCidr.InNet(NetOf(ENV, cidrs[1]).value, a);
  }

  /** A name that may name a route but is too long for a tenant is refused; a short one is accepted. */
  lemma LongInstanceIsRefused(instance: string)
    requires ValidId(instance) && |instance| <= 200
    ensures ApplyRecipes(ENV, Plain(None), [Demo(instance, [ANYWHERE])]).Some?
    ensures DemoAccepted(instance, [ANYWHERE], None) <==> |instance| <= 128
  {
    AnywhereIsApart();
    DemoLoads(instance, [ANYWHERE], None);
    DemoExactly(instance, [ANYWHERE], None);
  }
}
