/** SIPS attachment URIs: the validator, and the separate extractor of the host.

    Whether a text is an IPv6 address is a parameter. The syntax is the part of section 19.1 of
    RFC 3261 that the program accepts. */
module SipsUris {
  import opened Ascii
  import opened Options
  import opened Splitting

  // ---- Characters and numbers ----

  function Width(c: char): nat {
    if c < '\U{80}' then 1 else if c < '\U{800}' then 2 else if c < '\U{10000}' then 3 else 4
  }

  /** Length in bytes of the UTF-8 form. */
  function Bytes(s: string): nat {
    if s == [] then 0 else Width(s[0]) + Bytes(s[1..])
  }

  predicate IsWhitespace(c: char) {
    || '\U{9}' <= c <= '\U{D}' || c == ' ' || c == '\U{85}' || c == '\U{A0}' || c == '\U{1680}'
    || '\U{2000}' <= c <= '\U{200A}' || c == '\U{2028}' || c == '\U{2029}' || c == '\U{202F}'
    || c == '\U{205F}' || c == '\U{3000}'
  }

  predicate AllDigits(s: string) {
    forall i :: 0 <= i < |s| ==> IsDigit(s[i])
  }

  function Decimal(s: string): nat
    requires AllDigits(s)
  {
    if s == [] then 0 else 10 * Decimal(s[..|s| - 1]) + (s[|s| - 1] as int - '0' as int)
  }

  /** Unsigned 16-bit parsing: an optional plus sign and at least one digit. */
  function ParseU16(s: string): Option<nat> {
    var digits := if s != [] && s[0] == '+' then s[1..] else s;
    if digits == [] || !AllDigits(digits) || Decimal(digits) > 65_535 then None else Some(Decimal(digits))
  }

  predicate NonzeroPort(s: string) {
    s != [] && ParseU16(s).Some? && ParseU16(s) != Some(0)
  }

  predicate UserChar(c: char) {
    IsAlphanumeric(c) || c in "-_.~+%"
  }

  predicate ValidUser(s: string) {
    1 <= Bytes(s) <= 512 && forall i :: 0 <= i < |s| ==> UserChar(s[i])
  }

  predicate ValidName(s: string) {
    1 <= Bytes(s) <= 253 && forall i :: 0 <= i < |s| ==> IsAlphanumeric(s[i]) || s[i] in "-."
  }

  // ---- The validator and the extractor ----

  type Ipv6 = string -> bool

  /** Host and port of an authority without brackets; a tail that is not all digits is no port. */
  function HostAndPort(authority: string): (string, Option<string>) {
    match RSplitOnce(authority, ':')
    case None => (authority, None)
    case Some((host, port)) => if AllDigits(port) then (host, Some(port)) else (authority, None)
  }

  predicate ValidAuthority(authority: string, ipv6: Ipv6) {
    if "[" <= authority then
      match SplitOnce(authority[1..], ']')
      case None => false
      case Some((host, suffix)) =>
        host != "" && ipv6(host) && (suffix == "" || (suffix[0] == ':' && NonzeroPort(suffix[1..])))
    else
      var (host, port) := HostAndPort(authority);
      ValidName(host) && (port.None? || NonzeroPort(port.value))
  }

  predicate Clean(value: string) {
    && Bytes(value) <= 2_048
    && (forall i :: 0 <= i < |value| ==> value[i] !in "\r\n?#")
    && (forall i :: 5 <= i < |value| ==> !IsWhitespace(value[i]))
  }

  predicate Validate(value: string, ipv6: Ipv6) {
    && "sips:" <= value
    && Clean(value)
    && match SplitOnce(value[5..], '@')
       case None => false
       case Some((user, rest)) => ValidUser(user) && ValidAuthority(Before(rest, ';'), ipv6)
  }

  function Host(value: string): Option<string> {
    if !("sips:" <= value) then None
    else match SplitOnce(value[5..], '@')
      case None => None
      case Some((_, rest)) =>
        var authority := Before(rest, ';');
        if "[" <= authority then
          match SplitOnce(authority[1..], ']')
          case None => None
          case Some((host, _)) => Some(host)
        else Some(HostAndPort(authority).0)
  }

  // ---- What is accepted, as a grammar ----

  datatype Authority =
    | Name(host: string, port: Option<string>)
    | Bracketed(host: string, port: Option<string>)
  {
    function Render(): string {
      (if Name? then host else "[" + host + "]") + (if port.None? then "" else ":" + port.value)
    }

    predicate WellFormed(ipv6: Ipv6) {
      match this
      case Name(_, _) => ValidName(host) && (port.None? || (AllDigits(port.value) && NonzeroPort(port.value)))
      case Bracketed(_, _) =>
        host != "" && ipv6(host) && ']' !in host && ';' !in host && (port.None? || NonzeroPort(port.value))
    }
  }

  datatype Uri = Uri(user: string, authority: Authority, params: string) {
    function Render(): string {
      "sips:" + (user + "@" + (authority.Render() + params))
    }

    predicate WellFormed(ipv6: Ipv6) {
      && ValidUser(user) && authority.WellFormed(ipv6)
      && (params == "" || params[0] == ';')
      && Clean(Render())
    }
  }

  lemma PortIsPlain(port: string)
    requires NonzeroPort(port)
    ensures ';' !in port
  {
    forall i | 0 <= i < |port|
      ensures port[i] == '+' || IsDigit(port[i])
    {
      if port[0] == '+' && i > 0 {
        assert port[1..][i - 1] == port[i];
      }
    }
  }

  lemma AuthorityIsPlain(a: Authority, ipv6: Ipv6)
    requires a.WellFormed(ipv6)
    ensures ';' !in a.Render()
  {
    if a.port.Some? {
      PortIsPlain(a.port.value);
    }
  }

  lemma AuthorityComplete(a: Authority, ipv6: Ipv6)
    requires a.WellFormed(ipv6)
    ensures ValidAuthority(a.Render(), ipv6)
    ensures a.Bracketed? ==> "[" <= a.Render() && SplitOnce(a.Render()[1..], ']').Some?
                             && SplitOnce(a.Render()[1..], ']').value.0 == a.host
    ensures a.Name? ==> !("[" <= a.Render()) && HostAndPort(a.Render()).0 == a.host
  {
    var text := a.Render();
    var suffix := if a.port.None? then "" else ":" + a.port.value;
    if a.Bracketed? {
      assert text[1..] == a.host + [']'] + suffix;
      SplitsThere(a.host, ']', suffix);
      assert a.port.Some? ==> suffix[1..] == a.port.value;
    } else {
      assert a.host != "" && text[0] == a.host[0];
      if a.port.Some? {
        assert text == a.host + [':'] + a.port.value;
        RSplitsThere(a.host, ':', a.port.value);
      } else {
        assert text == a.host;
        NoSplit(text, ':');
      }
    }
  }

  lemma BracketedSound(text: string, ipv6: Ipv6) returns (a: Authority)
    requires "[" <= text && ValidAuthority(text, ipv6) && ';' !in text
    ensures a.WellFormed(ipv6) && a.Render() == text
  {
    var (host, suffix) := SplitOnce(text[1..], ']').value;
    a := Bracketed(host, if suffix == "" then None else Some(suffix[1..]));
    assert ';' !in host by {
      forall i | 0 <= i < |host| ensures host[i] == text[i + 1] {
      }
    }
    assert text == "[" + text[1..];
    if suffix != "" {
      assert suffix == ":" + suffix[1..];
    }
    assert a.Render() == "[" + (host + "]" + suffix);
  }

  lemma NameSound(text: string, ipv6: Ipv6) returns (a: Authority)
    requires !("[" <= text) && ValidAuthority(text, ipv6)
    ensures a.WellFormed(ipv6) && a.Render() == text
  {
    var (host, port) := HostAndPort(text);
    a := Name(host, port);
    if port.Some? {
      assert a.Render() == host + [':'] + port.value;
    } else {
      assert a.Render() == host;
    }
  }

  lemma AuthoritySound(text: string, ipv6: Ipv6) returns (a: Authority)
    requires ValidAuthority(text, ipv6) && ';' !in text
    ensures a.WellFormed(ipv6) && a.Render() == text
  {
    if "[" <= text {
      a := BracketedSound(text, ipv6);
    } else {
      a := NameSound(text, ipv6);
    }
  }

  /** Every well-formed URI is accepted, and the extractor returns exactly its host. */
  lemma Complete(u: Uri, ipv6: Ipv6)
    requires u.WellFormed(ipv6)
    ensures Validate(u.Render(), ipv6) && Host(u.Render()) == Some(u.authority.host)
  {
    var value, rest := u.Render(), u.authority.Render() + u.params;
    assert value[5..] == u.user + ['@'] + rest;
    assert '@' !in u.user;
    SplitsThere(u.user, '@', rest);
    AuthorityIsPlain(u.authority, ipv6);
    BeforeTail(u.authority.Render(), ';', u.params);
    AuthorityComplete(u.authority, ipv6);
  }

  /** Every accepted text is the rendering of a well-formed URI. */
  lemma Sound(value: string, ipv6: Ipv6) returns (u: Uri)
    requires Validate(value, ipv6)
    ensures u.WellFormed(ipv6) && u.Render() == value
  {
    var (user, rest) := SplitOnce(value[5..], '@').value;
    var text := Before(rest, ';');
    var params := rest[|text|..];
    assert rest == text + params && ';' !in text && (params == "" || params[0] == ';');
    var a := AuthoritySound(text, ipv6);
    u := Uri(user, a, params);
    assert value == "sips:" + value[5..];
    assert value[5..] == user + "@" + rest;
  }

  /** The validator accepts exactly the renderings of well-formed URIs, and for each of them the
      extractor returns the host that was checked, which is not empty. */
  lemma AcceptsExactly(value: string, ipv6: Ipv6)
    ensures Validate(value, ipv6) <==> exists u: Uri :: u.WellFormed(ipv6) && u.Render() == value
    ensures forall u: Uri :: u.WellFormed(ipv6) && u.Render() == value ==>
      Host(value) == Some(u.authority.host) && u.authority.host != ""
  {
    forall u: Uri | u.WellFormed(ipv6) && u.Render() == value
      ensures Validate(value, ipv6) && Host(value) == Some(u.authority.host)
    {
      Complete(u, ipv6);
    }
    if Validate(value, ipv6) {
      var u := Sound(value, ipv6);
    }
  }
}
