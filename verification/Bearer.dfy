/** Bearer credentials: the two header parsers, and the keys the static validator accepts.

    The header form is that of section 2.1 of RFC 6750. A header value is a sequence of bytes, here
    characters below 256. */
module Bearer {
  import opened Ascii
  import opened Options
  import opened Splitting

  const MAX_API_BEARER_BYTES := 16 * 1024
  const BEARER := "Bearer"

  datatype ParseError = MissingCredential | MalformedCredential

  datatype Result = Ok(credential: string) | Err(error: ParseError)

  /** Values that convert to text: visible ASCII, space and tab. */
  predicate IsText(value: string) {
    forall i :: 0 <= i < |value| ==> ' ' <= value[i] <= '~' || value[i] == '\t'
  }

  predicate Visible(s: string) {
    forall i :: 0 <= i < |s| ==> '!' <= s[i] <= '~'
  }

  /** The parser in front of every principal validator; `headers` are the Authorization values. */
  function ParseBearer(headers: seq<string>): Result {
    if |headers| == 0 then Err(MissingCredential)
    else if |headers| > 1 then Err(MalformedCredential)
    else if !IsText(headers[0]) then Err(MalformedCredential)
    else if ',' in headers[0] then Err(MalformedCredential)
    else match SplitOnce(headers[0], ' ')
      case None => Err(MalformedCredential)
      case Some((scheme, credential)) =>
        if !EqIgnoreCase(scheme, BEARER) || credential == "" || |credential| > MAX_API_BEARER_BYTES
           || !Visible(credential)
        then Err(MalformedCredential)
        else Ok(credential)
  }

  /** The parser of the legacy static-key path. */
  function LegacyBearer(headers: seq<string>): Option<string> {
    if |headers| != 1 || !IsText(headers[0]) || ',' in headers[0] then None
    else match SplitOnce(headers[0], ' ')
      case None => None
      case Some((scheme, credential)) =>
        if EqIgnoreCase(scheme, BEARER) && 1 <= |credential| <= MAX_API_BEARER_BYTES && Visible(credential)
        then Some(credential)
        else None
  }

  /** What the static validator demands of a configured key. */
  predicate KeyAccepted(key: string) {
    key != "" && |key| <= MAX_API_BEARER_BYTES && ',' !in key && Visible(key)
  }

  /** The header a client sends. */
  function Header(scheme: string, key: string): string {
    scheme + [' '] + key
  }

  lemma SchemeIsPlain(scheme: string)
    requires EqIgnoreCase(scheme, BEARER)
    ensures IsText(scheme) && ' ' !in scheme && ',' !in scheme
  {
    assert forall i :: 0 <= i < |BEARER| ==> 'a' <= Lower(BEARER)[i] <= 'z';
    forall i | 0 <= i < |scheme| ensures 'A' <= scheme[i] <= 'z' {
      assert Lower(scheme)[i] == Lower(BEARER)[i];
    }
  }

  /** Every accepted key, sent as one header under any casing of the scheme, parses to itself. */
  lemma RoundTrip(scheme: string, key: string)
    requires EqIgnoreCase(scheme, BEARER) && KeyAccepted(key)
    ensures ParseBearer([Header(scheme, key)]) == Ok(key)
  {
    SchemeIsPlain(scheme);
    SplitsThere(scheme, ' ', key);
  }

  ghost predicate Presents(headers: seq<string>, key: string) {
    |headers| == 1 && exists scheme :: EqIgnoreCase(scheme, BEARER) && headers[0] == Header(scheme, key)
  }

  /** The parser returns exactly the keys the validator could hold, each from exactly the headers
      that present it; the legacy parser does the same. */
  lemma ParsesExactly(headers: seq<string>, key: string)
    ensures ParseBearer(headers) == Ok(key) <==> KeyAccepted(key) && Presents(headers, key)
    ensures LegacyBearer(headers) == Some(key) <==> ParseBearer(headers) == Ok(key)
    ensures ParseBearer(headers) == Err(MissingCredential) <==> headers == []
  {
    if ParseBearer(headers) == Ok(key) {
      var (scheme, credential) := SplitOnce(headers[0], ' ').value;
      assert headers[0] == Header(scheme, key);
      assert forall c :: c in key ==> c in headers[0];
    }
    if KeyAccepted(key) && Presents(headers, key) {
      var scheme :| EqIgnoreCase(scheme, BEARER) && headers[0] == Header(scheme, key);
      RoundTrip(scheme, key);
      assert headers == [Header(scheme, key)];
    }
  }
}
