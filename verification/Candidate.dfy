/** The canonical proxy candidate: parsing, its snapshot form, and collection
    (validator/sources/base.py, validator/sources/registry.py). */
module Candidate {
  import opened Prelude
  import opened Text

  datatype Proxy = Proxy(
    host: string, port: nat, protocol: string, source: string,
    credentialRef: Option<string>, metadata: map<string, string>)

  const PROTOCOLS: set<string> := {"http", "https", "socks4", "socks5"}

  function EndpointOf(host: string, port: nat): string {
    (if ':' in host then "[" + host + "]" else host) + ":" + Decimal(port)
  }

  function AddressOf(c: Proxy): string {
    c.protocol + "://" + EndpointOf(c.host, c.port)
  }

  // A decoded JSON object, with the value kinds the parser tells apart.
  datatype PortValue = NoPort | IntPort(value: int) | TextPort(text: string) | OtherPort

  datatype MetadataValue = NoMetadata | StringMap(entries: map<string, string>) | OtherMetadata

  datatype RawValue = RawValue(
    endpoint: Option<string>, host: Option<string>, port: PortValue, protocol: Option<string>,
    source: Option<string>, credentialRef: Option<string>, metadata: MetadataValue)

  // `_split_endpoint`
  function SplitEndpoint(endpoint: string): Result<(string, int)> {
    if endpoint != [] && endpoint[0] == '[' then
      var closing := IndexOf(endpoint, ']');
      if closing + 1 >= |endpoint| || endpoint[closing + 1] != ':' then Err(ValueError)
      else WithPort(endpoint[1..closing], endpoint[closing + 2..])
    else if Count(endpoint, ':') != 1 then Err(ValueError)
    else
      var colon := IndexOf(endpoint, ':');
      if colon >= |endpoint| then Err(ValueError) else WithPort(endpoint[..colon], endpoint[colon + 1..])
  }

  function WithPort(host: string, portText: string): Result<(string, int)> {
    match ParseInt(portText) case None => Err(ValueError) case Some(p) => Ok((host, p))
  }

  function IntOf(p: PortValue): Result<int> {
    match p
    case IntPort(n) => Ok(n)
    case TextPort(t) => (match ParseInt(t) case None => Err(ValueError) case Some(n) => Ok(n))
    case _ => Err(ValueError)
  }

  function OrEmpty(v: Option<string>): string { match v case None => "" case Some(s) => s }

  /** What the round trip needs of `_normalise_host`: it is idempotent, and its
      results are non-empty, free of white space and do not open a bracket. */
  ghost predicate Normalises(norm: string -> Option<string>) {
    forall h {:trigger norm(h)} :: norm(h).Some? ==> Normal(norm, norm(h).value)
  }

  ghost predicate Normal(norm: string -> Option<string>, host: string) {
    norm(host) == Some(host) && host != [] && host[0] != '[' && forall i :: 0 <= i < |host| ==> !IsSpace(host[i])
  }

  // The endpoint and the host/port forms, reconciled.
  function HostAndPort(v: RawValue, norm: string -> Option<string>): Result<(string, int)> {
    var rawEndpoint, rawHost := Strip(OrEmpty(v.endpoint)), Strip(OrEmpty(v.host));
    if rawEndpoint != "" then
      match SplitEndpoint(rawEndpoint)
      case Err(e) => Err(e)
      case Ok((host, port)) =>
        if rawHost != "" && (norm(rawHost).None? || norm(host).None? || norm(rawHost) != norm(host)) then
          Err(ValueError)
        else if v.port != NoPort && IntOf(v.port) != Ok(port) then Err(ValueError)
        else Ok((host, port))
    else if rawHost != "" && v.port != NoPort then
      match IntOf(v.port) case Err(e) => Err(e) case Ok(p) => Ok((rawHost, p))
    else Err(ValueError)
  }

  function Parse(v: RawValue, defaultSource: string, norm: string -> Option<string>): Result<Proxy> {
    match HostAndPort(v, norm)
    case Err(e) => Err(e)
    case Ok((host, port)) =>
      var protocol := Lower(Strip(OrEmpty(v.protocol)));
      var source := Strip(if OrEmpty(v.source) != "" then OrEmpty(v.source) else defaultSource);
      if protocol !in PROTOCOLS || source == "" then Err(ValueError)
      else if norm(host).None? then Err(ValueError)
      else if !(1 <= port <= 65535) then Err(ValueError)
      else if v.credentialRef.Some? && Strip(v.credentialRef.value) == "" then Err(ValueError)
      else
        match v.metadata
        case OtherMetadata => Err(ValueError)
        case NoMetadata => Ok(Proxy(norm(host).value, port, protocol, source, v.credentialRef, map[]))
        case StringMap(m) => Ok(Proxy(norm(host).value, port, protocol, source, v.credentialRef, m))
  }

  // ---------- The forms a candidate is written in ----------

  // `snapshot_without_validation`
  function SnapshotForm(c: Proxy): RawValue {
    RawValue(Some(EndpointOf(c.host, c.port)), Some(c.host), IntPort(c.port), Some(c.protocol), Some(c.source),
             c.credentialRef, StringMap(c.metadata))
  }

  function HostPortForm(c: Proxy): RawValue {
    SnapshotForm(c).(endpoint := None)
  }

  function EndpointForm(c: Proxy): RawValue {
    SnapshotForm(c).(host := None, port := NoPort)
  }

  // A bracketed host that itself contains a closing bracket cannot be split back.
  predicate Bracketable(host: string) { !(':' in host && ']' in host) }

  lemma NoColonInDigits(s: string)
    requires AllDigits(s)
    ensures ':' !in s
  {
  }

  // The first closing bracket ends the host, and a colon must follow.
  lemma SplitAtBracket(a: string, b: string)
    requires ']' !in a
    ensures SplitEndpoint("[" + a + "]" + b)
         == if b == "" || b[0] != ':' then Err(ValueError) else WithPort(a, b[1..])
  {
    var e := "[" + a + "]" + b;
    assert e == ("[" + a) + [']'] + b;
    IndexOfAfter("[" + a, ']', b);
    assert e[1..|a| + 1] == a && e[|a| + 2..] == b;
    assert b != "" ==> e[|a| + 3..] == b[1..];
  }

  lemma SplitBracketed(host: string, port: nat)
    requires ':' in host && ']' !in host
    ensures SplitEndpoint(EndpointOf(host, port)) == Ok((host, port))
  {
    var b := ":" + Decimal(port);
    assert EndpointOf(host, port) == "[" + host + "]" + b;
    SplitAtBracket(host, b);
    assert b[1..] == Decimal(port);
    DecimalParses(port);
  }

  lemma BracketedAt(host: string, k: nat, digits: string)
    requires k < |host| && host[k] == ']'
    ensures ("[" + host + "]") + ":" + digits == "[" + host[..k] + "]" + (host[k + 1..] + ("]:" + digits))
  {
    assert host == host[..k] + "]" + host[k + 1..];
  }

  // The first closing bracket is the host's own, and what follows it is no port.
  lemma SplitRefuses(host: string, port: nat)
    requires ':' in host && ']' in host
    ensures SplitEndpoint(EndpointOf(host, port)) == Err(ValueError)
  {
    var k := IndexOf(host, ']');
    IndexOfIsFirst(host, ']');
    var a, rest, tail := host[..k], host[k + 1..], "]:" + Decimal(port);
    BracketedAt(host, k, Decimal(port));
    SplitAtBracket(a, rest + tail);
    if (rest + tail)[0] == ':' {
      assert (rest + tail)[1..] == rest[1..] + tail && tail[0] == ']';
      ParseIntRefuses((rest + tail)[1..], ']');
    }
  }

  lemma SplitPlain(host: string, port: nat)
    requires ':' !in host && host != [] && host[0] != '['
    ensures SplitEndpoint(EndpointOf(host, port)) == Ok((host, port))
  {
    var e, d := EndpointOf(host, port), Decimal(port);
    DecimalParses(port);
    DecimalDigits(port);
    NoColonInDigits(d);
    assert e == host + [':'] + d && e[0] == host[0];
    CountOnce(host, ':', d);
    IndexOfAfter(host, ':', d);
    assert e[..|host|] == host && e[|host| + 1..] == d;
  }

  /** Splitting inverts printing for bracketable hosts and refuses all others. */
  lemma SplitInvertsEndpoint(host: string, port: nat)
    requires host != [] && host[0] != '['
    ensures SplitEndpoint(EndpointOf(host, port))
         == if Bracketable(host) then Ok((host, port)) else Err(ValueError)
  {
    if ':' !in host { SplitPlain(host, port); }
    else if ']' in host { SplitRefuses(host, port); }
    else { SplitBracketed(host, port); }
  }

  lemma {:induction false} CountSplits(s: string, c: char)
    requires Count(s, c) == 1
    ensures var i := IndexOf(s, c);
      i < |s| && s[i] == c && c !in s[..i] && c !in s[i + 1..]
  {
    IndexOfIsFirst(s, c);
    if s[0] == c {
      NoneLeft(s[1..], c);
    } else {
      CountSplits(s[1..], c);
      assert s[IndexOf(s, c) + 1..] == s[1..][IndexOf(s[1..], c) + 1..];
    }
  }

  lemma {:induction false} NoneLeft(s: string, c: char)
    requires Count(s, c) == 0
    ensures c !in s
  {
    if s != [] { NoneLeft(s[1..], c); }
  }

  // `[host]:port` without a further closing bracket in the host, or `host:port` with one colon.
  ghost predicate Splits(e: string, host: string, portText: string) {
    Bracketed(e, host, portText) || Plain(e, host, portText)
  }

  predicate Bracketed(e: string, host: string, portText: string) {
    e == "[" + host + "]" + (":" + portText) && ']' !in host
  }

  predicate Plain(e: string, host: string, portText: string) {
    e == host + [':'] + portText && ':' !in host && ':' !in portText && (host != "" ==> host[0] != '[')
  }

  lemma BracketedSplits(e: string, host: string, portText: string)
    requires Bracketed(e, host, portText)
    ensures SplitEndpoint(e) == WithPort(host, portText)
  {
    SplitAtBracket(host, ":" + portText);
    assert (":" + portText)[1..] == portText;
  }

  lemma PlainSplits(e: string, host: string, portText: string)
    requires Plain(e, host, portText)
    ensures SplitEndpoint(e) == WithPort(host, portText)
  {
    assert e[0] == if host == "" then ':' else host[0];
    CountOnce(host, ':', portText);
    IndexOfAfter(host, ':', portText);
    assert e[..|host|] == host && e[|host| + 1..] == portText;
  }

  lemma SplitIsBracketed(e: string)
    requires e != "" && e[0] == '[' && SplitEndpoint(e).Ok?
    ensures var k := IndexOf(e, ']');
      k + 2 <= |e| && Bracketed(e, e[1..k], e[k + 2..]) && SplitEndpoint(e) == WithPort(e[1..k], e[k + 2..])
  {
    var k := IndexOf(e, ']');
    IndexOfIsFirst(e, ']');
    BracketShape(e, k);
  }

  lemma BracketShape(e: string, k: nat)
    requires 1 <= k && k + 1 < |e| && e[0] == '[' && e[k] == ']' && e[k + 1] == ':' && ']' !in e[..k]
    ensures Bracketed(e, e[1..k], e[k + 2..])
  {
    assert e[..k][1..] == e[1..k];
    assert e[k..] == [e[k]] + ([e[k + 1]] + e[k + 2..]);
    assert e == [e[0]] + e[1..k] + e[k..];
  }

  lemma SplitIsPlain(e: string)
    requires (e == "" || e[0] != '[') && SplitEndpoint(e).Ok?
    ensures var k := IndexOf(e, ':');
      k + 1 <= |e| && Plain(e, e[..k], e[k + 1..]) && SplitEndpoint(e) == WithPort(e[..k], e[k + 1..])
  {
    var k := IndexOf(e, ':');
    CountSplits(e, ':');
    assert e == e[..k] + [e[k]] + e[k + 1..];
  }

  /** Exactly these texts are endpoints, and this is how they split. */
  lemma SplitsExactly(e: string, host: string, port: int)
    ensures SplitEndpoint(e) == Ok((host, port)) <==>
      exists portText :: Splits(e, host, portText) && ParseInt(portText) == Some(port)
    ensures SplitEndpoint(e).Err? ==> SplitEndpoint(e) == Err(ValueError)
  {
    if portText :| Splits(e, host, portText) && ParseInt(portText) == Some(port) {
      if Bracketed(e, host, portText) { BracketedSplits(e, host, portText); } else { PlainSplits(e, host, portText); }
    }
    if SplitEndpoint(e) == Ok((host, port)) {
      if e != "" && e[0] == '[' {
        SplitIsBracketed(e);
        assert Splits(e, host, e[IndexOf(e, ']') + 2..]);
      } else {
        SplitIsPlain(e);
        assert Splits(e, host, e[IndexOf(e, ':') + 1..]);
      }
    }
  }

  lemma EndpointTrimmed(host: string, port: nat)
    requires host != [] && forall i :: 0 <= i < |host| ==> !IsSpace(host[i])
    ensures EndpointOf(host, port) != [] && Strip(EndpointOf(host, port)) == EndpointOf(host, port)
  {
  }

  lemma LowerProtocol(protocol: string)
    requires protocol in PROTOCOLS
    ensures Strip(protocol) == protocol && Lower(protocol) == protocol && protocol != ""
  {
  }

  // What every parsed candidate satisfies.
  ghost predicate Canonical(c: Proxy, norm: string -> Option<string>) {
    && Normal(norm, c.host) && 1 <= c.port <= 65535 && c.protocol in PROTOCOLS
    && c.source != "" && Trimmed(c.source)
    && (c.credentialRef.Some? ==> Strip(c.credentialRef.value) != "")
  }

  lemma ParsedIsCanonical(v: RawValue, defaultSource: string, norm: string -> Option<string>)
    requires Normalises(norm) && Parse(v, defaultSource, norm).Ok?
    ensures Canonical(Parse(v, defaultSource, norm).value, norm)
  {
    StripTrims(if OrEmpty(v.source) != "" then OrEmpty(v.source) else defaultSource);
    var host := HostAndPort(v, norm).value.0;
    assert norm(host).Some?;
  }

  /** Nothing is silently overridden: every form of host and port the input gives
      agrees with the candidate, and the rest is carried over. */
  lemma ParsedAgreesWithInput(v: RawValue, defaultSource: string, norm: string -> Option<string>)
    requires Parse(v, defaultSource, norm).Ok?
    ensures var c := Parse(v, defaultSource, norm).value;
      && (Strip(OrEmpty(v.endpoint)) != "" ==>
            exists h :: SplitEndpoint(Strip(OrEmpty(v.endpoint))) == Ok((h, c.port)) && norm(h) == Some(c.host))
      && (Strip(OrEmpty(v.host)) != "" ==> norm(Strip(OrEmpty(v.host))) == Some(c.host))
      && (v.port != NoPort ==> IntOf(v.port) == Ok(c.port))
      && c.protocol == Lower(Strip(OrEmpty(v.protocol)))
      && (Strip(OrEmpty(v.source)) != "" ==> c.source == Strip(v.source.value))
      && (OrEmpty(v.source) == "" ==> c.source == Strip(defaultSource))
      && c.credentialRef == v.credentialRef
      && (v.metadata.StringMap? ==> c.metadata == v.metadata.entries)
      && (v.metadata == NoMetadata ==> c.metadata == map[])
  {
  }

  // The source that counts, untrimmed.
  function SourceText(v: RawValue, defaultSource: string): string {
    if OrEmpty(v.source) != "" then OrEmpty(v.source) else defaultSource
  }

  // `host` and `port` are what every given form of them says.
  ghost predicate Says(v: RawValue, norm: string -> Option<string>, host: string, port: int) {
    var endpointText, hostText := Strip(OrEmpty(v.endpoint)), Strip(OrEmpty(v.host));
    && (endpointText != "" ==> SplitEndpoint(endpointText) == Ok((host, port)))
    && (endpointText != "" && hostText != "" ==> norm(hostText).Some? && norm(hostText) == norm(host))
    && (endpointText == "" ==> hostText != "" && hostText == host && v.port != NoPort)
    && (v.port != NoPort ==> IntOf(v.port) == Ok(port))
  }

  /** Exactly what is accepted: one host that normalises and one port in range that every given
      form agrees on, an allowed protocol, a source or a default that is not blank, a credential
      reference that is not blank if given, and metadata that is a string map if given. */
  lemma ParseAccepts(v: RawValue, defaultSource: string, norm: string -> Option<string>)
    ensures Parse(v, defaultSource, norm).Ok? <==>
      && (exists host, port :: Says(v, norm, host, port) && norm(host).Some? && 1 <= port <= 65535)
      && Lower(Strip(OrEmpty(v.protocol))) in PROTOCOLS
      && Strip(SourceText(v, defaultSource)) != ""
      && (v.credentialRef.Some? ==> Strip(v.credentialRef.value) != "") && v.metadata != OtherMetadata
    ensures Parse(v, defaultSource, norm).Err? ==> Parse(v, defaultSource, norm) == Err(ValueError)
  {
    if host, port :| Says(v, norm, host, port) && norm(host).Some? && 1 <= port <= 65535 {
      assert HostAndPort(v, norm) == Ok((host, port));
    }
    if HostAndPort(v, norm).Ok? {
      var (host, port) := HostAndPort(v, norm).value;
      assert Says(v, norm, host, port);
    }
  }

  /** A port given as text is as good as a number. */
  lemma TextPortParses(v: RawValue, port: nat, defaultSource: string, norm: string -> Option<string>)
    ensures Parse(v.(port := TextPort(Decimal(port))), defaultSource, norm)
         == Parse(v.(port := IntPort(port)), defaultSource, norm)
  {
    DecimalParses(port);
  }

  lemma FormsParse(c: Proxy, v: RawValue, defaultSource: string, norm: string -> Option<string>)
    requires Canonical(c, norm)
    requires v == SnapshotForm(c) || v == HostPortForm(c) || v == EndpointForm(c)
    requires HostAndPort(v, norm) == Ok((c.host, c.port))
    ensures Parse(v, defaultSource, norm) == Ok(c)
  {
    LowerProtocol(c.protocol);
    TrimmedStrips(c.source);
  }

  // An input that names its endpoint fails where splitting fails.
  lemma EndpointIsSplit(c: Proxy, v: RawValue, norm: string -> Option<string>)
    requires Canonical(c, norm) && (v == SnapshotForm(c) || v == EndpointForm(c))
    ensures HostAndPort(v, norm) == if Bracketable(c.host) then Ok((c.host, c.port)) else Err(ValueError)
  {
    TrimmedStrips(c.host);
    EndpointTrimmed(c.host, c.port);
    SplitInvertsEndpoint(c.host, c.port);
  }

  /** Round trip: whatever a candidate was parsed from, its host and port parse back to it,
      for any default source.  The two forms that print the endpoint do so exactly for
      bracketable hosts and are refused for all others. */
  lemma RoundTrip(v: RawValue, source: string, source': string, norm: string -> Option<string>)
    requires Normalises(norm) && Parse(v, source, norm).Ok?
    ensures var c := Parse(v, source, norm).value;
      && Parse(HostPortForm(c), source', norm) == Ok(c)
      && Parse(SnapshotForm(c), source', norm) == (if Bracketable(c.host) then Ok(c) else Err(ValueError))
      && Parse(EndpointForm(c), source', norm) == (if Bracketable(c.host) then Ok(c) else Err(ValueError))
  {
    var c := Parse(v, source, norm).value;
    ParsedIsCanonical(v, source, norm);
    TrimmedStrips(c.host);
    FormsParse(c, HostPortForm(c), source', norm);
    EndpointIsSplit(c, SnapshotForm(c), norm);
    EndpointIsSplit(c, EndpointForm(c), norm);
    if Bracketable(c.host) {
      FormsParse(c, SnapshotForm(c), source', norm);
      FormsParse(c, EndpointForm(c), source', norm);
    }
  }

  // Two texts without a colon, followed by the same kind of tail.
  lemma SchemeIsPrefixFree(p: string, p': string, rest: string, rest': string)
    requires ':' !in p && ':' !in p' && p + "://" + rest == p' + "://" + rest'
    ensures p == p' && rest == rest'
  {
    var a, b := p + "://" + rest, p' + "://" + rest';
    assert a == p + [':'] + ("//" + rest) && b == p' + [':'] + ("//" + rest');
    IndexOfAfter(p, ':', "//" + rest);
    IndexOfAfter(p', ':', "//" + rest');
    assert p == a[..|p|] && p' == b[..|p'|];
    assert rest == a[|p| + 3..] && rest' == b[|p'| + 3..];
  }

  // The last colon splits off the digits.
  lemma LastColon(x: string, d: string, x': string, d': string)
    requires AllDigits(d) && AllDigits(d') && x + ":" + d == x' + ":" + d' && |x| <= |x'|
    ensures x == x' && d == d'
  {
    var e := x + ":" + d;
    assert e[|x'|] == ':';
    assert forall i :: |x| < i < |e| ==> e[i] == d[i - |x| - 1];
    assert x == e[..|x|] && x' == e[..|x'|] && d == e[|x| + 1..] && d' == e[|x'| + 1..];
  }

  lemma EndpointInjective(host: string, port: nat, host': string, port': nat)
    requires host != [] && host[0] != '[' && host' != [] && host'[0] != '['
    requires EndpointOf(host, port) == EndpointOf(host', port')
    ensures host == host' && port == port'
  {
    var x := if ':' in host then "[" + host + "]" else host;
    var x' := if ':' in host' then "[" + host' + "]" else host';
    DecimalDigits(port);
    DecimalDigits(port');
    if |x| <= |x'| { LastColon(x, Decimal(port), x', Decimal(port')); }
    else { LastColon(x', Decimal(port'), x, Decimal(port)); }
    assert x[0] == '[' <==> ':' in host;
    assert x'[0] == '[' <==> ':' in host';
    if ':' in host { assert host == x[1..|x| - 1] && host' == x'[1..|x'| - 1]; }
  }

  /** `address` determines protocol, host and port, which is what keying streaks,
      cooldowns and pool membership by it assumes. */
  lemma AddressInjective(c: Proxy, c': Proxy, norm: string -> Option<string>)
    requires Canonical(c, norm) && Canonical(c', norm) && AddressOf(c) == AddressOf(c')
    ensures c.protocol == c'.protocol && c.host == c'.host && c.port == c'.port
  {
    assert forall p :: p in PROTOCOLS ==> ':' !in p;
    SchemeIsPrefixFree(c.protocol, c'.protocol, EndpointOf(c.host, c.port), EndpointOf(c'.host, c'.port));
    EndpointInjective(c.host, c.port, c'.host, c'.port);
  }
}
