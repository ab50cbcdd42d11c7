/** The server's command-line options record and the pure helpers that
    resolve defaults and precedence from it (`server/src/cli/options.rs`).
    Parsing the command line itself is done by a derive macro and is not
    modelled: an `Options` value is what that parse produced. */
module ServerOptions {
  import opened Basics
  import Labels

  /** `log::LevelFilter`. */
  datatype LevelFilter = Off | Error | Warn | Info | Debug | Trace

  /** The kind of a server id. Only `Cloud` is produced by the code modelled
      here; `Local` stands for the crate's other kind. */
  datatype ServerKind = Cloud | Local

  /** A server id: a number plus a kind. The number's own type belongs to a
      file that is not part of this model and is represented by `nat`. */
  datatype ServerId = ServerId(number: nat, kind: ServerKind)

  /** `LevelFilter::from_str`, given by the caller: `None` for a string it rejects. */
  type LevelParser = string -> Option<LevelFilter>

  /** The `FromStr` of the server number, given by the caller. */
  type NumberParser = string -> Option<nat>

  /** Where the server runs. On unix the effective uid decides whether the
      process is privileged; on any other platform it is taken to be. */
  datatype Platform = Unix(effectiveUidIsRoot: bool) | NonUnix

  /** The parsed options, one field per option the modelled helpers read or
      that carries a declared default. */
  datatype Options = Options(
    bots: Option<U16>,
    debugHttp: string,
    debugGame: string,
    debugEngine: string,
    debugPlasma: string,
    domainBackup: string,
    serverId: Option<ServerId>,
    hostname: Option<string>,
    httpPort: Option<U16>,
    httpsPort: Option<U16>,
    certificatePath: Option<string>,
    privateKeyPath: Option<string>,
    httpBandwidthLimit: U32,
    httpBandwidthBurst: Option<U32>,
    clientAuthenticateRateLimit: nat,
    clientAuthenticateBurst: U32,
    cpuProfile: bool,
    heapProfile: bool
  )

  /** The record produced when no argument is given: every declared
      `default_value`, `None` for every optional field and `false` for flags. */
  function DeclaredDefaults(): (o: Options)
  {
    Options(
      bots := None,
      debugHttp := "info",
      debugGame := "info",
      debugEngine := "warn",
      debugPlasma := "warn",
      domainBackup := "./domain_backup.json",
      serverId := None,
      hostname := None,
      httpPort := None,
      httpsPort := None,
      certificatePath := None,
      privateKeyPath := None,
      httpBandwidthLimit := 500000,
      httpBandwidthBurst := None,
      clientAuthenticateRateLimit := 10,
      clientAuthenticateBurst := 16,
      cpuProfile := false,
      heapProfile := false
    )
  }

  const STANDARD_HTTP_PORT: U16 := 80
  const STANDARD_HTTPS_PORT: U16 := 443
  const UNPRIVILEGED_HTTP_PORT: U16 := 8080
  const UNPRIVILEGED_HTTPS_PORT: U16 := 8443

  // ----- log filters -----

  /** A level string parsed with `parse`, or `fallback` when it is rejected. */
  function FilterOr(s: string, parse: LevelParser, fallback: LevelFilter): (r: LevelFilter)
    ensures parse(s).Some? ==> r == parse(s).value
    ensures parse(s).None? ==> r == fallback
  {
    parse(s).UnwrapOr(fallback)
  }

  function DebugHttpFilter(o: Options, parse: LevelParser): (r: LevelFilter)
    ensures parse(o.debugHttp).Some? ==> r == parse(o.debugHttp).value
    ensures parse(o.debugHttp).None? ==> r == Info
  {
    FilterOr(o.debugHttp, parse, Info)
  }

  function DebugGameFilter(o: Options, parse: LevelParser): (r: LevelFilter)
    ensures parse(o.debugGame).Some? ==> r == parse(o.debugGame).value
    ensures parse(o.debugGame).None? ==> r == Info
  {
    FilterOr(o.debugGame, parse, Info)
  }

  function DebugEngineFilter(o: Options, parse: LevelParser): (r: LevelFilter)
    ensures parse(o.debugEngine).Some? ==> r == parse(o.debugEngine).value
    ensures parse(o.debugEngine).None? ==> r == Warn
  {
    FilterOr(o.debugEngine, parse, Warn)
  }

  function DebugPlasmaFilter(o: Options, parse: LevelParser): (r: LevelFilter)
    ensures parse(o.debugPlasma).Some? ==> r == parse(o.debugPlasma).value
    ensures parse(o.debugPlasma).None? ==> r == Warn
  {
    FilterOr(o.debugPlasma, parse, Warn)
  }

  /** Each filter's fallback is the level its declared default names: with a
      parser that reads "info" as `Info` and "warn" as `Warn`, an option left
      at its default and an option set to an unparsable string resolve alike. */
  lemma FallbackAgreesWithDeclaredDefault(o: Options, parse: LevelParser)
    requires parse("info") == Some(Info) && parse("warn") == Some(Warn)
    ensures parse(o.debugHttp).None? ==> DebugHttpFilter(o, parse) == DebugHttpFilter(DeclaredDefaults(), parse)
    ensures parse(o.debugGame).None? ==> DebugGameFilter(o, parse) == DebugGameFilter(DeclaredDefaults(), parse)
    ensures parse(o.debugEngine).None? ==> DebugEngineFilter(o, parse) == DebugEngineFilter(DeclaredDefaults(), parse)
    ensures parse(o.debugPlasma).None? ==> DebugPlasmaFilter(o, parse) == DebugPlasmaFilter(DeclaredDefaults(), parse)
  {
  }

  // ----- certificate and private key -----

  /** `certificate_path.zip(private_key_path)`: both paths, certificate first,
      exactly when both are given. */
  function CertificatePrivateKeyPaths(o: Options): (r: Option<(string, string)>)
    ensures r.Some? <==> o.certificatePath.Some? && o.privateKeyPath.Some?
    ensures r.Some? ==> r.value.0 == o.certificatePath.value && r.value.1 == o.privateKeyPath.value
  {
    match (o.certificatePath, o.privateKeyPath)
    case (Some(cert), Some(key)) => Some((cert, key))
    case _ => None
  }

  // ----- server id -----

  /** An explicit `server_id` if given; otherwise the hostname's first
      dot-separated label parsed as a number, with kind `Cloud`; otherwise
      (no hostname, or a label that does not parse) `None`. */
  function ResolveServerId(o: Options, parseNumber: NumberParser): (r: Option<ServerId>)
    ensures o.serverId.Some? ==> r == o.serverId
    ensures o.serverId.None? && o.hostname.None? ==> r.None?
    ensures o.serverId.None? && o.hostname.Some? ==>
      forall l :: Labels.IsFirstLabel(l, o.hostname.value, '.') ==>
        (r.Some? <==> parseNumber(l).Some?)
        && (r.Some? ==> r.value == ServerId(parseNumber(l).value, Cloud))
  {
    match o.serverId
    case Some(id) => Some(id)
    case None =>
      match o.hostname
      case None => None
      case Some(hostname) =>
        var first := Labels.FirstLabel(hostname, '.');
        Labels.FirstLabelCharacterized(hostname, '.');
        match parseNumber(first)
        case Some(number) => Some(ServerId(number, Cloud))
        case None => None
  }

  /** The hostname is consulted only when no explicit id is given: two
      records that differ only in their hostname resolve to the same id
      whenever an explicit id is present. */
  lemma ExplicitServerIdWins(o: Options, hostname: Option<string>, parseNumber: NumberParser)
    requires o.serverId.Some?
    ensures ResolveServerId(o.(hostname := hostname), parseNumber) == ResolveServerId(o, parseNumber) == o.serverId
  {
  }

  /** A hostname without a dot is parsed whole. */
  lemma DotlessHostnameParsedWhole(o: Options, parseNumber: NumberParser)
    requires o.serverId.None? && o.hostname.Some? && '.' !in o.hostname.value
    ensures ResolveServerId(o, parseNumber) ==
      match parseNumber(o.hostname.value)
      case Some(n) => Some(ServerId(n, Cloud))
      case None => None
  {
    Labels.NoSeparatorIsWholeString(o.hostname.value, '.');
  }

  /** For a hostname `first.rest` only `first` is parsed: what follows the
      first dot never affects the id. */
  lemma DomainSuffixIgnored(o: Options, first: string, rest: string, parseNumber: NumberParser)
    requires o.serverId.None? && '.' !in first
    requires o.hostname == Some(first + "." + rest)
    ensures ResolveServerId(o, parseNumber) == ResolveServerId(o.(hostname := Some(first)), parseNumber)
  {
    Labels.FirstLabelOfPrefix(first, rest, '.');
    Labels.NoSeparatorIsWholeString(first, '.');
  }

  // ----- bandwidth burst -----

  /** `static_size as u32 * 2`: the cast keeps the low 32 bits, and the
      multiplication wraps modulo 2^32 as a release build does. */
  function ImplicitBurst(staticSize: nat): (r: U32)
    ensures staticSize * 2 < U32_LIMIT ==> r == staticSize * 2
    ensures r % 2 == 0
  {
    ((staticSize % U32_LIMIT) * 2) % U32_LIMIT
  }

  /** `http_bandwidth_burst.unwrap_or(static_size as u32 * 2)`. */
  function BandwidthBurst(o: Options, staticSize: nat): (r: U32)
    ensures o.httpBandwidthBurst.Some? ==> r == o.httpBandwidthBurst.value
    ensures o.httpBandwidthBurst.None? && staticSize * 2 < U32_LIMIT ==> r == staticSize * 2
  {
    o.httpBandwidthBurst.UnwrapOr(ImplicitBurst(staticSize))
  }

  /** Twice the static size is a default, not a floor: an explicit burst
      smaller than it is used as given. */
  lemma ExplicitBurstBelowStaticSizeKept(o: Options, staticSize: nat)
    requires o.httpBandwidthBurst.Some?
    requires o.httpBandwidthBurst.value < staticSize * 2
    ensures BandwidthBurst(o, staticSize) < staticSize * 2
  {
  }

  // ----- ports -----

  /** Whether the process may bind the standard ports. */
  predicate Privileged(p: Platform)
  {
    match p
    case Unix(isRoot) => isRoot
    case NonUnix => true
  }

  /** The (http, https) ports: each override replaces only its own port,
      and a missing one takes the standard port when privileged and the
      unprivileged alternative otherwise. */
  function HttpAndHttpsPorts(o: Options, p: Platform): (r: (U16, U16))
    ensures o.httpPort.Some? ==> r.0 == o.httpPort.value
    ensures o.httpsPort.Some? ==> r.1 == o.httpsPort.value
    ensures o.httpPort.None? ==> r.0 == (if Privileged(p) then 80 else 8080)
    ensures o.httpsPort.None? ==> r.1 == (if Privileged(p) then 443 else 8443)
  {
    var (httpDefault, httpsDefault) :=
      if Privileged(p) then (STANDARD_HTTP_PORT, STANDARD_HTTPS_PORT)
      else (UNPRIVILEGED_HTTP_PORT, UNPRIVILEGED_HTTPS_PORT);
    (o.httpPort.UnwrapOr(httpDefault), o.httpsPort.UnwrapOr(httpsDefault))
  }

  /** Overriding one port never moves the other: the http port does not
      depend on the https override and vice versa. */
  lemma PortOverridesIndependent(o: Options, p: Platform, http: Option<U16>, https: Option<U16>)
    ensures HttpAndHttpsPorts(o.(httpsPort := https), p).0 == HttpAndHttpsPorts(o, p).0
    ensures HttpAndHttpsPorts(o.(httpPort := http), p).1 == HttpAndHttpsPorts(o, p).1
  {
  }

  /** Without overrides the two ports are the standard pair exactly when the
      process is privileged, and off unix it always is. */
  lemma DefaultPortPairs(o: Options, p: Platform)
    requires o.httpPort.None? && o.httpsPort.None?
    ensures HttpAndHttpsPorts(o, p) == (80, 443) <==> Privileged(p)
    ensures !Privileged(p) <==> HttpAndHttpsPorts(o, p) == (8080, 8443)
    ensures HttpAndHttpsPorts(o, NonUnix) == (80, 443)
  {
  }
}
