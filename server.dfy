/** The configuration and probe logic of the starter's HTTP server: the listen
    address derived from HOSTNAME and PORT, the version derived from
    APP_VERSION, the URL a health probe requests, and the verdict a probe
    reaches once the request has been answered (or not). Environment values
    and the outcome of the HTTP exchange are parameters. */
module Server {
  import opened Strings

  /** Port used when PORT is empty. */
  const DefaultPort: string := "8000"
  /** Version reported when APP_VERSION is empty. */
  const DefaultVersion: string := "dev"
  /** Host put in front of a bare `:port` listen address when probing. */
  const Loopback: string := "127.0.0.1"
  const HttpScheme: string := "http://"
  const HttpsScheme: string := "https://"
  const HealthPath: string := "/health"
  /** `http.StatusOK` */
  const StatusOK: int := 200

  datatype Option<T> = None | Some(value: T)

  // ---------------------------------------------------------------------
  // Listen address
  // ---------------------------------------------------------------------

  /** The port the server listens on: PORT, or DefaultPort when it is empty. */
  function EffectivePort(port: string): (p: string)
    ensures p != []
    ensures port != [] ==> p == port
    ensures port == [] ==> p == DefaultPort
  {
    if port == [] then DefaultPort else port
  }

  /** `AddrFromEnv` with the values of HOSTNAME and PORT as parameters. The
      address is the host (possibly empty), a colon and the effective port;
      an empty host yields the bare `:port` form. */
  function AddrFromEnv(host: string, port: string): (addr: string)
    ensures host <= addr
    ensures addr[|host|..] == ":" + EffectivePort(port)
    ensures host == [] ==> addr == ":" + EffectivePort(port)
  {
    var p := EffectivePort(port);
    if host == [] then ":" + p else host + ":" + p
  }

  /** Splits a listen address into host and port at its last colon; None when
      the address has no colon. */
  function SplitListenAddr(addr: string): (hp: Option<(string, string)>)
    ensures hp.None? <==> ':' !in addr
    ensures hp.Some? ==> addr == hp.value.0 + ":" + hp.value.1 && ':' !in hp.value.1
  {
    var k := LastIndex(addr, ':');
    if k < 0 then None
    else
      assert addr == addr[..k] + ":" + addr[k + 1..];
      Some((addr[..k], addr[k + 1..]))
  }

  /** Taking the resolved address apart again gives back HOSTNAME and the
      effective port, whatever the host holds, provided the port itself has
      no colon. */
  lemma AddrSplitRoundTrip(host: string, port: string)
    requires ':' !in port
    ensures SplitListenAddr(AddrFromEnv(host, port)) == Some((host, EffectivePort(port)))
  {
    var p := EffectivePort(port);
    assert ':' !in p;
    assert AddrFromEnv(host, port) == host + [':'] + p;
    LastIndexAtSeparator(host, ':', p);
    assert (host + [':'] + p)[..|host|] == host;
    assert (host + [':'] + p)[|host| + 1..] == p;
  }

  // ---------------------------------------------------------------------
  // Version
  // ---------------------------------------------------------------------

  /** `VersionFromEnv` with the value of APP_VERSION as parameter. */
  function VersionFromEnv(raw: string): (v: string)
    ensures v != []
    ensures raw != [] ==> v == raw
    ensures raw == [] ==> v == DefaultVersion
  {
    if raw == [] then DefaultVersion else raw
  }

  /** The default is reported exactly when APP_VERSION is empty or is the
      default literal itself; resolving a resolved version changes nothing. */
  lemma VersionResolution(raw: string)
    ensures VersionFromEnv(raw) == DefaultVersion <==> raw == [] || raw == DefaultVersion
    ensures VersionFromEnv(VersionFromEnv(raw)) == VersionFromEnv(raw)
  {
  }

  // ---------------------------------------------------------------------
  // Probe target
  // ---------------------------------------------------------------------

  /** The target starts with one of the two schemes `Probe` accepts. */
  predicate HasScheme(s: string)
  {
    HttpScheme <= s || HttpsScheme <= s
  }

  /** A string that does not start with `h` carries no scheme. */
  lemma NoSchemeWithoutH(s: string)
    requires s == [] || s[0] != 'h'
    ensures !HasScheme(s)
  {
  }

  /** Step one of `Probe`: a bare `:port` address gets the loopback host. */
  function WithLoopback(addr: string): (t: string)
    ensures ":" <= addr ==> t == Loopback + addr
    ensures !(":" <= addr) ==> t == addr
  {
    if ":" <= addr then Loopback + addr else addr
  }

  /** Step two of `Probe`: `http://` is added unless a scheme is present. */
  function WithScheme(t: string): (u: string)
    ensures HasScheme(u)
    ensures HasScheme(t) ==> u == t
    ensures !HasScheme(t) ==> u == HttpScheme + t
  {
    if HasScheme(t) then t else HttpScheme + t
  }

  /** The address with loopback host and scheme added as `Probe` adds them:
      a bare `:port` address always ends up on `http://127.0.0.1`. */
  function Schemed(addr: string): (u: string)
    ensures HasScheme(u)
    ensures ":" <= addr ==> u == HttpScheme + Loopback + addr
    ensures !(":" <= addr) && HasScheme(addr) ==> u == addr
    ensures !(":" <= addr) && !HasScheme(addr) ==> u == HttpScheme + addr
  {
    assert ":" <= addr ==> !HasScheme(Loopback + addr) by {
      if ":" <= addr { NoSchemeWithoutH(Loopback + addr); }
    }
    WithScheme(WithLoopback(addr))
  }

  /** The URL `Probe` requests for a listen address: loopback and scheme
      added as needed, every trailing `/` removed, then `/health` appended.
      The result ends in `/health` and the character before it is never a
      slash. */
  function ProbeTarget(addr: string): (url: string)
    ensures |url| > |HealthPath|
    ensures url[|url| - |HealthPath|..] == HealthPath
    ensures url[|url| - |HealthPath| - 1] != '/'
  {
    var u := Schemed(addr);
    var base := TrimRight(u, "/");
    assert base != [] by {
      assert u[0] == 'h' by { assert HttpScheme <= u || HttpsScheme <= u; }
    }
    assert (base + HealthPath)[|base| - 1] == base[|base| - 1];
    base + HealthPath
  }

  /** ProbeTarget is the schemed address with its trailing slashes dropped,
      followed by `/health`: the part before `/health` is a prefix of the
      schemed address, only slashes were dropped, and it does not end in one. */
  lemma ProbeTargetShape(addr: string)
    ensures var url := ProbeTarget(addr);
            var base := url[..|url| - |HealthPath|];
            base <= Schemed(addr) && AllInFrom(Schemed(addr), |base|, "/")
            && base != [] && base[|base| - 1] != '/'
  {
    var url := ProbeTarget(addr);
    assert url[..|url| - |HealthPath|] == TrimRight(Schemed(addr), "/");
  }

  /** A bare `:port` address is probed on the loopback host over plain HTTP. */
  lemma ProbeTargetLoopback(addr: string)
    requires ":" <= addr
    ensures HttpScheme + Loopback + ":" <= ProbeTarget(addr)
  {
    var u := Schemed(addr);
    var p := HttpScheme + Loopback + ":";
    assert p <= u by { assert addr[..1] == ":"; }
    TrimRightKeepsPrefix(p, u, "/");
  }

  /** A scheme at the head of a string survives trimming and `/health` as
      long as something other than a slash follows it. */
  lemma SchemeSurvives(u: string, scheme: string)
    requires scheme == HttpScheme || scheme == HttpsScheme
    requires scheme <= u
    requires !AllInFrom(u, |scheme|, "/")
    ensures scheme <= TrimRight(u, "/") + HealthPath
  {
    var k :| |scheme| <= k < |u| && u[k] !in "/";
    TrimRightKeepsPrefix(u[..k + 1], u, "/");
    assert scheme <= u[..k + 1];
  }

  /** A schemed address followed by anything other than slashes keeps its own
      scheme. */
  lemma ProbeTargetKeepsScheme(addr: string, scheme: string)
    requires scheme == HttpScheme || scheme == HttpsScheme
    requires scheme <= addr
    requires !AllInFrom(addr, |scheme|, "/")
    ensures scheme <= ProbeTarget(addr)
  {
    assert addr[0] == scheme[0];
    assert Schemed(addr) == addr;
    SchemeSurvives(addr, scheme);
  }

  /** A listen address that names nothing after its scheme: it is made of
      slashes only (the empty address included), or it is a scheme followed
      only by slashes. */
  predicate Hostless(addr: string)
  {
    AllInFrom(addr, 0, "/")
    || (HttpScheme <= addr && AllInFrom(addr, |HttpScheme|, "/"))
    || (HttpsScheme <= addr && AllInFrom(addr, |HttpsScheme|, "/"))
  }

  /** A scheme followed only by slashes trims down to the scheme without its
      two slashes. */
  lemma TrimBareScheme(u: string, scheme: string)
    requires scheme == HttpScheme || scheme == HttpsScheme
    requires scheme <= u
    requires AllInFrom(u, |scheme|, "/")
    ensures TrimRight(u, "/") == scheme[..|scheme| - 2]
  {
    var cut := scheme[..|scheme| - 2];
    assert u[|scheme| - 2] == '/' && u[|scheme| - 1] == '/';
    assert cut[|cut| - 1] == ':';
    TrimRightUnique(u, "/", cut);
  }

  /** The schemed form of a hostless address is a scheme followed only by
      slashes. */
  lemma HostlessSchemed(addr: string) returns (scheme: string)
    requires Hostless(addr)
    ensures scheme == HttpScheme || scheme == HttpsScheme
    ensures scheme <= Schemed(addr) && AllInFrom(Schemed(addr), |scheme|, "/")
  {
    if HttpsScheme <= addr && AllInFrom(addr, |HttpsScheme|, "/") {
      assert addr[0] == 'h';
      scheme := HttpsScheme;
    } else if HttpScheme <= addr && AllInFrom(addr, |HttpScheme|, "/") {
      assert addr[0] == 'h';
      scheme := HttpScheme;
    } else {
      assert addr != [] ==> addr[0] == '/';
      NoSchemeWithoutH(addr);
      scheme := HttpScheme;
      assert Schemed(addr) == HttpScheme + addr;
    }
  }

  /** The probe URL of a hostless address has lost a slash of its scheme. */
  lemma ProbeTargetHostless(addr: string)
    requires Hostless(addr)
    ensures ProbeTarget(addr) == "http:/health" || ProbeTarget(addr) == "https:/health"
  {
    var scheme := HostlessSchemed(addr);
    TrimBareScheme(Schemed(addr), scheme);
    assert ProbeTarget(addr) == scheme[..|scheme| - 2] + HealthPath;
    HostlessUrls();
  }

  /** The two URLs a scheme without its slashes gives, spelled out. */
  lemma HostlessUrls()
    ensures HttpScheme[..|HttpScheme| - 2] + HealthPath == "http:/health"
    ensures HttpsScheme[..|HttpsScheme| - 2] + HealthPath == "https:/health"
  {
  }

  /** The probe URL starts with `http://` or `https://` exactly when the
      listen address is not hostless. */
  lemma ProbeTargetSchemeIff(addr: string)
    ensures HasScheme(ProbeTarget(addr)) <==> !Hostless(addr)
  {
    var url := ProbeTarget(addr);
    if Hostless(addr) {
      ProbeTargetHostless(addr);
      assert url[4] != HttpScheme[4] || url[6] != HttpScheme[6];
      assert url[4] != HttpsScheme[4] || url[7] != HttpsScheme[7];
    } else if ":" <= addr {
      ProbeTargetLoopback(addr);
      assert HttpScheme <= HttpScheme + Loopback + ":";
    } else if HttpScheme <= addr {
      ProbeTargetKeepsScheme(addr, HttpScheme);
    } else if HttpsScheme <= addr {
      ProbeTargetKeepsScheme(addr, HttpsScheme);
    } else {
      var u := Schemed(addr);
      assert u == HttpScheme + addr;
      var i :| 0 <= i < |addr| && addr[i] !in "/";
      assert u[|HttpScheme| + i] == addr[i];
      SchemeSurvives(u, HttpScheme);
    }
  }

  /** An address that already ends in something other than a slash is probed
      verbatim: loopback and scheme added as needed, then `/health`. */
  lemma ProbeTargetVerbatim(addr: string)
    requires addr != [] && addr[|addr| - 1] != '/'
    ensures ":" <= addr ==> ProbeTarget(addr) == HttpScheme + Loopback + addr + HealthPath
    ensures !(":" <= addr) && HasScheme(addr) ==> ProbeTarget(addr) == addr + HealthPath
    ensures !(":" <= addr) && !HasScheme(addr) ==> ProbeTarget(addr) == HttpScheme + addr + HealthPath
  {
    var u := Schemed(addr);
    assert u[|u| - 1] == addr[|addr| - 1];
    TrimRightNoTrailing(u, "/");
  }

  /** The probe of the server's own env-derived address when HOSTNAME is
      empty: plain HTTP on the loopback host at the effective port, less any
      trailing slashes the port carries. */
  lemma ProbeOwnAddress(port: string)
    ensures ProbeTarget(AddrFromEnv([], port))
            == HttpScheme + Loopback + ":" + TrimRight(EffectivePort(port), "/") + HealthPath
  {
    var p := EffectivePort(port);
    var addr := AddrFromEnv([], port);
    assert ":" <= addr;
    var head := HttpScheme + Loopback + ":";
    var u := Schemed(addr);
    assert u == head + p;
    var tp := TrimRight(p, "/");
    var base := head + tp;
    assert base <= u;
    assert forall i :: |base| <= i < |u| ==> u[i] == p[i - |head|];
    assert base[|base| - 1] != '/' by {
      if tp == [] { assert base[|base| - 1] == ':'; }
      else { assert base[|base| - 1] == tp[|tp| - 1]; }
    }
    TrimRightUnique(u, "/", base);
  }

  /** The server's own address is never hostless once its port holds a
      character other than a slash. */
  lemma OwnAddressNotHostless(host: string, port: string, i: nat)
    requires i < |EffectivePort(port)| && EffectivePort(port)[i] != '/'
    ensures !Hostless(AddrFromEnv(host, port))
  {
    var p := EffectivePort(port);
    var addr := AddrFromEnv(host, port);
    assert addr == host + ":" + p;
    assert addr[|host| + 1 + i] == p[i];
    assert addr[|host|] == ':';
  }

  // ---------------------------------------------------------------------
  // Probe verdict
  // ---------------------------------------------------------------------

  /** The two errors `Probe` returns: the sentinel ErrProbeFailed for an
      answer other than 200, and a wrapped failure of the request itself. */
  datatype ProbeError = ErrProbeFailed | RequestFailed(cause: string)

  /** `Probe`'s result: nil (Pass) or an error. */
  datatype Outcome = Pass | Fail(err: ProbeError)

  /** What the HTTP client reported for the probe request. */
  datatype Exchange = Response(status: int) | TransportError(cause: string)

  /** The status check once a response exists: success exactly on 200, and
      every other status gives the sentinel, never a wrapped error. */
  function Verdict(status: int): (o: Outcome)
    ensures o == Pass <==> status == StatusOK
    ensures o != Pass ==> o == Fail(ErrProbeFailed)
  {
    if status != StatusOK then Fail(ErrProbeFailed) else Pass
  }

  /** `Probe`'s result for a given outcome of the HTTP exchange. */
  function ProbeOutcome(ex: Exchange): (o: Outcome)
    ensures o == Pass <==> ex == Response(StatusOK)
    ensures o == Fail(ErrProbeFailed) <==> ex.Response? && ex.status != StatusOK
    ensures ex.TransportError? ==> o == Fail(RequestFailed(ex.cause))
  {
    match ex
    case TransportError(cause) => Fail(RequestFailed(cause))
    case Response(status) => Verdict(status)
  }

  // ---------------------------------------------------------------------
  // Examples from the repository's tests
  // ---------------------------------------------------------------------

  /** The listen addresses the repository's tests expect. */
  lemma AddrTestVectors()
    ensures AddrFromEnv("0.0.0.0", "9000") == "0.0.0.0:9000"
    ensures AddrFromEnv("", "9000") == ":9000"
    ensures AddrFromEnv("", "") == ":8000"
  {
  }

  /** The versions the repository's tests expect. */
  lemma VersionTestVectors()
    ensures VersionFromEnv("1.2.3") == "1.2.3"
    ensures VersionFromEnv("") == "dev"
  {
  }

  /** A bare port is probed on the loopback host. */
  lemma ProbeTargetBarePortVector()
    ensures ProbeTarget(":8000") == "http://127.0.0.1:8000/health"
  {
    assert ":" <= ":8000";
    ProbeTargetVerbatim(":8000");
    BarePortUrl();
  }

  /** The loopback URL for port 8000, spelled out. */
  lemma BarePortUrl()
    ensures HttpScheme + Loopback + ":8000" + HealthPath == "http://127.0.0.1:8000/health"
  {
  }

  /** The address the failing-probe test uses gets only a scheme. */
  lemma ProbeTargetHostPortVector()
    ensures ProbeTarget("127.0.0.1:0") == "http://127.0.0.1:0/health"
  {
    var a := "127.0.0.1:0";
    assert !(":" <= a) by { assert a[0] == '1'; }
    NoSchemeWithoutH(a);
    ProbeTargetVerbatim(a);
    assert ProbeTarget(a) == HttpScheme + a + HealthPath;
  }

  /** A schemed address keeps its scheme and loses its trailing slashes. */
  lemma ProbeTargetTrailingSlashVector()
    ensures ProbeTarget("https://example.com//") == "https://example.com/health"
  {
    var u := "https://example.com//";
    assert HttpsScheme <= u by { assert u[..|HttpsScheme|] == HttpsScheme; }
    assert !(":" <= u) by { assert u[0] == 'h'; }
    TrimRightUnique(u, "/", "https://example.com");
  }

  /** The empty address is probed at `http:/health`. */
  lemma EmptyAddrTarget()
    ensures ProbeTarget("") == "http:/health"
  {
    var u := Schemed("");
    assert u == HttpScheme;
    TrimBareScheme(u, HttpScheme);
    HostlessUrls();
  }

  /** A bare `http://` is probed at `http:/health`. */
  lemma BareHttpTarget()
    ensures ProbeTarget(HttpScheme) == "http:/health"
  {
    var u := Schemed(HttpScheme);
    assert u == HttpScheme by { assert !(":" <= HttpScheme) by { assert HttpScheme[0] == 'h'; } }
    TrimBareScheme(u, HttpScheme);
    HostlessUrls();
  }

  /** `https:///` is probed at `https:/health`. */
  lemma BareHttpsTarget()
    ensures ProbeTarget(HttpsScheme + "/") == "https:/health"
  {
    var a := HttpsScheme + "/";
    assert HttpsScheme <= a;
    assert !(":" <= a) by { assert a[0] == 'h'; }
    var u := Schemed(a);
    assert u == a;
    assert a[|HttpsScheme|] == '/';
    TrimBareScheme(u, HttpsScheme);
    HostlessUrls();
  }

  /** Hostless addresses lose a slash of their scheme: the empty address and
      a bare `http://` are both probed at `http:/health`, and `https:///` at
      `https:/health`. */
  lemma HostlessTargets()
    ensures ProbeTarget("") == "http:/health"
    ensures ProbeTarget(HttpScheme) == "http:/health"
    ensures ProbeTarget(HttpsScheme + "/") == "https:/health"
  {
    EmptyAddrTarget();
    BareHttpTarget();
    BareHttpsTarget();
  }
}
