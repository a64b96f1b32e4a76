/**
  The load balancer objects of haproxy.py: a `Haproxy` renders the domain
  table into a configuration text, keeps the text it last pushed in a local
  file, and pushes a new text (and reloads) only when the text changes.
  `MainHaproxy` uploads over HTTP instead and needs no reload.
 */
module Haproxy {
  import opened Values
  import opened Dicts
  import opened Strings
  import opened Matcher
  import opened HaproxyConfig

  /** Lines 32-33 of haproxy.py. */
  const DefaultMaxConnectionsGlobal := 256
  const DefaultMaxConnectionsService := 32

  /** `Haproxy` pushes over SSH and reloads; `MainHaproxy` uploads over HTTP. */
  datatype Kind = Direct | Main

  /**
    What the outside world answers while a text is pushed: whether the file
    reached the load balancer (the SFTP copy, or the HTTP request), the exit
    code and error output of `sudo cp`, the HTTP status of `upload_config`,
    and the exit code and error output of `sudo service haproxy reload`.
   */
  datatype Outcome = Outcome(
    transferred: bool,
    copyCode: int,
    copyError: string,
    status: int,
    reloadCode: int,
    reloadError: string)

  /** Lines 168-172 (`Haproxy.put_config`) and 226-228 (`MainHaproxy.put_config`) of haproxy.py. */
  predicate PutSucceeds(kind: Kind, o: Outcome)
  {
    o.transferred && (if kind == Direct then o.copyCode == 0 else o.status == 200)
  }

  /** Lines 174-178 of haproxy.py; `MainHaproxy.restart` (lines 209-210) does nothing. */
  predicate RestartSucceeds(kind: Kind, o: Outcome)
  {
    kind == Main || o.reloadCode == 0
  }

  predicate PushSucceeds(kind: Kind, o: Outcome)
  {
    PutSucceeds(kind, o) && RestartSucceeds(kind, o)
  }

  /** Lines 97-101 of haproxy.py: the cached text, `''` when there is no file. */
  function CurrentConfig(file: Option<string>): string
  {
    if file.None? then "" else file.value
  }

  /** The local file after `update` has rendered `config` (lines 186-195 of haproxy.py). */
  function NextFile(file: Option<string>, config: string, kind: Kind, o: Outcome): Option<string>
  {
    if CurrentConfig(file) == config then file
    else if PushSucceeds(kind, o) then Some(config)
    else None
  }

  /**
    The cache settles on a rendered text exactly when it already held it or
    the push succeeded: a failed push leaves no cache, and since a rendered
    text is never empty, the next `update` pushes again.
   */
  lemma UpdateSettles(settings: Settings, table: DomainTable, isIp: string -> bool, file: Option<string>, kind: Kind, o: Outcome)
    requires WellFormed(settings.templates)
    ensures var config := ConfigText(settings, table, isIp);
      CurrentConfig(NextFile(file, config, kind, o)) == config <==> CurrentConfig(file) == config || PushSucceeds(kind, o)
  {
    ConfigTextFrame(settings, table, isIp);
  }

  /**
    The cache never claims a text the load balancer does not run: if the
    file names the running text before `update`, it does after, whatever the
    load balancer is left running when a push fails.
   */
  lemma UpdateKeepsCacheTrue(file: Option<string>, running: string, config: string, kind: Kind, o: Outcome, afterFailure: string)
    requires file.Some? ==> running == file.value
    ensures var next := NextFile(file, config, kind, o);
      var nowRunning := if CurrentConfig(file) == config then running
        else if PushSucceeds(kind, o) then config
        else afterFailure;
      next.Some? ==> nowRunning == next.value
  {
  }

  /** Python truthiness of a JSON value. */
  predicate JsonTruthy(v: JsonValue)
  {
    match v
    case JNull => false
    case JBool(b) => b
    case JInt(i) => i != 0
    case JString(s) => s != ""
  }

  /** A `stats_config` dict; a missing key is `JNull` or `None`. `None` or `{}` as a whole is `StatsConfig(JNull, None, None)`. */
  datatype StatsConfig = StatsConfig(enabled: JsonValue, user: Option<string>, password: Option<string>)

  /** The three statistics attributes of a `Haproxy`. */
  datatype StatsState = StatsState(enabled: JsonValue, user: string, password: string)

  /** Lines 197-201 of haproxy.py: each attribute takes the configured value only when that value is truthy. */
  function ConfiguredStats(state: StatsState, config: StatsConfig): (r: StatsState)
    ensures JsonTruthy(config.enabled) ==> r.enabled == config.enabled
    ensures !JsonTruthy(config.enabled) ==> r.enabled == state.enabled
    ensures r.user == (if Truthy(config.user) then config.user.value else state.user)
    ensures r.password == (if Truthy(config.password) then config.password.value else state.password)
    ensures JsonTruthy(state.enabled) ==> JsonTruthy(r.enabled)
  {
    StatsState(
      if JsonTruthy(config.enabled) then config.enabled else state.enabled,
      if Truthy(config.user) then config.user.value else state.user,
      if Truthy(config.password) then config.password.value else state.password)
  }

  /** The attributes after `configure_stats` has been called with each config in turn. */
  function ConfiguredStatsAll(state: StatsState, configs: seq<StatsConfig>): StatsState
    decreases |configs|
  {
    if configs == [] then state
    else ConfiguredStats(ConfiguredStatsAll(state, configs[..|configs| - 1]), configs[|configs| - 1])
  }

  /** Once statistics are enabled, no sequence of `configure_stats` calls disables them. */
  lemma {:induction false} StatsStayEnabled(state: StatsState, configs: seq<StatsConfig>)
    requires JsonTruthy(state.enabled)
    ensures JsonTruthy(ConfiguredStatsAll(state, configs).enabled)
    decreases |configs|
  {
    if configs != [] {
      StatsStayEnabled(state, configs[..|configs| - 1]);
    }
  }

  /** A `haproxy_parameters` dict; a missing key is `None`. */
  datatype HaproxyParameters = HaproxyParameters(maxConnectionsGlobal: Option<int>, maxConnectionsService: Option<int>)

  /**
    Lines 230-233 of haproxy.py: the two limits, each read from its key or
    reset to its default when the key is missing, whatever it was before.
   */
  function OverriddenLimits(parameters: HaproxyParameters): (r: (int, int))
    ensures parameters.maxConnectionsGlobal.Some? ==> r.0 == parameters.maxConnectionsGlobal.value
    ensures parameters.maxConnectionsGlobal.None? ==> r.0 == DefaultMaxConnectionsGlobal
    ensures parameters.maxConnectionsService.Some? ==> r.1 == parameters.maxConnectionsService.value
    ensures parameters.maxConnectionsService.None? ==> r.1 == DefaultMaxConnectionsService
  {
    (if parameters.maxConnectionsGlobal.Some? then parameters.maxConnectionsGlobal.value else DefaultMaxConnectionsGlobal,
     if parameters.maxConnectionsService.Some? then parameters.maxConnectionsService.value else DefaultMaxConnectionsService)
  }

  // ---------------------------------------------------------------------------
  // Rendering, line by line

  lemma LinesTextTwo(a: FrontendLine, b: FrontendLine)
    ensures LinesText([a, b]) == LineText(a) + LineText(b)
  {
    assert [a, b][..1] == [a];
    assert [a][..0] == [];
    assert LinesText([a]) == "" + LineText(a) == LineText(a);
  }

  lemma LinesTextSnoc(lines: seq<FrontendLine>, line: FrontendLine)
    ensures LinesText(lines + [line]) == LinesText(lines) + LineText(line)
  {
    assert (lines + [line])[..|lines|] == lines;
  }

  lemma LinesTextFive(a: FrontendLine, b: FrontendLine, c: FrontendLine, d: FrontendLine, e: FrontendLine)
    ensures LinesText([a, b, c, d, e]) == LineText(a) + LineText(b) + LineText(c) + LineText(d) + LineText(e)
  {
    LinesTextTwo(a, b);
    LinesTextSnoc([a, b], c);
    assert [a, b] + [c] == [a, b, c];
    LinesTextSnoc([a, b, c], d);
    assert [a, b, c] + [d] == [a, b, c, d];
    LinesTextSnoc([a, b, c, d], e);
    assert [a, b, c, d] + [e] == [a, b, c, d, e];
  }

  /** Lines 126-136 of haproxy.py: the frontend lines of the domain at position `i`. */
  method FrontendLines(i: nat, domain: string) returns (lines: string)
    ensures lines == LinesText(FrontendFor(i, domain)) + "\n"
  {
    var (host, path) := SplitUrl(domain);
    var cleanedHost := CleanString(host);
    var hostLine := Acl(HostAcl(i), HostTest(host));
    lines := LineText(hostLine);
    if path != "" {
      var prefixLine := Acl(PathAcl(i), PrefixTest(path));
      var prefixUse := UseBackend(BackendName(i, "", cleanedHost), HostAcl(i), Some(PathAcl(i)));
      var exactLine := Acl(ExactPathAcl(i), ExactTest(path));
      var exactUse := UseBackend(BackendName(i, "a", cleanedHost), HostAcl(i), Some(ExactPathAcl(i)));
      lines := lines + LineText(prefixLine);
      lines := lines + LineText(prefixUse);
      lines := lines + LineText(exactLine);
      lines := lines + LineText(exactUse);
      assert FrontendFor(i, domain) == [hostLine, prefixLine, prefixUse, exactLine, exactUse];
      LinesTextFive(hostLine, prefixLine, prefixUse, exactLine, exactUse);
    } else {
      var use := UseBackend(BackendName(i, "", cleanedHost), HostAcl(i), None);
      lines := lines + LineText(use);
      assert FrontendFor(i, domain) == [hostLine, use];
      LinesTextTwo(hostLine, use);
    }
    lines := lines + "\n";
  }

  lemma ServersSnoc(pairs: seq<(string, string)>, isIp: string -> bool, withHost: bool, k: nat, maxConnService: int)
    requires k < |pairs|
    ensures ServersText(Servers(pairs[..k + 1], isIp, withHost), maxConnService) ==
      ServersText(Servers(pairs[..k], isIp, withHost), maxConnService)
        + ServerText(Server(pairs[k].0, pairs[k].1, withHost && !isIp(HostOf(pairs[k].1))), maxConnService)
  {
    var s := Servers(pairs[..k + 1], isIp, withHost);
    assert s[..k] == Servers(pairs[..k], isIp, withHost);
  }

  /**
    Lines 145-149 (with `withHost`) and 155-156 (without) of haproxy.py: one
    `server` line per sorted pair and, with `withHost`, a `set-header Host`
    line after each server whose host is not an IP address.
   */
  method ServerLines(pairs: seq<(string, string)>, isIp: string -> bool, withHost: bool, maxConnService: int)
    returns (text: string)
    ensures text == ServersText(Servers(pairs, isIp, withHost), maxConnService)
  {
    text := "";
    var k := 0;
    while k < |pairs|
      invariant 0 <= k <= |pairs|
      invariant text == ServersText(Servers(pairs[..k], isIp, withHost), maxConnService)
    {
      var (containerId, address) := pairs[k];
      ServersSnoc(pairs, isIp, withHost, k, maxConnService);
      var serverLine := ServerLine(containerId, address, maxConnService);
      var hostname := HostOf(address);
      var hostLine := if withHost && !isIp(hostname) then HostLine(address) else "";
      text := text + (serverLine + hostLine);
      k := k + 1;
    }
    assert pairs[..k] == pairs;
  }

  lemma BackendsTextOne(a: Backend, maxConnService: int)
    ensures BackendsText([a], maxConnService) == BackendText(a, maxConnService)
  {
    assert [a][..0] == [];
  }

  lemma BackendsTextTwo(a: Backend, b: Backend, maxConnService: int)
    ensures BackendsText([a, b], maxConnService) == BackendText(a, maxConnService) + BackendText(b, maxConnService)
  {
    assert [a, b][..1] == [a];
    BackendsTextOne(a, maxConnService);
  }

  /**
    One backend section: its head, the `reqirep` line when there is a
    rewrite, a server line for every pair and an empty line.
   */
  method BackendSectionLines(name: string, rewrite: Option<string>, pairs: seq<(string, string)>, isIp: string -> bool,
                             withHost: bool, maxConnService: int) returns (text: string)
    ensures text == BackendText(Backend(name, rewrite, Servers(pairs, isIp, withHost)), maxConnService)
  {
    text := BackendHead(name);
    if rewrite.Some? {
      text := text + RewriteLine(rewrite.value);
    } else {
      assert text + "" == text;
    }
    var servers := ServerLines(pairs, isIp, withHost, maxConnService);
    text := text + servers + "\n";
  }

  /** Lines 140-157 of haproxy.py: the backend sections of the domain at position `i`. */
  method BackendLines(i: nat, domain: string, addresses: Addresses, isIp: string -> bool, maxConnService: int)
    returns (lines: string)
    ensures lines == BackendsText(BackendsFor(i, domain, addresses, isIp), maxConnService)
  {
    var (host, path) := SplitUrl(domain);
    var cleanedHost := CleanString(host);
    var pairs := SortByKey(Items(addresses));
    var rewrite := if path == "" then None else Some(PrefixRewrite(path));
    lines := BackendSectionLines(BackendName(i, "", cleanedHost), rewrite, pairs, isIp, true, maxConnService);
    ghost var main := Backend(BackendName(i, "", cleanedHost), rewrite, Servers(pairs, isIp, true));
    if path != "" {
      var second := BackendSectionLines(BackendName(i, "a", cleanedHost), Some(ExactRewrite(path)), pairs, isIp, false,
        maxConnService);
      lines := lines + second;
      ghost var exactBackend := Backend(BackendName(i, "a", cleanedHost), Some(ExactRewrite(path)), Servers(pairs, isIp, false));
      assert BackendsFor(i, domain, addresses, isIp) == [main, exactBackend];
      BackendsTextTwo(main, exactBackend, maxConnService);
    } else {
      assert BackendsFor(i, domain, addresses, isIp) == [main];
      BackendsTextOne(main, maxConnService);
    }
  }

  lemma FrontendsStep(domains: seq<(string, DomainMapping)>, isIp: string -> bool, n: nat)
    requires n < |domains|
    ensures var routes := Routes(domains, isIp);
      FrontendsText(routes[..n + 1]) == FrontendsText(routes[..n]) + (LinesText(FrontendFor(n, domains[n].0)) + "\n")
  {
    var routes := Routes(domains, isIp);
    assert routes[..n + 1][..n] == routes[..n];
    assert routes[n].frontend == FrontendFor(n, domains[n].0);
  }

  lemma BackendsStep(domains: seq<(string, DomainMapping)>, isIp: string -> bool, n: nat, maxConnService: int)
    requires n < |domains|
    ensures var routes := Routes(domains, isIp);
      RoutesBackendsText(routes[..n + 1], maxConnService) ==
        RoutesBackendsText(routes[..n], maxConnService) + BackendsText(BackendsFor(n, domains[n].0, domains[n].1.addresses, isIp), maxConnService)
  {
    var routes := Routes(domains, isIp);
    assert routes[..n + 1][..n] == routes[..n];
    assert routes[n].backends == BackendsFor(n, domains[n].0, domains[n].1.addresses, isIp);
  }

  /** Lines 125-136 of haproxy.py: the frontend lines of every domain, in order. */
  method FrontendSection(domains: seq<(string, DomainMapping)>, isIp: string -> bool) returns (text: string)
    ensures text == FrontendsText(Routes(domains, isIp))
  {
    ghost var routes := Routes(domains, isIp);
    text := "";
    var i := 0;
    while i < |domains|
      invariant 0 <= i <= |domains|
      invariant text == FrontendsText(routes[..i])
    {
      var lines := FrontendLines(i, domains[i].0);
      FrontendsStep(domains, isIp, i);
      text := text + lines;
      i := i + 1;
    }
    assert routes[..i] == routes;
  }

  /** Lines 137-158 of haproxy.py: the backend sections of every domain, in order. */
  method BackendSection(domains: seq<(string, DomainMapping)>, isIp: string -> bool, maxConnService: int) returns (text: string)
    ensures text == RoutesBackendsText(Routes(domains, isIp), maxConnService)
  {
    ghost var routes := Routes(domains, isIp);
    text := "";
    var i := 0;
    while i < |domains|
      invariant 0 <= i <= |domains|
      invariant text == RoutesBackendsText(routes[..i], maxConnService)
    {
      var lines := BackendLines(i, domains[i].0, domains[i].1.addresses, isIp, maxConnService);
      BackendsStep(domains, isIp, i, maxConnService);
      text := text + lines;
      i := i + 1;
    }
    assert routes[..i] == routes;
  }

  // ---------------------------------------------------------------------------
  // The load balancer object

  class Haproxy {
    const kind: Kind
    /** `CONFIG_HEADER`, `STATS_SECTION` and `DEFAULT_BACKEND_SECTION`. */
    const templates: Templates
    const listenPort: int
    var maxConnGlobal: int
    var maxConnService: int
    var statsEnabled: JsonValue
    var statsUser: string
    var statsPassword: string
    /** The text in the file at `config_path`; `None` when there is no file. */
    var file: Option<string>

    predicate Valid()
    {
      WellFormed(templates)
    }

    /** What the generator reads from the object. */
    function CurrentSettings(): Settings
      reads this`maxConnGlobal, this`maxConnService, this`statsEnabled, this`statsUser, this`statsPassword
    {
      Settings(templates, listenPort, maxConnGlobal, maxConnService,
        if JsonTruthy(statsEnabled) then Some((statsUser, statsPassword)) else None)
    }

    /**
      Lines 32-33, 88-95 and 205-207 of haproxy.py: the class defaults, port
      80, and whatever file a previous run left at `config_path`.
     */
    constructor (kind: Kind, file: Option<string>)
      ensures Valid()
      ensures this.kind == kind && this.file == file && templates == StandardTemplates && listenPort == 80
      ensures maxConnGlobal == DefaultMaxConnectionsGlobal && maxConnService == DefaultMaxConnectionsService
      ensures statsEnabled == JBool(false) && statsUser == "root" && statsPassword == "armada"
    {
      this.kind := kind;
      templates := StandardTemplates;
      listenPort := 80;
      maxConnGlobal := DefaultMaxConnectionsGlobal;
      maxConnService := DefaultMaxConnectionsService;
      statsEnabled := JBool(false);
      statsUser := "root";
      statsPassword := "armada";
      this.file := file;
      StandardTemplatesWellFormed();
    }

    /** The file is what `update` leaves after starting from `before` with the table and the push outcome. */
    predicate UpdatedFrom(before: Option<string>, table: DomainTable, isIp: string -> bool, o: Outcome)
      reads this
    {
      Valid() && file == NextFile(before, ConfigText(CurrentSettings(), table, isIp), kind, o)
    }

    /** Lines 97-101 of haproxy.py. */
    method GetCurrentConfig() returns (config: string)
      ensures file.None? ==> config == ""
      ensures file.Some? ==> config == file.value
    {
      if file.None? {
        return "";
      }
      return file.value;
    }

    /**
      Lines 108-161 of haproxy.py, with each domain's backends reading the
      domain's `addresses`: the header, each domain's frontend lines longest
      domain first, each domain's backends, and the default backend.
     */
    method GenerateConfig(table: DomainTable, isIp: string -> bool) returns (config: string)
      requires Valid()
      ensures config == ConfigText(CurrentSettings(), table, isIp)
    {
      var statsSection := if JsonTruthy(statsEnabled) then Format(templates.stats, StatsFields(statsUser, statsPassword)) else "";
      config := Format(templates.header, HeaderFields(listenPort, maxConnGlobal, statsSection));
      var domains := Domains(table);
      var frontends := FrontendSection(domains, isIp);
      config := config + frontends;
      var maxConnectionsService := maxConnService;
      var backends := BackendSection(domains, isIp, maxConnectionsService);
      config := config + backends;
      config := config + Format(templates.defaultBackend, DefaultBackendFields(maxConnectionsService));
    }

    /**
      Lines 163-172 and 221-228 of haproxy.py: the text is written to the
      local file first, then sent; the push fails on a failed transfer, on a
      failed `cp`, or on an HTTP status other than 200.
     */
    method PutConfig(config: string, o: Outcome) returns (r: Result<(), string>)
      modifies this`file
      ensures file == Some(config)
      ensures r.Ok? <==> PutSucceeds(kind, o)
    {
      file := Some(config);
      if !o.transferred {
        return Err("transfer error");
      }
      if kind == Direct {
        if o.copyCode != 0 {
          return Err("put_config error: " + o.copyError);
        }
      } else {
        if o.status != 200 {
          return Err("upload_config http code: " + IntToString(o.status));
        }
      }
      return Ok(());
    }

    /** Lines 174-178 and 209-210 of haproxy.py. */
    method Restart(o: Outcome) returns (r: Result<(), string>)
      ensures r.Ok? <==> RestartSucceeds(kind, o)
    {
      if kind == Main {
        return Ok(());
      }
      if o.reloadCode != 0 {
        return Err("restart error: " + o.reloadError);
      }
      return Ok(());
    }

    /** Lines 180-184 of haproxy.py. */
    method ClearCurrentConfig()
      modifies this`file
      ensures file == None
    {
      file := None;
    }

    /**
      Lines 186-195 of haproxy.py: the text is pushed only when it differs
      from the cached one; any failure removes the cache, and no failure
      escapes.
     */
    method Update(table: DomainTable, isIp: string -> bool, o: Outcome)
      requires Valid()
      modifies this`file
      ensures file == NextFile(old(file), ConfigText(CurrentSettings(), table, isIp), kind, o)
      ensures UpdatedFrom(old(file), table, isIp, o)
    {
      var oldConfig := GetCurrentConfig();
      var newConfig := GenerateConfig(table, isIp);
      if oldConfig != newConfig {
        var put := PutConfig(newConfig, o);
        if put.Ok? {
          var restart := Restart(o);
          if restart.Err? {
            ClearCurrentConfig();
          }
        } else {
          ClearCurrentConfig();
        }
      }
    }

    /** Lines 197-201 of haproxy.py. */
    method ConfigureStats(config: StatsConfig)
      modifies this`statsEnabled, this`statsUser, this`statsPassword
      ensures StatsState(statsEnabled, statsUser, statsPassword)
        == ConfiguredStats(old(StatsState(statsEnabled, statsUser, statsPassword)), config)
    {
      if JsonTruthy(config.enabled) {
        statsEnabled := config.enabled;
      }
      if Truthy(config.user) {
        statsUser := config.user.value;
      }
      if Truthy(config.password) {
        statsPassword := config.password.value;
      }
    }

    /** Lines 230-233 of haproxy.py; only `MainHaproxy` has this method. */
    method OverrideHaproxyParameters(parameters: HaproxyParameters)
      requires kind == Main
      modifies this`maxConnGlobal, this`maxConnService
      ensures (maxConnGlobal, maxConnService) == OverriddenLimits(parameters)
    {
      maxConnGlobal := if parameters.maxConnectionsGlobal.Some? then parameters.maxConnectionsGlobal.value else DefaultMaxConnectionsGlobal;
      maxConnService := if parameters.maxConnectionsService.Some? then parameters.maxConnectionsService.value else DefaultMaxConnectionsService;
    }
  }
}
