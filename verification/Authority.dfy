/** Which target a request names, and whether its module may probe it. */
module Authority {
  import opened Common
  import opened Addresses
  import opened HostPort
  import Config
  import Normalize
  import Targets
  import opened Urls

  datatype Endpoint = Endpoint(target: string, host: string, port: int)

  /** The endpoint a target stands for; None is any of the errors that answer 400. */
  function EnsurePort(parseHost: HostParser, target: string, defaultPort: int): Option<Endpoint> {
    var u := Urls.Parse(parseHost, target);
    if u.None? then None
    else
      var url := u.value;
      if url.hasUser || url.path != "" || url.rawQuery != "" || url.fragment != "" || url.opaquePart != "" then None
      else
        var host := Normalize.Hostname(url.host.hostname);
        if host == "" then None
        else
          var port := if url.host.port == "" then Some(defaultPort) else Atoi(url.host.port);
          if port.None? then None
          else Some(Endpoint(JoinHostPort(host, Itoa(port.value)), host, port.value))
  }

  /** The text is a host, and a readable port if it has one at all, with nothing around them. */
  predicate IsHostPort(parseHost: HostParser, s: string) {
    && Bare(s) && !HasControl(s)
    && parseHost(s).Some?
    && parseHost(s).value.hostname !in {"", "."}
    && (parseHost(s).value.port == "" || Atoi(parseHost(s).value.port).Some?)
  }

  /** A target is accepted exactly if it is a host with an optional port, up to a "?" and a "#" at its end. */
  lemma AcceptedByText(parseHost: HostParser, target: string, defaultPort: int)
    ensures var bare := BarePart(target);
            && (EnsurePort(parseHost, target, defaultPort).Some? <==> IsHostPort(parseHost, bare))
            && (EnsurePort(parseHost, target, defaultPort).Some? ==>
                  var (e, h) := (EnsurePort(parseHost, target, defaultPort).value, parseHost(bare).value);
                  && e.host == Normalize.Hostname(h.hostname)
                  && Some(e.port) == if h.port == "" then Some(defaultPort) else Atoi(h.port))
  {
    PlainByText(parseHost, target);
    var u := Urls.Parse(parseHost, target);
    if u.Some? && Plain(u.value) {
      Normalize.EmptyHostname(u.value.host.hostname);
    }
  }

  /**
   * The comment on the check says that it rejects any structure that parsing would silently
   * drop. An accepted target has none, and is a host with an optional port as it stands,
   * exactly if it does not end in "?" or "#": an empty query or fragment is dropped. What
   * is dropped does not matter to the endpoint.
   */
  lemma NothingIsDropped(parseHost: HostParser, target: string, defaultPort: int)
    requires EnsurePort(parseHost, target, defaultPort).Some?
    ensures IsHostPort(parseHost, target) <==> !HasSuffix(target, "?") && !HasSuffix(target, "#")
    ensures EnsurePort(parseHost, BarePart(target), defaultPort) == EnsurePort(parseHost, target, defaultPort)
  {
    AcceptedByText(parseHost, target, defaultPort);
    BarePartIsBare(target);
    AcceptedByText(parseHost, BarePart(target), defaultPort);
    TargetIsJoined(parseHost, target, defaultPort);
    TargetIsJoined(parseHost, BarePart(target), defaultPort);
  }

  /** "h?" is accepted, for the host "h", and is not a host itself. */
  lemma EmptyQueryIsDropped(parseHost: HostParser) returns (target: string)
    requires parseHost("h") == Some(HostPart("h", ""))
    ensures target == "h?"
    ensures EnsurePort(parseHost, target, 22).Some? && !IsHostPort(parseHost, target)
  {
    target := "h?";
    assert BarePart(target) == "h";
    AcceptedByText(parseHost, target, 22);
    assert target[1] in target;
  }

  lemma TargetIsJoined(parseHost: HostParser, target: string, defaultPort: int)
    requires EnsurePort(parseHost, target, defaultPort).Some?
    ensures var e := EnsurePort(parseHost, target, defaultPort).value;
            e.target == JoinHostPort(e.host, Itoa(e.port))
  {
  }

  /** Whether dialling the target takes a lookup. */
  predicate IsHostname(parse: AddrParser, target: string) {
    var split := SplitHostPort(target);
    parse(if split.Some? then split.value.host else target).None?
  }

  lemma NormalizedBrackets(h: string)
    ensures BracketFree(Normalize.Hostname(h)) <==> BracketFree(h)
  {
    Normalize.NormalizedHas(h, '[');
    Normalize.NormalizedHas(h, ']');
  }

  /**
   * What is dialled is what was checked: splitting the joined target gives back the host
   * shown to the matchers and the port looked up among the allowed ones, for IPv6 literals
   * and zones too, exactly when the name has no brackets of its own.
   */
  lemma DialledIsChecked(lib: Config.Library, target: string, defaultPort: int)
    requires MIN_INT <= defaultPort <= MAX_INT
    requires EnsurePort(lib.parseHost, target, defaultPort).Some?
    ensures IsHostPort(lib.parseHost, BarePart(target))
    ensures var e := EnsurePort(lib.parseHost, target, defaultPort).value;
            var plain := BracketFree(lib.parseHost(BarePart(target)).value.hostname);
            && Atoi(Itoa(e.port)) == Some(e.port)
            && (SplitHostPort(e.target) == Some(HostPort(e.host, Itoa(e.port))) <==> plain)
            && (plain ==> (IsHostname(lib.parse, e.target) <==> lib.parse(e.host).None?))
  {
    var e := EnsurePort(lib.parseHost, target, defaultPort).value;
    AcceptedByText(lib.parseHost, target, defaultPort);
    TargetIsJoined(lib.parseHost, target, defaultPort);
    AtoiOfItoa(e.port);
    PortIsPlain(e.port);
    SplitJoined(e.host, Itoa(e.port));
    NormalizedBrackets(lib.parseHost(BarePart(target)).value.hostname);
  }

  // ---- The checks before a probe ----

  datatype Query = Query(moduleName: string, target: string)

  /** The counter's labels. */
  datatype Label = Label(moduleName: string, code: int)

  const MODULE_UNRESOLVED := ""

  datatype Decision =
    | Reject(why: Label)
    | Admit(name: string, mod: Config.Module, endpoint: Endpoint)

  function ModuleName(q: Query): string {
    if q.moduleName == "" then Config.DEFAULT_MODULE_NAME else q.moduleName
  }

  function Decide(lib: Config.Library, modules: Config.Modules, q: Query): Decision {
    var name := ModuleName(q);
    if name !in modules then Reject(Label(MODULE_UNRESOLVED, 400))
    else if q.target == "" then Reject(Label(name, 400))
    else
      var e := EnsurePort(lib.parseHost, q.target, modules[name].targetPort);
      if e.None? then Reject(Label(name, 400))
      else if e.value.port !in modules[name].allowedPorts then Reject(Label(name, 403))
      else if !Targets.Allowed(lib.parse, e.value.host, modules[name].allowedTargets) then Reject(Label(name, 403))
      else Admit(name, modules[name], e.value)
  }

  lemma AdmitMeans(lib: Config.Library, modules: Config.Modules, q: Query)
    requires Decide(lib, modules, q).Admit?
    ensures var d := Decide(lib, modules, q);
            && d.name == ModuleName(q) && d.name in modules && d.mod == modules[d.name]
            && EnsurePort(lib.parseHost, q.target, d.mod.targetPort) == Some(d.endpoint)
            && d.endpoint.port in d.mod.allowedPorts
            && Targets.Allowed(lib.parse, d.endpoint.host, d.mod.allowedTargets)
  {
  }

  /** The module that a request is for: the one it names, or "default". */
  predicate IsFor(q: Query, name: string) {
    if q.moduleName == "" then name == "default" else name == q.moduleName
  }

  /**
   * A request that names a module is decided by that module alone, and goes by its name; a
   * name that there is no module of is refused; and no name is the name "default".
   */
  lemma ModuleIsTheOneNamed(lib: Config.Library, modules: Config.Modules, q: Query)
    ensures q.moduleName != "" && q.moduleName in modules ==>
              && Decide(lib, modules, q) == Decide(lib, map[q.moduleName := modules[q.moduleName]], q)
              && match Decide(lib, modules, q)
                 case Reject(why) => why.moduleName == q.moduleName
                 case Admit(name, mod, _) => name == q.moduleName && mod == modules[q.moduleName]
    ensures q.moduleName != "" && q.moduleName !in modules ==> Decide(lib, modules, q) == Reject(Label("", 400))
    ensures Decide(lib, modules, Query("", q.target)) == Decide(lib, modules, Query("default", q.target))
  {
    if q.moduleName in modules {
      assert map[q.moduleName := modules[q.moduleName]][q.moduleName] == modules[q.moduleName];
    }
  }

  /** Dialling `target` with `options` is what the one module `name` of `modules`, asked by its name, admits `q` for. */
  ghost predicate ByItsModule(lib: Config.Library, modules: Config.Modules, q: Query, name: string,
                              target: string, options: Config.Options)
  {
    && name in modules
    && options == modules[name].options
    && var d := Decide(lib, map[name := modules[name]], Query(name, q.target));
       d.Admit? && d.endpoint.target == target
  }

  lemma AdmittedByItsModule(lib: Config.Library, modules: Config.Modules, q: Query, name: string)
    requires IsFor(q, name) && Decide(lib, modules, q).Admit?
    ensures var d := Decide(lib, modules, q);
            ByItsModule(lib, modules, q, name, d.endpoint.target, d.mod.options)
  {
    ModuleIsTheOneNamed(lib, modules, Query(name, q.target));
  }

  // ---- The same, by the configuration on disk ----

  /** `host` and `port` are what the configuration on disk allows the module `name`. */
  ghost predicate Permitted(lib: Config.Library, disk: Config.Disk, flag: bool, name: string, host: string, port: int)
    requires Config.HasModule(disk, name)
  {
    var top := disk.config.value;
    var own := Config.Written(disk, name);
    && port in Config.EffectivePorts(disk, name)
    && 1 <= port <= 65535
    && (|| (flag && own.allowedTargets == [] && top.allowedTargets == [])
        || exists p :: p in (if own.allowedTargets != [] then own.allowedTargets else top.allowedTargets)
                       && Targets.Denotes(lib.parse, p, host))
  }

  /** What a loaded module's matchers and ports allow is what the files permit. */
  lemma AllowedIsPermitted(lib: Config.Library, disk: Config.Disk, flag: bool, name: string, host: string, port: int)
    requires Config.Loaded(lib, disk, flag).Some? && name in Config.Loaded(lib, disk, flag).value
    ensures Config.HasModule(disk, name)
    ensures var m := Config.Loaded(lib, disk, flag).value[name];
            port in m.allowedPorts && Targets.Allowed(lib.parse, host, m.allowedTargets)
            <==> Permitted(lib, disk, flag, name, host, port)
  {
    Config.LoadedPorts(lib, disk, flag, name);
    Config.LoadedTargets(lib, disk, flag, name, host);
  }

  /** The target is a host with an optional port, up to an empty query and fragment at its end. */
  predicate WellFormedTarget(lib: Config.Library, q: Query) {
    q.target != "" && IsHostPort(lib.parseHost, BarePart(q.target))
  }

  function HostOf(lib: Config.Library, q: Query): string
    requires WellFormedTarget(lib, q)
  {
    Normalize.Hostname(Named(lib, q).hostname)
  }

  /** The host and port as the target has them. */
  function Named(lib: Config.Library, q: Query): HostPart
    requires WellFormedTarget(lib, q)
  {
    lib.parseHost(BarePart(q.target)).value
  }

  function PortOr(lib: Config.Library, q: Query, default: int): int
    requires WellFormedTarget(lib, q)
  {
    if Named(lib, q).port != "" then Atoi(Named(lib, q).port).value else default
  }

  /** The port that the target has, or else the default port of the module `name`, as the file gives it. */
  function PortOf(lib: Config.Library, disk: Config.Disk, name: string, q: Query): int
    requires Config.HasModule(disk, name) && WellFormedTarget(lib, q)
  {
    PortOr(lib, q, Config.DefaultPort(disk.config.value, Config.Written(disk, name)))
  }

  lemma DecidedByModules(lib: Config.Library, modules: Config.Modules, q: Query, name: string)
    requires IsFor(q, name)
    ensures var d := Decide(lib, modules, q);
            if name !in modules then d == Reject(Label("", 400))
            else if !WellFormedTarget(lib, q) then d == Reject(Label(name, 400))
            else
              var m := modules[name];
              var port := PortOr(lib, q, m.targetPort);
              if port in m.allowedPorts && Targets.Allowed(lib.parse, HostOf(lib, q), m.allowedTargets)
              then d.Admit? && d.name == name && d.mod == m
              else d == Reject(Label(name, 403))
  {
    if name in modules {
      AcceptedByText(lib.parseHost, q.target, modules[name].targetPort);
    }
  }

  /**
   * The documented codes, by the files and the request's text alone: 400 for a module that
   * the configuration lacks, with no module on the label, and for a missing or malformed
   * target; 403 for a host or port that the configuration does not permit; and a probe for
   * the rest.
   */
  lemma RejectionCodes(lib: Config.Library, disk: Config.Disk, flag: bool, modules: Config.Modules, q: Query, name: string)
    requires Config.Loaded(lib, disk, flag) == Some(modules)
    requires IsFor(q, name)
    ensures var d := Decide(lib, modules, q);
            && (d == Reject(Label("", 400)) <==> !Config.HasModule(disk, name))
            && (d == Reject(Label(name, 400)) <==> Config.HasModule(disk, name) && !WellFormedTarget(lib, q))
            && (d.Admit? ==> Config.HasModule(disk, name) && WellFormedTarget(lib, q))
            && (Config.HasModule(disk, name) && WellFormedTarget(lib, q) ==>
                  var ok := Permitted(lib, disk, flag, name, HostOf(lib, q), PortOf(lib, disk, name, q));
                  && (d == Reject(Label(name, 403)) <==> !ok)
                  && (d.Admit? <==> ok))
  {
    DecidedByModules(lib, modules, q, name);
    Config.LoadedNames(lib, disk, flag);
    if Config.HasModule(disk, name) && WellFormedTarget(lib, q) {
      assert modules[name].targetPort == Config.DefaultPort(disk.config.value, Config.Written(disk, name)) by {
        Config.LoadedPorts(lib, disk, flag, name);
      }
      AllowedIsPermitted(lib, disk, flag, name, HostOf(lib, q), PortOf(lib, disk, name, q));
    }
  }

  /**
   * A request admitted under a loaded configuration goes to the host and port that its
   * target names, which the configuration permits the module it is for; and splitting the
   * string that is dialled gives back just these exactly when the name has no brackets of
   * its own.
   */
  lemma AdmittedIsPermitted(lib: Config.Library, disk: Config.Disk, flag: bool, modules: Config.Modules, q: Query, name: string)
    requires Config.Loaded(lib, disk, flag) == Some(modules)
    requires IsFor(q, name) && Decide(lib, modules, q).Admit?
    ensures Config.HasModule(disk, name) && WellFormedTarget(lib, q)
    ensures var d := Decide(lib, modules, q);
            var e := d.endpoint;
            && d.name == name && name in modules && d.mod == modules[name]
            && e.host == HostOf(lib, q) && e.port == PortOf(lib, disk, name, q)
            && Permitted(lib, disk, flag, name, e.host, e.port)
            && (SplitHostPort(e.target) == Some(HostPort(e.host, Itoa(e.port))) <==> BracketFree(Named(lib, q).hostname))
  {
    AdmitMeans(lib, modules, q);
    RejectionCodes(lib, disk, flag, modules, q, name);
    Config.LoadedPorts(lib, disk, flag, name);
    AcceptedByText(lib.parseHost, q.target, modules[name].targetPort);
    DialledIsChecked(lib, q.target, modules[name].targetPort);
  }

  /**
   * Dialling `target` with `options` is what the files call for when `q` is asked of the
   * module `name`: the target is the host and port that the request names, which they
   * permit, and reads as such unless the name has brackets; and the options are the module's.
   */
  ghost predicate Authorised(lib: Config.Library, disk: Config.Disk, flag: bool, q: Query, name: string,
                             target: string, options: Config.Options)
  {
    && Config.HasModule(disk, name) && WellFormedTarget(lib, q)
    && var (host, port) := (HostOf(lib, q), PortOf(lib, disk, name, q));
       && Permitted(lib, disk, flag, name, host, port)
       && target == JoinHostPort(host, Itoa(port))
       && (SplitHostPort(target) == Some(HostPort(host, Itoa(port))) <==> BracketFree(Named(lib, q).hostname))
       && Config.AsConfigured(lib, disk, name, options)
  }

  lemma AdmittedIsAuthorised(lib: Config.Library, disk: Config.Disk, flag: bool, modules: Config.Modules, q: Query, name: string)
    requires Config.Loaded(lib, disk, flag) == Some(modules)
    requires IsFor(q, name) && Decide(lib, modules, q).Admit?
    ensures var d := Decide(lib, modules, q);
            Authorised(lib, disk, flag, q, name, d.endpoint.target, d.mod.options)
  {
    AdmittedIsPermitted(lib, disk, flag, modules, q, name);
    Config.LoadedAsConfigured(lib, disk, flag, name);
    TargetIsJoined(lib.parseHost, q.target, modules[name].targetPort);
  }

  /** With a file that lists no modules, a request that names none is decided by a module "default", and never for want of one. */
  lemma DefaultIsServed(lib: Config.Library, disk: Config.Disk, flag: bool, modules: Config.Modules, target: string)
    requires Config.Loaded(lib, disk, flag) == Some(modules)
    requires disk.config.Success? && disk.config.value.modules == map[]
    ensures "default" in modules && modules == map["default" := modules["default"]]
    ensures Decide(lib, modules, Query("", target)) == Decide(lib, modules, Query("default", target))
    ensures Decide(lib, modules, Query("", target)) != Reject(Label("", 400))
  {
    assert modules.Keys == {"default"} by { Config.LoadedNames(lib, disk, flag); }
    assert "default" in modules.Keys;
    ModuleIsTheOneNamed(lib, modules, Query("", target));
    DecidedByModules(lib, modules, Query("", target), "default");
  }
}
