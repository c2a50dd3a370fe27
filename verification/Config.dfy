/** Loading the configuration: inheritance and validation, then compilation into modules. */
module Config {
  import opened Common
  import opened Addresses
  import KnownHosts
  import Targets
  import Urls

  const DEFAULT_MODULE_NAME := "default"

  /** The algorithm names the SSH library implements. */
  datatype KnownAlgorithms = KnownAlgorithms(
    ciphers: set<string>, keyExchanges: set<string>, macs: set<string>, hostKeys: set<string>)

  /** What is taken from libraries. */
  datatype Library = Library(known: KnownAlgorithms, parse: AddrParser, parseHost: Urls.HostParser)

  /** A module as decoded; an absent `allowed_ports` is not an empty one. */
  datatype RawModule = RawModule(
    knownHostsFile: string,
    allowedTargets: seq<string>,
    allowedPorts: Option<seq<int>>,
    targetPort: int,
    ciphers: seq<string>,
    keyExchanges: seq<string>,
    macs: seq<string>,
    hostKeyAlgorithms: seq<string>,
    stripComments: bool)

  const EMPTY_MODULE := RawModule("", [], None, 0, [], [], [], [], false)

  datatype RawConfig = RawConfig(
    knownHostsFile: string,
    allowedTargets: seq<string>,
    allowedPorts: Option<seq<int>>,
    targetPort: int,
    modules: map<string, RawModule>,
    stripComments: bool,
    allowAllTargets: bool)

  datatype AlgorithmKind = Ciphers | KexAlgorithms | Macs | HostKeyAlgorithms

  datatype ModuleError =
    | KnownHostsFileRequired
    | InvalidPort(port: int)
    | TargetPortNotAllowed
    | UnknownAlgorithms(kind: AlgorithmKind, names: seq<string>)
    | LoadingKnownHosts
    | BadTargets(error: Targets.TargetError)

  datatype ConfigError =
    | Unreadable
    | Unparsable
    | InModule(name: string, error: ModuleError)

  // ---- Algorithm names ----

  method AlgorithmSet(lists: seq<seq<string>>) returns (names: set<string>)
    ensures forall n :: n in names <==> exists l :: l in lists && n in l
  {
    names := {};
    for i := 0 to |lists|
      invariant forall n :: n in names <==> exists l :: l in lists[..i] && n in l
    {
      ghost var before := names;
      for k := 0 to |lists[i]|
        invariant forall n :: n in names <==> n in before || n in lists[i][..k]
      {
        names := names + {lists[i][k]};
      }
      assert lists[..i + 1] == lists[..i] + [lists[i]];
      assert lists[i][..|lists[i]|] == lists[i];
      assert forall n :: n in names <==> n in before || n in lists[i];
      assert forall n :: n in lists[i] ==> lists[i] in lists[..i + 1] && n in lists[i];
    }
    assert lists[..|lists|] == lists;
  }

  predicate AllKnown(names: seq<string>, known: set<string>) { forall n :: n in names ==> n in known }

  /** The names that are not known, all of them, in order. */
  function Unknown(names: seq<string>, known: set<string>): (u: seq<string>)
    ensures forall n :: n in u <==> n in names && n !in known
    ensures u == [] <==> AllKnown(names, known)
  {
    if names == [] then []
    else
      var last := |names| - 1;
      var init := Unknown(names[..last], known);
      assert names == names[..last] + [names[last]];
      assert forall n :: n in names <==> n in names[..last] || n == names[last];
      if names[last] in known then init else init + [names[last]]
  }

  method ValidateAlgorithms(kind: AlgorithmKind, names: seq<string>, known: set<string>)
    returns (r: Option<ModuleError>)
    ensures r == if Unknown(names, known) == [] then None else Some(UnknownAlgorithms(kind, Unknown(names, known)))
  {
    var unknown := [];
    for i := 0 to |names|
      invariant unknown == Unknown(names[..i], known)
    {
      assert names[..i + 1][..i] == names[..i];
      if names[i] !in known {
        unknown := unknown + [names[i]];
      }
    }
    assert names[..|names|] == names;
    if |unknown| == 0 {
      return None;
    }
    return Some(UnknownAlgorithms(kind, unknown));
  }

  // ---- Inheritance ----

  /** The configuration with at least one module, and with the allow-all flag taken in. */
  function Prepare(cfg: RawConfig, allowAllFlag: bool): RawConfig {
    cfg.(modules := if |cfg.modules| == 0 then map[DEFAULT_MODULE_NAME := EMPTY_MODULE] else cfg.modules,
         allowAllTargets := allowAllFlag && cfg.allowedTargets == [])
  }

  /** A module with what it leaves out filled in from the top level. */
  function Inherit(cfg: RawConfig, m: RawModule): RawModule {
    var port := if m.targetPort != 0 then m.targetPort else if cfg.targetPort != 0 then cfg.targetPort else 22;
    var ports := if m.allowedPorts.Some? then m.allowedPorts else cfg.allowedPorts;
    m.(knownHostsFile := if m.knownHostsFile != "" then m.knownHostsFile else cfg.knownHostsFile,
       allowedTargets := if m.allowedTargets != [] then m.allowedTargets else cfg.allowedTargets,
       stripComments := m.stripComments || cfg.stripComments,
       targetPort := port,
       allowedPorts := if ports.Some? && ports.value != [] then ports else Some([port]))
  }

  /** The module's default port, or the top level's, or 22. */
  function DefaultPort(cfg: RawConfig, m: RawModule): int {
    if m.targetPort != 0 then m.targetPort else if cfg.targetPort != 0 then cfg.targetPort else 22
  }

  /** The ports a module's own list names, or, if it has none at all, the top level's; an empty list names the default port. */
  function PortsFor(cfg: RawConfig, m: RawModule): seq<int> {
    match (m.allowedPorts, cfg.allowedPorts)
    case (Some(own), _) => if own == [] then [DefaultPort(cfg, m)] else own
    case (None, Some(top)) => if top == [] then [DefaultPort(cfg, m)] else top
    case (None, None) => [DefaultPort(cfg, m)]
  }

  predicate PortInRange(p: int) { 1 <= p <= 65535 }

  /** What every module in service satisfies. */
  predicate WellFormed(known: KnownAlgorithms, m: RawModule) {
    && m.knownHostsFile != ""
    && m.targetPort != 0
    && m.allowedPorts.Some?
    && m.targetPort in m.allowedPorts.value
    && (forall p :: p in m.allowedPorts.value ==> PortInRange(p))
    && AllKnown(m.ciphers, known.ciphers)
    && AllKnown(m.keyExchanges, known.keyExchanges)
    && AllKnown(m.macs, known.macs)
    && AllKnown(m.hostKeyAlgorithms, known.hostKeys)
  }

  /** A reason for which the module `m`, already inherited, is not well-formed. */
  ghost predicate Explains(known: KnownAlgorithms, m: RawModule, e: ModuleError) {
    match e
    case KnownHostsFileRequired => m.knownHostsFile == ""
    case InvalidPort(p) => m.allowedPorts.Some? && p in m.allowedPorts.value && !PortInRange(p)
    case TargetPortNotAllowed => m.allowedPorts.Some? && m.targetPort !in m.allowedPorts.value
    case UnknownAlgorithms(kind, names) =>
      && names != []
      && names == (match kind
                   case Ciphers => Unknown(m.ciphers, known.ciphers)
                   case KexAlgorithms => Unknown(m.keyExchanges, known.keyExchanges)
                   case Macs => Unknown(m.macs, known.macs)
                   case HostKeyAlgorithms => Unknown(m.hostKeyAlgorithms, known.hostKeys))
    case _ => false
  }

  method FillIn(cfg: RawConfig, m: RawModule) returns (mod: RawModule)
    ensures mod == Inherit(cfg, m)
  {
    mod := m;
    if mod.knownHostsFile == "" {
      mod := mod.(knownHostsFile := cfg.knownHostsFile);
    }
    if |mod.allowedTargets| == 0 {
      mod := mod.(allowedTargets := cfg.allowedTargets);
    }
    mod := mod.(stripComments := mod.stripComments || cfg.stripComments);
    if mod.targetPort == 0 {
      mod := mod.(targetPort := cfg.targetPort);
    }
    if mod.targetPort == 0 {
      mod := mod.(targetPort := 22);
    }
    if mod.allowedPorts.None? {
      mod := mod.(allowedPorts := cfg.allowedPorts);
    }
    if mod.allowedPorts.None? || |mod.allowedPorts.value| == 0 {
      mod := mod.(allowedPorts := Some([mod.targetPort]));
    }
  }

  /** The checks on a module that has been filled in, which end at the first that fails. */
  method Validate(known: KnownAlgorithms, m: RawModule) returns (r: Option<ModuleError>)
    requires m.targetPort != 0 && m.allowedPorts.Some?
    ensures r.None? <==> WellFormed(known, m)
    ensures r.Some? ==> Explains(known, m, r.value)
  {
    if m.knownHostsFile == "" {
      return Some(KnownHostsFileRequired);
    }
    var ports := m.allowedPorts.value;
    for i := 0 to |ports|
      invariant forall p :: p in ports[..i] ==> PortInRange(p)
    {
      if ports[i] < 1 || ports[i] > 65535 {
        assert ports[i] in ports;
        return Some(InvalidPort(ports[i]));
      }
    }
    if m.targetPort !in ports {
      return Some(TargetPortNotAllowed);
    }
    r := ValidateAlgorithms(Ciphers, m.ciphers, known.ciphers);
    if r.Some? { return; }
    r := ValidateAlgorithms(KexAlgorithms, m.keyExchanges, known.keyExchanges);
    if r.Some? { return; }
    r := ValidateAlgorithms(Macs, m.macs, known.macs);
    if r.Some? { return; }
    r := ValidateAlgorithms(HostKeyAlgorithms, m.hostKeyAlgorithms, known.hostKeys);
  }

  ghost predicate AllWellFormed(known: KnownAlgorithms, cfg: RawConfig) {
    forall n :: n in cfg.modules ==> WellFormed(known, Inherit(cfg, cfg.modules[n]))
  }

  function Resolved(cfg: RawConfig): RawConfig {
    cfg.(modules := map n | n in cfg.modules :: Inherit(cfg, cfg.modules[n]))
  }

  /** Some module is to blame for the failure `e`, in the way `e` says. */
  ghost predicate Blames(known: KnownAlgorithms, cfg: RawConfig, e: ConfigError) {
    && e.InModule?
    && e.name in cfg.modules
    && Explains(known, Resolved(cfg).modules[e.name], e.error)
  }

  /**
   * The loop over modules: they are visited in an order nothing determines, and rewritten in
   * place; the outcome depends on the order only in which bad module is named.
   */
  method ResolveModules(known: KnownAlgorithms, cfg: RawConfig) returns (r: Result<map<string, RawModule>, ConfigError>)
    ensures r.Success? <==> AllWellFormed(known, cfg)
    ensures r.Success? ==> r.value == Resolved(cfg).modules
    ensures r.Failure? ==> Blames(known, cfg, r.error)
  {
    var modules, rest := cfg.modules, cfg.modules.Keys;
    ghost var goal := Resolved(cfg).modules;
    ghost var good := set n | n in goal && WellFormed(known, goal[n]);
    while rest != {}
      invariant rest <= modules.Keys == goal.Keys
      invariant goal.Keys - rest <= good
      invariant forall n :: n in goal ==> modules[n] == if n in rest then cfg.modules[n] else goal[n]
      decreases rest
    {
      var name :| name in rest;
      var mod := FillIn(cfg, modules[name]);
      assert mod == goal[name];
      var e := Validate(known, mod);
      if e.Some? {
        assert name !in good;
        return Failure(InModule(name, e.value));
      }
      assert name in good;
      modules := modules[name := mod];
      rest := rest - {name};
    }
    assert modules == goal && good == goal.Keys;
    return Success(modules);
  }

  method LoadRawConfig(known: KnownAlgorithms, file: Result<RawConfig, ConfigError>, allowAllFlag: bool)
    returns (r: Result<RawConfig, ConfigError>)
    ensures file.Failure? ==> r == file
    ensures file.Success? ==>
              var cfg := Prepare(file.value, allowAllFlag);
              && (r.Success? <==> AllWellFormed(known, cfg))
              && (r.Success? ==> r.value == Resolved(cfg))
              && (r.Success? ==> r.value.modules.Keys == FileModules(file.value).Keys)
              && (r.Failure? ==> Blames(known, cfg, r.error))
  {
    if file.Failure? {
      return file;
    }
    var cfg := file.value;
    if |cfg.modules| == 0 {
      cfg := cfg.(modules := map[DEFAULT_MODULE_NAME := EMPTY_MODULE]);
    }
    cfg := cfg.(allowAllTargets := allowAllFlag && |cfg.allowedTargets| == 0);
    assert cfg == Prepare(file.value, allowAllFlag);
    var modules := ResolveModules(known, cfg);
    if modules.Failure? {
      return Failure(modules.error);
    }
    ResolvedNames(file.value, allowAllFlag);
    return Success(cfg.(modules := modules.value));
  }

  /** Filling in a module that is already filled in changes nothing, under the same top level. */
  lemma InheritTwice(cfg: RawConfig, m: RawModule)
    ensures Inherit(cfg, Inherit(cfg, m)) == Inherit(cfg, m)
  {
  }

  /** Where the ports of a filled-in module come from. */
  lemma PortsInherited(cfg: RawConfig, m: RawModule)
    ensures Inherit(cfg, m).targetPort == DefaultPort(cfg, m)
    ensures Inherit(cfg, m).allowedPorts == Some(PortsFor(cfg, m))
  {
  }

  /**
   * The top level's ports can make a difference to a module exactly when it leaves
   * `allowed_ports` out: an explicit empty list is its own, and does not inherit.
   */
  lemma EmptyPortsDoNotInherit(cfg: RawConfig, m: RawModule)
    ensures m.allowedPorts.Some?
       <==> forall ports :: Inherit(cfg.(allowedPorts := ports), m) == Inherit(cfg, m)
  {
    if m.allowedPorts.None? {
      var p := DefaultPort(cfg, m);
      var one, other := cfg.(allowedPorts := Some([p])), cfg.(allowedPorts := Some([p, p]));
      assert Inherit(one, m).allowedPorts.value != Inherit(other, m).allowedPorts.value;
    }
  }

  /** Only the top level matters to what a module inherits. */
  lemma InheritsFromTopLevel(cfg: RawConfig, modules: map<string, RawModule>, m: RawModule)
    ensures Inherit(cfg.(modules := modules), m) == Inherit(cfg, m)
  {
  }

  lemma ResolvedIsPrepared(file: RawConfig, allowAllFlag: bool)
    ensures var once := Resolved(Prepare(file, allowAllFlag)); Prepare(once, allowAllFlag) == once
  {
    var cfg := Prepare(file, allowAllFlag);
    assert DEFAULT_MODULE_NAME in map[DEFAULT_MODULE_NAME := EMPTY_MODULE];
    assert Resolved(cfg).modules.Keys == cfg.modules.Keys;
    assert |Resolved(cfg).modules| == |Resolved(cfg).modules.Keys| == |cfg.modules|;
  }

  /** Loading what a load resolved succeeds and changes nothing. */
  lemma ResolvingTwice(known: KnownAlgorithms, file: RawConfig, allowAllFlag: bool)
    requires AllWellFormed(known, Prepare(file, allowAllFlag))
    ensures var once := Resolved(Prepare(file, allowAllFlag));
            var again := Prepare(once, allowAllFlag);
            && again == once
            && AllWellFormed(known, again)
            && Resolved(again) == once
  {
    var cfg := Prepare(file, allowAllFlag);
    var once := Resolved(cfg);
    ResolvedIsPrepared(file, allowAllFlag);
    forall n | n in once.modules
      ensures Inherit(once, once.modules[n]) == once.modules[n]
    {
      InheritsFromTopLevel(cfg, once.modules, once.modules[n]);
      InheritTwice(cfg, cfg.modules[n]);
    }
    assert Resolved(once).modules == once.modules;
  }

  // ---- Compilation ----

  datatype Options = Options(
    hostKeyCallback: Option<KnownHosts.HostKeyCallback>,
    ciphers: seq<string>,
    keyExchanges: seq<string>,
    macs: seq<string>,
    hostKeyAlgorithms: seq<string>,
    stripComments: bool)

  datatype Module = Module(
    options: Options,
    allowedTargets: seq<Targets.Matcher>,
    allowedPorts: set<int>,
    targetPort: int)

  type Modules = map<string, Module>

  /** What a load reads: the decoded configuration file, and the known_hosts files that parse. */
  datatype Disk = Disk(config: Result<RawConfig, ConfigError>, knownHosts: map<string, KnownHosts.File>)

  function PortSet(ports: seq<int>): set<int> { set p | p in ports }

  function BuildModule(lib: Library, raw: RawConfig, disk: Disk, m: RawModule): Result<Module, ModuleError> {
    if m.knownHostsFile !in disk.knownHosts then Failure(LoadingKnownHosts)
    else match Targets.Resolve(lib.parse, m.allowedTargets, raw.allowAllTargets)
      case Failure(e) => Failure(BadTargets(e))
      case Success(targets) =>
        Success(Module(
                  Options(Some(disk.knownHosts[m.knownHostsFile].Callback()),
                          m.ciphers, m.keyExchanges, m.macs, m.hostKeyAlgorithms, m.stripComments),
                  targets,
                  PortSet(if m.allowedPorts.Some? then m.allowedPorts.value else []),
                  m.targetPort))
  }

  ghost predicate AllBuild(lib: Library, raw: RawConfig, disk: Disk) {
    forall n :: n in raw.modules ==> BuildModule(lib, raw, disk, raw.modules[n]).Success?
  }

  ghost function Built(lib: Library, raw: RawConfig, disk: Disk): Modules
    requires AllBuild(lib, raw, disk)
  {
    map n | n in raw.modules :: BuildModule(lib, raw, disk, raw.modules[n]).value
  }

  method CollectPorts(ports: seq<int>) returns (allowed: set<int>)
    ensures allowed == PortSet(ports)
  {
    allowed := {};
    for i := 0 to |ports|
      invariant allowed == PortSet(ports[..i])
    {
      allowed := allowed + {ports[i]};
    }
    assert ports[..|ports|] == ports;
  }

  /** One turn of the loop over raw modules. */
  method BuildOne(lib: Library, raw: RawConfig, disk: Disk, mod: RawModule) returns (r: Result<Module, ModuleError>)
    ensures r == BuildModule(lib, raw, disk, mod)
  {
    if mod.knownHostsFile !in disk.knownHosts {
      return Failure(LoadingKnownHosts);
    }
    var targets := Targets.ResolveAllowedTargets(lib.parse, mod.allowedTargets, raw.allowAllTargets);
    if targets.Failure? {
      return Failure(BadTargets(targets.error));
    }
    var allowedPorts := CollectPorts(if mod.allowedPorts.Some? then mod.allowedPorts.value else []);
    return Success(Module(
                     Options(Some(disk.knownHosts[mod.knownHostsFile].Callback()),
                             mod.ciphers, mod.keyExchanges, mod.macs, mod.hostKeyAlgorithms, mod.stripComments),
                     targets.value, allowedPorts, mod.targetPort));
  }

  method Build(lib: Library, raw: RawConfig, disk: Disk) returns (r: Result<Modules, ConfigError>)
    ensures r.Success? <==> AllBuild(lib, raw, disk)
    ensures r.Success? ==> r.value == Built(lib, raw, disk)
    ensures r.Failure? ==> && r.error.InModule?
                           && r.error.name in raw.modules
                           && BuildModule(lib, raw, disk, raw.modules[r.error.name]) == Failure(r.error.error)
  {
    var modules: Modules := map[];
    var rest := raw.modules.Keys;
    while rest != {}
      invariant rest <= raw.modules.Keys
      invariant modules.Keys == raw.modules.Keys - rest
      invariant forall n :: n in modules ==> BuildModule(lib, raw, disk, raw.modules[n]) == Success(modules[n])
      decreases rest
    {
      var name :| name in rest;
      var mod := BuildOne(lib, raw, disk, raw.modules[name]);
      if mod.Failure? {
        return Failure(InModule(name, mod.error));
      }
      modules := modules[name := mod.value];
      rest := rest - {name};
    }
    return Success(modules);
  }

  /** The modules a load of `disk` puts in service, or None if it fails. */
  ghost function Loaded(lib: Library, disk: Disk, allowAllFlag: bool): Option<Modules> {
    if disk.config.Failure? then None
    else
      var cfg := Prepare(disk.config.value, allowAllFlag);
      if AllWellFormed(lib.known, cfg) && AllBuild(lib, Resolved(cfg), disk)
      then Some(Built(lib, Resolved(cfg), disk))
      else None
  }

  /** Whatever order modules are visited in, a load of the same files has the same outcome. */
  method Load(lib: Library, disk: Disk, allowAllFlag: bool) returns (r: Result<Modules, ConfigError>)
    ensures r.Success? <==> Loaded(lib, disk, allowAllFlag).Some?
    ensures r.Success? ==> Loaded(lib, disk, allowAllFlag) == Some(r.value)
    ensures r.Success? <==> && disk.config.Success?
                            && forall name :: name in FileModules(disk.config.value) ==> Servable(lib, disk, allowAllFlag, name)
  {
    LoadSucceeds(lib, disk, allowAllFlag);
    var raw := LoadRawConfig(lib.known, disk.config, allowAllFlag);
    if raw.Failure? {
      return Failure(raw.error);
    }
    r := Build(lib, raw.value, disk);
  }

  // ---- What a loaded module allows and trusts ----

  /** The modules that a file asks for; one that lists none asks for "default", with nothing of its own. */
  function FileModules(cfg: RawConfig): map<string, RawModule> {
    if cfg.modules == map[] then map["default" := RawModule("", [], None, 0, [], [], [], [], false)] else cfg.modules
  }

  predicate HasModule(disk: Disk, name: string) {
    disk.config.Success? && name in FileModules(disk.config.value)
  }

  /** The module `name` as the file has it. */
  function Written(disk: Disk, name: string): RawModule
    requires HasModule(disk, name)
  {
    FileModules(disk.config.value)[name]
  }

  /** The module's own ports, or the top level's, or its default port alone. */
  ghost function EffectivePorts(disk: Disk, name: string): seq<int>
    requires HasModule(disk, name)
  {
    PortsFor(disk.config.value, Written(disk, name))
  }

  lemma LoadedFrom(lib: Library, disk: Disk, flag: bool, name: string)
    requires Loaded(lib, disk, flag).Some? && name in Loaded(lib, disk, flag).value
    ensures HasModule(disk, name)
    ensures var cfg := Prepare(disk.config.value, flag);
            var m := Inherit(cfg, Written(disk, name));
            && WellFormed(lib.known, m)
            && BuildModule(lib, Resolved(cfg), disk, m) == Success(Loaded(lib, disk, flag).value[name])
  {
  }

  lemma PreparedNames(cfg: RawConfig, flag: bool)
    ensures Prepare(cfg, flag).modules == FileModules(cfg)
    ensures FileModules(cfg).Keys == if cfg.modules == map[] then {"default"} else cfg.modules.Keys
    ensures FileModules(cfg).Keys != {}
  {
    if cfg.modules != map[] {
      var n :| n in cfg.modules;
      assert n in FileModules(cfg).Keys;
    } else {
      assert "default" in FileModules(cfg).Keys;
    }
  }

  lemma ResolvedNames(cfg: RawConfig, flag: bool)
    ensures Resolved(Prepare(cfg, flag)).modules.Keys == FileModules(cfg).Keys
  {
    PreparedNames(cfg, flag);
    assert Resolved(Prepare(cfg, flag)).modules.Keys == Prepare(cfg, flag).modules.Keys;
  }

  lemma BuiltNames(lib: Library, raw: RawConfig, disk: Disk)
    requires AllBuild(lib, raw, disk)
    ensures Built(lib, raw, disk).Keys == raw.modules.Keys
  {
  }

  /** A load puts in service just the modules that the file lists, or "default" if it lists none. */
  lemma LoadedNames(lib: Library, disk: Disk, flag: bool)
    requires Loaded(lib, disk, flag).Some?
    ensures disk.config.Success?
    ensures var listed := disk.config.value.modules;
            Loaded(lib, disk, flag).value.Keys == if listed == map[] then {"default"} else listed.Keys
    ensures Loaded(lib, disk, flag).value.Keys == FileModules(disk.config.value).Keys != {}
  {
    PreparedNames(disk.config.value, flag);
    var cfg := Prepare(disk.config.value, flag);
    assert Resolved(cfg).modules.Keys == cfg.modules.Keys;
    BuiltNames(lib, Resolved(cfg), disk);
  }

  lemma BuiltPorts(lib: Library, raw: RawConfig, disk: Disk, m: RawModule)
    requires WellFormed(lib.known, m) && BuildModule(lib, raw, disk, m).Success?
    ensures var built := BuildModule(lib, raw, disk, m).value;
            && built.targetPort == m.targetPort && built.targetPort in built.allowedPorts
            && built.allowedPorts == PortSet(m.allowedPorts.value)
            && forall p :: p in built.allowedPorts ==> PortInRange(p)
  {
  }

  /** The ports of the module `m` are in order, and are those that the file gives the module `name`. */
  ghost predicate PortsAsWritten(disk: Disk, name: string, m: Module)
    requires HasModule(disk, name)
  {
    && m.targetPort in m.allowedPorts
    && (forall p :: p in m.allowedPorts ==> PortInRange(p))
    && m.targetPort == DefaultPort(disk.config.value, Written(disk, name))
    && m.allowedPorts == PortSet(EffectivePorts(disk, name))
  }

  lemma BuiltAsWritten(lib: Library, disk: Disk, flag: bool, name: string, m: RawModule, built: Module)
    requires HasModule(disk, name)
    requires m == Inherit(Prepare(disk.config.value, flag), Written(disk, name))
    requires WellFormed(lib.known, m)
    requires BuildModule(lib, Resolved(Prepare(disk.config.value, flag)), disk, m) == Success(built)
    ensures PortsAsWritten(disk, name, built)
  {
    PortsInherited(Prepare(disk.config.value, flag), Written(disk, name));
    BuiltPorts(lib, Resolved(Prepare(disk.config.value, flag)), disk, m);
  }

  /**
   * In service, the default port is an allowed one and every allowed port is a port. The
   * default port is the module's own, else the top level's, else 22; the allowed ones are
   * the module's own, else, if it has no list at all, the top level's, else the default alone.
   */
  lemma LoadedPorts(lib: Library, disk: Disk, flag: bool, name: string)
    requires Loaded(lib, disk, flag).Some? && name in Loaded(lib, disk, flag).value
    ensures HasModule(disk, name)
    ensures PortsAsWritten(disk, name, Loaded(lib, disk, flag).value[name])
    ensures var (m, own, top) := (Loaded(lib, disk, flag).value[name], Written(disk, name), disk.config.value);
            && m.targetPort in m.allowedPorts && (forall p :: p in m.allowedPorts ==> 1 <= p <= 65535)
            && m.targetPort == (if own.targetPort != 0 then own.targetPort else if top.targetPort != 0 then top.targetPort else 22)
            && match (own.allowedPorts, top.allowedPorts)
               case (Some(ports), _) => forall p :: p in m.allowedPorts <==> p in ports || (ports == [] && p == m.targetPort)
               case (None, Some(ports)) => forall p :: p in m.allowedPorts <==> p in ports || (ports == [] && p == m.targetPort)
               case (None, None) => m.allowedPorts == {m.targetPort}
  {
    LoadedFrom(lib, disk, flag, name);
    BuiltAsWritten(lib, disk, flag, name, Inherit(Prepare(disk.config.value, flag), Written(disk, name)),
                   Loaded(lib, disk, flag).value[name]);
    PortsByLevel(disk, name, Loaded(lib, disk, flag).value[name]);
  }

  lemma PortsByLevel(disk: Disk, name: string, m: Module)
    requires HasModule(disk, name) && PortsAsWritten(disk, name, m)
    ensures var (own, top) := (Written(disk, name), disk.config.value);
            match (own.allowedPorts, top.allowedPorts)
            case (Some(ports), _) => forall p :: p in m.allowedPorts <==> p in ports || (ports == [] && p == m.targetPort)
            case (None, Some(ports)) => forall p :: p in m.allowedPorts <==> p in ports || (ports == [] && p == m.targetPort)
            case (None, None) => m.allowedPorts == {m.targetPort}
  {
  }

  /**
   * Allow-all comes from the flag alone, with no list at the top level and none in the
   * module; otherwise exactly the hosts that some pattern of the module's list, or of the
   * top-level list if it has none, stands for are allowed.
   */
  lemma LoadedTargets(lib: Library, disk: Disk, flag: bool, name: string, host: string)
    requires Loaded(lib, disk, flag).Some? && name in Loaded(lib, disk, flag).value
    ensures HasModule(disk, name)
    ensures var m := Loaded(lib, disk, flag).value[name];
            var own := Written(disk, name).allowedTargets;
            var top := disk.config.value.allowedTargets;
            && (Targets.AllowAll in m.allowedTargets <==> flag && own == [] && top == [])
            && (Targets.Allowed(lib.parse, host, m.allowedTargets)
                <==> || (flag && own == [] && top == [])
                     || exists p :: p in (if own != [] then own else top) && Targets.Denotes(lib.parse, p, host))
  {
    LoadedFrom(lib, disk, flag, name);
    var m := Loaded(lib, disk, flag).value[name];
    var patterns := Inherit(Prepare(disk.config.value, flag), Written(disk, name)).allowedTargets;
    if patterns != [] {
      Targets.CompileKeepsMeaning(lib.parse, patterns, host);
    } else {
      assert m.allowedTargets == [Targets.AllowAll];
      assert m.allowedTargets[0].Match(lib.parse, host);
    }
  }

  /** The options `o` have the algorithms that the file gives the module `name`, all of them known, and strip comments if either level says so. */
  ghost predicate OptionsAsWritten(lib: Library, disk: Disk, name: string, o: Options)
    requires HasModule(disk, name)
  {
    var own := Written(disk, name);
    && o.ciphers == own.ciphers && AllKnown(o.ciphers, lib.known.ciphers)
    && o.keyExchanges == own.keyExchanges && AllKnown(o.keyExchanges, lib.known.keyExchanges)
    && o.macs == own.macs && AllKnown(o.macs, lib.known.macs)
    && o.hostKeyAlgorithms == own.hostKeyAlgorithms && AllKnown(o.hostKeyAlgorithms, lib.known.hostKeys)
    && o.stripComments == (own.stripComments || disk.config.value.stripComments)
  }

  lemma LoadedOptions(lib: Library, disk: Disk, flag: bool, name: string)
    requires Loaded(lib, disk, flag).Some? && name in Loaded(lib, disk, flag).value
    ensures HasModule(disk, name)
    ensures OptionsAsWritten(lib, disk, name, Loaded(lib, disk, flag).value[name].options)
    ensures var (o, own) := (Loaded(lib, disk, flag).value[name].options, Written(disk, name));
            && o.ciphers == own.ciphers && o.keyExchanges == own.keyExchanges
            && o.macs == own.macs && o.hostKeyAlgorithms == own.hostKeyAlgorithms
            && o.stripComments == (own.stripComments || disk.config.value.stripComments)
  {
    LoadedFrom(lib, disk, flag, name);
  }

  /** The known_hosts file that a module names, or else the top level. */
  ghost function KnownHostsPath(disk: Disk, name: string): string
    requires HasModule(disk, name)
  {
    var own := Written(disk, name).knownHostsFile;
    if own != "" then own else disk.config.value.knownHostsFile
  }

  /** The callback verifies the key exactly if the file vouches for it, and else gives the file's reason. */
  ghost predicate TrustsAs(f: KnownHosts.File, cb: KnownHosts.HostKeyCallback, addr: string, key: KnownHosts.PublicKey) {
    match KnownHosts.VerifyHostKey(cb, addr, key)
    case None => f.Vouches(addr, key)
    case Some(e) => !f.Vouches(addr, key) && KnownHosts.Classify(e) == f.Refusal(addr, key)
  }

  /** A loaded module verifies exactly the keys that its known_hosts file, or else the top level's, vouches for, and says of the others why. */
  lemma LoadedTrust(lib: Library, disk: Disk, flag: bool, name: string, addr: string, key: KnownHosts.PublicKey)
    requires Loaded(lib, disk, flag).Some? && name in Loaded(lib, disk, flag).value
    ensures HasModule(disk, name)
    ensures var m := Loaded(lib, disk, flag).value[name];
            var own := Written(disk, name).knownHostsFile;
            var path := if own != "" then own else disk.config.value.knownHostsFile;
            && path == KnownHostsPath(disk, name) && path in disk.knownHosts
            && m.options.hostKeyCallback.Some?
            && TrustsAs(disk.knownHosts[path], m.options.hostKeyCallback.value, addr, key)
  {
    LoadedFrom(lib, disk, flag, name);
    var m := Inherit(Prepare(disk.config.value, flag), Written(disk, name));
    KnownHosts.VerdictIsExact(disk.knownHosts[m.knownHostsFile], addr, key);
  }

  /** The options `o` are those that the files give the module `name`, down to the keys they verify. */
  ghost predicate AsConfigured(lib: Library, disk: Disk, name: string, o: Options)
    requires HasModule(disk, name)
  {
    var path := KnownHostsPath(disk, name);
    && OptionsAsWritten(lib, disk, name, o)
    && path in disk.knownHosts
    && o.hostKeyCallback.Some?
    && forall addr, key :: TrustsAs(disk.knownHosts[path], o.hostKeyCallback.value, addr, key)
  }

  lemma LoadedAsConfigured(lib: Library, disk: Disk, flag: bool, name: string)
    requires Loaded(lib, disk, flag).Some? && name in Loaded(lib, disk, flag).value
    ensures HasModule(disk, name)
    ensures AsConfigured(lib, disk, name, Loaded(lib, disk, flag).value[name].options)
  {
    LoadedOptions(lib, disk, flag, name);
    var o := Loaded(lib, disk, flag).value[name].options;
    LoadedTrust(lib, disk, flag, name, "", KnownHosts.HostKey([]));
    forall addr, key
      ensures TrustsAs(disk.knownHosts[KnownHostsPath(disk, name)], o.hostKeyCallback.value, addr, key)
    {
      LoadedTrust(lib, disk, flag, name, addr, key);
    }
  }

  /**
   * A file that lists no modules has one served, by the name "default": on the top level's
   * default port, or 22, and on its ports; with its targets, its known_hosts file, and no
   * algorithms of its own.
   */
  lemma LoadedDefault(lib: Library, disk: Disk, flag: bool)
    requires Loaded(lib, disk, flag).Some? && disk.config.value.modules == map[]
    ensures "default" in Loaded(lib, disk, flag).value && HasModule(disk, "default")
    ensures var (m, top) := (Loaded(lib, disk, flag).value["default"], disk.config.value);
            && m.targetPort == (if top.targetPort != 0 then top.targetPort else 22)
            && m.allowedPorts == (if top.allowedPorts.Some? && top.allowedPorts.value != []
                                  then set p | p in top.allowedPorts.value else {m.targetPort})
            && (forall host :: Targets.Allowed(lib.parse, host, m.allowedTargets) <==>
                  (flag && top.allowedTargets == []) || exists p :: p in top.allowedTargets && Targets.Denotes(lib.parse, p, host))
            && top.knownHostsFile in disk.knownHosts
            && AsConfigured(lib, disk, "default", m.options)
            && KnownHostsPath(disk, "default") == top.knownHostsFile
            && m.options.ciphers == m.options.keyExchanges == m.options.macs == m.options.hostKeyAlgorithms == []
  {
    assert "default" in Loaded(lib, disk, flag).value.Keys by { LoadedNames(lib, disk, flag); }
    LoadedAsConfigured(lib, disk, flag, "default");
    LoadedPorts(lib, disk, flag, "default");
    DefaultTargets(lib, disk, flag);
  }

  lemma DefaultTargets(lib: Library, disk: Disk, flag: bool)
    requires Loaded(lib, disk, flag).Some? && "default" in Loaded(lib, disk, flag).value
    requires disk.config.Success? && disk.config.value.modules == map[]
    ensures forall host :: Targets.Allowed(lib.parse, host, Loaded(lib, disk, flag).value["default"].allowedTargets) <==>
              (flag && disk.config.value.allowedTargets == [])
              || exists p :: p in disk.config.value.allowedTargets && Targets.Denotes(lib.parse, p, host)
  {
    forall host
      ensures Targets.Allowed(lib.parse, host, Loaded(lib, disk, flag).value["default"].allowedTargets) <==>
              (flag && disk.config.value.allowedTargets == [])
              || exists p :: p in disk.config.value.allowedTargets && Targets.Denotes(lib.parse, p, host)
    {
      LoadedTargets(lib, disk, flag, "default", host);
    }
  }

  // ---- Which files load ----

  /** The files allow the module `name` to be served. */
  ghost predicate Servable(lib: Library, disk: Disk, flag: bool, name: string)
    requires HasModule(disk, name)
  {
    var (own, top, path) := (Written(disk, name), disk.config.value, KnownHostsPath(disk, name));
    && path != "" && path in disk.knownHosts
    && DefaultPort(top, own) in EffectivePorts(disk, name)
    && (forall p :: p in EffectivePorts(disk, name) ==> 1 <= p <= 65535)
    && (forall n :: n in own.ciphers ==> n in lib.known.ciphers)
    && (forall n :: n in own.keyExchanges ==> n in lib.known.keyExchanges)
    && (forall n :: n in own.macs ==> n in lib.known.macs)
    && (forall n :: n in own.hostKeyAlgorithms ==> n in lib.known.hostKeys)
    && (own.allowedTargets == [] && top.allowedTargets == [] ==> flag)
    && forall p :: p in (if own.allowedTargets != [] then own.allowedTargets else top.allowedTargets) ==>
                     Targets.Configurable(lib.parse, p)
  }

  lemma ServableInherits(lib: Library, disk: Disk, flag: bool, name: string)
    requires HasModule(disk, name)
    ensures var cfg := Prepare(disk.config.value, flag);
            var m := Inherit(cfg, Written(disk, name));
            Servable(lib, disk, flag, name)
            <==> WellFormed(lib.known, m) && BuildModule(lib, Resolved(cfg), disk, m).Success?
  {
    var cfg := Prepare(disk.config.value, flag);
    PortsInherited(cfg, Written(disk, name));
    Targets.CompilesByText(lib.parse, Inherit(cfg, Written(disk, name)).allowedTargets);
  }

  /** A load succeeds exactly when the configuration decodes and each of its modules can be served, whatever the others are. */
  lemma LoadSucceeds(lib: Library, disk: Disk, flag: bool)
    ensures Loaded(lib, disk, flag).Some? <==>
            && disk.config.Success?
            && forall name :: name in FileModules(disk.config.value) ==> Servable(lib, disk, flag, name)
  {
    if disk.config.Success? {
      var cfg := Prepare(disk.config.value, flag);
      PreparedNames(disk.config.value, flag);
      forall name | name in cfg.modules
        ensures Servable(lib, disk, flag, name) <==>
                && WellFormed(lib.known, Inherit(cfg, cfg.modules[name]))
                && BuildModule(lib, Resolved(cfg), disk, Resolved(cfg).modules[name]).Success?
      {
        ServableInherits(lib, disk, flag, name);
      }
      LoadsIfAll(lib, disk, flag);
    }
  }

  lemma LoadsIfAll(lib: Library, disk: Disk, flag: bool)
    requires disk.config.Success?
    ensures var cfg := Prepare(disk.config.value, flag);
            Loaded(lib, disk, flag).Some? <==>
            forall name :: name in cfg.modules ==>
              && WellFormed(lib.known, Inherit(cfg, cfg.modules[name]))
              && BuildModule(lib, Resolved(cfg), disk, Resolved(cfg).modules[name]).Success?
  {
  }
}
