/** `Engine::reload_config` as a transaction on the running engine (core/src/lib.rs:563-711). */
module EngineReload {
  import opened HotReload
  import opened Wrappers

  type Setting(==, 0, !new)
  type SinkKinds(==, 0, !new)
  type Fanout(==, 0, !new)

  datatype Level = Trace | Debug | Info | Warn | Error | Fatal | Audit

  datatype Config = Config(
    level: string,
    sinks: SinkKinds,
    configPath: Option<string>,
    performanceProfile: Setting,
    ringBufferSize: nat,
    batchSize: nat,
    enableSignature: bool,
    enableAudit: bool,
    sigSidecarPath: Option<string>,
    auditWormPath: string,
    auditSecurityPath: string,
    shutdownPolicy: string,
    shutdownTimeoutMs: nat,
    keyRotationGracePeriodDays: nat,
    ringBufferCoopHelping: bool,
    pluginTrustStore: Option<string>,
    pluginTrustAnchor: Option<string>,
    pluginAllowRedPlugins: bool,
    pluginEnablePipeline: bool,
    shm: Option<Setting>,
    watcher: Setting,
    encoding: Setting)

  datatype ReloadError = HotReloadInvalid | HotReloadFailed | RestartRequired

  /** Only the canonical upper-case names are levels. */
  function ParseCanonical(name: string): Option<Level> {
    if name == "TRACE" then Some(Trace)
    else if name == "DEBUG" then Some(Debug)
    else if name == "INFO" then Some(Info)
    else if name == "WARN" then Some(Warn)
    else if name == "ERROR" then Some(Error)
    else if name == "FATAL" then Some(Fatal)
    else if name == "AUDIT" then Some(Audit)
    else None
  }

  const LEVEL_NAMES: seq<string> := ["TRACE", "DEBUG", "INFO", "WARN", "ERROR", "FATAL", "AUDIT"]

  /** The number of a level. */
  function Discriminant(level: Level): nat {
    match level
    case Trace => 0
    case Debug => 1
    case Info => 2
    case Warn => 3
    case Error => 4
    case Fatal => 5
    case Audit => 6
  }

  /** A name is a level exactly if it is one of the seven, and then the level whose number is its position. */
  lemma ParseCanonicalIsPosition(name: string)
    ensures ParseCanonical(name).Some? <==>
              name in ["TRACE", "DEBUG", "INFO", "WARN", "ERROR", "FATAL", "AUDIT"]
    ensures ParseCanonical(name).Some? ==>
              ["TRACE", "DEBUG", "INFO", "WARN", "ERROR", "FATAL", "AUDIT"][Discriminant(ParseCanonical(name).value)]
              == name
  {
    if ParseCanonical(name).Some? {
      assert LEVEL_NAMES[Discriminant(ParseCanonical(name).value)] == name;
    }
  }

  /** The numbers are those of the declaration, so they tell the levels apart. */
  lemma DiscriminantInjective(a: Level, b: Level)
    ensures Discriminant(Trace) == 0 && Discriminant(Audit) == 6
    ensures Discriminant(a) == Discriminant(b) ==> a == b
  {
  }

  /** The incoming config with the nineteen structural fields of the running one. */
  function Retained(incoming: Config, running: Config): Config {
    running.(level := incoming.level, sinks := incoming.sinks, configPath := incoming.configPath)
  }

  /** One structural field: the running value, and whether a restart is needed to change it. */
  method RetainField<T(==)>(incoming: T, running: T, restart: bool) returns (kept: T, restartRequired: bool)
    ensures kept == running && (restartRequired <==> restart || incoming != running)
  {
    kept, restartRequired := incoming, restart;
    if kept != running {
      kept := running;
      restartRequired := true;
    }
  }

  /** Equal in all nineteen structural fields. */
  predicate SameStructure(a: Config, b: Config) {
    a == Retained(a, b)
  }

  lemma StructureKept(incoming: Config, running: Config, start: Config)
    requires SameStructure(running, start)
    ensures SameStructure(Retained(incoming, running), start)
    ensures Retained(incoming, running).level == incoming.level && Retained(incoming, running).sinks == incoming.sinks
  {
  }

  method Retain(incoming: Config, running: Config) returns (effective: Config, restartRequired: bool)
    ensures effective == Retained(incoming, running)
    ensures restartRequired <==> effective != incoming
  {
    var performanceProfile, ringBufferSize, batchSize, enableSignature, enableAudit, sigSidecarPath, auditWormPath;
    var auditSecurityPath, shutdownPolicy, shutdownTimeoutMs;
    var keyRotationGracePeriodDays, ringBufferCoopHelping, pluginTrustStore, pluginTrustAnchor, pluginAllowRedPlugins;
    var pluginEnablePipeline, shm, watcher, encoding;
    restartRequired := false;
    performanceProfile, restartRequired :=
      RetainField(incoming.performanceProfile, running.performanceProfile, restartRequired);
    ringBufferSize, restartRequired := RetainField(incoming.ringBufferSize, running.ringBufferSize, restartRequired);
    batchSize, restartRequired := RetainField(incoming.batchSize, running.batchSize, restartRequired);
    enableSignature, restartRequired := RetainField(incoming.enableSignature, running.enableSignature, restartRequired);
    enableAudit, restartRequired := RetainField(incoming.enableAudit, running.enableAudit, restartRequired);
    sigSidecarPath, restartRequired := RetainField(incoming.sigSidecarPath, running.sigSidecarPath, restartRequired);
    auditWormPath, restartRequired := RetainField(incoming.auditWormPath, running.auditWormPath, restartRequired);
    auditSecurityPath, restartRequired :=
      RetainField(incoming.auditSecurityPath, running.auditSecurityPath, restartRequired);
    shutdownPolicy, restartRequired := RetainField(incoming.shutdownPolicy, running.shutdownPolicy, restartRequired);
    shutdownTimeoutMs, restartRequired :=
      RetainField(incoming.shutdownTimeoutMs, running.shutdownTimeoutMs, restartRequired);
    keyRotationGracePeriodDays, restartRequired :=
      RetainField(incoming.keyRotationGracePeriodDays, running.keyRotationGracePeriodDays, restartRequired);
    ringBufferCoopHelping, restartRequired :=
      RetainField(incoming.ringBufferCoopHelping, running.ringBufferCoopHelping, restartRequired);
    pluginTrustStore, restartRequired :=
      RetainField(incoming.pluginTrustStore, running.pluginTrustStore, restartRequired);
    pluginTrustAnchor, restartRequired :=
      RetainField(incoming.pluginTrustAnchor, running.pluginTrustAnchor, restartRequired);
    pluginAllowRedPlugins, restartRequired :=
      RetainField(incoming.pluginAllowRedPlugins, running.pluginAllowRedPlugins, restartRequired);
    pluginEnablePipeline, restartRequired :=
      RetainField(incoming.pluginEnablePipeline, running.pluginEnablePipeline, restartRequired);
    shm, restartRequired := RetainField(incoming.shm, running.shm, restartRequired);
    watcher, restartRequired := RetainField(incoming.watcher, running.watcher, restartRequired);
    encoding, restartRequired := RetainField(incoming.encoding, running.encoding, restartRequired);
    effective := Config(incoming.level, incoming.sinks, incoming.configPath,
      performanceProfile, ringBufferSize, batchSize, enableSignature, enableAudit, sigSidecarPath, auditWormPath,
      auditSecurityPath, shutdownPolicy, shutdownTimeoutMs, keyRotationGracePeriodDays, ringBufferCoopHelping,
      pluginTrustStore,
      pluginTrustAnchor, pluginAllowRedPlugins, pluginEnablePipeline, shm, watcher, encoding);
  }

  /** A reload request: the new config, and whether opening its sinks succeeds. */
  datatype Request = Request(config: Config, opens: bool)

  /** What the sink registry makes of a list of sinks, or `None` if it rejects them. */
  type Registry = SinkKinds -> Option<Fanout>

  predicate Applies(build: Registry, request: Request) {
    ParseCanonical(request.config.level).Some? && build(request.config.sinks).Some? && request.opens
  }

  function AfterReload(build: Registry, running: Config, request: Request): Config {
    if Applies(build, request) then Retained(request.config, running) else running
  }

  function ReloadOutcome(build: Registry, running: Config, request: Request): Result<(), ReloadError> {
    if ParseCanonical(request.config.level).None? || build(request.config.sinks).None? then Err(HotReloadInvalid)
    else if !request.opens then Err(HotReloadFailed)
    else if Retained(request.config, running) != request.config then Err(RestartRequired)
    else Ok(())
  }

  class Engine {
    const build: Registry
    const manager: HotReloadManager
    var config: Config
    var activeSink: Fanout
    var minLevel: Level
    var runtimeLevel: string
    var errors: nat
    var reloads: nat
    var statusEpoch: nat

    /** The configuration at start, and the sinks ever opened and closed, in order. */
    ghost const initial: Config
    ghost var openedSinks: seq<Fanout>
    ghost var closedSinks: seq<Fanout>

    /**
     The structural settings are those at start, the active sink and the levels follow the config, and every sink
     opened but the active one has been closed once.
     */
    ghost predicate Consistent()
      reads this
    {
      && SameStructure(config, initial)
      && build(config.sinks) == Some(activeSink)
      && ParseCanonical(config.level) == Some(minLevel) && runtimeLevel == config.level
      && openedSinks == closedSinks + [activeSink]
    }

    /** And every ticket begun has been completed, in order and once. */
    ghost predicate Valid()
      reads this, manager
    {
      Consistent() && manager.Valid() && manager.begun == manager.completed
    }

    constructor (build: Registry, config: Config)
      requires Applies(build, Request(config, true))
      ensures Valid() && fresh(manager) && this.build == build && this.config == initial == config
      ensures manager.recorded == [] && manager.begun == [] && errors == reloads == 0
    {
      this.build, this.config, initial := build, config, config;
      manager := new HotReloadManager();
      activeSink, minLevel, runtimeLevel := build(config.sinks).value, ParseCanonical(config.level).value, config.level;
      errors, reloads, statusEpoch := 0, 0, 1;
      openedSinks, closedSinks := [build(config.sinks).value], [];
    }

    static method Init(build: Registry, request: Request) returns (r: Option<Engine>)
      ensures r.Some? <==> Applies(build, request)
      ensures r.Some? ==> fresh(r.value) && fresh(r.value.manager) && r.value.Valid() && r.value.build == build
      ensures r.Some? ==> r.value.config == r.value.initial == request.config
    {
      if ParseCanonical(request.config.level).None? || build(request.config.sinks).None? || !request.opens {
        return None;
      }
      var engine := new Engine(build, request.config);
      return Some(engine);
    }

    /** Applies the request or leaves the running configuration as it is; either way its ticket is completed. */
    method ReloadConfig(request: Request) returns (r: Result<(), ReloadError>)
      requires Valid()
      modifies this, manager
      ensures Valid()
      ensures r == ReloadOutcome(build, old(config), request)
      ensures config == AfterReload(build, old(config), request)
      ensures ["TRACE", "DEBUG", "INFO", "WARN", "ERROR", "FATAL", "AUDIT"][Discriminant(minLevel)] == config.level
      ensures runtimeLevel == config.level
      ensures !Applies(build, request) ==>
                activeSink == old(activeSink) && openedSinks == old(openedSinks) && closedSinks == old(closedSinks)
      ensures Applies(build, request) ==> openedSinks == old(openedSinks) + [activeSink]
      ensures ParseCanonical(request.config.level).None? ==>
                errors == old(errors) + 1 && reloads == old(reloads) && unchanged(manager)
      ensures ParseCanonical(request.config.level).Some? ==>
                && errors == old(errors) && reloads == old(reloads) + 1 && statusEpoch == old(manager.epoch)
                && manager.begun == old(manager.begun) + [old(manager.epoch)] && manager.epoch == old(manager.epoch) + 1
                && manager.recorded ==
                     old(manager.recorded) + [HotReload.Outcome(Ticket(statusEpoch, statusEpoch), r.Ok?, r.Err?)]
    {
      var newLevel := ParseCanonical(request.config.level);
      ParseCanonicalIsPosition(config.level);
      ParseCanonicalIsPosition(request.config.level);
      if newLevel.None? {
        errors := errors + 1;
        return Err(HotReloadInvalid);
      }
      var ticket := manager.BeginConfigReload();
      statusEpoch := ticket.epoch;
      reloads := reloads + 1;
      r := Apply(request, newLevel.value);
      var _ := manager.CompleteConfigReload(ticket, r.Ok?, r.Err?);
    }

    /** Builds and opens the new sinks, then swaps sink, config and level. */
    method Apply(request: Request, newLevel: Level) returns (r: Result<(), ReloadError>)
      requires Consistent() && ParseCanonical(request.config.level) == Some(newLevel)
      modifies this`config, this`activeSink, this`minLevel, this`runtimeLevel, this`openedSinks, this`closedSinks
      ensures Consistent()
      ensures r == ReloadOutcome(build, old(config), request)
      ensures config == AfterReload(build, old(config), request)
      ensures !Applies(build, request) ==>
                activeSink == old(activeSink) && openedSinks == old(openedSinks) && closedSinks == old(closedSinks)
      ensures Applies(build, request) ==> openedSinks == old(openedSinks) + [activeSink]
    {
      var effective, restartRequired := Retain(request.config, config);
      StructureKept(request.config, config, initial);
      var newSink := build(effective.sinks);
      if newSink.None? { return Err(HotReloadInvalid); }
      if !request.opens { return Err(HotReloadFailed); }
      closedSinks := closedSinks + [activeSink];
      activeSink := newSink.value;
      openedSinks := openedSinks + [activeSink];
      config := effective;
      minLevel := newLevel;
      runtimeLevel := config.level;
      return if restartRequired then Err(RestartRequired) else Ok(());
    }
  }

  // ---------------------------------------------------------------------------------------------
  // Runs
  // ---------------------------------------------------------------------------------------------

  /** The configuration after a run of reloads. */
  function AfterRun(build: Registry, start: Config, requests: seq<Request>): Config {
    if requests == [] then start
    else AfterReload(build, AfterRun(build, start, requests[..|requests| - 1]), requests[|requests| - 1])
  }

  /** The last request of a run that is applied. */
  function LastApplied(build: Registry, requests: seq<Request>): Option<Request> {
    if requests == [] then None
    else if Applies(build, requests[|requests| - 1]) then Some(requests[|requests| - 1])
    else LastApplied(build, requests[..|requests| - 1])
  }

  /**
   A run leaves the configuration at start with level, sinks and path of its last applied request, whatever came
   before.
   */
  lemma {:induction false} OnlyTheLastAppliedRequestMatters(build: Registry, start: Config, requests: seq<Request>)
    ensures AfterRun(build, start, requests) ==
              match LastApplied(build, requests)
              case None => start
              case Some(request) => Retained(request.config, start)
  {
    if requests != [] {
      OnlyTheLastAppliedRequestMatters(build, start, requests[..|requests| - 1]);
    }
  }

  /**
   What a request returns does not depend on the requests before it, and no rejected one changes the result of
   another.
   */
  lemma OutcomeIsIndependentOfHistory(build: Registry, start: Config, requests: seq<Request>,
      next: Request)
    ensures ReloadOutcome(build, AfterRun(build, start, requests), next) == ReloadOutcome(build, start, next)
  {
    OnlyTheLastAppliedRequestMatters(build, start, requests);
  }

  /** `reload_config` returns success exactly when the request takes effect in full. */
  lemma OkExactlyWhenInFullEffect(build: Registry, start: Config, requests: seq<Request>,
      next: Request)
    ensures ReloadOutcome(build, AfterRun(build, start, requests), next).Ok?
       <==> Applies(build, next) && AfterRun(build, start, requests + [next]) == next.config
  {
    assert (requests + [next])[..|requests|] == requests;
  }

  // ---------------------------------------------------------------------------------------------
  // Field by field
  // ---------------------------------------------------------------------------------------------

  /** Level name, sinks and opening are all accepted. */
  predicate Acceptable(build: Registry, request: Request) {
    && request.config.level in ["TRACE", "DEBUG", "INFO", "WARN", "ERROR", "FATAL", "AUDIT"]
    && build(request.config.sinks).Some? && request.opens
  }

  /** What a reload changes: level, sinks and path, if the request is acceptable, and never anything else. */
  lemma ReloadFieldByField(build: Registry, running: Config, request: Request)
    ensures var after, incoming, ok := AfterReload(build, running, request), request.config, Acceptable(build, request);
            && after.level == (if ok then incoming.level else running.level)
            && after.sinks == (if ok then incoming.sinks else running.sinks)
            && after.configPath == (if ok then incoming.configPath else running.configPath)
            && after.performanceProfile == running.performanceProfile
            && after.ringBufferSize == running.ringBufferSize && after.batchSize == running.batchSize
            && after.enableSignature == running.enableSignature && after.enableAudit == running.enableAudit
            && after.sigSidecarPath == running.sigSidecarPath && after.auditWormPath == running.auditWormPath
            && after.auditSecurityPath == running.auditSecurityPath
            && after.shutdownPolicy == running.shutdownPolicy
            && after.shutdownTimeoutMs == running.shutdownTimeoutMs
            && after.keyRotationGracePeriodDays == running.keyRotationGracePeriodDays
            && after.ringBufferCoopHelping == running.ringBufferCoopHelping
            && after.pluginTrustStore == running.pluginTrustStore
            && after.pluginTrustAnchor == running.pluginTrustAnchor
            && after.pluginAllowRedPlugins == running.pluginAllowRedPlugins
            && after.pluginEnablePipeline == running.pluginEnablePipeline && after.shm == running.shm
            && after.watcher == running.watcher && after.encoding == running.encoding
  {
    ParseCanonicalIsPosition(request.config.level);
  }

  predicate AgreeUntilRestart(a: Config, b: Config) {
    && a.performanceProfile == b.performanceProfile && a.ringBufferSize == b.ringBufferSize
    && a.batchSize == b.batchSize && a.enableSignature == b.enableSignature && a.enableAudit == b.enableAudit
    && a.sigSidecarPath == b.sigSidecarPath && a.auditWormPath == b.auditWormPath
    && a.auditSecurityPath == b.auditSecurityPath && a.shutdownPolicy == b.shutdownPolicy
    && a.shutdownTimeoutMs == b.shutdownTimeoutMs
    && a.keyRotationGracePeriodDays == b.keyRotationGracePeriodDays
    && a.ringBufferCoopHelping == b.ringBufferCoopHelping && a.pluginTrustStore == b.pluginTrustStore
    && a.pluginTrustAnchor == b.pluginTrustAnchor && a.pluginAllowRedPlugins == b.pluginAllowRedPlugins
    && a.pluginEnablePipeline == b.pluginEnablePipeline && a.shm == b.shm && a.watcher == b.watcher
    && a.encoding == b.encoding
  }

  /** What a reload returns: the first of three failures, or success if nothing needs a restart. */
  lemma OutcomeExactly(build: Registry, running: Config, request: Request)
    ensures var r, level := ReloadOutcome(build, running, request), request.config.level;
            var known := level in ["TRACE", "DEBUG", "INFO", "WARN", "ERROR", "FATAL", "AUDIT"];
            && (r == Err(HotReloadInvalid) <==> !known || build(request.config.sinks).None?)
            && (r == Err(HotReloadFailed) <==> known && build(request.config.sinks).Some? && !request.opens)
            && (r == Err(RestartRequired) <==>
                  Acceptable(build, request) && !AgreeUntilRestart(request.config, running))
            && (r.Ok? <==> Acceptable(build, request) && AgreeUntilRestart(request.config, running))
  {
    ParseCanonicalIsPosition(request.config.level);
  }
}
