/** Fail-fast start-up (`FixtureRunner::Start`), over the broker and the
    engine as oracles that answer ok or error.

    Start creates the resolver and the client, resolves every served actuator
    and every mapping output, registers a handler for each served actuator,
    initialises the engine with the rewritten mappings, starts the client and
    waits for it to be ready. The first failure ends the start with the runner
    not running; only when every step succeeds does it run. */
module Lifecycle {
  import opened Wrappers
  import opened DagMappings
  import opened Publisher

  /** The answers of the components start-up talks to. */
  datatype Environment = Environment(
    resolverCreated: bool,                          // Resolver::create
    clientCreated: bool,                            // Client::create
    resolve: string -> Option<Handle>,              // Resolver::get_dynamic
    engineAccepts: map<string, SignalMapping> -> bool,  // SignalProcessorDAG::initialize
    clientStarted: bool,                            // Client::start
    clientReady: bool)                              // Client::wait_until_ready

  /** The step at which a start gave up. */
  datatype StartFailure =
    | ResolverCreation
    | ClientCreation
    | Resolution(path: string)
    | Registration(path: string)
    | EngineInit
    | ClientStart
    | ClientNotReady

  /** What a start leaves behind: the running flag, the resolved handles, the
      actuators a handler was registered for (in registration order), the
      mappings handed to the engine, and the failure if any. */
  datatype StartState = StartState(
    running: bool,
    handles: map<string, Handle>,
    registered: seq<string>,
    engineMappings: Option<map<string, SignalMapping>>,
    failure: Option<StartFailure>)

  /** Every signal resolved at start: the served actuators and the outputs of
      the user mappings. The engine-only target keys are not among them. */
  function AllSignals(cfg: FixtureConfig): (r: set<string>)
    ensures forall p :: p in r <==> p in cfg.serves || p in cfg.mappings
  {
    (set a | a in cfg.serves) + cfg.mappings.Keys
  }

  ghost predicate AllResolve(cfg: FixtureConfig, env: Environment)
  {
    forall p :: p in AllSignals(cfg) ==> env.resolve(p).Some?
  }

  /** What the registration loop leaves: the actuators a handler was
      registered for, with their handles, and the actuator it stopped at. */
  datatype Registrations = Registrations(registered: seq<(string, Handle)>, missing: Option<string>)

  /** The registration loop: walks `serves` in order, registering each
      actuator with its handle, and stops at the first one without a handle;
      the ones before it stay registered. */
  function RegisterAll(serves: seq<string>, handles: map<string, Handle>): (r: Registrations)
    ensures |r.registered| <= |serves|
    ensures forall i :: 0 <= i < |r.registered| ==>
      serves[i] in handles && r.registered[i] == (serves[i], handles[serves[i]])
    ensures r.missing.None? ==> |r.registered| == |serves|
    ensures r.missing.Some? ==>
      |r.registered| < |serves| && serves[|r.registered|] == r.missing.value && r.missing.value !in handles
  {
    if |serves| == 0 then Registrations([], None)
    else if serves[0] !in handles then Registrations([], Some(serves[0]))
    else
      var rest := RegisterAll(serves[1..], handles);
      Registrations([(serves[0], handles[serves[0]])] + rest.registered, rest.missing)
  }

  /** After a successful resolution loop the guard never fires. */
  lemma RegistrationGuardUnreachable(cfg: FixtureConfig, handles: map<string, Handle>)
    requires handles.Keys == AllSignals(cfg)
    ensures RegisterAll(cfg.serves, handles).missing.None?
  {
  }

  /** `FixtureRunner::Start`. The resolution loop walks a hash set, so its
      order is left open. */
  method Start(cfg: FixtureConfig, env: Environment) returns (st: StartState)
    ensures st.running <==> st.failure.None?
    ensures st.running <==>
      && env.resolverCreated && env.clientCreated && AllResolve(cfg, env)
      && env.engineAccepts(CreateDagMappings(cfg)) && env.clientStarted && env.clientReady
    ensures !env.resolverCreated ==> st.failure == Some(ResolverCreation)
    ensures env.resolverCreated && !env.clientCreated ==> st.failure == Some(ClientCreation)
    ensures env.resolverCreated && env.clientCreated && !AllResolve(cfg, env) ==>
      st.failure.Some? && st.failure.value.Resolution?
    ensures env.resolverCreated && env.clientCreated && AllResolve(cfg, env) ==>
      && (!env.engineAccepts(CreateDagMappings(cfg)) ==> st.failure == Some(EngineInit))
      && (env.engineAccepts(CreateDagMappings(cfg)) && !env.clientStarted ==>
            st.failure == Some(ClientStart))
      && (env.engineAccepts(CreateDagMappings(cfg)) && env.clientStarted && !env.clientReady ==>
            st.failure == Some(ClientNotReady))
    ensures st.failure.Some? && st.failure.value.Resolution? ==>
      st.failure.value.path in AllSignals(cfg) && env.resolve(st.failure.value.path).None?
    ensures st.failure.Some? ==> !st.failure.value.Registration?
    ensures !(env.resolverCreated && env.clientCreated && AllResolve(cfg, env)) ==>
      st.registered == [] && st.engineMappings.None?
    ensures !(env.resolverCreated && env.clientCreated) ==> st.handles == map[]
    ensures env.resolverCreated && env.clientCreated && AllResolve(cfg, env) ==>
      && st.registered == cfg.serves
      && st.handles.Keys == AllSignals(cfg)
      && (forall p :: p in st.handles ==> env.resolve(p) == Some(st.handles[p]))
      && st.engineMappings == Some(CreateDagMappings(cfg))
  {
    st := StartState(false, map[], [], None, None);
    if !env.resolverCreated {
      st := st.(failure := Some(ResolverCreation));
      return;
    }
    if !env.clientCreated {
      st := st.(failure := Some(ClientCreation));
      return;
    }

    var all := AllSignals(cfg);
    var remaining := all;
    var handles: map<string, Handle> := map[];
    while remaining != {}
      invariant remaining <= all
      invariant handles.Keys == all - remaining
      invariant forall p :: p in handles ==> env.resolve(p) == Some(handles[p])
      decreases remaining
    {
      var p :| p in remaining;
      var h := env.resolve(p);
      if h.None? {
        st := st.(handles := handles, failure := Some(Resolution(p)));
        return;
      }
      handles := handles[p := h.value];
      remaining := remaining - {p};
    }
    st := st.(handles := handles);

    var regs := RegisterAll(cfg.serves, handles);
    if regs.missing.Some? {
      // "signal handle not resolved": every served actuator was resolved above
      RegistrationGuardUnreachable(cfg, handles);
      assert false;
    }
    var registrations := regs.registered;
    var registered := seq(|registrations|, i requires 0 <= i < |registrations| => registrations[i].0);
    st := st.(registered := registered);

    var mappings := CreateDagMappings(cfg);
    st := st.(engineMappings := Some(mappings));
    if !env.engineAccepts(mappings) {
      st := st.(failure := Some(EngineInit));
      return;
    }
    if !env.clientStarted {
      st := st.(failure := Some(ClientStart));
      return;
    }
    if !env.clientReady {
      st := st.(failure := Some(ClientNotReady));
      return;
    }
    st := st.(running := true);
  }

  /** `FixtureRunner::Stop` as seen by the tick loop: the runner no longer runs. */
  function Stop(st: StartState): (r: StartState)
    ensures !r.running
    ensures r.handles == st.handles && r.registered == st.registered
  {
    st.(running := false)
  }

  /** The engine-only target key of an actuator is never published: a
      successful start resolves only served actuators and mapping outputs. */
  lemma TargetKeyNeverPublished(cfg: FixtureConfig, st: StartState, a: string,
                                outputs: seq<VssSignal>, s: VssSignal)
    requires st.handles.Keys == AllSignals(cfg)
    requires TargetKey(a) !in cfg.serves && TargetKey(a) !in cfg.mappings
    requires s.path == TargetKey(a)
    ensures s !in Published(outputs, st.handles)
  {
    UnresolvedNeverPublished(outputs, st.handles, s);
  }
}
