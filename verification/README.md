# Hardware fixture runner — Dafny model

The fixture runner simulates vehicle actuators against a KUKSA databroker.
It claims a set of actuators ("serves"), receives their commanded (target)
values, and hands them to an external dependency-graph engine (vssdag). That
engine computes the effects, and the runner publishes them as actual values.
This project models the runner's own bookkeeping around the engine and the
broker client, and proves properties of it:

- **Mapping rewrite** (`DagMappings`). This is the feedback-avoidance mechanism.
  The engine sees the commanded value of actuator `A` under the key
  `A + ".target"`. A user mapping that depends on `A` is rewritten to depend on
  `A.target`. The references `deps["A"]` and `deps['A']` in a code transform are
  rewritten by a left-to-right, non-overlapping replace-all (`Substitution`).
  One synthetic external-input entry `A.target` is added per served actuator,
  unless a user mapping already has that key.
- **Fail-fast start** (`Lifecycle`). `Start` is a state machine over oracles
  for resolver creation, client creation, `get_dynamic` (path resolution),
  engine initialisation, client start and client readiness. The runner runs
  only when every step succeeds.
- **Publication** (`Publisher`). The periodic tick and the actuation handler
  publish the in-order subsequence of engine outputs that are valid and have
  a resolved handle. A rejected publish is only recorded and never stops the
  publishes after it.
- **Command line** (`CommandLine`). This is `main`'s argument loop: defaults,
  `--kuksa X` and `--config X`, with `++i` consuming the value.

The broker, the engine and the clock are parameters. The resolver is a
function `string -> Option<Handle>`. The engine is a function from the batch of
updates to its outputs. Publishing is a function from handle and value to
accepted/rejected. The monotonic clock reading is an `int` argument.

Behaviour of the code worth knowing:

- The actuation handler publishes inline, on the broker's callback thread.
  There is no queue and no hand-off to a worker.
- There is no per-item mirror-with-delay worker. All delays live inside the
  engine, and the runner only ticks it every 100 ms.
- The target/actual separation is a string suffix, not two structurally
  separate key spaces. A user mapping named `A.target` is therefore kept, and
  it receives the actuation of `A`.
- The answer of `serve_actuator` is not checked, so a refused registration
  does not stop the start. The model registers every served actuator
  unconditionally.
- Start-up resolves the served actuators and the user mapping outputs only.
  Dependencies are not resolved.
- A configuration without `serves` does not stop the start. `LoadConfig` only
  logs the problem. By the contract of `Lifecycle.Start`, an empty
  configuration then starts, and runs, whenever the broker calls and the
  engine's initialisation succeed.

## Model

| member | source | states |
|---|---|---|
| Substitution.Find | src/fixture_runner.cpp:75 | The answer of `code.find(search, pos)`: the first index at or after `pos` where the pattern occurs, no occurrence skipped before it; `None` (npos) only when no occurrence starts at or after `pos`. |
| Substitution.ReplaceAllInPlace | src/fixture_runner.cpp:74-78 | The in-place find/replace loop, resuming at `pos + replace.length()`, computes exactly the recursive left-to-right replace-all (inserted text is never rescanned). |
| Substitution.Scan | src/fixture_runner.cpp:75-77 | The scan's decomposition of the code into literal characters and pattern occurrences renders back to the original code. |
| Substitution.ScanIsGreedy | src/fixture_runner.cpp:75-77 | No literal character of the scan's decomposition starts an occurrence of the pattern: every occurrence the scan meets is replaced. |
| Substitution.GreedyIsScan | src/fixture_runner.cpp:75-77 | Any greedy decomposition of the text is the scan's: the set of replaced occurrences is uniquely determined. |
| Substitution.ReplaceAllRendersScan | src/fixture_runner.cpp:74-78 | Replace-all writes the replacement for every hit of the scan and copies all text between hits unchanged. |
| Substitution.ReplaceAllSpec | src/fixture_runner.cpp:74-78 | For every greedy decomposition of the code, the result is that decomposition with the replacement in place of each occurrence. |
| Substitution.ReplaceAllNoOccurrence | src/fixture_runner.cpp:75 | Code in which the searched reference does not occur comes back unchanged. |
| DagMappings.RewriteDeps | src/fixture_runner.cpp:57-64 | `depends_on` keeps its length and order; an entry naming a served actuator becomes `dep + ".target"`, every other entry is unchanged. |
| DagMappings.RewriteMapping | src/fixture_runner.cpp:54-90 | Only `depends_on` and a code expression change; datatype, interval, source and non-code transforms are copied from the user mapping. |
| DagMappings.AddTargetInputs | src/fixture_runner.cpp:95-106 | Adds exactly the keys `A.target` for the served actuators; entries already present are kept; a new `A.target` entry is the synthetic input for `A`. |
| DagMappings.CreateDagMappings | src/fixture_runner.cpp:49-109 | Key set is the user mapping keys plus `A.target` for every served `A`; user keys map to their rewritten mapping; a synthetic `A.target` has empty `depends_on`, unspecified type and source `("actuator", A.target)`. |
| DagMappings.RewriteCodeFor | src/fixture_runner.cpp:70-86 | For one actuator, the double-quoted pass rewrites every reference the greedy scan finds to the `.target` form and copies the text between; the single-quoted pass then does the same on that result. |
| DagMappings.RewriteCodeInOrder | src/fixture_runner.cpp:70-87 | The per-actuator rewrites are applied in `serves` order: the last actuator's rewrite applies to the code already rewritten for all the actuators before it. |
| DagMappings.TargetInput | src/fixture_runner.cpp:99-104 | The synthetic input for `A` has no dependencies, an unspecified type, and an `actuator` source whose path is `A.target`. |
| DagMappings.RewriteCodeUnmentioned | src/fixture_runner.cpp:66-90 | Code that references no served actuator in either quoting style is handed to the engine unchanged, whatever the order of `serves`. |
| DagMappings.NoDependencyOnServedActuator | src/fixture_runner.cpp:56-64 | Feedback avoidance: unless a served actuator is itself named `B.target` for a served `B`, no rewritten user mapping depends on a served actuator's published value. |
| DagMappings.ActuationKeyIsKnown | src/fixture_runner.cpp:96-106 | The key `HandleActuation` feeds for a served actuator is always among the engine mappings: the user's mapping of that name if it exists, else the synthetic input whose source is that key. |
| Lifecycle.RegisterAll | src/fixture_runner.cpp:251-268 | The registration loop registers served actuators in `serves` order, each with its resolved handle, and stops at the first one without a handle, which it names; the actuators before it stay registered. Without a missing handle, every served actuator is registered. |
| Lifecycle.RegistrationGuardUnreachable | src/fixture_runner.cpp:232-258 | After a successful resolution of `serves ∪ keys(mappings)`, the "signal handle not resolved" guard cannot fire. |
| Lifecycle.Start | src/fixture_runner.cpp:213-302 | Running exactly when every step succeeds (resolver, client, every path of `serves ∪ keys(mappings)`, engine init with the rewritten mappings, start, ready); the failure names the first step that fails: `ResolverCreation`, else `ClientCreation`, else a `Resolution` of some unresolvable path of `serves ∪ keys(mappings)`, else `EngineInit`, `ClientStart` or `ClientNotReady`; a failure before the end of resolution registers nothing and initialises no engine, and a resolver or client creation failure resolves nothing; the registration failure never happens; after full resolution, the handles are exactly the resolved paths and every served actuator is registered in order. |
| Lifecycle.AllSignals | src/fixture_runner.cpp:233-236 | A path is resolved at start exactly when it is a served actuator or a user mapping key. |
| Lifecycle.Stop | src/fixture_runner.cpp:345-352 | After `Stop` the runner is no longer running; the handles and registrations are untouched. |
| Lifecycle.TargetKeyNeverPublished | src/fixture_runner.cpp:232-236 | When `A.target` is neither a served actuator nor a user mapping key, an engine output on that path is never published after a start, because start-up never resolves it. |
| Publisher.PublishOutputs | src/fixture_runner.cpp:317-334 | The loop publishes exactly the valid, resolved outputs in engine order, each with its own handle and value, recording the broker's answer per item. |
| Publisher.PublishedMembers | src/fixture_runner.cpp:317-327 | An output is published if and only if it is among the engine's outputs, its value is valid and its path has a handle. |
| Publisher.PublishedAppend | src/fixture_runner.cpp:317-334 | The order is kept: two consecutive batches of outputs are published as the first batch's items, then the second's. |
| Publisher.PublishedCounts | src/fixture_runner.cpp:317-334 | Nothing is dropped or duplicated: each publishable output is published as many times as the engine produced it, any other output never. |
| Publisher.PublishFailureDoesNotStop | src/fixture_runner.cpp:330-333 | A broker that rejects every publish receives the same publish calls, item for item (path, handle and value), as a broker answering in any other way. |
| Publisher.Tick | src/fixture_runner.cpp:313-334 | One tick queries the engine with no updates and publishes its valid, resolved outputs in order. |
| Publisher.HandleActuation | src/fixture_runner.cpp:356-411 | An actuation feeds the engine one VALID update on `actuator + ".target"` with the commanded value and current time, then publishes the engine's valid, resolved outputs in order. |
| Publisher.UnresolvedNeverPublished | src/fixture_runner.cpp:397-401 | An output whose path has no handle is never published. |
| CommandLine.ParseArguments | src/fixture_runner.cpp:420-431 | `main`'s loop settles each option to the value of its last setting in the left-to-right tokenisation of the arguments after the program name, or to its default. |
| CommandLine.TokenizeRoundTrip | src/fixture_runner.cpp:424-431 | Every argument after the program name is accounted for exactly once, in order, as a flag with its value or a skipped argument. |
| CommandLine.TokenizeWellFormed | src/fixture_runner.cpp:426-429 | Only `--kuksa`/`--config` make settings, and a flag is skipped only when it is the final argument. |
| CommandLine.TokenizeAppend | src/fixture_runner.cpp:424-431 | Tokenisation resumes at token boundaries: arguments after a list that does not end in a dangling flag are read on their own. |
| CommandLine.ConsumedValueNotAFlag | src/fixture_runner.cpp:426-429 | A flag's value is consumed whole, even when it looks like a flag, and the arguments after it are read afresh. |
| CommandLine.DefaultsWithoutFlags | src/fixture_runner.cpp:420-421 | Without either flag, the options are `databroker:55555` and `/app/fixture.yaml`. |
| CommandLine.LastKuksaWins | src/fixture_runner.cpp:426-427 | A further `--kuksa X` sets the address to `X` and leaves the configuration path unchanged. |
| CommandLine.LastConfigWins | src/fixture_runner.cpp:428-429 | A further `--config X` sets the configuration path to `X` and leaves the address unchanged. |
| CommandLine.FinalArgumentIgnored | src/fixture_runner.cpp:424-431 | A single final argument, unknown or a flag without a value, changes neither option. |
| CommandLine.ConsumedFlagExample | src/fixture_runner.cpp:426-427 | `--kuksa --config x.yaml` sets the address to `--config`, keeps the default configuration path and skips `x.yaml`. |

## Left out

- `LoadConfig` (filesystem `stat`, YAML parsing, and the delay conversion by floating-point multiplication and truncation). Its result, `FixtureConfig`, is the model's input. The source logs a missing `fixture`/`serves`/`mappings` section and carries on with a partial configuration. The model starts from whatever configuration it is given.
- The vssdag engine. Expression evaluation, filters, timing and its internal state are external. Each call is modelled only by the outputs it returns for the batch of updates.
- The types defined by the engine and the broker library are not visible. The model makes these assumptions about them:
  - the transform variant's alternatives are `Direct | Code | Other`;
  - a default-constructed mapping, used for the synthetic entries, has `interval_ms` 0 and the `Direct` transform;
  - a mapping's `source` is optional, and is absent unless set;
  - `is_valid()` means quality VALID.
- The broker calls (`Resolver::create`, `Client::create`, `get_dynamic`, `start`, `wait_until_ready`, `publish`) are oracles answering ok or error. The 10-second readiness timeout is part of the readiness oracle.
- Lifecycle.Start: the resolution loop walks a hash set in unspecified order. The model picks the next path arbitrarily, so on a resolution failure it states only that the named path is unresolvable, not which one the real iteration order would hit first.
- The `Run` loop itself: the `while (running_)` repetition, the 100 ms `sleep_for`, and the unsynchronised `running_` flag. One iteration is `Publisher.Tick`.
- Threading. The callback thread that runs `HandleActuation` is not modelled, and neither is any concurrency between ticks and actuations.
- Logging, including the diagnostic listing of `get_required_input_signals` in `HandleActuation`.
- `IsRunning` is the `running` field of the start state.
- Lifecycle.Stop: the `client_->stop()` call is not modelled.
- The integration tests and their Docker/subprocess setup. They use a different, JSON-based configuration format.
