/** The configuration a fixture runs from, and the rewrite of its mappings
    into the ones handed to the dependency-graph engine
    (`FixtureRunner::CreateDAGMappings`).

    Feedback avoidance: a served actuator `A` is both an input (the value a
    controller commands) and an output (the value the fixture publishes).
    The engine sees the commanded value under the key `A + ".target"`, so a
    mapping that depends on `A` is rewritten to depend on `A.target`, and
    every served actuator gets a synthetic external-input entry `A.target`. */
module DagMappings {
  import opened Wrappers
  import opened Substitution

  /** Declared value type of a signal; `Unspecified` is the engine's
      "no type declared". */
  datatype ValueType =
    | Unspecified | Boolean | Int8 | Int16 | Int32 | Int64
    | UInt8 | UInt16 | UInt32 | UInt64 | Float | Double | Text

  /** Where the engine takes an input signal from: a kind and a path. */
  datatype SignalSource = SignalSource(kind: string, path: string)

  /** How a mapping computes its output: a code expression is the only kind
      the fixture runner inspects; the engine's other kinds are carried opaque. */
  datatype Transform = Direct | Code(expression: string) | Other(descriptor: string)

  /** One engine mapping (`vssdag::SignalMapping`). */
  datatype SignalMapping = SignalMapping(
    dataType: ValueType,
    dependsOn: seq<string>,
    intervalMs: int,
    source: Option<SignalSource>,
    transform: Transform)

  /** The loaded fixture: its name, the actuators it serves (in file order,
      duplicates kept) and the user mappings keyed by output signal. */
  datatype FixtureConfig = FixtureConfig(
    name: string,
    serves: seq<string>,
    mappings: map<string, SignalMapping>)

  const TargetSuffix: string := ".target"

  /** Source kind of the synthetic actuator-target inputs. */
  const ActuatorSourceKind: string := "actuator"

  /** The engine-side key for the commanded value of actuator `a`. */
  function TargetKey(a: string): string
  {
    a + TargetSuffix
  }

  lemma TargetKeyInjective(a: string, b: string)
    requires TargetKey(a) == TargetKey(b)
    ensures a == b
  {
    assert a == TargetKey(a)[..|a|];
    assert b == TargetKey(b)[..|b|];
  }

  /** The target keys of all served actuators. */
  function TargetKeys(serves: seq<string>): set<string>
  {
    set a | a in serves :: TargetKey(a)
  }

  /** `depends_on` rewrite: same length and order; served actuators get the
      target suffix, every other dependency is kept. */
  function RewriteDeps(deps: seq<string>, serves: seq<string>): (r: seq<string>)
    ensures |r| == |deps|
    ensures forall i :: 0 <= i < |deps| && deps[i] in serves ==> r[i] == TargetKey(deps[i])
    ensures forall i :: 0 <= i < |deps| && deps[i] !in serves ==> r[i] == deps[i]
  {
    if |deps| == 0 then []
    else
      [if deps[0] in serves then TargetKey(deps[0]) else deps[0]]
        + RewriteDeps(deps[1..], serves)
  }

  /** `deps["A"]` — the double-quoted reference to actuator `A` in code. */
  function DoubleQuotedRef(a: string): string { "deps[\"" + a + "\"]" }
  /** `deps['A']` — the single-quoted reference to actuator `A` in code. */
  function SingleQuotedRef(a: string): string { "deps['" + a + "']" }

  /** Rewriting the code for one actuator: the double-quoted form first, then
      the single-quoted one. Each pass is the greedy literal/reference
      decomposition of its input, rendered with the target form in place of
      every reference. */
  function RewriteCodeFor(code: string, a: string): (r: string)
    ensures var c := Render(Scan(code, DoubleQuotedRef(a)), DoubleQuotedRef(TargetKey(a)));
      r == Render(Scan(c, SingleQuotedRef(a)), SingleQuotedRef(TargetKey(a)))
  {
    var c := ReplaceAll(code, DoubleQuotedRef(a), DoubleQuotedRef(TargetKey(a)));
    ReplaceAllRendersScan(code, DoubleQuotedRef(a), DoubleQuotedRef(TargetKey(a)));
    ReplaceAllRendersScan(c, SingleQuotedRef(a), SingleQuotedRef(TargetKey(a)));
    ReplaceAll(c, SingleQuotedRef(a), SingleQuotedRef(TargetKey(a)))
  }

  /** Rewriting the code for every served actuator, in `serves` order. */
  function RewriteCode(code: string, serves: seq<string>): string
    decreases |serves|
  {
    if |serves| == 0 then code
    else RewriteCode(RewriteCodeFor(code, serves[0]), serves[1..])
  }

  /** The fold runs in list order: the last served actuator's rewrite applies
      to the result of rewriting for all the ones before it. */
  lemma {:induction false} RewriteCodeInOrder(code: string, serves: seq<string>, a: string)
    ensures RewriteCode(code, serves + [a]) == RewriteCodeFor(RewriteCode(code, serves), a)
    decreases |serves|
  {
    if |serves| == 0 {
      assert [] + [a] == [a];
      assert [a][1..] == [];
    } else {
      assert (serves + [a])[0] == serves[0];
      assert (serves + [a])[1..] == serves[1..] + [a];
      RewriteCodeInOrder(RewriteCodeFor(code, serves[0]), serves[1..], a);
    }
  }

  /** Whether `code` mentions actuator `a` in either reference form. */
  ghost predicate MentionsActuator(code: string, a: string)
  {
    exists j: nat :: OccursAt(code, DoubleQuotedRef(a), j) || OccursAt(code, SingleQuotedRef(a), j)
  }

  /** One user mapping as handed to the engine: only `depends_on` and a code
      expression are rewritten; type, interval, source and any other kind of
      transform are copied. */
  function RewriteMapping(m: SignalMapping, serves: seq<string>): (r: SignalMapping)
    ensures r.dataType == m.dataType && r.intervalMs == m.intervalMs && r.source == m.source
    ensures r.dependsOn == RewriteDeps(m.dependsOn, serves)
    ensures m.transform.Code? ==> r.transform == Code(RewriteCode(m.transform.expression, serves))
    ensures !m.transform.Code? ==> r.transform == m.transform
  {
    var deps := RewriteDeps(m.dependsOn, serves);
    match m.transform
    case Code(e) => m.(dependsOn := deps, transform := Code(RewriteCode(e, serves)))
    case _ => m.(dependsOn := deps)
  }

  /** The synthetic external-input entry for actuator `a`: a default mapping
      whose type is left unspecified and whose source is the actuator target. */
  function TargetInput(a: string): (m: SignalMapping)
    ensures m.dependsOn == [] && m.dataType == Unspecified
    ensures m.source.Some? && m.source.value.kind == ActuatorSourceKind && m.source.value.path == TargetKey(a)
  {
    SignalMapping(Unspecified, [], 0, Some(SignalSource(ActuatorSourceKind, TargetKey(a))), Direct)
  }

  /** The second loop of the rewrite: add `A.target` for each served actuator
      in order, unless the key is already present. */
  function AddTargetInputs(dag: map<string, SignalMapping>, serves: seq<string>): (r: map<string, SignalMapping>)
    ensures r.Keys == dag.Keys + TargetKeys(serves)
    ensures forall k :: k in dag ==> r[k] == dag[k]
    ensures forall a :: a in serves && TargetKey(a) !in dag ==> r[TargetKey(a)] == TargetInput(a)
    decreases |serves|
  {
    if |serves| == 0 then dag
    else
      var a := serves[0];
      var next := if TargetKey(a) in dag then dag else dag[TargetKey(a) := TargetInput(a)];
      var r := AddTargetInputs(next, serves[1..]);
      assert TargetKeys(serves) == {TargetKey(a)} + TargetKeys(serves[1..]) by {
        assert serves == [a] + serves[1..];
      }
      forall b | b in serves && TargetKey(b) !in dag ensures r[TargetKey(b)] == TargetInput(b) {
        if TargetKey(b) == TargetKey(a) {
          TargetKeyInjective(a, b);
        } else {
          assert b in serves[1..];
        }
      }
      r
  }

  /** `FixtureRunner::CreateDAGMappings`. */
  function CreateDagMappings(cfg: FixtureConfig): (r: map<string, SignalMapping>)
    ensures r.Keys == cfg.mappings.Keys + TargetKeys(cfg.serves)
    ensures forall k :: k in cfg.mappings ==> r[k] == RewriteMapping(cfg.mappings[k], cfg.serves)
    ensures forall a :: a in cfg.serves && TargetKey(a) !in cfg.mappings ==>
      && r[TargetKey(a)].dependsOn == []
      && r[TargetKey(a)].dataType == Unspecified
      && r[TargetKey(a)].source == Some(SignalSource(ActuatorSourceKind, TargetKey(a)))
  {
    var user := map k | k in cfg.mappings :: RewriteMapping(cfg.mappings[k], cfg.serves);
    AddTargetInputs(user, cfg.serves)
  }

  /** Code that references no served actuator is handed to the engine as is. */
  lemma {:induction false} RewriteCodeUnmentioned(code: string, serves: seq<string>)
    requires forall a :: a in serves ==> !MentionsActuator(code, a)
    ensures RewriteCode(code, serves) == code
    decreases |serves|
  {
    if |serves| > 0 {
      var a := serves[0];
      forall j: nat ensures !OccursAt(code, DoubleQuotedRef(a), j) {
        assert !MentionsActuator(code, a);
      }
      ReplaceAllNoOccurrence(code, DoubleQuotedRef(a), DoubleQuotedRef(TargetKey(a)));
      forall j: nat ensures !OccursAt(code, SingleQuotedRef(a), j) {
        assert !MentionsActuator(code, a);
      }
      ReplaceAllNoOccurrence(code, SingleQuotedRef(a), SingleQuotedRef(TargetKey(a)));
      assert RewriteCodeFor(code, a) == code;
      forall b | b in serves[1..] ensures !MentionsActuator(code, b) {
        assert b in serves;
      }
      RewriteCodeUnmentioned(code, serves[1..]);
    }
  }

  /** Feedback avoidance: unless a served actuator is itself named like the
      target key of another served actuator, no rewritten user mapping depends
      on a served actuator's published value. */
  lemma NoDependencyOnServedActuator(cfg: FixtureConfig, k: string, d: string)
    requires forall a :: a in cfg.serves ==> TargetKey(a) !in cfg.serves
    requires k in cfg.mappings
    requires d in CreateDagMappings(cfg)[k].dependsOn
    ensures d !in cfg.serves
  {
    var deps := cfg.mappings[k].dependsOn;
    var r := CreateDagMappings(cfg)[k].dependsOn;
    var i :| 0 <= i < |r| && r[i] == d;
    assert i < |deps|;
  }

  /** The actuation of a served actuator reaches the engine under a key the
      engine knows: a user mapping of that name if there is one, otherwise
      the synthetic input whose source is that very key. */
  lemma ActuationKeyIsKnown(cfg: FixtureConfig, a: string)
    requires a in cfg.serves
    ensures TargetKey(a) in CreateDagMappings(cfg)
    ensures TargetKey(a) in cfg.mappings ==>
      CreateDagMappings(cfg)[TargetKey(a)] == RewriteMapping(cfg.mappings[TargetKey(a)], cfg.serves)
    ensures TargetKey(a) !in cfg.mappings ==>
      CreateDagMappings(cfg)[TargetKey(a)].source == Some(SignalSource(ActuatorSourceKind, TargetKey(a)))
  {
    assert TargetKey(a) in TargetKeys(cfg.serves);
  }
}
