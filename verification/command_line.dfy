/** The argument loop of `main`: two flags that each take the next argument
    as their value, defaults for both, everything else skipped.

    The reference reading splits the arguments after the program name into
    tokens, left to right: a flag followed by at least one more argument
    becomes a setting that consumes that argument, anything else (an unknown
    argument, or a flag in final position) is skipped. Each option is then the
    value of its last setting, or its default. */
module CommandLine {

  const KuksaFlag: string := "--kuksa"
  const ConfigFlag: string := "--config"
  const DefaultKuksaAddress: string := "databroker:55555"
  const DefaultConfigFile: string := "/app/fixture.yaml"

  /** The options `main` hands on: broker address and configuration path. */
  datatype Options = Options(kuksaAddress: string, configFile: string)

  predicate IsFlag(arg: string)
  {
    arg == KuksaFlag || arg == ConfigFlag
  }

  datatype Token = Set(flag: string, value: string) | Skip(arg: string)

  /** The arguments a token list stands for. */
  function Flatten(ts: seq<Token>): seq<string>
  {
    if |ts| == 0 then []
    else
      var head := match ts[0] case Set(f, v) => [f, v] case Skip(a) => [a];
      head + Flatten(ts[1..])
  }

  /** How many arguments the next token consumes: a flag with a value
      after it takes two, anything else one. */
  function Consumed(args: seq<string>): (n: nat)
    requires |args| > 0
    ensures 1 <= n <= |args|
  {
    if IsFlag(args[0]) && 1 < |args| then 2 else 1
  }

  /** The next token. */
  function NextToken(args: seq<string>): Token
    requires |args| > 0
  {
    if Consumed(args) == 2 then Set(args[0], args[1]) else Skip(args[0])
  }

  /** Left-to-right tokenisation of the arguments after the program name. */
  function Tokenize(args: seq<string>): seq<Token>
    decreases |args|
  {
    if |args| == 0 then [] else [NextToken(args)] + Tokenize(args[Consumed(args)..])
  }

  /** Every argument is accounted for exactly once, in order. */
  lemma {:induction false} TokenizeRoundTrip(args: seq<string>)
    ensures Flatten(Tokenize(args)) == args
    decreases |args|
  {
    if |args| > 0 {
      var n := Consumed(args);
      var head := NextToken(args);
      TokenizeRoundTrip(args[n..]);
      FlattenCons(head, Tokenize(args[n..]));
      FlattenCons(head, []);
      assert args == args[..n] + args[n..];
    }
  }

  /** Settings are made by flags only, and a flag is skipped only as the
      final token. */
  ghost predicate WellFormed(ts: seq<Token>)
  {
    && (forall k :: 0 <= k < |ts| && ts[k].Set? ==> IsFlag(ts[k].flag))
    && (forall k :: 0 <= k < |ts| - 1 ==> !(ts[k].Skip? && IsFlag(ts[k].arg)))
  }

  lemma {:induction false} TokenizeWellFormed(args: seq<string>)
    ensures WellFormed(Tokenize(args))
    decreases |args|
  {
    if |args| > 0 {
      var n := Consumed(args);
      var head := NextToken(args);
      var rest := Tokenize(args[n..]);
      TokenizeWellFormed(args[n..]);
      assert head.Skip? && IsFlag(head.arg) ==> rest == [];
      WellFormedCons(head, rest);
    }
  }

  lemma WellFormedCons(t: Token, ts: seq<Token>)
    requires WellFormed(ts)
    requires t.Set? ==> IsFlag(t.flag)
    requires t.Skip? && IsFlag(t.arg) ==> ts == []
    ensures WellFormed([t] + ts)
  {
    var r := [t] + ts;
    forall k | 1 <= k < |r| ensures r[k] == ts[k - 1] { }
  }

  lemma FlattenCons(t: Token, ts: seq<Token>)
    ensures Flatten([t] + ts) == (match t case Set(f, v) => [f, v] case Skip(a) => [a]) + Flatten(ts)
  {
    assert ([t] + ts)[1..] == ts;
  }

  /** The value of the last setting of `flag`, or `default` if there is none. */
  function LastValue(ts: seq<Token>, flag: string, default: string): string
  {
    if |ts| == 0 then default
    else if ts[|ts| - 1].Set? && ts[|ts| - 1].flag == flag then ts[|ts| - 1].value
    else LastValue(ts[..|ts| - 1], flag, default)
  }

  /** The arguments after the program name. */
  function UserArgs(argv: seq<string>): seq<string>
  {
    if |argv| <= 1 then [] else argv[1..]
  }

  /** The options an argument vector settles on: for each option, the value
      of its last setting, or the default. */
  function SettledOptions(argv: seq<string>): Options
  {
    var ts := Tokenize(UserArgs(argv));
    Options(LastValue(ts, KuksaFlag, DefaultKuksaAddress), LastValue(ts, ConfigFlag, DefaultConfigFile))
  }

  /** The arguments end in a flag that had nothing left to consume. */
  predicate EndsWithDanglingFlag(args: seq<string>)
  {
    var ts := Tokenize(args);
    |ts| > 0 && ts[|ts| - 1].Skip? && IsFlag(ts[|ts| - 1].arg)
  }

  /** Tokenising stops at token boundaries: what follows a list that does not
      end in a dangling flag is tokenised on its own. */
  lemma {:induction false} TokenizeAppend(xs: seq<string>, ys: seq<string>)
    requires !EndsWithDanglingFlag(xs)
    ensures Tokenize(xs + ys) == Tokenize(xs) + Tokenize(ys)
    decreases |xs|
  {
    if |xs| == 0 {
      assert xs + ys == ys;
    } else {
      var n := Consumed(xs);
      var rest := Tokenize(xs[n..]);
      assert Tokenize(xs) == [NextToken(xs)] + rest;
      if |rest| > 0 {
        assert Tokenize(xs)[|Tokenize(xs)| - 1] == rest[|rest| - 1];
      } else {
        assert Tokenize(xs) == [NextToken(xs)];
      }
      assert Consumed(xs + ys) == n && NextToken(xs + ys) == NextToken(xs) by {
        assert (xs + ys)[0] == xs[0];
        assert n == 2 ==> (xs + ys)[1] == xs[1];
      }
      assert (xs + ys)[n..] == xs[n..] + ys;
      TokenizeAppend(xs[n..], ys);
    }
  }

  /** A flag's value is consumed whole: even when it looks like a flag it is
      taken as the value, and the arguments after it are read afresh. */
  lemma ConsumedValueNotAFlag(xs: seq<string>, f: string, v: string, ys: seq<string>)
    requires !EndsWithDanglingFlag(xs)
    requires IsFlag(f)
    ensures Tokenize(xs + [f, v] + ys) == Tokenize(xs) + [Set(f, v)] + Tokenize(ys)
  {
    assert xs + [f, v] + ys == xs + ([f, v] + ys);
    TokenizeAppend(xs, [f, v] + ys);
    assert ([f, v] + ys)[2..] == ys;
  }

  /** Without either flag among the arguments, every token is a skip. */
  lemma {:induction false} NoFlagsAllSkipped(args: seq<string>)
    requires forall k :: 0 <= k < |args| ==> !IsFlag(args[k])
    ensures forall k :: 0 <= k < |Tokenize(args)| ==> Tokenize(args)[k].Skip?
    decreases |args|
  {
    if |args| > 0 {
      NoFlagsAllSkipped(args[1..]);
      assert Tokenize(args)[1..] == Tokenize(args[1..]);
    }
  }

  lemma {:induction false} LastValueWithoutSettings(ts: seq<Token>, flag: string, default: string)
    requires forall k :: 0 <= k < |ts| ==> ts[k].Skip?
    ensures LastValue(ts, flag, default) == default
    decreases |ts|
  {
    if |ts| > 0 {
      LastValueWithoutSettings(ts[..|ts| - 1], flag, default);
    }
  }

  /** Without either flag among the arguments, both defaults stand. */
  lemma DefaultsWithoutFlags(argv: seq<string>)
    requires forall k :: 0 <= k < |UserArgs(argv)| ==> !IsFlag(UserArgs(argv)[k])
    ensures SettledOptions(argv) == Options(DefaultKuksaAddress, DefaultConfigFile)
  {
    NoFlagsAllSkipped(UserArgs(argv));
    LastValueWithoutSettings(Tokenize(UserArgs(argv)), KuksaFlag, DefaultKuksaAddress);
    LastValueWithoutSettings(Tokenize(UserArgs(argv)), ConfigFlag, DefaultConfigFile);
  }

  /** The last occurrence wins: a further `--kuksa X` sets the address to `X`
      and leaves the configuration path alone. */
  lemma LastKuksaWins(argv: seq<string>, x: string)
    requires |argv| >= 1 && !EndsWithDanglingFlag(UserArgs(argv))
    ensures SettledOptions(argv + [KuksaFlag, x]) == SettledOptions(argv).(kuksaAddress := x)
  {
    assert UserArgs(argv + [KuksaFlag, x]) == UserArgs(argv) + [KuksaFlag, x];
    ConsumedValueNotAFlag(UserArgs(argv), KuksaFlag, x, []);
    assert UserArgs(argv) + [KuksaFlag, x] + [] == UserArgs(argv) + [KuksaFlag, x];
    assert Tokenize([]) == [];
    assert Tokenize(UserArgs(argv + [KuksaFlag, x])) == Tokenize(UserArgs(argv)) + [Set(KuksaFlag, x)];
    LastValueAppend(Tokenize(UserArgs(argv)), Set(KuksaFlag, x), KuksaFlag, DefaultKuksaAddress);
    LastValueAppend(Tokenize(UserArgs(argv)), Set(KuksaFlag, x), ConfigFlag, DefaultConfigFile);
  }

  /** The last occurrence wins for `--config X` likewise. */
  lemma LastConfigWins(argv: seq<string>, x: string)
    requires |argv| >= 1 && !EndsWithDanglingFlag(UserArgs(argv))
    ensures SettledOptions(argv + [ConfigFlag, x]) == SettledOptions(argv).(configFile := x)
  {
    assert UserArgs(argv + [ConfigFlag, x]) == UserArgs(argv) + [ConfigFlag, x];
    ConsumedValueNotAFlag(UserArgs(argv), ConfigFlag, x, []);
    assert UserArgs(argv) + [ConfigFlag, x] + [] == UserArgs(argv) + [ConfigFlag, x];
    assert Tokenize([]) == [];
    assert Tokenize(UserArgs(argv + [ConfigFlag, x])) == Tokenize(UserArgs(argv)) + [Set(ConfigFlag, x)];
    LastValueAppend(Tokenize(UserArgs(argv)), Set(ConfigFlag, x), KuksaFlag, DefaultKuksaAddress);
    LastValueAppend(Tokenize(UserArgs(argv)), Set(ConfigFlag, x), ConfigFlag, DefaultConfigFile);
  }

  /** A single final argument changes nothing: an unknown one is skipped, and
      a flag in final position has no value to take. */
  lemma FinalArgumentIgnored(argv: seq<string>, a: string)
    requires |argv| >= 1 && !EndsWithDanglingFlag(UserArgs(argv))
    ensures SettledOptions(argv + [a]) == SettledOptions(argv)
  {
    assert UserArgs(argv + [a]) == UserArgs(argv) + [a];
    TokenizeAppend(UserArgs(argv), [a]);
    LastValueAppend(Tokenize(UserArgs(argv)), Skip(a), KuksaFlag, DefaultKuksaAddress);
    LastValueAppend(Tokenize(UserArgs(argv)), Skip(a), ConfigFlag, DefaultConfigFile);
  }

  /** `--kuksa --config x.yaml`: the address becomes `--config`, which is not
      read as a flag, and `x.yaml` is an unknown argument. */
  lemma ConsumedFlagExample()
    ensures SettledOptions(["fixture-runner", KuksaFlag, ConfigFlag, "x.yaml"])
      == Options(ConfigFlag, DefaultConfigFile)
  {
    var args := [KuksaFlag, ConfigFlag, "x.yaml"];
    assert UserArgs(["fixture-runner", KuksaFlag, ConfigFlag, "x.yaml"]) == args;
    assert !IsFlag("x.yaml");
    assert args[2..] == ["x.yaml"];
    assert Tokenize(["x.yaml"]) == [Skip("x.yaml")] + Tokenize([]);
    assert Tokenize(args) == [Set(KuksaFlag, ConfigFlag), Skip("x.yaml")];
    var ts := [Set(KuksaFlag, ConfigFlag), Skip("x.yaml")];
    assert ts[..1] == [Set(KuksaFlag, ConfigFlag)] && ts[..1][..0] == [];
    assert |KuksaFlag| != |ConfigFlag|;
    assert LastValue(ts, KuksaFlag, DefaultKuksaAddress) == ConfigFlag;
    assert LastValue(ts, ConfigFlag, DefaultConfigFile) == LastValue(ts[..1], ConfigFlag, DefaultConfigFile);
    assert KuksaFlag != ConfigFlag;
    assert LastValue(ts[..1], ConfigFlag, DefaultConfigFile) == LastValue(ts[..1][..0], ConfigFlag, DefaultConfigFile);
  }

  /** One turn of the loop at position `i` reads the next token of the
      arguments from `i` on. */
  lemma LoopStep(argv: seq<string>, ts: seq<Token>, i: nat)
    requires 1 <= i < |argv|
    requires Tokenize(argv[1..]) == ts + Tokenize(argv[i..])
    ensures Consumed(argv[i..]) == if IsFlag(argv[i]) && i + 1 < |argv| then 2 else 1
    ensures NextToken(argv[i..])
      == if IsFlag(argv[i]) && i + 1 < |argv| then Set(argv[i], argv[i + 1]) else Skip(argv[i])
    ensures i + Consumed(argv[i..]) <= |argv|
    ensures Tokenize(argv[1..])
      == (ts + [NextToken(argv[i..])]) + Tokenize(argv[i + Consumed(argv[i..])..])
  {
    var rest := argv[i..];
    assert rest[0] == argv[i];
    if i + 1 < |argv| {
      assert rest[1] == argv[i + 1];
    }
    assert rest[Consumed(rest)..] == argv[i + Consumed(rest)..];
    assert Tokenize(rest) == [NextToken(rest)] + Tokenize(rest[Consumed(rest)..]);
  }

  lemma LastValueAppend(ts: seq<Token>, t: Token, flag: string, default: string)
    ensures LastValue(ts + [t], flag, default)
      == if t.Set? && t.flag == flag then t.value else LastValue(ts, flag, default)
  {
    assert (ts + [t])[..|ts|] == ts;
  }

  /** The loop of `main`, with `++i` consuming a flag's value. */
  method ParseArguments(argv: seq<string>) returns (opts: Options)
    ensures opts == SettledOptions(argv)
  {
    var kuksaAddress := DefaultKuksaAddress;
    var configFile := DefaultConfigFile;
    if |argv| <= 1 {
      assert Tokenize(UserArgs(argv)) == [];
      assert LastValue([], KuksaFlag, DefaultKuksaAddress) == kuksaAddress;
      assert LastValue([], ConfigFlag, DefaultConfigFile) == configFile;
      return Options(kuksaAddress, configFile);
    }
    ghost var ts: seq<Token> := [];
    var i := 1;
    while i < |argv|
      invariant 1 <= i <= |argv|
      invariant Tokenize(argv[1..]) == ts + Tokenize(argv[i..])
      invariant kuksaAddress == LastValue(ts, KuksaFlag, DefaultKuksaAddress)
      invariant configFile == LastValue(ts, ConfigFlag, DefaultConfigFile)
    {
      LoopStep(argv, ts, i);
      ghost var t := NextToken(argv[i..]);
      ghost var next := i + Consumed(argv[i..]);
      LastValueAppend(ts, t, KuksaFlag, DefaultKuksaAddress);
      LastValueAppend(ts, t, ConfigFlag, DefaultConfigFile);
      var arg := argv[i];
      if arg == KuksaFlag && i + 1 < |argv| {
        i := i + 1;
        kuksaAddress := argv[i];
      } else if arg == ConfigFlag && i + 1 < |argv| {
        i := i + 1;
        configFile := argv[i];
      }
      ts := ts + [t];
      i := i + 1;
      assert i == next;
    }
    assert argv[i..] == [];
    assert Tokenize(UserArgs(argv)) == ts + [] == ts;
    opts := Options(kuksaAddress, configFile);
  }
}
