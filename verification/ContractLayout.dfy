/** How a contract is laid out as a JSON value: contractInput (shared/p2p-workflow-compiler.ts:51-61)
    and the types it is made of (shared/p2p-workflow-types.ts).  Its canonical form tells contracts
    apart. */
module ContractLayout {
  import opened Wrappers
  import opened Workflow
  import opened Json
  import opened PolicyJson
  import opened ContractJson
  import opened ContractNames

  // ---------------------------------------------------------------- artifacts

  const ARTIFACT_KEYS: seq<string> := ["convention", "paths", "permissionScope", "symlinkPolicy"]

  function ArtifactFields(a: Artifact): seq<Value> {
    [NameOf(ConventionName)(a.convention), TextsOf(a.paths), MaybeOf(NameOf(ScopeName), a.scope), MaybeOf(NameOf(SymlinkName), a.symlinks)]
  }

  function ArtifactOf(a: Artifact): Value {
    ObjectOf(ARTIFACT_KEYS, ArtifactFields(a))
  }

  lemma {:induction false} ArtifactKeys()
    ensures Differ(ARTIFACT_KEYS)
  {
    var k := ARTIFACT_KEYS;
    assert |k[0]| == 10 && |k[1]| == 5 && |k[2]| == 15 && |k[3]| == 13;
  }

  lemma {:induction false} ArtifactAgrees(a: Artifact, b: Artifact)
    requires Canonicalize(ArtifactOf(a)) == Canonicalize(ArtifactOf(b))
    ensures a == b
  {
    ArtifactKeys();
    var s, t := ArtifactFields(a), ArtifactFields(b);
    ObjectAgrees(ARTIFACT_KEYS, s, t);
    assert Canonicalize(s[0]) == Canonicalize(t[0]) && Canonicalize(s[1]) == Canonicalize(t[1]);
    assert Canonicalize(s[2]) == Canonicalize(t[2]) && Canonicalize(s[3]) == Canonicalize(t[3]);
    ConventionNames();
    NamesAgree(ConventionName, a.convention, b.convention);
    TextsAgree(a.paths, b.paths);
    ScopeNames();
    MaybeNamesAgree(ScopeName, a.scope, b.scope);
    SymlinkNames();
    MaybeNamesAgree(SymlinkName, a.symlinks, b.symlinks);
  }

  // ---------------------------------------------------------------- scripts

  const CAP_KEYS: seq<string> := ["stdinBytes", "stdoutBytes", "stderrBytes", "machineOutputBytes"]

  function CapsFields(n: Numerals, c: ByteCaps): seq<Value> {
    [MaybeOf(NumberOf(n), c.input), MaybeOf(NumberOf(n), c.output), MaybeOf(NumberOf(n), c.error), MaybeOf(NumberOf(n), c.machine)]
  }

  function CapsOf(n: Numerals): ByteCaps -> Value {
    c => ObjectOf(CAP_KEYS, CapsFields(n, c))
  }

  lemma {:induction false} CapKeys()
    ensures Differ(CAP_KEYS)
  {
    var k := CAP_KEYS;
    assert |k[0]| == 10 && |k[1]| == 11 && |k[2]| == 11 && |k[3]| == 18;
    assert k[1][3] != k[2][3];
  }

  lemma {:induction false} CapsAgree(n: Numerals, a: ByteCaps, b: ByteCaps)
    requires Apart(n) && Canonicalize(CapsOf(n)(a)) == Canonicalize(CapsOf(n)(b))
    ensures a == b
  {
    CapKeys();
    var s, t := CapsFields(n, a), CapsFields(n, b);
    ObjectAgrees(CAP_KEYS, s, t);
    assert Canonicalize(s[0]) == Canonicalize(t[0]) && Canonicalize(s[1]) == Canonicalize(t[1]);
    assert Canonicalize(s[2]) == Canonicalize(t[2]) && Canonicalize(s[3]) == Canonicalize(t[3]);
    MaybeNumberAgrees(n, a.input, b.input);
    MaybeNumberAgrees(n, a.output, b.output);
    MaybeNumberAgrees(n, a.error, b.error);
    MaybeNumberAgrees(n, a.machine, b.machine);
  }

  lemma {:induction false} CapsSeparate(n: Numerals)
    requires Apart(n)
    ensures Separates(CapsOf(n))
  {
    forall a, b | Canonicalize(CapsOf(n)(a)) == Canonicalize(CapsOf(n)(b)) ensures a == b {
      CapsAgree(n, a, b);
    }
    forall a ensures Canonicalize(CapsOf(n)(a)) != Null {
      ObjectIsThere(CAP_KEYS, CapsFields(n, a));
    }
  }

  lemma {:induction false} MaybeCapsAgree(n: Numerals, x: Option<ByteCaps>, y: Option<ByteCaps>)
    requires Apart(n) && Canonicalize(MaybeOf(CapsOf(n), x)) == Canonicalize(MaybeOf(CapsOf(n), y))
    ensures x == y
  {
    CapsSeparate(n);
    MaybeAgrees(CapsOf(n), x, y);
  }

  const SCRIPT_KEYS: seq<string> :=
    ["commandKind", "argv", "interpreter", "stdin", "envAllowlist", "requiredMachineOutput", "timeoutMs", "caps"]

  function ScriptFields(n: Numerals, s: ScriptContract): seq<Value> {
    [NameOf(CommandName)(s.command), TextsOf(s.argv), MaybeOf(TextOf, s.interpreter), MaybeOf(TextOf, s.input),
     MaybeOf(TextsOf, s.env), MaybeOf(FlagOf, s.machineOutput), MaybeOf(NumberOf(n), s.timeout), MaybeOf(CapsOf(n), s.caps)]
  }

  function ScriptOf(n: Numerals): ScriptContract -> Value {
    s => ObjectOf(SCRIPT_KEYS, ScriptFields(n, s))
  }

  lemma {:induction false} ScriptKeys()
    ensures Differ(SCRIPT_KEYS)
  {
    var k := SCRIPT_KEYS;
    assert |k[0]| == 11 && |k[1]| == 4 && |k[2]| == 11 && |k[3]| == 5 && |k[4]| == 12 && |k[5]| == 21 && |k[6]| == 9 && |k[7]| == 4;
    assert k[0][0] != k[2][0] && k[1][0] != k[7][0];
  }

  lemma {:induction false} ScriptAgrees(n: Numerals, a: ScriptContract, b: ScriptContract)
    requires Apart(n) && Canonicalize(ScriptOf(n)(a)) == Canonicalize(ScriptOf(n)(b))
    ensures a == b
  {
    ScriptKeys();
    var s, t := ScriptFields(n, a), ScriptFields(n, b);
    ObjectAgrees(SCRIPT_KEYS, s, t);
    assert Canonicalize(s[0]) == Canonicalize(t[0]) && Canonicalize(s[1]) == Canonicalize(t[1]);
    assert Canonicalize(s[2]) == Canonicalize(t[2]) && Canonicalize(s[3]) == Canonicalize(t[3]);
    assert Canonicalize(s[4]) == Canonicalize(t[4]) && Canonicalize(s[5]) == Canonicalize(t[5]);
    assert Canonicalize(s[6]) == Canonicalize(t[6]) && Canonicalize(s[7]) == Canonicalize(t[7]);
    CommandNames();
    NamesAgree(CommandName, a.command, b.command);
    TextsAgree(a.argv, b.argv);
    MaybeTextAgrees(a.interpreter, b.interpreter);
    MaybeTextAgrees(a.input, b.input);
    MaybeTextsAgree(a.env, b.env);
    MaybeFlagAgrees(a.machineOutput, b.machineOutput);
    MaybeNumberAgrees(n, a.timeout, b.timeout);
    MaybeCapsAgree(n, a.caps, b.caps);
  }

  lemma {:induction false} TwoKeys(keys: seq<string>)
    requires |keys| == 2 && |keys[0]| != |keys[1]|
    ensures Differ(keys)
  {
  }

  // ---------------------------------------------------------------- logic

  const TEST_KEYS: seq<string> := ["kind", "name", "equals"]

  function TestName(t: LogicTest): string {
    if t.VariableEquals? then "variable_equals" else if t.VariablePresent? then "variable_present" else "variable_truthy"
  }

  function TestFields(t: LogicTest): seq<Value> {
    [TextOf(TestName(t)), TextOf(t.name), if t.VariableEquals? then TextOf(t.equals) else Undefined]
  }

  function TestOf(t: LogicTest): Value {
    ObjectOf(TEST_KEYS, TestFields(t))
  }

  lemma {:induction false} TestKeys()
    ensures Differ(TEST_KEYS)
  {
    var k := TEST_KEYS;
    assert k[0][0] == 'k' && k[1][0] == 'n' && k[2][0] == 'e';
  }

  lemma {:induction false} TestNames(a: LogicTest, b: LogicTest)
    requires TestName(a) == TestName(b)
    ensures a.VariableEquals? == b.VariableEquals? && a.VariablePresent? == b.VariablePresent?
  {
    assert TestName(a)[9] == TestName(b)[9];
  }

  lemma {:induction false} TestAgrees(a: LogicTest, b: LogicTest)
    requires Canonicalize(TestOf(a)) == Canonicalize(TestOf(b))
    ensures a == b
  {
    TestKeys();
    var s, t := TestFields(a), TestFields(b);
    ObjectAgrees(TEST_KEYS, s, t);
    assert Canonicalize(s[0]) == Canonicalize(t[0]) && Canonicalize(s[1]) == Canonicalize(t[1]) && Canonicalize(s[2]) == Canonicalize(t[2]);
    TextAgrees(TestName(a), TestName(b));
    TestNames(a, b);
    TextAgrees(a.name, b.name);
    if a.VariableEquals? {
      TextAgrees(a.equals, b.equals);
    }
  }

  lemma {:induction false} TestsSeparate()
    ensures Separates(TestOf)
  {
    forall a, b | Canonicalize(TestOf(a)) == Canonicalize(TestOf(b)) ensures a == b {
      TestAgrees(a, b);
    }
    forall a ensures Canonicalize(TestOf(a)) != Null {
      ObjectIsThere(TEST_KEYS, TestFields(a));
    }
  }

  const RULE_KEYS: seq<string> := ["if", "emit"]

  function RuleFields(r: LogicRule): seq<Value> {
    [MaybeOf(TestOf, r.test), TextOf(r.emit)]
  }

  function RuleOf(r: LogicRule): Value {
    ObjectOf(RULE_KEYS, RuleFields(r))
  }

  lemma {:induction false} MaybeTestAgrees(x: Option<LogicTest>, y: Option<LogicTest>)
    requires Canonicalize(MaybeOf(TestOf, x)) == Canonicalize(MaybeOf(TestOf, y))
    ensures x == y
  {
    TestsSeparate();
    MaybeAgrees(TestOf, x, y);
  }

  lemma {:induction false} RuleAgrees(a: LogicRule, b: LogicRule)
    requires Canonicalize(RuleOf(a)) == Canonicalize(RuleOf(b))
    ensures a == b
  {
    TwoKeys(RULE_KEYS);
    var s, t := RuleFields(a), RuleFields(b);
    ObjectAgrees(RULE_KEYS, s, t);
    assert Canonicalize(s[0]) == Canonicalize(t[0]) && Canonicalize(s[1]) == Canonicalize(t[1]);
    MaybeTestAgrees(a.test, b.test);
    TextAgrees(a.emit, b.emit);
  }

  lemma {:induction false} RulesSeparate()
    ensures Separates(RuleOf)
  {
    forall a, b | Canonicalize(RuleOf(a)) == Canonicalize(RuleOf(b)) ensures a == b {
      RuleAgrees(a, b);
    }
    forall a ensures Canonicalize(RuleOf(a)) != Null {
      ObjectIsThere(RULE_KEYS, RuleFields(a));
    }
  }

  lemma {:induction false} RuleListsAgree(x: seq<LogicRule>, y: seq<LogicRule>)
    requires Canonicalize(ListOf(RuleOf, x)) == Canonicalize(ListOf(RuleOf, y))
    ensures x == y
  {
    RulesSeparate();
    ListAgrees(RuleOf, x, y);
  }

  const LOGIC_KEYS: seq<string> := ["rules", "default"]

  function LogicFields(l: LogicContract): seq<Value> {
    [ListOf(RuleOf, l.rules), TextOf(l.fallback)]
  }

  function LogicOf(l: LogicContract): Value {
    ObjectOf(LOGIC_KEYS, LogicFields(l))
  }

  lemma {:induction false} LogicAgrees(a: LogicContract, b: LogicContract)
    requires Canonicalize(LogicOf(a)) == Canonicalize(LogicOf(b))
    ensures a == b
  {
    TwoKeys(LOGIC_KEYS);
    var s, t := LogicFields(a), LogicFields(b);
    ObjectAgrees(LOGIC_KEYS, s, t);
    assert Canonicalize(s[0]) == Canonicalize(t[0]) && Canonicalize(s[1]) == Canonicalize(t[1]);
    RuleListsAgree(a.rules, b.rules);
    TextAgrees(a.fallback, b.fallback);
  }

  lemma {:induction false} LogicSeparates()
    ensures Separates(LogicOf)
  {
    forall a, b | Canonicalize(LogicOf(a)) == Canonicalize(LogicOf(b)) ensures a == b {
      LogicAgrees(a, b);
    }
    forall a ensures Canonicalize(LogicOf(a)) != Null {
      ObjectIsThere(LOGIC_KEYS, LogicFields(a));
    }
  }

  // ---------------------------------------------------------------- routing

  const AUTHORITY_KEYS: seq<string> := ["kind", "allowedMarkers", "allowedKeys"]

  function AuthorityName(a: Authority): string {
    match a
    case NoAuthority => "none"
    case VerdictMarkers(_) => "audit_verdict_marker"
    case LogicMarkers(_) => "logic_marker"
    case RoutingKeys(_) => "script_routing_key"
  }

  function Markers(a: Authority): Option<seq<string>> {
    if a.VerdictMarkers? || a.LogicMarkers? then Some(a.allowed) else None
  }

  function Keys(a: Authority): Option<seq<string>> {
    if a.RoutingKeys? then Some(a.allowed) else None
  }

  function AuthorityFields(a: Authority): seq<Value> {
    [TextOf(AuthorityName(a)), MaybeOf(TextsOf, Markers(a)), MaybeOf(TextsOf, Keys(a))]
  }

  function AuthorityOf(a: Authority): Value {
    ObjectOf(AUTHORITY_KEYS, AuthorityFields(a))
  }

  lemma {:induction false} AuthorityKeys()
    ensures Differ(AUTHORITY_KEYS)
  {
    var k := AUTHORITY_KEYS;
    assert |k[0]| == 4 && |k[1]| == 14 && |k[2]| == 11;
  }

  lemma {:induction false} AuthorityNames(a: Authority, b: Authority)
    requires AuthorityName(a) == AuthorityName(b) && Markers(a) == Markers(b) && Keys(a) == Keys(b)
    ensures a == b
  {
    assert |AuthorityName(a)| == |AuthorityName(b)|;
  }

  lemma {:induction false} AuthorityFieldsAgree(a: Authority, b: Authority)
    requires Canonicalize(TextOf(AuthorityName(a))) == Canonicalize(TextOf(AuthorityName(b)))
    requires Canonicalize(MaybeOf(TextsOf, Markers(a))) == Canonicalize(MaybeOf(TextsOf, Markers(b)))
    requires Canonicalize(MaybeOf(TextsOf, Keys(a))) == Canonicalize(MaybeOf(TextsOf, Keys(b)))
    ensures a == b
  {
    TextAgrees(AuthorityName(a), AuthorityName(b));
    MaybeTextsAgree(Markers(a), Markers(b));
    MaybeTextsAgree(Keys(a), Keys(b));
    AuthorityNames(a, b);
  }

  lemma {:induction false} AuthorityAgrees(a: Authority, b: Authority)
    requires Canonicalize(AuthorityOf(a)) == Canonicalize(AuthorityOf(b))
    ensures a == b
  {
    AuthorityKeys();
    var s, t := AuthorityFields(a), AuthorityFields(b);
    ObjectAgrees(AUTHORITY_KEYS, s, t);
    assert Canonicalize(s[0]) == Canonicalize(t[0]) && Canonicalize(s[1]) == Canonicalize(t[1]) && Canonicalize(s[2]) == Canonicalize(t[2]);
    AuthorityFieldsAgree(a, b);
  }

  const CONDITION_KEYS: seq<string> := ["kind", "equals"]

  function ConditionFields(c: Condition): seq<Value> {
    [NameOf(ConditionName)(c.kind), TextOf(c.equals)]
  }

  function ConditionOf(c: Condition): Value {
    ObjectOf(CONDITION_KEYS, ConditionFields(c))
  }

  lemma {:induction false} ConditionAgrees(a: Condition, b: Condition)
    requires Canonicalize(ConditionOf(a)) == Canonicalize(ConditionOf(b))
    ensures a == b
  {
    TwoKeys(CONDITION_KEYS);
    var s, t := ConditionFields(a), ConditionFields(b);
    ObjectAgrees(CONDITION_KEYS, s, t);
    assert Canonicalize(s[0]) == Canonicalize(t[0]) && Canonicalize(s[1]) == Canonicalize(t[1]);
    ConditionNames();
    NamesAgree(ConditionName, a.kind, b.kind);
    TextAgrees(a.equals, b.equals);
  }

  lemma {:induction false} ConditionsSeparate()
    ensures Separates(ConditionOf)
  {
    forall a, b | Canonicalize(ConditionOf(a)) == Canonicalize(ConditionOf(b)) ensures a == b {
      ConditionAgrees(a, b);
    }
    forall a ensures Canonicalize(ConditionOf(a)) != Null {
      ObjectIsThere(CONDITION_KEYS, ConditionFields(a));
    }
  }

  lemma {:induction false} MaybeConditionAgrees(x: Option<Condition>, y: Option<Condition>)
    requires Canonicalize(MaybeOf(ConditionOf, x)) == Canonicalize(MaybeOf(ConditionOf, y))
    ensures x == y
  {
    ConditionsSeparate();
    MaybeAgrees(ConditionOf, x, y);
  }

  const EDGE_KEYS: seq<string> := ["id", "fromNodeId", "toNodeId", "edgeKind", "condition"]

  function EdgeFields(e: Edge): seq<Value> {
    [TextOf(e.id), TextOf(e.from), TextOf(e.to), NameOf(EdgeKindName)(e.kind), MaybeOf(ConditionOf, e.condition)]
  }

  function EdgeOf(e: Edge): Value {
    ObjectOf(EDGE_KEYS, EdgeFields(e))
  }

  lemma {:induction false} EdgeKeys()
    ensures Differ(EDGE_KEYS)
  {
    var k := EDGE_KEYS;
    assert k[0][0] == 'i' && k[1][0] == 'f' && k[2][0] == 't' && k[3][0] == 'e' && k[4][0] == 'c';
  }

  lemma {:induction false} EdgeAgrees(a: Edge, b: Edge)
    requires Canonicalize(EdgeOf(a)) == Canonicalize(EdgeOf(b))
    ensures a == b
  {
    EdgeKeys();
    var s, t := EdgeFields(a), EdgeFields(b);
    ObjectAgrees(EDGE_KEYS, s, t);
    assert Canonicalize(s[0]) == Canonicalize(t[0]) && Canonicalize(s[1]) == Canonicalize(t[1]) && Canonicalize(s[2]) == Canonicalize(t[2]);
    assert Canonicalize(s[3]) == Canonicalize(t[3]) && Canonicalize(s[4]) == Canonicalize(t[4]);
    TextAgrees(a.id, b.id);
    TextAgrees(a.from, b.from);
    TextAgrees(a.to, b.to);
    EdgeKindNames();
    NamesAgree(EdgeKindName, a.kind, b.kind);
    MaybeConditionAgrees(a.condition, b.condition);
  }

  lemma {:induction false} EdgesSeparate()
    ensures Separates(EdgeOf)
  {
    forall a, b | Canonicalize(EdgeOf(a)) == Canonicalize(EdgeOf(b)) ensures a == b {
      EdgeAgrees(a, b);
    }
    forall a ensures Canonicalize(EdgeOf(a)) != Null {
      ObjectIsThere(EDGE_KEYS, EdgeFields(a));
    }
  }

  // ---------------------------------------------------------------- variables

  function ScalarOf(n: Numerals, v: VariableValue): Value {
    match v
    case Text(s) => TextOf(s)
    case Numeric(x) => NumberOf(n)(x)
    case Flag(b) => FlagOf(b)
    case Texts(items) => TextsOf(items)
  }

  const VARIABLE_KEYS: seq<string> := ["name", "value"]

  function VariableFields(n: Numerals, v: Variable): seq<Value> {
    [TextOf(v.name), ScalarOf(n, v.value)]
  }

  function VariableOf(n: Numerals): Variable -> Value {
    v => ObjectOf(VARIABLE_KEYS, VariableFields(n, v))
  }

  lemma {:induction false} ScalarAgrees(n: Numerals, a: VariableValue, b: VariableValue)
    requires Apart(n) && Canonicalize(ScalarOf(n, a)) == Canonicalize(ScalarOf(n, b))
    ensures a == b
  {
    ScalarKind(n, a);
    ScalarKind(n, b);
    if a.Text? {
      TextAgrees(a.text, b.text);
    } else if a.Texts? {
      TextsAgree(a.items, b.items);
    }
  }

  lemma {:induction false} ScalarKind(n: Numerals, v: VariableValue)
    ensures v.Text? <==> Canonicalize(ScalarOf(n, v)).Str?
    ensures v.Texts? <==> Canonicalize(ScalarOf(n, v)).List?
    ensures v.Numeric? ==> Canonicalize(ScalarOf(n, v)) == Value.Number(n(v.value))
    ensures v.Flag? ==> Canonicalize(ScalarOf(n, v)) == Bool(v.on)
  {
  }

  lemma {:induction false} VariableAgrees(n: Numerals, a: Variable, b: Variable)
    requires Apart(n) && Canonicalize(VariableOf(n)(a)) == Canonicalize(VariableOf(n)(b))
    ensures a == b
  {
    TwoKeys(VARIABLE_KEYS);
    var s, t := VariableFields(n, a), VariableFields(n, b);
    ObjectAgrees(VARIABLE_KEYS, s, t);
    assert Canonicalize(s[0]) == Canonicalize(t[0]) && Canonicalize(s[1]) == Canonicalize(t[1]);
    ScalarAgrees(n, a.value, b.value);
    TextAgrees(a.name, b.name);
  }

  lemma {:induction false} VariablesSeparate(n: Numerals)
    requires Apart(n)
    ensures Separates(VariableOf(n))
  {
    forall a, b | Canonicalize(VariableOf(n)(a)) == Canonicalize(VariableOf(n)(b)) ensures a == b {
      VariableAgrees(n, a, b);
    }
    forall a ensures Canonicalize(VariableOf(n)(a)) != Null {
      ObjectIsThere(VARIABLE_KEYS, VariableFields(n, a));
    }
  }
}
