/** The JSON of a compiled node and of a whole contract (shared/p2p-workflow-compiler.ts:51-61 and
    71-93), and that canonical JSON tells contracts apart. */
module ContractText {
  import opened Wrappers
  import opened Workflow
  import opened Contract
  import opened CodeUnits
  import opened Json
  import opened CanonicalJson
  import opened PolicyJson
  import opened ContractJson
  import opened ContractNames
  import opened ContractLayout
  import Sorting

  // ---------------------------------------------------------------- nodes

  const NODE_KEYS: seq<string> :=
    ["id", "title", "nodeKind", "preset", "dispatchStyle", "permissionScope", "promptAppend", "summaryPromptOverride",
     "routingAuthority", "script", "logic", "artifacts"]

  function NodeFields(n: Numerals, c: CompiledNode): seq<Value> {
    [TextOf(c.id), MaybeOf(TextOf, c.title), NameOf(KindName)(c.kind), NameOf(PresetName)(c.preset),
     MaybeOf(NameOf(DispatchName), c.dispatch), NameOf(ScopeName)(c.scope), MaybeOf(TextOf, c.promptAppend),
     MaybeOf(TextOf, c.summaryOverride), AuthorityOf(c.authority), MaybeOf(ScriptOf(n), c.script),
     MaybeOf(LogicOf, c.logic), ListOf(ArtifactOf, c.artifacts)]
  }

  function NodeOf(n: Numerals): CompiledNode -> Value {
    c => ObjectOf(NODE_KEYS, NodeFields(n, c))
  }

  lemma {:induction false} NodeKeys()
    ensures Differ(NODE_KEYS)
  {
    var k := NODE_KEYS;
    assert |k[0]| == 2 && |k[1]| == 5 && |k[2]| == 8 && |k[3]| == 6 && |k[4]| == 13 && |k[5]| == 15;
    assert |k[6]| == 12 && |k[7]| == 21 && |k[8]| == 16 && |k[9]| == 6 && |k[10]| == 5 && |k[11]| == 9;
    assert k[1][0] != k[10][0] && k[3][0] != k[9][0];
  }

  lemma {:induction false} MaybeScriptAgrees(n: Numerals, x: Option<ScriptContract>, y: Option<ScriptContract>)
    requires Apart(n) && Canonicalize(MaybeOf(ScriptOf(n), x)) == Canonicalize(MaybeOf(ScriptOf(n), y))
    ensures x == y
  {
    ScriptsSeparate(n);
    MaybeAgrees(ScriptOf(n), x, y);
  }

  lemma {:induction false} ScriptsSeparate(n: Numerals)
    requires Apart(n)
    ensures Separates(ScriptOf(n))
  {
    forall a, b | Canonicalize(ScriptOf(n)(a)) == Canonicalize(ScriptOf(n)(b)) ensures a == b {
      ScriptAgrees(n, a, b);
    }
    forall a ensures Canonicalize(ScriptOf(n)(a)) != Null {
      ObjectIsThere(SCRIPT_KEYS, ScriptFields(n, a));
    }
  }

  lemma {:induction false} MaybeLogicAgrees(x: Option<LogicContract>, y: Option<LogicContract>)
    requires Canonicalize(MaybeOf(LogicOf, x)) == Canonicalize(MaybeOf(LogicOf, y))
    ensures x == y
  {
    LogicSeparates();
    MaybeAgrees(LogicOf, x, y);
  }

  lemma {:induction false} ArtifactsAgree(x: seq<Artifact>, y: seq<Artifact>)
    requires Canonicalize(ListOf(ArtifactOf, x)) == Canonicalize(ListOf(ArtifactOf, y))
    ensures x == y
  {
    assert Separates(ArtifactOf) by {
      forall a, b | Canonicalize(ArtifactOf(a)) == Canonicalize(ArtifactOf(b)) ensures a == b {
        ArtifactAgrees(a, b);
      }
      forall a ensures Canonicalize(ArtifactOf(a)) != Null {
        ObjectIsThere(ARTIFACT_KEYS, ArtifactFields(a));
      }
    }
    ListAgrees(ArtifactOf, x, y);
  }

  lemma {:induction false} NodeAgrees(n: Numerals, a: CompiledNode, b: CompiledNode)
    requires Apart(n) && Canonicalize(NodeOf(n)(a)) == Canonicalize(NodeOf(n)(b))
    ensures a == b
  {
    NodeKeys();
    var s, t := NodeFields(n, a), NodeFields(n, b);
    ObjectAgrees(NODE_KEYS, s, t);
    assert Canonicalize(s[0]) == Canonicalize(t[0]) && Canonicalize(s[1]) == Canonicalize(t[1]) && Canonicalize(s[2]) == Canonicalize(t[2]);
    assert Canonicalize(s[3]) == Canonicalize(t[3]) && Canonicalize(s[4]) == Canonicalize(t[4]) && Canonicalize(s[5]) == Canonicalize(t[5]);
    assert Canonicalize(s[6]) == Canonicalize(t[6]) && Canonicalize(s[7]) == Canonicalize(t[7]) && Canonicalize(s[8]) == Canonicalize(t[8]);
    assert Canonicalize(s[9]) == Canonicalize(t[9]) && Canonicalize(s[10]) == Canonicalize(t[10]) && Canonicalize(s[11]) == Canonicalize(t[11]);
    PlainFieldsAgree(a, b);
    AuthorityAgrees(a.authority, b.authority);
    MaybeScriptAgrees(n, a.script, b.script);
    MaybeLogicAgrees(a.logic, b.logic);
    ArtifactsAgree(a.artifacts, b.artifacts);
  }

  lemma {:induction false} PlainFieldsAgree(a: CompiledNode, b: CompiledNode)
    requires Canonicalize(TextOf(a.id)) == Canonicalize(TextOf(b.id))
    requires Canonicalize(MaybeOf(TextOf, a.title)) == Canonicalize(MaybeOf(TextOf, b.title))
    requires Canonicalize(NameOf(KindName)(a.kind)) == Canonicalize(NameOf(KindName)(b.kind))
    requires Canonicalize(NameOf(PresetName)(a.preset)) == Canonicalize(NameOf(PresetName)(b.preset))
    requires Canonicalize(MaybeOf(NameOf(DispatchName), a.dispatch)) == Canonicalize(MaybeOf(NameOf(DispatchName), b.dispatch))
    requires Canonicalize(NameOf(ScopeName)(a.scope)) == Canonicalize(NameOf(ScopeName)(b.scope))
    requires Canonicalize(MaybeOf(TextOf, a.promptAppend)) == Canonicalize(MaybeOf(TextOf, b.promptAppend))
    requires Canonicalize(MaybeOf(TextOf, a.summaryOverride)) == Canonicalize(MaybeOf(TextOf, b.summaryOverride))
    ensures a.id == b.id && a.title == b.title && a.kind == b.kind && a.preset == b.preset && a.dispatch == b.dispatch
    ensures a.scope == b.scope && a.promptAppend == b.promptAppend && a.summaryOverride == b.summaryOverride
  {
    TextAgrees(a.id, b.id);
    MaybeTextAgrees(a.title, b.title);
    KindNames();
    NamesAgree(KindName, a.kind, b.kind);
    PresetNames();
    NamesAgree(PresetName, a.preset, b.preset);
    DispatchNames();
    MaybeNamesAgree(DispatchName, a.dispatch, b.dispatch);
    ScopeNames();
    NamesAgree(ScopeName, a.scope, b.scope);
    MaybeTextAgrees(a.promptAppend, b.promptAppend);
    MaybeTextAgrees(a.summaryOverride, b.summaryOverride);
  }

  lemma {:induction false} NodeListsAgree(n: Numerals, x: seq<CompiledNode>, y: seq<CompiledNode>)
    requires Apart(n) && Canonicalize(ListOf(NodeOf(n), x)) == Canonicalize(ListOf(NodeOf(n), y))
    ensures x == y
  {
    assert Separates(NodeOf(n)) by {
      forall a, b | Canonicalize(NodeOf(n)(a)) == Canonicalize(NodeOf(n)(b)) ensures a == b {
        NodeAgrees(n, a, b);
      }
      forall a ensures Canonicalize(NodeOf(n)(a)) != Null {
        ObjectIsThere(NODE_KEYS, NodeFields(n, a));
      }
    }
    ListAgrees(NodeOf(n), x, y);
  }

  // ---------------------------------------------------------------- loop budgets

  /** No compiled draft has a budget that is no whole number. */
  function BudgetOf(n: Numerals, b: Budget): Value {
    match b
    case Whole(count) => Value.Number(n(Ratio(count, 1)))
    case NotWhole => Null
  }

  function EntryOf(n: Numerals, b: BudgetEntry): Member {
    Member(Utf16(b.edge), BudgetOf(n, b.budget))
  }

  function EntriesOf(n: Numerals, s: seq<BudgetEntry>): seq<Member> {
    seq(|s|, i requires 0 <= i < |s| => EntryOf(n, s[i]))
  }

  function BudgetsJson(n: Numerals, s: seq<BudgetEntry>): Value {
    Record(EntriesOf(n, s))
  }

  lemma {:induction false} EntryKeys(n: Numerals, s: seq<BudgetEntry>)
    requires IsRecord(s)
    ensures DistinctKeys(EntriesOf(n, s))
  {
    forall i, j | 0 <= i < j < |s| ensures Utf16(s[i].edge) != Utf16(s[j].edge) {
      if Utf16(s[i].edge) == Utf16(s[j].edge) {
        Utf16IsInjective(s[i].edge, s[j].edge);
      }
    }
  }

  lemma {:induction false} BudgetsHold(n: Numerals, s: seq<BudgetEntry>, t: seq<BudgetEntry>, b: BudgetEntry)
    requires Apart(n) && IsRecord(s) && IsRecord(t) && b in s
    requires Canonicalize(BudgetsJson(n, s)) == Canonicalize(BudgetsJson(n, t))
    ensures b in t
  {
    EntryKeys(n, s);
    EntryKeys(n, t);
    var ms, ns := EntriesOf(n, s), EntriesOf(n, t);
    var i :| 0 <= i < |s| && s[i] == b;
    assert ms[i] in ms;
    EntryShows(ms, ms[i]);
    var j := EntryFrom(ns, Member(ms[i].key, Canonicalize(ms[i].value)));
    EntryAgrees(n, s[i], t[j]);
  }

  lemma {:induction false} EntryAgrees(n: Numerals, a: BudgetEntry, b: BudgetEntry)
    requires Apart(n) && Utf16(a.edge) == Utf16(b.edge)
    requires Canonicalize(BudgetOf(n, a.budget)) == Canonicalize(BudgetOf(n, b.budget))
    ensures a == b
  {
    Utf16IsInjective(a.edge, b.edge);
    CanonicalBudget(n, a.budget);
    CanonicalBudget(n, b.budget);
    BudgetApart(n, a.budget, b.budget);
  }

  lemma {:induction false} CanonicalBudget(n: Numerals, b: Budget)
    ensures Canonicalize(BudgetOf(n, b)) == BudgetOf(n, b)
  {
  }

  lemma {:induction false} BudgetApart(n: Numerals, x: Budget, y: Budget)
    requires Apart(n) && BudgetOf(n, x) == BudgetOf(n, y)
    ensures x == y
  {
    if x.Whole? {
      assert n(Ratio(x.count, 1)) == n(Ratio(y.count, 1));
    }
  }

  /** Every canonical entry comes from an entry of the record. */
  lemma {:induction false} EntryFrom(ms: seq<Member>, x: Member) returns (j: nat)
    requires DistinctKeys(ms) && x in Canonicalize(Record(ms)).members
    ensures j < |ms| && x == Member(ms[j].key, Canonicalize(ms[j].value))
  {
    var sorted := SortMembers(ms);
    SortedMembers(ms);
    CanonicalMembersAre(Record(ms), sorted);
    assert FromEntry(sorted, x);
    var m :| m in sorted && !m.value.Undefined? && x == Member(m.key, Canonicalize(m.value));
    j :| 0 <= j < |ms| && ms[j] == m;
  }

  lemma {:induction false} BudgetsAgree(n: Numerals, le: (string, string) -> bool, s: seq<BudgetEntry>, t: seq<BudgetEntry>)
    requires Apart(n) && Sorting.TotalOrder(le) && IsRecord(s) && IsRecord(t)
    requires Sorting.Sorted(Sorting.By(le, BudgetKey), s) && Sorting.Sorted(Sorting.By(le, BudgetKey), t)
    requires Canonicalize(BudgetsJson(n, s)) == Canonicalize(BudgetsJson(n, t))
    ensures s == t
  {
    forall b ensures b in s <==> b in t {
      if b in s {
        BudgetsHold(n, s, t, b);
      }
      if b in t {
        BudgetsHold(n, t, s, b);
      }
    }
    Sorting.SortedSetUnique(le, BudgetKey, s, t);
  }

  // ---------------------------------------------------------------- the contract

  /** The order in which deriveRequiredCapabilities adds them. */
  const ADDED: seq<Capability> := [Workflows, ScriptArgv, ScriptInterpreter, OpenSpecArtifacts, ImplementationWork]

  function CapabilityList(s: set<Capability>): seq<string> {
    Sorting.Sort(Sorting.By(TextLe, Utf16), Listed(s, ADDED))
  }

  function Listed(s: set<Capability>, order: seq<Capability>): seq<string> {
    if order == [] then []
    else (if order[0] in s then [CapabilityName(order[0])] else []) + Listed(s, order[1..])
  }

  lemma {:induction false} ListedIff(s: set<Capability>, order: seq<Capability>, c: Capability)
    ensures CapabilityName(c) in Listed(s, order) <==> c in s && c in order
  {
    CapabilityNames();
    if order != [] {
      ListedIff(s, order[1..], c);
      assert order == [order[0]] + order[1..];
    }
  }

  lemma {:induction false} CapabilitiesAgree(s: set<Capability>, t: set<Capability>)
    requires CapabilityList(s) == CapabilityList(t)
    ensures s == t
  {
    forall c ensures c in s <==> c in t {
      ListedIff(s, ADDED, c);
      ListedIff(t, ADDED, c);
      AllAdded(c);
    }
  }

  lemma {:induction false} AllAdded(c: Capability)
    ensures c in ADDED
  {
    assert ADDED[0] == Workflows && ADDED[1] == ScriptArgv && ADDED[2] == ScriptInterpreter && ADDED[3] == OpenSpecArtifacts
           && ADDED[4] == ImplementationWork;
  }

  const CONTRACT_KEYS: seq<string> :=
    ["schemaVersion", "workflowId", "rootNodeId", "nodes", "edges", "variables", "loopBudgets",
     "derivedRequiredCapabilities", "staticPolicyHash"]

  function ContractFields(n: Numerals, c: Contract): seq<Value> {
    [NumberOf(n)(Ratio(1, 1)), TextOf(c.workflowId), TextOf(c.rootNodeId), ListOf(NodeOf(n), c.nodes), ListOf(EdgeOf, c.edges),
     ListOf(VariableOf(n), c.variables), BudgetsJson(n, c.loopBudgets), TextsOf(CapabilityList(c.capabilities)),
     TextOf(c.policyHash)]
  }

  /** contractInput */
  function ContractOf(n: Numerals, c: Contract): Value {
    ObjectOf(CONTRACT_KEYS, ContractFields(n, c))
  }

  lemma {:induction false} ContractKeys()
    ensures Differ(CONTRACT_KEYS)
  {
    var k := CONTRACT_KEYS;
    assert |k[0]| == 13 && |k[1]| == 10 && |k[2]| == 10 && |k[3]| == 5 && |k[4]| == 5;
    assert |k[5]| == 9 && |k[6]| == 11 && |k[7]| == 27 && |k[8]| == 16;
    assert k[1][0] != k[2][0] && k[3][0] != k[4][0];
  }

  /** The loop budgets are a record whose keys are in order. */
  ghost predicate InOrder(le: (string, string) -> bool, s: seq<BudgetEntry>) {
    IsRecord(s) && Sorting.Sorted(Sorting.By(le, BudgetKey), s)
  }

  /** Canonical JSON tells contracts apart. */
  lemma {:induction false} ContractAgrees(n: Numerals, le: (string, string) -> bool, a: Contract, b: Contract)
    requires Apart(n) && Sorting.TotalOrder(le) && InOrder(le, a.loopBudgets) && InOrder(le, b.loopBudgets)
    requires Canonicalize(ContractOf(n, a)) == Canonicalize(ContractOf(n, b))
    ensures a == b
  {
    ContractKeys();
    var s, t := ContractFields(n, a), ContractFields(n, b);
    ObjectAgrees(CONTRACT_KEYS, s, t);
    assert Canonicalize(s[1]) == Canonicalize(t[1]) && Canonicalize(s[2]) == Canonicalize(t[2]);
    assert Canonicalize(s[3]) == Canonicalize(t[3]) && Canonicalize(s[4]) == Canonicalize(t[4]) && Canonicalize(s[5]) == Canonicalize(t[5]);
    assert Canonicalize(s[6]) == Canonicalize(t[6]) && Canonicalize(s[7]) == Canonicalize(t[7]) && Canonicalize(s[8]) == Canonicalize(t[8]);
    TextAgrees(a.workflowId, b.workflowId);
    TextAgrees(a.rootNodeId, b.rootNodeId);
    NodeListsAgree(n, a.nodes, b.nodes);
    EdgeListsAgree(a.edges, b.edges);
    VariableListsAgree(n, a.variables, b.variables);
    BudgetsAgree(n, le, a.loopBudgets, b.loopBudgets);
    TextsAgree(CapabilityList(a.capabilities), CapabilityList(b.capabilities));
    CapabilitiesAgree(a.capabilities, b.capabilities);
    TextAgrees(a.policyHash, b.policyHash);
  }

  lemma {:induction false} EdgeListsAgree(x: seq<Edge>, y: seq<Edge>)
    requires Canonicalize(ListOf(EdgeOf, x)) == Canonicalize(ListOf(EdgeOf, y))
    ensures x == y
  {
    EdgesSeparate();
    ListAgrees(EdgeOf, x, y);
  }

  lemma {:induction false} VariableListsAgree(n: Numerals, x: seq<Variable>, y: seq<Variable>)
    requires Apart(n) && Canonicalize(ListOf(VariableOf(n), x)) == Canonicalize(ListOf(VariableOf(n), y))
    ensures x == y
  {
    VariablesSeparate(n);
    ListAgrees(VariableOf(n), x, y);
  }
}
