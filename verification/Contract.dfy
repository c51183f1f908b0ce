/** compileP2pWorkflowDraft (shared/p2p-workflow-compiler.ts:27-68): which drafts compile, and the
    contract a compiled draft turns into. */
module Contract {
  import opened Wrappers
  import opened Workflow
  import opened Compiler
  import Prompt
  import Sorting
  import Text
  import Utf8

  /** How strings are compared: localeCompare for ids and names, code units for default sorts. */
  datatype Collation = Collation(locale: (string, string) -> bool, units: (string, string) -> bool)

  // ---------------------------------------------------------------- draft and variable checks

  predicate ScopeFits(n: Node) {
    var scope := n.scope.GetOr(AnalysisOnly);
    var artifacts := n.artifacts.GetOr([]);
    match n.kind
    case Logic => n.preset == Custom && scope == AnalysisOnly
    case Script => n.preset == Custom
    case Llm =>
      match n.preset
      case Audit | ProposalAudit | ImplementationAudit => scope == AnalysisOnly
      case OpenSpecPropose => scope == ArtifactGeneration && DeclaresOpenSpec(n)
      case Implement => scope == Implementation
      case _ => scope == AnalysisOnly || (scope == ArtifactGeneration && artifacts != [])
  }

  const MAX_ARTIFACT_FILES := 200

  /** promptAppend and summaryPromptOverride share one byte limit. */
  predicate FitsPrompt(text: Option<string>) {
    text.Some? ==> Utf8.ByteLength(text.value) <= Prompt.MAX_APPEND_BYTES
  }

  predicate ArtifactOk(checks: Checks, a: Artifact) {
    0 < |a.paths| <= MAX_ARTIFACT_FILES && forall p :: p in a.paths ==> checks.pathOk(p)
  }

  predicate NodeOk(checks: Checks, n: Node) {
    && !Text.Blank(n.id) && ScopeFits(n)
    && FitsPrompt(n.promptAppend) && FitsPrompt(n.summaryOverride)
    && (n.kind.Script? <==> n.script.Some?)
    && (n.script.Some? ==> checks.scriptOk(n.script.value))
    && (n.artifacts.Some? ==> forall a :: a in n.artifacts.value ==> ArtifactOk(checks, a))
  }

  predicate EdgeOk(e: Edge) {
    && !Text.Blank(e.id) && !Text.Blank(e.from) && !Text.Blank(e.to)
    && (e.kind.Conditional? ==> e.condition.Some? && e.condition.value.equals != "")
  }

  predicate DraftOk(checks: Checks, d: Draft) {
    && !Text.Blank(d.id) && d.nodes != []
    && (forall n :: n in d.nodes ==> NodeOk(checks, n))
    && (forall e :: e in d.edges ==> EdgeOk(e))
  }

  predicate VariableNameOk(name: string) {
    && 0 < |name| <= 64 && 'a' <= name[0] <= 'z'
    && forall c :: c in name ==> 'a' <= c <= 'z' || '0' <= c <= '9' || c == '_'
  }

  ghost predicate VariableFault(checks: Checks, vs: seq<Variable>, f: Fault) {
    match f
    case ManyVariables => |vs| > MAX_VARIABLES
    case BadVariableName(name) => !VariableNameOk(name) && Names(vs, VariableKey, name)
    case DuplicateVariable(name) => VariableNameOk(name) && Twice(vs, VariableKey, name)
    case BadVariableValue(name) => exists v :: v in vs && v.name == name && !checks.valueOk(v.value)
    case _ => false
  }

  /** What is wrong with one variable, given those before it. */
  ghost predicate OneVariableFault(checks: Checks, before: seq<Variable>, v: Variable, f: Fault) {
    || (f == BadVariableName(v.name) && !VariableNameOk(v.name))
    || (f == DuplicateVariable(v.name) && VariableNameOk(v.name) && Names(before, VariableKey, v.name))
    || (f == BadVariableValue(v.name) && !checks.valueOk(v.value))
  }

  lemma {:induction false} VariableStep(checks: Checks, vs: seq<Variable>, i: nat, f: Fault)
    requires i < |vs| && !f.ManyVariables?
    ensures VariableFault(checks, vs[..i + 1], f)
            <==> VariableFault(checks, vs[..i], f) || OneVariableFault(checks, vs[..i], vs[i], f)
  {
    TwiceStep(vs, VariableKey, i);
    assert forall v :: v in vs[..i + 1] <==> v in vs[..i] || v == vs[i];
  }

  method CheckVariable(checks: Checks, v: Variable, seen: set<string>, ghost before: seq<Variable>)
    returns (faults: seq<Fault>)
    requires forall name :: name in seen <==> VariableNameOk(name) && Names(before, VariableKey, name)
    ensures forall f :: f in faults <==> OneVariableFault(checks, before, v, f)
  {
    faults :=
      if !VariableNameOk(v.name) then [BadVariableName(v.name)]
      else if v.name in seen then [DuplicateVariable(v.name)]
      else [];
    if !checks.valueOk(v.value) {
      faults := faults + [BadVariableValue(v.name)];
    }
  }

  method ValidateVariables(checks: Checks, vs: seq<Variable>) returns (faults: seq<Fault>)
    ensures forall f :: f in faults <==> VariableFault(checks, vs, f)
  {
    faults := if |vs| > MAX_VARIABLES then [ManyVariables] else [];
    var seen: set<string> := {};
    for i := 0 to |vs|
      invariant forall name :: name in seen <==> VariableNameOk(name) && Names(vs[..i], VariableKey, name)
      invariant forall f :: f in faults <==>
                              if f.ManyVariables? then |vs| > MAX_VARIABLES else VariableFault(checks, vs[..i], f)
    {
      var more := CheckVariable(checks, vs[i], seen, vs[..i]);
      forall f: Fault | !f.ManyVariables?
        ensures VariableFault(checks, vs[..i + 1], f) <==> VariableFault(checks, vs[..i], f) || f in more
      {
        VariableStep(checks, vs, i, f);
      }
      faults := faults + more;
      TwiceStep(vs, VariableKey, i);
      if VariableNameOk(vs[i].name) {
        seen := seen + {vs[i].name};
      }
    }
    assert vs[..|vs|] == vs;
  }

  // ---------------------------------------------------------------- the contract

  datatype Capability = Workflows | ScriptArgv | ScriptInterpreter | OpenSpecArtifacts | ImplementationWork

  datatype CompiledNode = CompiledNode(
    id: Id, title: Option<string>, kind: NodeKind, preset: Preset, dispatch: Option<Dispatch>, scope: Scope,
    promptAppend: Option<string>, summaryOverride: Option<string>, authority: Authority,
    script: Option<ScriptContract>, logic: Option<LogicContract>, artifacts: seq<Artifact>)

  /** contractInput: what is hashed.  The capability list is kept as the set it sorts. */
  datatype Contract = Contract(
    workflowId: Id, rootNodeId: Id, nodes: seq<CompiledNode>, edges: seq<Edge>, variables: seq<Variable>,
    loopBudgets: seq<BudgetEntry>, capabilities: set<Capability>, policyHash: string)

  datatype Compiled = Compiled(contract: Contract, contractHash: string)

  function NonEmpty(s: Option<string>): Option<string> {
    if s == Some("") then None else s
  }

  function CompileNode(c: Collation, n: Node, edges: seq<Edge>): CompiledNode {
    CompiledNode(n.id, NonEmpty(n.title), n.kind, n.preset, n.dispatch, n.scope.GetOr(AnalysisOnly),
                 NonEmpty(n.promptAppend), NonEmpty(n.summaryOverride),
                 if n.authority.Some? then n.authority.value else DeriveAuthority(c.units, n, edges),
                 n.script, n.logic, n.artifacts.GetOr([]))
  }

  function CompileNodes(c: Collation, nodes: seq<Node>, edges: seq<Edge>): (r: seq<CompiledNode>)
    ensures |r| == |nodes|
    ensures forall i :: 0 <= i < |r| ==> r[i] == CompileNode(c, nodes[i], edges)
  {
    seq(|nodes|, i requires 0 <= i < |nodes| => CompileNode(c, nodes[i], edges))
  }

  function RequiredCapabilities(nodes: seq<CompiledNode>): set<Capability> {
    {Workflows}
    + (if exists n :: n in nodes && n.kind.Script? then {ScriptArgv} else {})
    + (if exists n :: n in nodes && n.kind.Script? && n.script.Some? && n.script.value.command.Interpreter? then {ScriptInterpreter} else {})
    + (if exists n :: n in nodes && exists a :: a in n.artifacts && a.convention == OpenSpecConvention then {OpenSpecArtifacts} else {})
    + (if exists n :: n in nodes && n.scope == Implementation then {ImplementationWork} else {})
  }

  /** The entries that assigning them to a plain object keeps: a number under __proto__ is lost. */
  function Settable(entries: seq<BudgetEntry>): (r: seq<BudgetEntry>)
    ensures forall b :: b in r <==> b in entries && b.edge != PROTO
  {
    if entries == [] then []
    else (if entries[0].edge == PROTO then [] else [entries[0]]) + Settable(entries[1..])
  }

  /** sortedRecord */
  function SortedRecord(c: Collation, entries: seq<BudgetEntry>): seq<BudgetEntry> {
    Settable(Sorting.Sort(Sorting.By(c.units, BudgetKey), entries))
  }

  /** The contract of a draft; digest stands for stableHash(stableStringify(.)). */
  function Assemble(c: Collation, digest: Contract -> string, d: Draft, policy: Policy): Compiled {
    var nodes := CompileNodes(c, Sorting.Sort(Sorting.By(c.locale, NodeKey), d.nodes), d.edges);
    var contract := Contract(
                      d.id, RootOf(d).GetOr(""), nodes,
                      Sorting.Sort(Sorting.By(c.locale, EdgeKey), d.edges),
                      Sorting.Sort(Sorting.By(c.locale, VariableKey), d.variables),
                      SortedRecord(c, BudgetsOf(d)),
                      RequiredCapabilities(nodes), policy.hash);
    Compiled(contract, digest(contract))
  }

  /** What validateP2pWorkflowDraft finds. */
  ghost predicate DraftFault(checks: Checks, d: Draft, f: Fault) {
    (f == InvalidDraft && !DraftOk(checks, d)) || VariableFault(checks, d.variables, f)
  }

  /** What is checked once the draft itself is valid. */
  ghost predicate GraphFault(d: Draft, policy: Policy, f: Fault) {
    || (f == TooLarge && (|d.nodes| > policy.maxNodes || |d.edges| > policy.maxEdges))
    || ShapeFault(d, f) || BudgetFault(d, f)
  }

  ghost predicate ValidDraft(checks: Checks, d: Draft) {
    forall f :: !DraftFault(checks, d, f)
  }

  ghost predicate CompileFault(d: Draft, policy: Policy, f: Fault) {
    if ValidDraft(policy.checks, d) then GraphFault(d, policy, f) else DraftFault(policy.checks, d, f)
  }

  ghost predicate Compilable(d: Draft, policy: Policy) {
    forall f :: !CompileFault(d, policy, f)
  }

  method ValidateDraft(checks: Checks, d: Draft) returns (faults: seq<Fault>)
    ensures forall f :: f in faults <==> DraftFault(checks, d, f)
  {
    faults := if DraftOk(checks, d) then [] else [InvalidDraft];
    var variables := ValidateVariables(checks, d.variables);
    faults := faults + variables;
  }

  method ValidateGraph(c: Collation, d: Draft, policy: Policy) returns (faults: seq<Fault>)
    requires ValidDraft(policy.checks, d)
    ensures forall f :: f in faults <==> GraphFault(d, policy, f)
  {
    var size := if |d.nodes| > policy.maxNodes || |d.edges| > policy.maxEdges then [TooLarge] else [];
    var shape := ValidateGraphShape(d, c.units);
    var variables := ValidateVariables(policy.checks, d.variables);
    assert forall f :: f in variables ==> DraftFault(policy.checks, d, f);
    var budgets := ValidateLoopBudgets(d);
    faults := size + shape + variables + budgets;
  }

  /** A draft compiles exactly when it has no fault; otherwise every fault is reported that can be,
      those of the graph only when the draft itself is valid. */
  method Compile(c: Collation, digest: Contract -> string, d: Draft, policy: Policy) returns (r: Result<Compiled, seq<Fault>>)
    ensures r.Ok? <==> Compilable(d, policy)
    ensures r.Ok? ==> r.value == Assemble(c, digest, d, policy)
    ensures r.Err? ==> forall f :: f in r.error <==> CompileFault(d, policy, f)
  {
    var faults := ValidateDraft(policy.checks, d);
    if faults != [] {
      assert DraftFault(policy.checks, d, faults[0]);
      assert CompileFault(d, policy, faults[0]);
      return Err(faults);
    }
    assert ValidDraft(policy.checks, d);
    faults := ValidateGraph(c, d, policy);
    if faults != [] {
      assert CompileFault(d, policy, faults[0]);
      return Err(faults);
    }
    r := Ok(Assemble(c, digest, d, policy));
  }

  // ---------------------------------------------------------------- what a compiled draft looks like

  ghost predicate UniqueIds(d: Draft) {
    && (forall i, j :: 0 <= i < j < |d.nodes| ==> d.nodes[i].id != d.nodes[j].id)
    && (forall i, j :: 0 <= i < j < |d.edges| ==> d.edges[i].id != d.edges[j].id)
    && (forall i, j :: 0 <= i < j < |d.variables| ==> d.variables[i].name != d.variables[j].name)
  }

  ghost predicate OneRoot(d: Draft, root: Id) {
    && root in NodeIds(d.nodes)
    && (forall id :: id in NodeIds(d.nodes) ==> Reaches(d.edges, root, id))
    && (forall id :: id in NodeIds(d.nodes) && id !in Targets(d.edges) ==> id == root)
  }

  ghost predicate Routed(d: Draft) {
    forall e, f :: e in d.edges && f in d.edges && e.from == f.from && e.kind == f.kind ==> e == f
  }

  /** Every edge has both ends, moves forward unless budgeted, and every budget is a natural
      number under the id of an edge. */
  ghost predicate Budgeted(d: Draft) {
    && (forall e :: e in d.edges ==> e.from in NodeIds(d.nodes) && e.to in NodeIds(d.nodes))
    && (forall e :: e in d.edges && Lookup(BudgetsOf(d), e.id).None? ==> IndexOf(d.nodes, e.from) < IndexOf(d.nodes, e.to))
    && (forall b :: b in BudgetsOf(d) ==> exists e :: e in d.edges && e.id == b.edge)
    && (IsRecord(BudgetsOf(d)) ==> forall b :: b in BudgetsOf(d) ==> BudgetOk(b.budget))
  }

  /** The draft passes validateGraphShape and validateLoopBudgets. */
  ghost predicate GraphSound(d: Draft) {
    forall f :: !ShapeFault(d, f) && !BudgetFault(d, f)
  }

  lemma {:induction false} TwoInSeq<T>(s: seq<T>, x: T, y: T)
    requires x in s && y in s && x != y
    ensures |s| > 1
  {
    var i :| 0 <= i < |s| && s[i] == x;
    var j :| 0 <= j < |s| && s[j] == y;
  }

  lemma {:induction false} CompilableParts(d: Draft, policy: Policy)
    ensures Compilable(d, policy) <==> ValidDraft(policy.checks, d) && forall f :: !GraphFault(d, policy, f)
  {
    if !ValidDraft(policy.checks, d) {
      var f :| DraftFault(policy.checks, d, f);
      assert CompileFault(d, policy, f);
    } else if Compilable(d, policy) {
      forall f ensures !GraphFault(d, policy, f) {
        assert !CompileFault(d, policy, f);
      }
    }
  }

  /** What every compiled draft satisfies. */
  lemma {:induction false} CompiledShape(d: Draft, policy: Policy)
    requires Compilable(d, policy)
    ensures GraphSound(d) && UniqueIds(d) && Routed(d) && Budgeted(d)
    ensures RootOf(d).Some? && OneRoot(d, RootOf(d).value)
  {
    CompilableParts(d, policy);
    forall f ensures !ShapeFault(d, f) && !BudgetFault(d, f) && !VariableFault(policy.checks, d.variables, f) {
      assert !GraphFault(d, policy, f) && !DraftFault(policy.checks, d, f);
    }
    CompiledUnique(policy.checks, d);
    CompiledRouted(d);
    CompiledBudgeted(d);
    CompiledRooted(d);
  }

  lemma {:induction false} CompiledUnique(checks: Checks, d: Draft)
    requires forall f :: !ShapeFault(d, f) && !VariableFault(checks, d.variables, f)
    ensures UniqueIds(d)
  {
    forall i, j | 0 <= i < j < |d.nodes| ensures d.nodes[i].id != d.nodes[j].id {
      assert !ShapeFault(d, DuplicateNode(d.nodes[i].id));
    }
    forall i, j | 0 <= i < j < |d.edges| ensures d.edges[i].id != d.edges[j].id {
      assert !ShapeFault(d, DuplicateEdge(d.edges[i].id));
    }
    forall i, j | 0 <= i < j < |d.variables| ensures d.variables[i].name != d.variables[j].name {
      assert !VariableFault(checks, d.variables, DuplicateVariable(d.variables[i].name));
      assert !VariableFault(checks, d.variables, BadVariableName(d.variables[i].name));
    }
  }

  lemma {:induction false} FewOut(d: Draft, n: Node, kind: EdgeKind)
    requires (forall f :: !ShapeFault(d, f)) && n in d.nodes
    ensures |OutEdges(d.edges, n.id, kind)| <= 1
  {
    assert !ShapeFault(d, ManyDefaults(n.id)) && !ShapeFault(d, ManyConditionals(n.id));
    assert !RoutingFault(d.edges, n, ManyDefaults(n.id)) && !RoutingFault(d.edges, n, ManyConditionals(n.id));
  }

  lemma {:induction false} CompiledRouted(d: Draft)
    requires forall f :: !ShapeFault(d, f)
    ensures Routed(d)
  {
    forall e, f | e in d.edges && f in d.edges && e.from == f.from && e.kind == f.kind ensures e == f {
      NothingDangles(d, e);
      var n :| n in d.nodes && n.id == e.from;
      FewOut(d, n, e.kind);
      var out := OutEdges(d.edges, n.id, e.kind);
      assert e in out && f in out;
      if e != f {
        TwoInSeq(out, e, f);
      }
    }
  }

  lemma {:induction false} UnbudgetedGoesForward(d: Draft, e: Edge)
    requires GraphSound(d) && e in d.edges && !Dangles(d.nodes, e) && Lookup(BudgetsOf(d), e.id).None?
    ensures IndexOf(d.nodes, e.from) < IndexOf(d.nodes, e.to)
  {
    EdgeBudgetSound(d, e);
    assert !EdgeBudgetFault(d.nodes, e, ReadBudget(d, e.id), BudgetMissing(e.id));
  }

  lemma {:induction false} EdgeBudgetSound(d: Draft, e: Edge)
    requires (forall f :: !BudgetFault(d, f)) && e in d.edges && !Dangles(d.nodes, e)
    ensures ReadBudget(d, e.id).Some? ==> BudgetOk(ReadBudget(d, e.id).value)
    ensures forall f :: !EdgeBudgetFault(d.nodes, e, ReadBudget(d, e.id), f)
  {
    forall f ensures !EdgeBudgetFault(d.nodes, e, ReadBudget(d, e.id), f) {
      assert !BudgetFault(d, f);
    }
    assert !EdgeBudgetFault(d.nodes, e, ReadBudget(d, e.id), BudgetInvalid(e.id));
  }

  lemma {:induction false} NothingDangles(d: Draft, e: Edge)
    requires (forall f :: !ShapeFault(d, f)) && e in d.edges
    ensures !Dangles(d.nodes, e)
  {
    assert !ShapeFault(d, DanglingEdge(e.id));
    assert !EdgeFault(d.nodes, d.edges, DanglingEdge(e.id));
  }

  lemma {:induction false} CompiledBudgeted(d: Draft)
    requires GraphSound(d)
    ensures Budgeted(d)
  {
    forall e | e in d.edges ensures !Dangles(d.nodes, e) {
      NothingDangles(d, e);
    }
    forall e | e in d.edges && Lookup(BudgetsOf(d), e.id).None? ensures IndexOf(d.nodes, e.from) < IndexOf(d.nodes, e.to) {
      UnbudgetedGoesForward(d, e);
    }
    forall b | b in BudgetsOf(d) ensures (exists e :: e in d.edges && e.id == b.edge) {
      KeyNamesEdge(d, b);
    }
    if IsRecord(BudgetsOf(d)) {
      forall b | b in BudgetsOf(d) ensures BudgetOk(b.budget) {
        ValueIsNatural(d, b);
      }
    }
  }

  lemma {:induction false} KeyNamesEdge(d: Draft, b: BudgetEntry)
    requires GraphSound(d) && b in BudgetsOf(d)
    ensures exists e :: e in d.edges && e.id == b.edge
  {
    assert !BudgetFault(d, BudgetStray(b.edge));
  }

  lemma {:induction false} ValueIsNatural(d: Draft, b: BudgetEntry)
    requires GraphSound(d) && IsRecord(BudgetsOf(d)) && b in BudgetsOf(d)
    ensures BudgetOk(b.budget)
  {
    LookupRecord(BudgetsOf(d), b);
    KeyNamesEdge(d, b);
    var e :| e in d.edges && e.id == b.edge;
    NothingDangles(d, e);
    EdgeBudgetSound(d, e);
  }

  lemma {:induction false} LookupRecord(entries: seq<BudgetEntry>, b: BudgetEntry)
    requires IsRecord(entries) && b in entries
    ensures Lookup(entries, b.edge) == Some(b.budget)
  {
    if entries[0] != b {
      assert b in entries[1..];
      var k :| 0 < k < |entries| && entries[k] == b;
      LookupRecord(entries[1..], b);
    }
  }

  lemma {:induction false} CompiledRooted(d: Draft)
    requires forall f :: !ShapeFault(d, f)
    ensures RootOf(d).Some? && OneRoot(d, RootOf(d).value)
  {
    assert !ShapeFault(d, NoRoot);
    var root := RootOf(d).value;
    forall id | id in NodeIds(d.nodes) ensures Reaches(d.edges, root, id) {
      assert !ShapeFault(d, Unreachable(id));
    }
    forall id | id in NodeIds(d.nodes) && id !in Targets(d.edges) ensures id == root {
      var p :| IsPath(d.edges, root, p, id);
      if p != [] {
        EndsInTarget(d.edges, root, p, id);
      }
    }
  }

  lemma {:induction false} EndsInTarget(edges: seq<Edge>, a: Id, p: seq<Edge>, b: Id)
    requires IsPath(edges, a, p, b) && p != []
    ensures b in Targets(edges)
    decreases p
  {
    if |p| > 1 {
      EndsInTarget(edges, p[0].to, p[1..], b);
    }
  }

  ghost predicate DistinctEdges(edges: seq<Edge>) {
    forall i, j :: 0 <= i < j < |edges| ==> edges[i].id != edges[j].id
  }

  lemma {:induction false} AtMostOne(edges: seq<Edge>, id: Id, kind: EdgeKind)
    requires forall e, f :: e in edges && f in edges && e.from == f.from == id && e.kind == f.kind == kind ==> e == f
    requires DistinctEdges(edges)
    ensures |OutEdges(edges, id, kind)| <= 1
  {
    if edges != [] {
      AtMostOne(edges[1..], id, kind);
      if edges[0].from == id && edges[0].kind == kind {
        forall k | 0 < k < |edges| ensures !(edges[k].from == id && edges[k].kind == kind) {
          assert edges[0].id != edges[k].id;
        }
        NoneOut(edges[1..], id, kind);
      }
    }
  }

  lemma {:induction false} NoneOut(edges: seq<Edge>, id: Id, kind: EdgeKind)
    requires forall k :: 0 <= k < |edges| ==> !(edges[k].from == id && edges[k].kind == kind)
    ensures OutEdges(edges, id, kind) == []
  {
    if edges != [] {
      NoneOut(edges[1..], id, kind);
    }
  }
}
