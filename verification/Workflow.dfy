/** The workflow draft a user authors and the graph questions asked about it:
    paths, reachability, and walks that respect loop budgets. */
module Workflow {
  import opened Wrappers

  type Id = string

  function Ratio(m: int, k: int): real
    requires k > 0
  {
    m as real / k as real
  }

  ghost predicate IsRatio(x: real) {
    exists m, k :: k > 0 && Ratio(m, k) == x
  }

  /** A finite JavaScript number: every one of them is a fraction. */
  type Number = x: real | IsRatio(x) witness Ratio(0, 1)

  datatype NodeKind = Llm | Logic | Script
  datatype Preset =
    | Brainstorm | Discuss | Audit | Review | Plan | OpenSpecPropose
    | ProposalAudit | Implement | ImplementationAudit | Custom
  datatype Scope = AnalysisOnly | ArtifactGeneration | Implementation
  datatype Dispatch = SingleMain | MultiDispatch
  datatype Convention = NoConvention | ExplicitPaths | OpenSpecConvention
  datatype SymlinkPolicy = RejectAll | AllowExisting
  datatype Artifact = Artifact(convention: Convention, paths: seq<string>, scope: Option<Scope>, symlinks: Option<SymlinkPolicy>)

  datatype Authority =
    | NoAuthority
    | VerdictMarkers(allowed: seq<string>)
    | LogicMarkers(allowed: seq<string>)
    | RoutingKeys(allowed: seq<string>)

  datatype LogicTest = VariableEquals(name: string, equals: string) | VariablePresent(name: string) | VariableTruthy(name: string)
  datatype LogicRule = LogicRule(test: Option<LogicTest>, emit: string)
  datatype LogicContract = LogicContract(rules: seq<LogicRule>, fallback: string)
  datatype CommandKind = Argv | Interpreter
  datatype ByteCaps = ByteCaps(input: Option<Number>, output: Option<Number>, error: Option<Number>, machine: Option<Number>)
  datatype ScriptContract = ScriptContract(
    command: CommandKind, argv: seq<string>, interpreter: Option<string>, input: Option<string>, env: Option<seq<string>>,
    machineOutput: Option<bool>, timeout: Option<Number>, caps: Option<ByteCaps>)

  datatype Node = Node(
    id: Id, title: Option<string>, kind: NodeKind, preset: Preset, dispatch: Option<Dispatch>,
    scope: Option<Scope>, promptAppend: Option<string>, summaryOverride: Option<string>,
    authority: Option<Authority>, script: Option<ScriptContract>, logic: Option<LogicContract>,
    artifacts: Option<seq<Artifact>>)

  datatype EdgeKind = Default | Conditional
  datatype ConditionKind = RoutingKeyEquals | VerdictMarkerEquals | LogicMarkerEquals
  datatype Condition = Condition(kind: ConditionKind, equals: string)
  datatype Edge = Edge(id: Id, from: Id, to: Id, kind: EdgeKind, condition: Option<Condition>)

  /** A JavaScript number as the budget check sees it. */
  datatype Budget = Whole(count: int) | NotWhole

  /** One entry of the loopBudgets record, in insertion order. */
  datatype BudgetEntry = BudgetEntry(edge: Id, budget: Budget)

  datatype VariableValue = Text(text: string) | Numeric(value: Number) | Flag(on: bool) | Texts(items: seq<string>)
  datatype Variable = Variable(name: string, value: VariableValue)

  datatype Draft = Draft(
    id: Id, nodes: seq<Node>, edges: seq<Edge>, root: Option<Id>,
    variables: seq<Variable>, loopBudgets: Option<seq<BudgetEntry>>)

  /** draft.loopBudgets ?? {} */
  function BudgetsOf(d: Draft): seq<BudgetEntry> {
    d.loopBudgets.GetOr([])
  }

  /** The names that every JavaScript object inherits. */
  predicate Inherited(key: string) {
    || key == "constructor" || key == "hasOwnProperty" || key == "isPrototypeOf" || key == "propertyIsEnumerable"
    || key == "toLocaleString" || key == "toString" || key == "valueOf" || key == PROTO
    || key == "__defineGetter__" || key == "__defineSetter__" || key == "__lookupGetter__" || key == "__lookupSetter__"
  }

  const PROTO := "__proto__"

  /** draft.loopBudgets?.[key]: without an entry of its own, an object still has what it inherits. */
  function ReadBudget(d: Draft, key: Id): (r: Option<Budget>)
    ensures r.None? ==> Lookup(BudgetsOf(d), key).None?
    ensures Lookup(BudgetsOf(d), key).Some? ==> r == Lookup(BudgetsOf(d), key)
    ensures Lookup(BudgetsOf(d), key).None? && r.Some? ==> r.value == NotWhole
  {
    if d.loopBudgets.None? then None
    else if Lookup(d.loopBudgets.value, key).Some? then Lookup(d.loopBudgets.value, key)
    else if Inherited(key) then Some(NotWhole)
    else None
  }

  function NodeKey(n: Node): Id { n.id }
  function EdgeKey(e: Edge): Id { e.id }
  function VariableKey(v: Variable): string { v.name }
  function BudgetKey(b: BudgetEntry): Id { b.edge }

  /** Two places of s hold something with this name. */
  ghost predicate Twice<T>(s: seq<T>, name: T -> string, id: string) {
    exists i, j :: 0 <= i < j < |s| && name(s[i]) == id && name(s[j]) == id
  }

  ghost predicate Names<T>(s: seq<T>, name: T -> string, id: string) {
    exists i :: 0 <= i < |s| && name(s[i]) == id
  }

  lemma {:induction false} TwiceStep<T>(s: seq<T>, name: T -> string, i: nat)
    requires i < |s|
    ensures forall id :: Twice(s[..i + 1], name, id) <==> Twice(s[..i], name, id) || (id == name(s[i]) && Names(s[..i], name, id))
    ensures forall id :: Names(s[..i + 1], name, id) <==> Names(s[..i], name, id) || id == name(s[i])
  {
    forall id
      ensures Twice(s[..i + 1], name, id) <==> Twice(s[..i], name, id) || (id == name(s[i]) && Names(s[..i], name, id))
      ensures Names(s[..i + 1], name, id) <==> Names(s[..i], name, id) || id == name(s[i])
    {
      TwiceStepAt(s[..i], s[i], name, id);
      assert s[..i + 1] == s[..i] + [s[i]];
    }
  }

  lemma {:induction false} TwiceStepAt<T>(s: seq<T>, last: T, name: T -> string, id: string)
    ensures Twice(s + [last], name, id) <==> Twice(s, name, id) || (id == name(last) && Names(s, name, id))
    ensures Names(s + [last], name, id) <==> Names(s, name, id) || id == name(last)
  {
    var t := s + [last];
    assert t[|s|] == last;
    forall i | 0 <= i < |s| ensures t[i] == s[i] {
    }
    if Twice(t, name, id) {
      var j, k :| 0 <= j < k < |t| && name(t[j]) == id && name(t[k]) == id;
      assert s[j] == t[j];
      assert k < |s| ==> s[k] == t[k];
    }
    if Twice(s, name, id) {
      var j, k :| 0 <= j < k < |s| && name(s[j]) == id && name(s[k]) == id;
      assert t[j] == s[j] && t[k] == s[k];
    }
    if id == name(last) && Names(s, name, id) {
      var j :| 0 <= j < |s| && name(s[j]) == id;
      assert t[j] == s[j] && t[|s|] == last;
    }
  }

  function NodeIds(nodes: seq<Node>): set<Id> {
    set n | n in nodes :: n.id
  }

  /** A record has one entry a key. */
  ghost predicate IsRecord(entries: seq<BudgetEntry>) {
    forall i, j :: 0 <= i < j < |entries| ==> entries[i].edge != entries[j].edge
  }

  function Lookup(entries: seq<BudgetEntry>, key: Id): (r: Option<Budget>)
    ensures r.None? <==> forall b :: b in entries ==> b.edge != key
    ensures r.Some? ==> BudgetEntry(key, r.value) in entries
  {
    if entries == [] then None
    else if entries[0].edge == key then Some(entries[0].budget)
    else Lookup(entries[1..], key)
  }

  function OutEdges(edges: seq<Edge>, id: Id, kind: EdgeKind): (r: seq<Edge>)
    ensures forall e :: e in r <==> e in edges && e.from == id && e.kind == kind
  {
    if edges == [] then []
    else (if edges[0].from == id && edges[0].kind == kind then [edges[0]] else []) + OutEdges(edges[1..], id, kind)
  }

  /** p is a path of edges from a to b. */
  ghost predicate IsPath(edges: seq<Edge>, a: Id, p: seq<Edge>, b: Id)
    decreases p
  {
    if p == [] then a == b
    else p[0] in edges && p[0].from == a && IsPath(edges, p[0].to, p[1..], b)
  }

  ghost predicate Reaches(edges: seq<Edge>, a: Id, b: Id) {
    exists p :: IsPath(edges, a, p, b)
  }

  lemma {:induction false} PathAppend(edges: seq<Edge>, a: Id, p: seq<Edge>, b: Id, e: Edge)
    requires IsPath(edges, a, p, b) && e in edges && e.from == b
    ensures IsPath(edges, a, p + [e], e.to)
    decreases p
  {
    if p == [] {
      assert (p + [e])[1..] == [];
    } else {
      PathAppend(edges, p[0].to, p[1..], b, e);
      assert (p + [e])[1..] == p[1..] + [e];
    }
  }

  /** How often walk w crosses the edge with this id. */
  ghost function Crossings(w: seq<Edge>, id: Id): nat {
    if w == [] then 0 else (if w[0].id == id then 1 else 0) + Crossings(w[1..], id)
  }

  /** w crosses every budgeted edge at most as often as its budget says. */
  ghost predicate Respects(budgets: seq<BudgetEntry>, w: seq<Edge>) {
    forall b :: b in budgets && b.budget.Whole? ==> Crossings(w, b.edge) <= b.budget.count
  }

  /** A walk from the root of the draft that respects its budgets. */
  ghost predicate BudgetedWalk(d: Draft, w: seq<Edge>) {
    d.root.Some? && Respects(BudgetsOf(d), w) && exists b :: IsPath(d.edges, d.root.value, w, b)
  }

  ghost function TotalBudget(budgets: seq<BudgetEntry>): int {
    if budgets == [] then 0
    else (if budgets[0].budget.Whole? then budgets[0].budget.count else 0) + TotalBudget(budgets[1..])
  }
}
