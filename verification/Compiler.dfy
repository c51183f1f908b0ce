/** shared/p2p-workflow-compiler.ts: the checks on a draft graph, the reachability
    fixpoint, the loop-budget rule, and the compiled contract. */
module Compiler {
  import opened Wrappers
  import opened Workflow
  import CodeUnits
  import Sorting

  const MAX_VARIABLES := 64
  const MAX_LOGIC_RULES := 32
  const MAX_MARKER := 128

  /** Every way a draft can be refused.  All of them have severity "error". */
  datatype Fault =
    | InvalidDraft
    | TooLarge
    | ManyOpenSpec
    | DuplicateNode(id: Id)
    | DuplicateEdge(id: Id)
    | DanglingEdge(id: Id)
    | NoRoot
    | LogicMissing(id: Id)
    | LogicInvalid(id: Id)
    | LogicStray(id: Id)
    | ManyDefaults(id: Id)
    | ManyConditionals(id: Id)
    | AuthorityIsNone(id: Id)
    | ConditionMissing(id: Id)
    | Unreachable(id: Id)
    | BudgetMissing(id: Id)
    | BudgetInvalid(id: Id)
    | BudgetStray(id: Id)
    | ManyVariables
    | BadVariableName(name: string)
    | DuplicateVariable(name: string)
    | BadVariableValue(name: string)

  /** Checks on single values that other validators make: artifact paths, script contracts, and the
      kind and size of variable values. */
  datatype Checks = Checks(pathOk: string -> bool, scriptOk: ScriptContract -> bool, valueOk: VariableValue -> bool)

  datatype Policy = Policy(maxNodes: nat, maxEdges: nat, hash: string, checks: Checks)

  // ---------------------------------------------------------------- what each fault means

  predicate DeclaresOpenSpec(n: Node) {
    n.artifacts.Some? && exists a :: a in n.artifacts.value && a.convention == OpenSpecConvention
  }

  /** Two different nodes declare an openspec_convention artifact. */
  ghost predicate TwoOpenSpecNodes(nodes: seq<Node>) {
    exists i, j :: 0 <= i < j < |nodes| && DeclaresOpenSpec(nodes[i]) && DeclaresOpenSpec(nodes[j])
  }

  predicate IsMarker(s: string) {
    0 < |s| <= MAX_MARKER && forall c :: c in s ==> '!' <= c <= '~'
  }

  predicate IdentifierChar(c: char) {
    'A' <= c <= 'Z' || 'a' <= c <= 'z' || '0' <= c <= '9' || c == '_'
  }

  predicate IsIdentifier(s: string) {
    && 0 < |s| <= 64 && !('0' <= s[0] <= '9')
    && (forall c :: c in s ==> IdentifierChar(c))
    && s != "__proto__" && s != "constructor" && s != "prototype"
  }

  predicate LogicTestOk(t: LogicTest) {
    IsIdentifier(t.name) && (t.VariableEquals? ==> |CodeUnits.Utf16(t.equals)| <= MAX_MARKER)
  }

  predicate LogicOk(l: LogicContract) {
    && |l.rules| <= MAX_LOGIC_RULES && IsMarker(l.fallback)
    && forall r :: r in l.rules ==> IsMarker(r.emit) && (r.test.Some? ==> LogicTestOk(r.test.value))
  }

  predicate FalsyId(id: Option<Id>) {
    id.None? || id.value == ""
  }

  /** draft.rootNodeId ?? findRootNodeId(draft): an explicit root wins, even an empty one;
      otherwise the only node that no edge enters. */
  function RootOf(draft: Draft): (r: Option<Id>) {
    if draft.root.Some? then draft.root
    else
      var roots := Sources(draft.nodes, draft.edges);
      if |roots| == 1 then Some(roots[0]) else None
  }

  function Targets(edges: seq<Edge>): set<Id> {
    set e | e in edges :: e.to
  }

  function Sources(nodes: seq<Node>, edges: seq<Edge>): (r: seq<Id>)
    ensures forall x :: x in r <==> x in NodeIds(nodes) && x !in Targets(edges)
    ensures |r| <= |nodes|
  {
    if nodes == [] then []
    else
      assert nodes == [nodes[0]] + nodes[1..];
      (if nodes[0].id in Targets(edges) then [] else [nodes[0].id]) + Sources(nodes[1..], edges)
  }

  /** Exactly one place of the draft holds a node that no edge enters, and it has this id. */
  ghost predicate OnlySource(nodes: seq<Node>, edges: seq<Edge>, id: Id) {
    exists i :: 0 <= i < |nodes| && nodes[i].id == id && SourceAt(nodes, edges, i)
                && forall j :: 0 <= j < |nodes| && SourceAt(nodes, edges, j) ==> j == i
  }

  ghost predicate SourceAt(nodes: seq<Node>, edges: seq<Edge>, i: int)
    requires 0 <= i < |nodes|
  {
    nodes[i].id !in Targets(edges)
  }

  lemma {:induction false} NoSources(nodes: seq<Node>, edges: seq<Edge>)
    ensures Sources(nodes, edges) == [] <==> forall i :: 0 <= i < |nodes| ==> !SourceAt(nodes, edges, i)
  {
    if nodes != [] {
      NoSources(nodes[1..], edges);
      forall i | 0 <= i < |nodes| ensures SourceAt(nodes, edges, i) <==> if i == 0 then SourceAt(nodes, edges, 0) else SourceAt(nodes[1..], edges, i - 1) {
      }
      if forall i :: 0 <= i < |nodes| ==> !SourceAt(nodes, edges, i) {
        assert !SourceAt(nodes, edges, 0);
        forall i | 0 <= i < |nodes| - 1 ensures !SourceAt(nodes[1..], edges, i) {
          assert !SourceAt(nodes, edges, i + 1);
        }
      }
    }
  }

  lemma {:induction false} OneSource(nodes: seq<Node>, edges: seq<Edge>, id: Id)
    ensures Sources(nodes, edges) == [id] <==> OnlySource(nodes, edges, id)
  {
    if nodes != [] {
      var rest := nodes[1..];
      assert forall i :: 0 < i < |nodes| ==> (SourceAt(nodes, edges, i) <==> SourceAt(rest, edges, i - 1));
      if SourceAt(nodes, edges, 0) {
        NoSources(rest, edges);
        HeadIsOnlySource(nodes, edges, id);
      } else {
        OneSource(rest, edges, id);
        SkipNoSource(nodes, edges, id);
      }
    }
  }

  lemma {:induction false} HeadIsOnlySource(nodes: seq<Node>, edges: seq<Edge>, id: Id)
    requires nodes != [] && SourceAt(nodes, edges, 0)
    ensures OnlySource(nodes, edges, id)
            <==> nodes[0].id == id && forall i :: 0 <= i < |nodes| - 1 ==> !SourceAt(nodes[1..], edges, i)
  {
    if OnlySource(nodes, edges, id) {
      forall i | 0 <= i < |nodes| - 1 ensures !SourceAt(nodes[1..], edges, i) {
        assert SourceAt(nodes, edges, i + 1) <==> SourceAt(nodes[1..], edges, i);
      }
    }
    if nodes[0].id == id && forall i :: 0 <= i < |nodes| - 1 ==> !SourceAt(nodes[1..], edges, i) {
      forall j | 0 < j < |nodes| ensures !SourceAt(nodes, edges, j) {
        assert !SourceAt(nodes[1..], edges, j - 1);
      }
    }
  }

  lemma {:induction false} SkipNoSource(nodes: seq<Node>, edges: seq<Edge>, id: Id)
    requires nodes != [] && !SourceAt(nodes, edges, 0)
    ensures OnlySource(nodes, edges, id) <==> OnlySource(nodes[1..], edges, id)
  {
    var rest := nodes[1..];
    if OnlySource(nodes, edges, id) {
      var i :| 0 <= i < |nodes| && nodes[i].id == id && SourceAt(nodes, edges, i)
               && forall j :: 0 <= j < |nodes| && SourceAt(nodes, edges, j) ==> j == i;
      assert rest[i - 1].id == id && SourceAt(rest, edges, i - 1);
      forall j | 0 <= j < |rest| && SourceAt(rest, edges, j) ensures j == i - 1 {
        assert SourceAt(nodes, edges, j + 1);
      }
    }
    if OnlySource(rest, edges, id) {
      var i :| 0 <= i < |rest| && rest[i].id == id && SourceAt(rest, edges, i)
               && forall j :: 0 <= j < |rest| && SourceAt(rest, edges, j) ==> j == i;
      assert nodes[i + 1].id == id && SourceAt(nodes, edges, i + 1);
      forall j | 0 <= j < |nodes| && SourceAt(nodes, edges, j) ensures j == i + 1 {
        assert j > 0 && SourceAt(rest, edges, j - 1);
      }
    }
  }

  /** Without a root of its own a draft is rooted exactly in its only node that no edge enters. */
  lemma {:induction false} ImplicitRoot(d: Draft, id: Id)
    requires d.root.None?
    ensures RootOf(d) == Some(id) <==> OnlySource(d.nodes, d.edges, id)
  {
    OneSource(d.nodes, d.edges, id);
    var roots := Sources(d.nodes, d.edges);
    if |roots| == 1 {
      assert roots == [roots[0]];
    }
  }

  /** The authority a node with conditional edges gets when it declares none:
      who decides depends on the node's kind, the markers are those of its edges. */
  function DeriveAuthority(unitLe: (string, string) -> bool, n: Node, edges: seq<Edge>): Authority {
    var out := OutEdges(edges, n.id, Conditional);
    if out == [] then NoAuthority else AuthorityOf(n.kind, Sorting.Sort(unitLe, Markers(out)))
  }

  function AuthorityOf(kind: NodeKind, allowed: seq<string>): Authority {
    match kind
    case Script => RoutingKeys(allowed)
    case Logic => LogicMarkers(allowed)
    case Llm => VerdictMarkers(allowed)
  }

  function Markers(edges: seq<Edge>): (r: seq<string>)
    ensures |r| <= |edges|
  {
    if edges == [] then []
    else
      var c := edges[0].condition;
      (if c.Some? && c.value.equals != "" then [c.value.equals] else []) + Markers(edges[1..])
  }

  /** The meaning of each fault about the shape of the graph. */
  ghost predicate ShapeFault(d: Draft, f: Fault) {
    || (f == ManyOpenSpec && TwoOpenSpecNodes(d.nodes))
    || (f.DuplicateNode? && Twice(d.nodes, NodeKey, f.id))
    || EdgeFault(d.nodes, d.edges, f)
    || (f == NoRoot && (FalsyId(RootOf(d)) || RootOf(d).value !in NodeIds(d.nodes)))
    || SomeNodeFault(d.nodes, d.edges, f)
    || (!FalsyId(RootOf(d)) && ReachFault(d.nodes, RootOf(d).value, d.edges, f))
  }

  ghost predicate EdgeFault(nodes: seq<Node>, edges: seq<Edge>, f: Fault) {
    || (f.DuplicateEdge? && Twice(edges, EdgeKey, f.id))
    || (f.DanglingEdge? && exists e :: e in edges && e.id == f.id && Dangles(nodes, e))
  }

  ghost predicate SomeNodeFault(nodes: seq<Node>, edges: seq<Edge>, f: Fault) {
    exists n :: n in nodes && NodeFault(edges, n, f)
  }

  ghost predicate ReachFault(nodes: seq<Node>, root: Id, edges: seq<Edge>, f: Fault) {
    f.Unreachable? && f.id in NodeIds(nodes) && !Reaches(edges, root, f.id)
  }

  predicate Dangles(nodes: seq<Node>, e: Edge) {
    e.from !in NodeIds(nodes) || e.to !in NodeIds(nodes)
  }

  /** The faults that one node and its outgoing edges show. */
  predicate NodeFault(edges: seq<Edge>, n: Node, f: Fault) {
    LogicFault(n, f) || RoutingFault(edges, n, f)
  }

  predicate LogicFault(n: Node, f: Fault) {
    match f
    case LogicMissing(id) => n.id == id && n.kind.Logic? && n.logic.None?
    case LogicInvalid(id) => n.id == id && n.kind.Logic? && n.logic.Some? && !LogicOk(n.logic.value)
    case LogicStray(id) => n.id == id && !n.kind.Logic? && n.logic.Some?
    case _ => false
  }

  predicate RoutingFault(edges: seq<Edge>, n: Node, f: Fault) {
    || (f == ManyDefaults(n.id) && |OutEdges(edges, n.id, Default)| > 1)
    || BranchFault(n, OutEdges(edges, n.id, Conditional), f)
  }

  predicate BranchFault(n: Node, conditional: seq<Edge>, f: Fault) {
    || (f == ManyConditionals(n.id) && |conditional| > 1)
    || (f == AuthorityIsNone(n.id) && conditional != [] && n.authority == Some(NoAuthority))
    || UnconditionedFault(conditional, f)
  }

  /** A conditional edge has no condition. */
  predicate UnconditionedFault(conditional: seq<Edge>, f: Fault) {
    f.ConditionMissing? && exists e :: e in conditional && e.id == f.id && e.condition.None?
  }

  /** What is wrong with the budget of one edge.  A node's place is its index in the draft (the
      last one, for a repeated id, as the Map keeps it). */
  predicate EdgeBudgetFault(nodes: seq<Node>, e: Edge, budget: Option<Budget>, f: Fault) {
    && !Dangles(nodes, e)
    && match f
       case BudgetMissing(id) => e.id == id && IndexOf(nodes, e.to) <= IndexOf(nodes, e.from) && budget.None?
       case BudgetInvalid(id) => e.id == id && budget.Some? && !BudgetOk(budget.value)
       case _ => false
  }

  /** The meaning of each fault about loop budgets. */
  ghost predicate BudgetFault(d: Draft, f: Fault) {
    || StrayFault(d, f)
    || exists e :: e in d.edges && EdgeBudgetFault(d.nodes, e, ReadBudget(d, e.id), f)
  }

  ghost predicate StrayFault(d: Draft, f: Fault) {
    f.BudgetStray? && Lookup(BudgetsOf(d), f.id).Some? && !Names(d.edges, EdgeKey, f.id)
  }

  /** The faults a check would find that reads only the entries of the record itself. */
  ghost predicate OwnBudgetFault(d: Draft, f: Fault) {
    || StrayFault(d, f)
    || exists e :: e in d.edges && EdgeBudgetFault(d.nodes, e, Lookup(BudgetsOf(d), e.id), f)
  }

  /** The check reads an inherited member for the budget of e. */
  predicate BorrowsBudget(d: Draft, e: Edge) {
    d.loopBudgets.Some? && Lookup(BudgetsOf(d), e.id).None? && Inherited(e.id) && !Dangles(d.nodes, e)
  }

  predicate BudgetOk(b: Budget) {
    b.Whole? && b.count >= 0
  }

  /** The index nodeOrder.get(id) yields. */
  function IndexOf(nodes: seq<Node>, id: Id): (i: nat)
    requires id in NodeIds(nodes)
    ensures i < |nodes| && nodes[i].id == id
    ensures forall j :: i < j < |nodes| ==> nodes[j].id != id
  {
    var last := |nodes| - 1;
    if nodes[last].id == id then last
    else
      assert nodes == nodes[..last] + [nodes[last]];
      IndexOf(nodes[..last], id)
  }

  // ---------------------------------------------------------------- the checks

  method CheckOpenSpec(nodes: seq<Node>) returns (faults: seq<Fault>)
    ensures faults == if TwoOpenSpecNodes(nodes) then [ManyOpenSpec] else []
  {
    var declaring: seq<Node> := [];
    ghost var at: seq<int> := [];
    for i := 0 to |nodes|
      invariant |at| == |declaring|
      invariant forall k :: 0 <= k < |at| ==> 0 <= at[k] < i && DeclaresOpenSpec(nodes[at[k]])
      invariant forall k, l :: 0 <= k < l < |at| ==> at[k] < at[l]
      invariant forall j :: 0 <= j < i && DeclaresOpenSpec(nodes[j]) ==> j in at
    {
      if DeclaresOpenSpec(nodes[i]) {
        declaring, at := declaring + [nodes[i]], at + [i];
      }
    }
    if |declaring| > 1 {
      assert at[0] < at[1];
      faults := [ManyOpenSpec];
    } else {
      faults := [];
    }
  }

  method CheckNodeIds(nodes: seq<Node>) returns (faults: seq<Fault>, ids: set<Id>)
    ensures ids == NodeIds(nodes)
    ensures forall f :: f in faults <==> f.DuplicateNode? && Twice(nodes, NodeKey, f.id)
  {
    faults, ids := [], {};
    for i := 0 to |nodes|
      invariant ids == NodeIds(nodes[..i])
      invariant forall id :: id in ids <==> Names(nodes[..i], NodeKey, id)
      invariant forall f :: f in faults <==> f.DuplicateNode? && Twice(nodes[..i], NodeKey, f.id)
    {
      var id := nodes[i].id;
      assert nodes[..i + 1] == nodes[..i] + [nodes[i]];
      TwiceStep(nodes, NodeKey, i);
      if id in ids {
        faults := faults + [DuplicateNode(id)];
      }
      ids := ids + {id};
    }
    assert nodes[..|nodes|] == nodes;
  }

  method CheckEdges(nodes: seq<Node>, ids: set<Id>, edges: seq<Edge>) returns (faults: seq<Fault>)
    requires ids == NodeIds(nodes)
    ensures forall f :: f in faults <==> EdgeFault(nodes, edges, f)
  {
    faults := [];
    var edgeIds: set<Id> := {};
    for i := 0 to |edges|
      invariant forall id :: id in edgeIds <==> Names(edges[..i], EdgeKey, id)
      invariant forall f :: f in faults <==> EdgeFault(nodes, edges[..i], f)
    {
      var edge := edges[i];
      TwiceStep(edges, EdgeKey, i);
      assert edges[..i + 1] == edges[..i] + [edge];
      assert forall e :: e in edges[..i + 1] <==> e in edges[..i] || e == edge;
      if edge.id in edgeIds {
        faults := faults + [DuplicateEdge(edge.id)];
      }
      edgeIds := edgeIds + {edge.id};
      if edge.from !in ids || edge.to !in ids {
        faults := faults + [DanglingEdge(edge.id)];
      }
    }
    assert edges[..|edges|] == edges;
  }

  method CheckLogic(n: Node) returns (faults: seq<Fault>)
    ensures forall f :: f in faults <==> LogicFault(n, f)
  {
    faults := [];
    if n.kind.Logic? {
      if n.logic.None? {
        faults := [LogicMissing(n.id)];
      } else if !LogicOk(n.logic.value) {
        faults := [LogicInvalid(n.id)];
      }
    } else if n.logic.Some? {
      faults := [LogicStray(n.id)];
    }
  }

  method CheckConditions(conditional: seq<Edge>) returns (faults: seq<Fault>)
    ensures forall f :: f in faults <==> UnconditionedFault(conditional, f)
  {
    faults := [];
    for i := 0 to |conditional|
      invariant forall f :: f in faults <==> UnconditionedFault(conditional[..i], f)
    {
      assert forall e :: e in conditional[..i + 1] <==> e in conditional[..i] || e == conditional[i];
      if conditional[i].condition.None? {
        faults := faults + [ConditionMissing(conditional[i].id)];
      }
    }
    assert conditional[..|conditional|] == conditional;
  }

  lemma {:induction false} DerivesSome(unitLe: (string, string) -> bool, n: Node, edges: seq<Edge>)
    ensures DeriveAuthority(unitLe, n, edges) == NoAuthority <==> OutEdges(edges, n.id, Conditional) == []
  {
  }

  method CheckRouting(edges: seq<Edge>, n: Node, unitLe: (string, string) -> bool) returns (faults: seq<Fault>)
    ensures forall f :: f in faults <==> RoutingFault(edges, n, f)
  {
    faults := if |OutEdges(edges, n.id, Default)| > 1 then [ManyDefaults(n.id)] else [];
    var conditional := OutEdges(edges, n.id, Conditional);
    if |conditional| > 0 {
      var authority := if n.authority.Some? then n.authority.value else DeriveAuthority(unitLe, n, edges);
      DerivesSome(unitLe, n, edges);
      var branches := CheckBranches(n, conditional, authority);
      faults := faults + branches;
    }
  }

  method CheckBranches(n: Node, conditional: seq<Edge>, authority: Authority) returns (faults: seq<Fault>)
    requires conditional != [] && (authority == NoAuthority <==> n.authority == Some(NoAuthority))
    ensures forall f :: f in faults <==> BranchFault(n, conditional, f)
  {
    faults := if |conditional| > 1 then [ManyConditionals(n.id)] else [];
    if authority == NoAuthority {
      faults := faults + [AuthorityIsNone(n.id)];
    }
    var missing := CheckConditions(conditional);
    faults := faults + missing;
  }

  /** The fixpoint loop finds exactly the nodes that a path of edges joins to the root. */
  method CollectReachable(root: Id, edges: seq<Edge>) returns (reachable: set<Id>)
    ensures forall v :: v in reachable <==> Reaches(edges, root, v)
  {
    reachable := {root};
    assert IsPath(edges, root, [], root);
    var changed := true;
    while changed
      invariant root in reachable && reachable <= {root} + Targets(edges)
      invariant forall v :: v in reachable ==> Reaches(edges, root, v)
      invariant !changed ==> ClosedUnder(edges, reachable)
      decreases |({root} + Targets(edges)) - reachable| + (if changed then 1 else 0)
    {
      changed := false;
      ghost var before := reachable;
      for i := 0 to |edges|
        invariant before <= reachable <= {root} + Targets(edges)
        invariant changed <==> before != reachable
        invariant forall v :: v in reachable ==> Reaches(edges, root, v)
        invariant !changed ==> ClosedUnder(edges[..i], reachable)
      {
        var edge := edges[i];
        ClosedStep(edges, i, reachable);
        if edge.from in reachable && edge.to !in reachable {
          ReachStep(edges, root, edge);
          assert edge.to in Targets(edges);
          reachable, changed := reachable + {edge.to}, true;
        }
      }
      assert edges[..|edges|] == edges;
      if changed {
        Shrinks({root} + Targets(edges), before, reachable);
      }
    }
    ClosedHoldsReachable(edges, reachable, root);
  }

  lemma {:induction false} ClosedHoldsReachable(edges: seq<Edge>, ids: set<Id>, root: Id)
    requires ClosedUnder(edges, ids) && root in ids
    ensures forall v :: Reaches(edges, root, v) ==> v in ids
  {
    forall v | Reaches(edges, root, v) ensures v in ids {
      var p :| IsPath(edges, root, p, v);
      ClosedHoldsPaths(edges, ids, root, p, v);
    }
  }

  lemma {:induction false} ReachStep(edges: seq<Edge>, root: Id, edge: Edge)
    requires edge in edges && Reaches(edges, root, edge.from)
    ensures Reaches(edges, root, edge.to)
  {
    var p :| IsPath(edges, root, p, edge.from);
    PathAppend(edges, root, p, edge.from, edge);
  }

  lemma {:induction false} ClosedStep(edges: seq<Edge>, i: nat, ids: set<Id>)
    requires i < |edges|
    ensures ClosedUnder(edges[..i + 1], ids) <==> ClosedUnder(edges[..i], ids) && (edges[i].from in ids ==> edges[i].to in ids)
  {
    assert forall e :: e in edges[..i + 1] <==> e in edges[..i] || e == edges[i];
  }

  lemma {:induction false} Shrinks<T>(all: set<T>, before: set<T>, after: set<T>)
    requires before < after <= all
    ensures |all - after| < |all - before|
  {
    var x :| x in after && x !in before;
    assert all - after <= (all - before) - {x};
    SubsetSize(all - after, (all - before) - {x});
  }

  ghost predicate ClosedUnder(edges: seq<Edge>, ids: set<Id>) {
    forall e :: e in edges && e.from in ids ==> e.to in ids
  }

  lemma {:induction false} ClosedHoldsPaths(edges: seq<Edge>, ids: set<Id>, a: Id, p: seq<Edge>, b: Id)
    requires ClosedUnder(edges, ids) && a in ids && IsPath(edges, a, p, b)
    ensures b in ids
    decreases p
  {
    if p != [] {
      ClosedHoldsPaths(edges, ids, p[0].to, p[1..], b);
    }
  }

  method CheckReachable(nodes: seq<Node>, root: Id, edges: seq<Edge>) returns (faults: seq<Fault>)
    ensures forall f :: f in faults <==> ReachFault(nodes, root, edges, f)
  {
    faults := [];
    var reachable := CollectReachable(root, edges);
    for i := 0 to |nodes|
      invariant forall f :: f in faults <==> f.Unreachable? && f.id in NodeIds(nodes[..i]) && f.id !in reachable
    {
      assert nodes[..i + 1] == nodes[..i] + [nodes[i]];
      if nodes[i].id !in reachable {
        faults := faults + [Unreachable(nodes[i].id)];
      }
    }
    assert nodes[..|nodes|] == nodes;
  }

  method CheckNodes(nodes: seq<Node>, edges: seq<Edge>, unitLe: (string, string) -> bool) returns (faults: seq<Fault>)
    ensures forall f :: f in faults <==> SomeNodeFault(nodes, edges, f)
  {
    faults := [];
    for i := 0 to |nodes|
      invariant forall f :: f in faults <==> SomeNodeFault(nodes[..i], edges, f)
    {
      assert forall n :: n in nodes[..i + 1] <==> n in nodes[..i] || n == nodes[i];
      var logic := CheckLogic(nodes[i]);
      var routing := CheckRouting(edges, nodes[i], unitLe);
      assert forall f :: NodeFault(edges, nodes[i], f) <==> f in logic || f in routing;
      faults := faults + logic + routing;
    }
    assert nodes[..|nodes|] == nodes;
  }

  /** validateGraphShape reports every fault of the graph's shape, and nothing else. */
  method ValidateGraphShape(d: Draft, unitLe: (string, string) -> bool) returns (faults: seq<Fault>)
    ensures forall f :: f in faults <==> ShapeFault(d, f)
  {
    faults := CheckOpenSpec(d.nodes);
    var more, ids := CheckNodeIds(d.nodes);
    faults := faults + more;
    more := CheckEdges(d.nodes, ids, d.edges);
    faults := faults + more;
    var root := RootOf(d);
    if FalsyId(root) || root.value !in ids {
      faults := faults + [NoRoot];
    }
    more := CheckNodes(d.nodes, d.edges, unitLe);
    faults := faults + more;
    if !FalsyId(root) {
      more := CheckReachable(d.nodes, root.value, d.edges);
      faults := faults + more;
    }
  }

  method CheckEdgeBudget(d: Draft, edge: Edge) returns (faults: seq<Fault>)
    ensures forall f :: f in faults <==> EdgeBudgetFault(d.nodes, edge, ReadBudget(d, edge.id), f)
  {
    faults := [];
    if edge.from in NodeIds(d.nodes) && edge.to in NodeIds(d.nodes) {
      var budget := ReadBudget(d, edge.id);
      if IndexOf(d.nodes, edge.to) <= IndexOf(d.nodes, edge.from) && budget.None? {
        faults := faults + [BudgetMissing(edge.id)];
      }
      if budget.Some? && !BudgetOk(budget.value) {
        faults := faults + [BudgetInvalid(edge.id)];
      }
    }
  }

  /** The check finds exactly the faults of the draft's own budgets unless an edge between present nodes
      borrows an inherited member. */
  lemma {:induction false} JudgesOwnBudgetsIff(d: Draft)
    ensures (forall f :: BudgetFault(d, f) <==> OwnBudgetFault(d, f)) <==> forall e :: e in d.edges ==> !BorrowsBudget(d, e)
  {
    if e :| e in d.edges && BorrowsBudget(d, e) {
      BorrowingIsRefused(d, e);
    } else {
      forall f ensures BudgetFault(d, f) <==> OwnBudgetFault(d, f) {
        forall e | e in d.edges
          ensures EdgeBudgetFault(d.nodes, e, ReadBudget(d, e.id), f) <==> EdgeBudgetFault(d.nodes, e, Lookup(BudgetsOf(d), e.id), f)
        {
          ReadsOwn(d, e);
        }
      }
    }
  }

  lemma {:induction false} ReadsOwn(d: Draft, e: Edge)
    requires !BorrowsBudget(d, e)
    ensures Dangles(d.nodes, e) || ReadBudget(d, e.id) == Lookup(BudgetsOf(d), e.id)
  {
  }

  /** A borrowed budget is always invalid, and the record itself has none for any edge of that id. */
  lemma {:induction false} BorrowingIsRefused(d: Draft, e: Edge)
    requires e in d.edges && BorrowsBudget(d, e)
    ensures BudgetFault(d, BudgetInvalid(e.id)) && !OwnBudgetFault(d, BudgetInvalid(e.id))
  {
    assert ReadBudget(d, e.id) == Some(NotWhole);
    assert EdgeBudgetFault(d.nodes, e, ReadBudget(d, e.id), BudgetInvalid(e.id));
  }

  method CheckBudgetKeys(edges: seq<Edge>, budgets: seq<BudgetEntry>) returns (faults: seq<Fault>)
    ensures forall f :: f in faults <==> f.BudgetStray? && Names(budgets, BudgetKey, f.id) && !Names(edges, EdgeKey, f.id)
  {
    faults := [];
    for i := 0 to |budgets|
      invariant forall f :: f in faults <==>
                              f.BudgetStray? && Names(budgets[..i], BudgetKey, f.id) && !Names(edges, EdgeKey, f.id)
    {
      TwiceStep(budgets, BudgetKey, i);
      if forall e :: e in edges ==> e.id != budgets[i].edge {
        faults := faults + [BudgetStray(budgets[i].edge)];
      } else {
        var e :| e in edges && e.id == budgets[i].edge;
        NamedIn(edges, EdgeKey, e);
      }
    }
    assert budgets[..|budgets|] == budgets;
  }

  lemma {:induction false} NamedIn<T>(s: seq<T>, name: T -> string, x: T)
    requires x in s
    ensures Names(s, name, name(x))
  {
    var i :| 0 <= i < |s| && s[i] == x;
  }

  lemma {:induction false} LookupNames(budgets: seq<BudgetEntry>, id: Id)
    ensures Lookup(budgets, id).Some? <==> Names(budgets, BudgetKey, id)
  {
    if Lookup(budgets, id).Some? {
      NamedIn(budgets, BudgetKey, BudgetEntry(id, Lookup(budgets, id).value));
    }
  }

  /** validateLoopBudgets reports every fault of the loop budgets, and nothing else. */
  method ValidateLoopBudgets(d: Draft) returns (faults: seq<Fault>)
    ensures forall f :: f in faults <==> BudgetFault(d, f)
  {
    faults := [];
    for i := 0 to |d.edges|
      invariant forall f :: f in faults <==> exists e :: e in d.edges[..i] && EdgeBudgetFault(d.nodes, e, ReadBudget(d, e.id), f)
    {
      assert forall e :: e in d.edges[..i + 1] <==> e in d.edges[..i] || e == d.edges[i];
      var more := CheckEdgeBudget(d, d.edges[i]);
      faults := faults + more;
    }
    assert d.edges[..|d.edges|] == d.edges;
    var stray := CheckBudgetKeys(d.edges, BudgetsOf(d));
    forall id ensures Lookup(BudgetsOf(d), id).Some? <==> Names(BudgetsOf(d), BudgetKey, id) {
      LookupNames(BudgetsOf(d), id);
    }
    faults := faults + stray;
  }
}
