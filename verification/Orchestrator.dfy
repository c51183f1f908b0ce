/** How the orchestrator moves on from a finished node of a compiled workflow
    (src/daemon/p2p-orchestrator.ts:3925-4104): by the first conditional edge that is met and not used up,
    else by the default edge. */
module Orchestrator {
  import opened Wrappers
  import opened Workflow
  import opened Compiler
  import opened Contract
  import ContractOrder
  import Execution
  import Migration
  import Routing
  import Sorting

  /** What a finished node hands over: a script its routing key, a language model its verdict, a logic
      node its marker. */
  datatype Output = Output(routingKey: Option<string>, verdict: Option<string>, logicMarker: Option<string>)

  /** run.compiledEdgeUseCounts */
  type Uses = map<Id, nat>

  function UsesOf(uses: Uses, id: Id): nat {
    if id in uses then uses[id] else 0
  }

  function Used(uses: Uses, id: Id): Uses {
    uses[id := UsesOf(uses, id) + 1]
  }

  predicate Meets(out: Output, cond: Condition) {
    match cond.kind
    case RoutingKeyEquals => out.routingKey == Some(cond.equals)
    case VerdictMarkerEquals => out.verdict == Some(cond.equals)
    case LogicMarkerEquals => out.logicMarker == Some(cond.equals)
  }

  /** What a node of this kind hands over. */
  function HandedBy(kind: NodeKind, value: string): Output {
    match kind
    case Script => Output(Some(value), None, None)
    case Llm => Output(None, Some(value), None)
    case Logic => Output(None, None, Some(value))
  }

  /** A condition is met exactly by its own value, handed over by a node of the kind that produces such values. */
  lemma {:induction false} MeetsIff(kind: NodeKind, value: string, cond: Condition)
    ensures Meets(HandedBy(kind, value), cond) <==> cond.kind == Routing.Produces(kind) && cond.equals == value
  {
  }

  /** run.compiledEdgeUseCounts?.[id] ?? 0: nought as long as no edge was taken and there is no record of them.
      After that, a name that every object inherits reads as no number. */
  function ReadUses(uses: Uses, id: Id): Option<nat> {
    if uses == map[] then Some(0) else if Inherited(id) then None else Some(UsesOf(uses, id))
  }

  /** !(useCount >= (loopBudgets[id] ?? Infinity)); what is no number is never at its budget. */
  predicate Unspent(budgets: seq<BudgetEntry>, uses: Uses, id: Id) {
    var budget, count := Lookup(budgets, id), ReadUses(uses, id);
    budget.Some? && budget.value.Whole? && count.Some? ==> count.value < budget.value.count
  }

  predicate Taken(budgets: seq<BudgetEntry>, uses: Uses, out: Output, e: Edge) {
    e.condition.Some? && Unspent(budgets, uses, e.id) && Meets(out, e.condition.value)
  }

  function FirstTaken(edges: seq<Edge>, budgets: seq<BudgetEntry>, uses: Uses, out: Output): (r: Option<Edge>)
    ensures r.None? <==> forall e :: e in edges ==> !Taken(budgets, uses, out, e)
    ensures r.Some? ==> r.value in edges && Taken(budgets, uses, out, r.value)
  {
    if edges == [] then None
    else if Taken(budgets, uses, out, edges[0]) then Some(edges[0])
    else FirstTaken(edges[1..], budgets, uses, out)
  }

  /** The loop over the outgoing conditional edges. */
  method ChooseJump(edges: seq<Edge>, budgets: seq<BudgetEntry>, uses: Uses, out: Output) returns (jump: Option<Edge>)
    ensures jump == FirstTaken(edges, budgets, uses, out)
    ensures jump.Some? ==> exists k :: 0 <= k < |edges| && edges[k] == jump.value && Taken(budgets, uses, out, edges[k])
                                       && forall j :: 0 <= j < k ==> !Taken(budgets, uses, out, edges[j])
  {
    for i := 0 to |edges|
      invariant FirstTaken(edges, budgets, uses, out) == FirstTaken(edges[i..], budgets, uses, out)
      invariant forall j :: 0 <= j < i ==> !Taken(budgets, uses, out, edges[j])
    {
      if Taken(budgets, uses, out, edges[i]) {
        return Some(edges[i]);
      }
      assert edges[i..][1..] == edges[i + 1..];
    }
    jump := None;
  }

  datatype Move = Along(edge: Edge) | Finished | Failed

  function NextMove(k: Contract, at: Id, uses: Uses, out: Output): Move {
    var conditional, defaults := OutEdges(k.edges, at, Conditional), OutEdges(k.edges, at, Default);
    var jump := FirstTaken(conditional, k.loopBudgets, uses, out);
    if jump.Some? then Along(jump.value)
    else if |defaults| == 1 then Along(defaults[0])
    else if |defaults| > 1 || conditional != [] then Failed
    else Finished
  }

  /** The edges a run goes along while the nodes hand over these outputs. */
  function Trace(k: Contract, at: Id, uses: Uses, outs: seq<Output>): (r: seq<Edge>)
    ensures |r| <= |outs|
    decreases |outs|
  {
    if outs == [] then []
    else
      var move := NextMove(k, at, uses, outs[0]);
      if !move.Along? then []
      else [move.edge] + Trace(k, move.edge.to, Used(uses, move.edge.id), outs[1..])
  }

  lemma {:induction false} TraceStep(k: Contract, at: Id, uses: Uses, outs: seq<Output>, e: Edge)
    requires outs != [] && NextMove(k, at, uses, outs[0]) == Along(e)
    ensures Trace(k, at, uses, outs) == [e] + Trace(k, e.to, Used(uses, e.id), outs[1..])
  {
  }

  // ---------------------------------------------------------------- runs are walks

  ghost predicate EndsSomewhere(edges: seq<Edge>, at: Id, w: seq<Edge>) {
    exists b :: IsPath(edges, at, w, b)
  }

  lemma {:induction false} TraceIsPath(k: Contract, at: Id, uses: Uses, outs: seq<Output>)
    ensures EndsSomewhere(k.edges, at, Trace(k, at, uses, outs))
    decreases |outs|
  {
    var move := if outs == [] then Finished else NextMove(k, at, uses, outs[0]);
    if move.Along? {
      var e := move.edge;
      var rest := Trace(k, e.to, Used(uses, e.id), outs[1..]);
      MoveIsEdge(k, at, uses, outs[0]);
      TraceStep(k, at, uses, outs, e);
      TraceIsPath(k, e.to, Used(uses, e.id), outs[1..]);
      var b :| IsPath(k.edges, e.to, rest, b);
      FirstStep(k.edges, at, e, rest, b);
    } else {
      assert IsPath(k.edges, at, [], at);
    }
  }

  lemma {:induction false} FirstStep(edges: seq<Edge>, at: Id, e: Edge, rest: seq<Edge>, b: Id)
    requires e in edges && e.from == at && IsPath(edges, e.to, rest, b)
    ensures IsPath(edges, at, [e] + rest, b)
  {
    assert ([e] + rest)[1..] == rest;
  }

  lemma {:induction false} MoveIsEdge(k: Contract, at: Id, uses: Uses, out: Output)
    ensures var move := NextMove(k, at, uses, out);
            move.Along? ==> move.edge in k.edges && move.edge.from == at
                            && (move.edge.kind == Conditional ==> Unspent(k.loopBudgets, uses, move.edge.id))
  {
    var move, defaults := NextMove(k, at, uses, out), OutEdges(k.edges, at, Default);
    if move.Along? && |defaults| == 1 {
      assert defaults[0] in defaults;
    }
  }

  // ---------------------------------------------------------------- and respect budgets, as far as they are asked for

  /** No entry of the budgets is used up more than it allows. */
  ghost predicate Within(budgets: seq<BudgetEntry>, uses: Uses) {
    forall b :: b in budgets && b.budget.Whole? ==> UsesOf(uses, b.edge) <= b.budget.count
  }

  /** The orchestrator does not ask for the budget of this edge: it takes default edges unasked, a budget under
      __proto__ is not in the compiled record, and uses cannot be counted under a name that every object inherits. */
  ghost predicate Unasked(e: Edge, uses: Uses) {
    e.kind == Default || e.id == PROTO || (Inherited(e.id) && uses != map[])
  }

  /** The budget of an edge is spent, and the orchestrator does not ask for it. */
  ghost predicate Overdrawn(d: Draft, e: Edge, uses: Uses) {
    && Unasked(e, uses)
    && var budget := Lookup(BudgetsOf(d), e.id); budget.Some? && budget.value.Whole? && UsesOf(uses, e.id) >= budget.value.count
  }

  /** What sortedRecord keeps of the budgets. */
  ghost predicate Keeps(all: seq<BudgetEntry>, kept: seq<BudgetEntry>) {
    IsRecord(all) && IsRecord(kept) && forall b :: b in kept <==> b in all && b.edge != PROTO
  }

  lemma {:induction false} KeptBudget(all: seq<BudgetEntry>, kept: seq<BudgetEntry>, b: BudgetEntry)
    requires Keeps(all, kept) && b in all
    ensures Lookup(all, b.edge) == Some(b.budget)
    ensures b.edge != PROTO ==> Lookup(kept, b.edge) == Some(b.budget)
  {
    LookupRecord(all, b);
    if b.edge != PROTO {
      LookupRecord(kept, b);
    }
  }

  /** A move along an edge that is not overdrawn stays within the budgets. */
  lemma {:induction false} MoveStaysWithin(k: Contract, d: Draft, at: Id, uses: Uses, out: Output)
    requires Keeps(BudgetsOf(d), k.loopBudgets) && Within(BudgetsOf(d), uses)
    requires var m := NextMove(k, at, uses, out); m.Along? && !Overdrawn(d, m.edge, uses)
    ensures Within(BudgetsOf(d), Used(uses, NextMove(k, at, uses, out).edge.id))
  {
    var e := NextMove(k, at, uses, out).edge;
    MoveIsEdge(k, at, uses, out);
    forall b | b in BudgetsOf(d) && b.budget.Whole? ensures UsesOf(Used(uses, e.id), b.edge) <= b.budget.count {
      KeptBudget(BudgetsOf(d), k.loopBudgets, b);
    }
  }

  lemma {:induction false} MoveOverdraws(d: Draft, e: Edge, uses: Uses)
    requires Overdrawn(d, e, uses)
    ensures !Within(BudgetsOf(d), Used(uses, e.id))
  {
    assert BudgetEntry(e.id, Lookup(BudgetsOf(d), e.id).value) in BudgetsOf(d);
  }

  /** Some output makes the orchestrator take this edge. */
  lemma {:induction false} CanTake(k: Contract, at: Id, uses: Uses, e: Edge) returns (out: Output)
    requires e in k.edges && e.from == at && (e.kind == Conditional ==> e.condition.Some? && Unspent(k.loopBudgets, uses, e.id))
    requires |OutEdges(k.edges, at, Conditional)| <= 1 && |OutEdges(k.edges, at, Default)| <= 1
    ensures NextMove(k, at, uses, out) == Along(e)
  {
    if e.kind == Conditional {
      var value := Some(e.condition.value.equals);
      out := Output(value, value, value);
      Alone(OutEdges(k.edges, at, Conditional), e);
      TakenAlone(k.loopBudgets, uses, out, e);
    } else {
      out := Output(None, None, None);
      Alone(OutEdges(k.edges, at, Default), e);
    }
  }

  lemma {:induction false} Alone(s: seq<Edge>, e: Edge)
    requires |s| <= 1 && e in s
    ensures s == [e]
  {
  }

  lemma {:induction false} TakenAlone(budgets: seq<BudgetEntry>, uses: Uses, out: Output, e: Edge)
    requires Taken(budgets, uses, out, e)
    ensures FirstTaken([e], budgets, uses, out) == Some(e)
  {
  }

  /** The contract holds the edges of the draft and what sortedRecord keeps of its budgets. */
  lemma {:induction false} ContractHolds(c: Collation, digest: Contract -> string, d: Draft, policy: Policy)
    requires ContractOrder.Orders(c) && IsRecord(BudgetsOf(d))
    ensures var k := Assemble(c, digest, d, policy).contract;
            && multiset(k.edges) == multiset(d.edges) && Keeps(BudgetsOf(d), k.loopBudgets)
            && k.rootNodeId == RootOf(d).GetOr("")
  {
    ContractOrder.SortedRecordInOrder(c, BudgetsOf(d));
  }

  lemma {:induction false} SameOut(d: Draft, edges: seq<Edge>, at: Id)
    requires UniqueIds(d) && Routed(d) && multiset(edges) == multiset(d.edges)
    ensures forall e :: e in edges <==> e in d.edges
    ensures |OutEdges(edges, at, Conditional)| <= 1 && |OutEdges(edges, at, Default)| <= 1
  {
    var e := d.(edges := edges);
    Sorting.SamePool(edges, d.edges);
    ContractOrder.EdgesKept(d, e);
  }

  lemma {:induction false} ConditionsSet(d: Draft, policy: Policy)
    requires Compilable(d, policy)
    ensures forall e :: e in d.edges && e.kind == Conditional ==> e.condition.Some?
  {
    CompilableParts(d, policy);
    assert !DraftFault(policy.checks, d, InvalidDraft);
  }

  /** From a state within the budgets, every step stays within them exactly when no edge out of the node
      is spent that the orchestrator takes without asking. */
  lemma {:induction false} StepsStayWithinIff(c: Collation, digest: Contract -> string, d: Draft, policy: Policy, at: Id, uses: Uses)
    requires ContractOrder.Orders(c) && Compilable(d, policy) && IsRecord(BudgetsOf(d)) && Within(BudgetsOf(d), uses)
    ensures var k := Assemble(c, digest, d, policy).contract;
            (forall out :: var m := NextMove(k, at, uses, out); m.Along? ==> Within(BudgetsOf(d), Used(uses, m.edge.id)))
            <==> forall e :: e in d.edges && e.from == at ==> !Overdrawn(d, e, uses)
  {
    var k := Assemble(c, digest, d, policy).contract;
    CompiledShape(d, policy);
    ContractHolds(c, digest, d, policy);
    SameOut(d, k.edges, at);
    ConditionsSet(d, policy);
    StepsStayIff(k, d, at, uses);
  }

  lemma {:induction false} StepsStayIff(k: Contract, d: Draft, at: Id, uses: Uses)
    requires Keeps(BudgetsOf(d), k.loopBudgets) && Within(BudgetsOf(d), uses) && (forall e :: e in k.edges <==> e in d.edges)
    requires |OutEdges(k.edges, at, Conditional)| <= 1 && |OutEdges(k.edges, at, Default)| <= 1
    requires forall e :: e in d.edges && e.kind == Conditional ==> e.condition.Some?
    ensures (forall out :: var m := NextMove(k, at, uses, out); m.Along? ==> Within(BudgetsOf(d), Used(uses, m.edge.id)))
            <==> forall e :: e in d.edges && e.from == at ==> !Overdrawn(d, e, uses)
  {
    if forall e :: e in d.edges && e.from == at ==> !Overdrawn(d, e, uses) {
      forall out | NextMove(k, at, uses, out).Along?
        ensures Within(BudgetsOf(d), Used(uses, NextMove(k, at, uses, out).edge.id))
      {
        MoveIsEdge(k, at, uses, out);
        MoveStaysWithin(k, d, at, uses, out);
      }
    } else {
      var e :| e in d.edges && e.from == at && Overdrawn(d, e, uses);
      var out := CanTake(k, at, uses, e);
      MoveOverdraws(d, e, uses);
    }
  }

  // ---------------------------------------------------------------- so every run ends

  /** The orchestrator asks for every budget there is. */
  ghost predicate AllAsked(d: Draft) {
    forall e :: e in d.edges && (e.kind == Default || Inherited(e.id)) ==> Lookup(BudgetsOf(d), e.id).None?
  }

  lemma {:induction false} TraceStaysWithin(k: Contract, d: Draft, at: Id, uses: Uses, outs: seq<Output>, b: BudgetEntry)
    requires Keeps(BudgetsOf(d), k.loopBudgets) && Within(BudgetsOf(d), uses) && AllAsked(d)
    requires forall e :: e in k.edges ==> e in d.edges
    requires b in BudgetsOf(d) && b.budget.Whole?
    ensures UsesOf(uses, b.edge) + Crossings(Trace(k, at, uses, outs), b.edge) <= b.budget.count
    decreases |outs|
  {
    var move := if outs == [] then Finished else NextMove(k, at, uses, outs[0]);
    if move.Along? {
      var e := move.edge;
      MoveIsEdge(k, at, uses, outs[0]);
      MoveStaysWithin(k, d, at, uses, outs[0]);
      TraceStaysWithin(k, d, e.to, Used(uses, e.id), outs[1..], b);
      TraceStep(k, at, uses, outs, e);
      CrossingsStep(e, Trace(k, e.to, Used(uses, e.id), outs[1..]), b.edge);
      UsedOnce(uses, e.id, b.edge);
    }
  }

  lemma {:induction false} UsedOnce(uses: Uses, id: Id, other: Id)
    ensures UsesOf(Used(uses, id), other) == UsesOf(uses, other) + if id == other then 1 else 0
  {
  }

  lemma {:induction false} CrossingsStep(e: Edge, rest: seq<Edge>, id: Id)
    ensures Crossings([e] + rest, id) == (if e.id == id then 1 else 0) + Crossings(rest, id)
  {
    assert ([e] + rest)[1..] == rest;
  }

  /** If no default edge has a budget, nor an edge named like a member that every object inherits, every run of a compiled workflow
      respects all budgets and ends within the bound, whatever its nodes hand over. */
  lemma {:induction false} RunsEnd(c: Collation, digest: Contract -> string, d: Draft, policy: Policy, outs: seq<Output>)
    requires ContractOrder.Orders(c) && Compilable(d, policy) && IsRecord(BudgetsOf(d)) && AllAsked(d)
    ensures var k := Assemble(c, digest, d, policy).contract;
            var run, total := Trace(k, k.rootNodeId, map[], outs), TotalBudget(BudgetsOf(d));
            Respects(BudgetsOf(d), run) && |run| <= total + (total + 1) * (|d.nodes| - 1)
  {
    var k := Assemble(c, digest, d, policy).contract;
    var run := Trace(k, k.rootNodeId, map[], outs);
    CompiledShape(d, policy);
    ContractHolds(c, digest, d, policy);
    Sorting.SamePool(k.edges, d.edges);
    NothingUsed(d);
    forall b | b in BudgetsOf(d) && b.budget.Whole? ensures Crossings(run, b.edge) <= b.budget.count {
      TraceStaysWithin(k, d, k.rootNodeId, map[], outs, b);
    }
    TraceIsPath(k, k.rootNodeId, map[], outs);
    var b :| IsPath(k.edges, k.rootNodeId, run, b);
    ContractOrder.PathKept(k.edges, d.edges, k.rootNodeId, run, b);
    Execution.BoundedExecution(d, k.rootNodeId, run, b);
  }

  lemma {:induction false} NothingUsed(d: Draft)
    requires Budgeted(d) && IsRecord(BudgetsOf(d))
    ensures Within(BudgetsOf(d), map[])
  {
  }

  // ---------------------------------------------------------------- and it has to ask for all of them

  /** One node with a default edge to itself and the budget nought for it. */
  const CIRCLE: Draft :=
    Draft("w", [Node("a", None, Llm, Discuss, None, None, None, None, None, None, None, None)], [Edge("e", "a", "a", Default, None)],
          Some("a"), [], Some([BudgetEntry("e", Whole(0))]))

  lemma {:induction false} CircleIsOk(checks: Checks)
    ensures DraftOk(checks, CIRCLE)
  {
    Migration.NotBlank("w", 0);
    Migration.NotBlank("a", 0);
    Migration.NotBlank("e", 0);
  }

  lemma {:induction false} CircleHasShape(f: Fault)
    ensures !ShapeFault(CIRCLE, f)
  {
    var n, e := CIRCLE.nodes[0], CIRCLE.edges[0];
    assert n.id == "a" && e.from == "a" && e.to == "a" && e.kind == Default && n.artifacts.None? && n.kind.Llm? && n.logic.None?;
    CircleShape(CIRCLE, n, e, f);
  }

  lemma {:induction false} OneNode(d: Draft, n: Node)
    requires d.nodes == [n]
    ensures NodeIds(d.nodes) == {n.id} && Reaches(d.edges, n.id, n.id)
  {
    assert n in d.nodes;
    assert IsPath(d.edges, n.id, [], n.id);
  }

  lemma {:induction false} CircleShape(d: Draft, n: Node, e: Edge, f: Fault)
    requires d.nodes == [n] && d.edges == [e] && d.root == Some(n.id) && n.id != "" && e.from == n.id && e.to == n.id
    requires e.kind == Default && n.artifacts.None? && n.kind.Llm? && n.logic.None?
    ensures !ShapeFault(d, f)
  {
    OneNode(d, n);
    OneDefaultOut(n, e, f);
  }

  lemma {:induction false} OneDefaultOut(n: Node, e: Edge, f: Fault)
    requires e.from == n.id && e.kind == Default && n.kind.Llm? && n.logic.None?
    ensures !NodeFault([e], n, f)
  {
    OutOfOne(e, n.id, Conditional);
    OutOfOne(e, n.id, Default);
  }

  lemma {:induction false} OutOfOne(e: Edge, id: Id, kind: EdgeKind)
    ensures OutEdges([e], id, kind) == if e.from == id && e.kind == kind then [e] else []
  {
    assert [e][1..] == [] && OutEdges([], id, kind) == [];
    assert [e] + [] == [e];
  }

  lemma {:induction false} CircleHasBudget(f: Fault)
    ensures !BudgetFault(CIRCLE, f)
  {
    var e := CIRCLE.edges[0];
    assert e.id == "e" && forall x :: x in CIRCLE.edges ==> x == e;
    assert Lookup(BudgetsOf(CIRCLE), "e") == Some(Whole(0));
  }

  lemma {:induction false} CircleCompiles(policy: Policy)
    requires policy.maxNodes > 0 && policy.maxEdges > 0
    ensures Compilable(CIRCLE, policy)
  {
    Migration.CompilableIff(CIRCLE, policy);
    CircleIsOk(policy.checks);
    forall f ensures !ShapeFault(CIRCLE, f) && !BudgetFault(CIRCLE, f) {
      CircleHasShape(f);
      CircleHasBudget(f);
    }
  }

  lemma {:induction false} CircleTurns(k: Contract, uses: Uses, outs: seq<Output>)
    requires k.edges == CIRCLE.edges
    ensures |Trace(k, "a", uses, outs)| == |outs|
    decreases |outs|
  {
    if outs != [] {
      var e := CIRCLE.edges[0];
      OutOfOne(e, "a", Conditional);
      OutOfOne(e, "a", Default);
      TraceStep(k, "a", uses, outs, e);
      CircleTurns(k, Used(uses, e.id), outs[1..]);
    }
  }

  /** A workflow that compiles, whose budgets add up to nought, and whose runs never end. */
  lemma {:induction false} DefaultLoopNeverEnds(c: Collation, digest: Contract -> string, policy: Policy, outs: seq<Output>)
    requires policy.maxNodes > 0 && policy.maxEdges > 0
    ensures var k := Assemble(c, digest, CIRCLE, policy).contract;
            && Compilable(CIRCLE, policy) && TotalBudget(BudgetsOf(CIRCLE)) == 0
            && |Trace(k, k.rootNodeId, map[], outs)| == |outs|
  {
    CircleCompiles(policy);
    assert BudgetsOf(CIRCLE)[1..] == [];
    SortOne(Sorting.By(c.locale, EdgeKey), CIRCLE.edges);
    CircleTurns(Assemble(c, digest, CIRCLE, policy).contract, map[], outs);
  }

  lemma {:induction false} SortOne<T(!new)>(le: (T, T) -> bool, s: seq<T>)
    requires |s| == 1
    ensures Sorting.Sort(le, s) == s
  {
    Sorting.SortFixed(le, s);
  }
}
