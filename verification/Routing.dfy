/** Who decides the conditional edges of a compiled node: deriveRoutingAuthority
    (shared/p2p-workflow-compiler.ts:95-114) against the routing step of the orchestrator
    (src/daemon/p2p-orchestrator.ts:3914-3979). */
module Routing {
  import opened Wrappers
  import opened Workflow
  import opened Compiler
  import opened Contract
  import Sorting

  // ---------------------------------------------------------------- the authority of a compiled node

  /** The kind of condition that what a node of this kind hands over can meet. */
  function Produces(k: NodeKind): ConditionKind {
    match k
    case Script => RoutingKeyEquals
    case Llm => VerdictMarkerEquals
    case Logic => LogicMarkerEquals
  }

  /** The authority is of the kind that the condition asks for, and lists its value. */
  predicate Decides(a: Authority, cond: Condition) {
    && (match cond.kind
        case RoutingKeyEquals => a.RoutingKeys?
        case VerdictMarkerEquals => a.VerdictMarkers?
        case LogicMarkerEquals => a.LogicMarkers?)
    && cond.equals in a.allowed
  }

  /** Some conditional edge out of the node waits for this value. */
  ghost predicate Awaited(edges: seq<Edge>, id: Id, value: string) {
    exists e :: e in edges && e.from == id && e.kind == Conditional && e.condition.Some? && e.condition.value.equals == value
  }

  lemma {:induction false} MarkersAre(edges: seq<Edge>, value: string)
    ensures value in Markers(edges)
            <==> value != "" && exists e :: e in edges && e.condition.Some? && e.condition.value.equals == value
  {
    if edges != [] {
      MarkersAre(edges[1..], value);
      assert forall e :: e in edges <==> e == edges[0] || e in edges[1..];
    }
  }

  /** Without a declared authority, the compiled node decides exactly the non-empty conditions that its
      kind of node can meet and that one of its conditional edges waits for. */
  lemma {:induction false} DerivedDecidesIff(c: Collation, n: Node, edges: seq<Edge>, cond: Condition)
    requires n.authority.None?
    ensures Decides(CompileNode(c, n, edges).authority, cond)
            <==> cond.kind == Produces(n.kind) && cond.equals != "" && Awaited(edges, n.id, cond.equals)
  {
    DeriveKind(c.units, n, edges);
    DeriveAllows(c.units, n, edges, cond.equals);
  }

  lemma {:induction false} AwaitedOut(edges: seq<Edge>, id: Id, value: string)
    ensures Awaited(edges, id, value)
            <==> exists e :: e in OutEdges(edges, id, Conditional) && e.condition.Some? && e.condition.value.equals == value
  {
    var out := OutEdges(edges, id, Conditional);
    if Awaited(edges, id, value) {
      var e :| e in edges && e.from == id && e.kind == Conditional && e.condition.Some? && e.condition.value.equals == value;
      assert e in out;
    }
  }

  lemma {:induction false} DeriveKind(unitLe: (string, string) -> bool, n: Node, edges: seq<Edge>)
    ensures var a := DeriveAuthority(unitLe, n, edges);
            && (a.RoutingKeys? ==> n.kind.Script?) && (a.VerdictMarkers? ==> n.kind.Llm?) && (a.LogicMarkers? ==> n.kind.Logic?)
            && (a.NoAuthority? <==> OutEdges(edges, n.id, Conditional) == [])
  {
  }

  lemma {:induction false} DeriveAllows(unitLe: (string, string) -> bool, n: Node, edges: seq<Edge>, value: string)
    ensures var a := DeriveAuthority(unitLe, n, edges);
            if a.NoAuthority? then !Awaited(edges, n.id, value)
            else value in a.allowed <==> value != "" && Awaited(edges, n.id, value)
  {
    var out := OutEdges(edges, n.id, Conditional);
    DeriveLists(unitLe, n, edges, out);
    AwaitedOut(edges, n.id, value);
    ListHolds(unitLe, out, value);
  }

  lemma {:induction false} DeriveLists(unitLe: (string, string) -> bool, n: Node, edges: seq<Edge>, out: seq<Edge>)
    requires out == OutEdges(edges, n.id, Conditional)
    ensures var a := DeriveAuthority(unitLe, n, edges);
            if a.NoAuthority? then out == [] else out != [] && a.allowed == Sorting.Sort(unitLe, Markers(out))
  {
    if out != [] {
      AuthorityLists(n.kind, Sorting.Sort(unitLe, Markers(out)));
    }
  }

  lemma {:induction false} AuthorityLists(kind: NodeKind, allowed: seq<string>)
    ensures !AuthorityOf(kind, allowed).NoAuthority? && AuthorityOf(kind, allowed).allowed == allowed
  {
  }

  lemma {:induction false} ListHolds(unitLe: (string, string) -> bool, out: seq<Edge>, value: string)
    ensures value in Sorting.Sort(unitLe, Markers(out))
            <==> value != "" && exists e :: e in out && e.condition.Some? && e.condition.value.equals == value
  {
    MarkersAre(out, value);
  }

  /** The values it lists are those of its edges, as often as they occur there, in order. */
  lemma {:induction false} DerivedListIsSorted(c: Collation, n: Node, edges: seq<Edge>)
    requires Sorting.TotalPreorder(c.units) && n.authority.None? && OutEdges(edges, n.id, Conditional) != []
    ensures var allowed := CompileNode(c, n, edges).authority.allowed;
            Sorting.Sorted(c.units, allowed) && multiset(allowed) == multiset(Markers(OutEdges(edges, n.id, Conditional)))
  {
    DeriveSorts(c.units, n, edges, OutEdges(edges, n.id, Conditional));
  }

  lemma {:induction false} DeriveSorts(unitLe: (string, string) -> bool, n: Node, edges: seq<Edge>, out: seq<Edge>)
    requires Sorting.TotalPreorder(unitLe) && out == OutEdges(edges, n.id, Conditional) && out != []
    ensures var a := DeriveAuthority(unitLe, n, edges);
            !a.NoAuthority? && Sorting.Sorted(unitLe, a.allowed) && multiset(a.allowed) == multiset(Markers(out))
  {
    DeriveLists(unitLe, n, edges, out);
    Sorting.SortSorted(unitLe, Markers(out));
  }

  /** A declared authority is kept. */
  lemma {:induction false} DeclaredIsKept(c: Collation, n: Node, edges: seq<Edge>)
    ensures n.authority.Some? ==> CompileNode(c, n, edges).authority == n.authority.value
    ensures n.authority.None? && OutEdges(edges, n.id, Conditional) == [] ==> CompileNode(c, n, edges).authority == NoAuthority
  {
  }
}
