/** How a compiled workflow is turned back into a round list for the executor
    (src/daemon/command-handler.ts:2347-2491): the nodes along the default edges, each as a round.  The
    convention of a round's artifacts and the summary prompt are left out. */
module LegacyRounds {
  import opened Workflow
  import opened Contract
  import opened Orchestrator
  import ContractOrder
  import Sorting

  // ---------------------------------------------------------------- the order of the rounds

  function IdsOf(nodes: seq<CompiledNode>): set<Id> {
    set n | n in nodes :: n.id
  }

  /** nodesById.get(id): the last node of that id. */
  function NodeBy(nodes: seq<CompiledNode>, id: Id): (n: CompiledNode)
    requires id in IdsOf(nodes)
    ensures n in nodes && n.id == id
  {
    var last := nodes[|nodes| - 1];
    if last.id == id then last
    else
      assert nodes == nodes[..|nodes| - 1] + [last];
      NodeBy(nodes[..|nodes| - 1], id)
  }

  lemma {:induction false} VisitedGrow(all: set<Id>, ordered: seq<CompiledNode>, n: CompiledNode)
    requires n.id in all && n.id !in IdsOf(ordered)
    ensures IdsOf(ordered + [n]) == IdsOf(ordered) + {n.id}
    ensures all - IdsOf(ordered + [n]) < all - IdsOf(ordered)
  {
    assert forall m :: m in ordered + [n] <==> m in ordered || m == n;
    assert n.id in all - IdsOf(ordered);
  }

  /** visit: a node not visited yet, then whatever its default edges lead to. */
  function Visit(k: Contract, id: Id, ordered: seq<CompiledNode>): (r: seq<CompiledNode>)
    ensures ordered <= r
    decreases IdsOf(k.nodes) - IdsOf(ordered), 0
  {
    if id in IdsOf(ordered) || id !in IdsOf(k.nodes) then ordered
    else
      VisitedGrow(IdsOf(k.nodes), ordered, NodeBy(k.nodes, id));
      VisitEach(k, OutEdges(k.edges, id, Default), ordered + [NodeBy(k.nodes, id)])
  }

  function VisitEach(k: Contract, edges: seq<Edge>, ordered: seq<CompiledNode>): (r: seq<CompiledNode>)
    ensures ordered <= r
    decreases IdsOf(k.nodes) - IdsOf(ordered), 1, |edges|
  {
    if edges == [] then ordered
    else
      var next := Visit(k, edges[0].to, ordered);
      PrefixIds(ordered, next);
      VisitEach(k, edges[1..], next)
  }

  lemma {:induction false} PrefixIds(p: seq<CompiledNode>, s: seq<CompiledNode>)
    requires p <= s
    ensures IdsOf(p) <= IdsOf(s)
  {
    assert forall n :: n in p ==> n in s;
  }

  function Unvisited(nodes: seq<CompiledNode>, ordered: seq<CompiledNode>): (r: seq<CompiledNode>)
    ensures forall n :: n in r <==> n in nodes && n.id !in IdsOf(ordered)
  {
    if nodes == [] then []
    else (if nodes[0].id in IdsOf(ordered) then [] else [nodes[0]]) + Unvisited(nodes[1..], ordered)
  }

  /** orderCompiledNodesForExecution */
  function Order(k: Contract): seq<CompiledNode> {
    var visited := if k.rootNodeId == "" then [] else Visit(k, k.rootNodeId, []);
    visited + Unvisited(k.nodes, visited)
  }

  method VisitFrom(k: Contract, id: Id, before: seq<CompiledNode>) returns (ordered: seq<CompiledNode>)
    ensures ordered == Visit(k, id, before)
    decreases IdsOf(k.nodes) - IdsOf(before)
  {
    ordered := before;
    if id !in IdsOf(before) && id in IdsOf(k.nodes) {
      VisitedGrow(IdsOf(k.nodes), before, NodeBy(k.nodes, id));
      ordered := before + [NodeBy(k.nodes, id)];
      ghost var start := ordered;
      var outgoing := OutEdges(k.edges, id, Default);
      for i := 0 to |outgoing|
        invariant start <= ordered
        invariant VisitEach(k, outgoing, start) == VisitEach(k, outgoing[i..], ordered)
      {
        assert outgoing[i..][0] == outgoing[i] && outgoing[i..][1..] == outgoing[i + 1..];
        PrefixIds(start, ordered);
        ordered := VisitFrom(k, outgoing[i].to, ordered);
      }
    }
  }

  method OrderNodes(k: Contract) returns (ordered: seq<CompiledNode>)
    ensures ordered == Order(k)
  {
    var visited := [];
    if k.rootNodeId != "" {
      visited := VisitFrom(k, k.rootNodeId, []);
    }
    var rest := CollectUnvisited(k.nodes, visited);
    ordered := visited + rest;
  }

  method CollectUnvisited(nodes: seq<CompiledNode>, visited: seq<CompiledNode>) returns (rest: seq<CompiledNode>)
    ensures rest == Unvisited(nodes, visited)
  {
    rest := [];
    for i := 0 to |nodes|
      invariant rest == Unvisited(nodes[..i], visited)
    {
      NextUnvisited(nodes, i, visited);
      if nodes[i].id !in IdsOf(visited) {
        rest := rest + [nodes[i]];
      }
    }
    assert nodes[..|nodes|] == nodes;
  }

  lemma {:induction false} NextUnvisited(nodes: seq<CompiledNode>, i: nat, visited: seq<CompiledNode>)
    requires i < |nodes|
    ensures Unvisited(nodes[..i + 1], visited) == Unvisited(nodes[..i], visited) + if nodes[i].id in IdsOf(visited) then [] else [nodes[i]]
  {
    assert nodes[..i + 1] == nodes[..i] + [nodes[i]];
    UnvisitedStep(nodes[..i], nodes[i], visited);
  }

  lemma {:induction false} UnvisitedStep(nodes: seq<CompiledNode>, n: CompiledNode, visited: seq<CompiledNode>)
    ensures Unvisited(nodes + [n], visited) == Unvisited(nodes, visited) + if n.id in IdsOf(visited) then [] else [n]
  {
    if nodes == [] {
      assert ([] + [n])[1..] == [];
    } else {
      assert (nodes + [n])[1..] == nodes[1..] + [n];
      UnvisitedStep(nodes[1..], n, visited);
    }
  }

  // ---------------------------------------------------------------- every node comes once

  ghost predicate DistinctNodes(nodes: seq<CompiledNode>) {
    forall i, j :: 0 <= i < j < |nodes| ==> nodes[i].id != nodes[j].id
  }

  /** Nodes of the contract, each at most once. */
  ghost predicate Partial(k: Contract, ordered: seq<CompiledNode>) {
    DistinctNodes(ordered) && forall n :: n in ordered ==> n in k.nodes
  }

  lemma {:induction false} AddsOne(k: Contract, ordered: seq<CompiledNode>, n: CompiledNode)
    requires Partial(k, ordered) && n in k.nodes && n.id !in IdsOf(ordered)
    ensures Partial(k, ordered + [n])
  {
    forall i | 0 <= i < |ordered| ensures ordered[i].id != n.id {
      assert ordered[i] in ordered;
    }
  }

  lemma {:induction false} VisitIsPartial(k: Contract, id: Id, ordered: seq<CompiledNode>)
    requires Partial(k, ordered)
    ensures Partial(k, Visit(k, id, ordered))
    decreases IdsOf(k.nodes) - IdsOf(ordered), 0
  {
    if id !in IdsOf(ordered) && id in IdsOf(k.nodes) {
      VisitedGrow(IdsOf(k.nodes), ordered, NodeBy(k.nodes, id));
      AddsOne(k, ordered, NodeBy(k.nodes, id));
      VisitEachIsPartial(k, OutEdges(k.edges, id, Default), ordered + [NodeBy(k.nodes, id)]);
    }
  }

  lemma {:induction false} VisitEachIsPartial(k: Contract, edges: seq<Edge>, ordered: seq<CompiledNode>)
    requires Partial(k, ordered)
    ensures Partial(k, VisitEach(k, edges, ordered))
    decreases IdsOf(k.nodes) - IdsOf(ordered), 1, |edges|
  {
    if edges != [] {
      VisitIsPartial(k, edges[0].to, ordered);
      PrefixIds(ordered, Visit(k, edges[0].to, ordered));
      VisitEachIsPartial(k, edges[1..], Visit(k, edges[0].to, ordered));
    }
  }

  lemma {:induction false} UnvisitedIsDistinct(nodes: seq<CompiledNode>, visited: seq<CompiledNode>)
    requires DistinctNodes(nodes)
    ensures DistinctNodes(Unvisited(nodes, visited))
  {
    if nodes != [] {
      UnvisitedIsDistinct(nodes[1..], visited);
      HeadIsDistinct(nodes, Unvisited(nodes[1..], visited));
    }
  }

  lemma {:induction false} HeadIsDistinct(nodes: seq<CompiledNode>, r: seq<CompiledNode>)
    requires DistinctNodes(nodes) && nodes != [] && DistinctNodes(r) && forall n :: n in r ==> n in nodes[1..]
    ensures DistinctNodes([nodes[0]] + r)
  {
    forall k | 0 <= k < |r| ensures r[k].id != nodes[0].id {
      assert r[k] in nodes[1..];
      var i :| 0 < i < |nodes| && nodes[i] == r[k];
    }
  }

  lemma {:induction false} TogetherDistinct(s: seq<CompiledNode>, t: seq<CompiledNode>)
    requires DistinctNodes(s) && DistinctNodes(t) && forall n :: n in t ==> n.id !in IdsOf(s)
    ensures DistinctNodes(s + t)
  {
    forall i, j | 0 <= i < |s| && 0 <= j < |t| ensures s[i].id != t[j].id {
      assert s[i] in s && t[j] in t;
    }
  }

  /** The order lists every node of the contract exactly once. */
  lemma {:induction false} OrderIsPermutation(k: Contract)
    requires DistinctNodes(k.nodes)
    ensures multiset(Order(k)) == multiset(k.nodes)
  {
    var visited := if k.rootNodeId == "" then [] else Visit(k, k.rootNodeId, []);
    if k.rootNodeId != "" {
      VisitIsPartial(k, k.rootNodeId, []);
    }
    UnvisitedIsDistinct(k.nodes, visited);
    TogetherDistinct(visited, Unvisited(k.nodes, visited));
    forall n | n in k.nodes ensures n in Order(k) {
      if n.id in IdsOf(visited) {
        var m :| m in visited && m.id == n.id;
        SameNode(k.nodes, m, n);
      }
    }
    SamePoolOfNodes(Order(k), k.nodes);
  }

  lemma {:induction false} SameNode(nodes: seq<CompiledNode>, m: CompiledNode, n: CompiledNode)
    requires DistinctNodes(nodes) && m in nodes && n in nodes && m.id == n.id
    ensures m == n
  {
    var i :| 0 <= i < |nodes| && nodes[i] == m;
    var j :| 0 <= j < |nodes| && nodes[j] == n;
  }

  lemma {:induction false} SamePoolOfNodes(s: seq<CompiledNode>, t: seq<CompiledNode>)
    requires DistinctNodes(s) && DistinctNodes(t) && forall n :: n in s <==> n in t
    ensures multiset(s) == multiset(t)
  {
    forall n ensures multiset(s)[n] == multiset(t)[n] {
      Sorting.OnceOnly(s, ContractOrder.CompiledKey, n);
      Sorting.OnceOnly(t, ContractOrder.CompiledKey, n);
      assert n in multiset(s) <==> n in s;
      assert n in multiset(t) <==> n in t;
    }
  }

  // ---------------------------------------------------------------- which nodes are visited

  ghost function Defaults(edges: seq<Edge>): (r: seq<Edge>)
    ensures forall e :: e in r <==> e in edges && e.kind == Default
  {
    if edges == [] then [] else (if edges[0].kind == Default then [edges[0]] else []) + Defaults(edges[1..])
  }

  /** The default edges out of what came after the first nodes lead to nodes that are there. */
  ghost predicate Followed(k: Contract, before: seq<CompiledNode>, r: seq<CompiledNode>) {
    forall e :: e in k.edges && e.kind == Default && e.from in IdsOf(r) && e.from !in IdsOf(before) && e.to in IdsOf(k.nodes)
                ==> e.to in IdsOf(r)
  }

  lemma {:induction false} VisitFollows(k: Contract, id: Id, ordered: seq<CompiledNode>)
    ensures Followed(k, ordered, Visit(k, id, ordered)) && (id in IdsOf(k.nodes) ==> id in IdsOf(Visit(k, id, ordered)))
    decreases IdsOf(k.nodes) - IdsOf(ordered), 0
  {
    if id !in IdsOf(ordered) && id in IdsOf(k.nodes) {
      var start := ordered + [NodeBy(k.nodes, id)];
      VisitedGrow(IdsOf(k.nodes), ordered, NodeBy(k.nodes, id));
      VisitEachFollows(k, OutEdges(k.edges, id, Default), start);
      PrefixIds(start, Visit(k, id, ordered));
    }
  }

  lemma {:induction false} VisitEachFollows(k: Contract, edges: seq<Edge>, ordered: seq<CompiledNode>)
    ensures Followed(k, ordered, VisitEach(k, edges, ordered))
    ensures forall e :: e in edges && e.to in IdsOf(k.nodes) ==> e.to in IdsOf(VisitEach(k, edges, ordered))
    decreases IdsOf(k.nodes) - IdsOf(ordered), 1, |edges|
  {
    if edges != [] {
      var next := Visit(k, edges[0].to, ordered);
      VisitFollows(k, edges[0].to, ordered);
      PrefixIds(ordered, next);
      VisitEachFollows(k, edges[1..], next);
      PrefixIds(next, VisitEach(k, edges, ordered));
      assert edges == [edges[0]] + edges[1..];
    }
  }

  /** Everything so far is reached from the root along default edges. */
  ghost predicate AllReached(k: Contract, root: Id, ordered: seq<CompiledNode>) {
    forall n :: n in ordered ==> Reaches(Defaults(k.edges), root, n.id)
  }

  lemma {:induction false} VisitIsReached(k: Contract, root: Id, id: Id, ordered: seq<CompiledNode>)
    requires AllReached(k, root, ordered) && Reaches(Defaults(k.edges), root, id)
    ensures AllReached(k, root, Visit(k, id, ordered))
    decreases IdsOf(k.nodes) - IdsOf(ordered), 0
  {
    if id !in IdsOf(ordered) && id in IdsOf(k.nodes) {
      VisitedGrow(IdsOf(k.nodes), ordered, NodeBy(k.nodes, id));
      VisitEachIsReached(k, root, id, OutEdges(k.edges, id, Default), ordered + [NodeBy(k.nodes, id)]);
    }
  }

  lemma {:induction false} VisitEachIsReached(k: Contract, root: Id, id: Id, edges: seq<Edge>, ordered: seq<CompiledNode>)
    requires AllReached(k, root, ordered) && Reaches(Defaults(k.edges), root, id)
    requires forall e :: e in edges ==> e in k.edges && e.kind == Default && e.from == id
    ensures AllReached(k, root, VisitEach(k, edges, ordered))
    decreases IdsOf(k.nodes) - IdsOf(ordered), 1, |edges|
  {
    if edges != [] {
      OneStepFurther(Defaults(k.edges), root, edges[0]);
      VisitIsReached(k, root, edges[0].to, ordered);
      PrefixIds(ordered, Visit(k, edges[0].to, ordered));
      VisitEachIsReached(k, root, id, edges[1..], Visit(k, edges[0].to, ordered));
    }
  }

  lemma {:induction false} OneStepFurther(edges: seq<Edge>, root: Id, e: Edge)
    requires e in edges && Reaches(edges, root, e.from)
    ensures Reaches(edges, root, e.to)
  {
    var p :| IsPath(edges, root, p, e.from);
    PathAppend(edges, root, p, e.from, e);
  }

  lemma {:induction false} FollowedAlong(k: Contract, r: seq<CompiledNode>, a: Id, p: seq<Edge>, b: Id)
    requires Followed(k, [], r) && a in IdsOf(r) && IsPath(Defaults(k.edges), a, p, b)
    requires forall e :: e in k.edges ==> e.to in IdsOf(k.nodes)
    ensures b in IdsOf(r)
    decreases |p|
  {
    if p != [] {
      FollowedAlong(k, r, p[0].to, p[1..], b);
    }
  }

  /** Visited from the root are exactly the nodes that default edges lead to. */
  lemma {:induction false} VisitedIff(k: Contract, id: Id)
    requires k.rootNodeId in IdsOf(k.nodes) && forall e :: e in k.edges ==> e.to in IdsOf(k.nodes)
    ensures id in IdsOf(Visit(k, k.rootNodeId, [])) <==> Reaches(Defaults(k.edges), k.rootNodeId, id)
  {
    var r, root := Visit(k, k.rootNodeId, []), k.rootNodeId;
    assert IsPath(Defaults(k.edges), root, [], root);
    VisitIsReached(k, root, root, []);
    VisitFollows(k, root, []);
    if Reaches(Defaults(k.edges), root, id) {
      var p :| IsPath(Defaults(k.edges), root, p, id);
      FollowedAlong(k, r, root, p, id);
    }
  }
}
