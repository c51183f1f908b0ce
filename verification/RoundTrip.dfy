/** An old round list, migrated (shared/p2p-workflow-materialize.ts:38-105), compiled, and turned back into
    rounds (src/daemon/command-handler.ts:2347-2491): what comes back. */
module RoundTrip {
  import opened Wrappers
  import opened Workflow
  import opened Compiler
  import opened Contract
  import opened AdvancedRounds
  import opened Materialize
  import ContractNames
  import opened Orchestrator
  import opened Switchover
  import opened LegacyRounds
  import ContractOrder
  import Text
  import Sorting

  // ---------------------------------------------------------------- one node as a round

  /** roundPresetFromWorkflowPreset */
  function RoundPresetOf(p: Preset): RoundPreset {
    match p
    case OpenSpecPropose => Propose
    case ProposalAudit => AuditProposal
    case Implement => Build
    case ImplementationAudit => AuditBuild
    case Custom => Free
    case _ => Discussion
  }

  function LimitOf(b: Budget): real {
    if b.Whole? then b.count as real else 0.0
  }

  /** mapConditionalEdgeToJumpRule */
  function JumpRuleOf(e: Edge, budgets: seq<BudgetEntry>): Option<JumpRule> {
    var budget := Lookup(budgets, e.id);
    if budget.None? then None
    else Some(JumpRule(e.to, Some(if e.condition.Some? && e.condition.value.equals == "PASS" then PASS else REWORK), 0.0, LimitOf(budget.value)))
  }

  function AllPaths(artifacts: seq<Artifact>): seq<string> {
    if artifacts == [] then [] else artifacts[0].paths + AllPaths(artifacts[1..])
  }

  /** mapCompiledNodeToLegacyRound */
  function RoundOf(unitLe: (string, string) -> bool, k: Contract, n: CompiledNode): Round {
    var conditional := OutEdges(k.edges, n.id, Conditional);
    Round(n.id, n.title.GetOr(n.id), RoundPresetOf(n.preset),
          if n.dispatch == Some(MultiDispatch) then MultiDispatch else SingleMain, n.scope,
          if n.artifacts == [] then None else Some(Sorting.Sort(unitLe, AllPaths(n.artifacts))),
          n.promptAppend,
          Some(if conditional == [] then NoVerdict else ForcedRework), None,
          if conditional == [] then None else JumpRuleOf(conditional[0], k.loopBudgets))
  }

  /** compiledWorkflowToLegacyAdvancedRounds */
  function RoundsOf(unitLe: (string, string) -> bool, k: Contract): (r: seq<Round>)
    ensures |r| == |Order(k)| && forall i :: 0 <= i < |r| ==> r[i] == RoundOf(unitLe, k, Order(k)[i])
  {
    seq(|Order(k)|, i requires 0 <= i < |Order(k)| => RoundOf(unitLe, k, Order(k)[i]))
  }

  // ---------------------------------------------------------------- what a round becomes

  /** The preset of a round as the configuration spells it. */
  function RoundPresetName(p: RoundPreset): string {
    match p
    case Discussion => "discussion"
    case Propose => "openspec_propose"
    case AuditProposal => "proposal_audit"
    case Build => "implementation"
    case AuditBuild => "implementation_audit"
    case Free => "custom"
  }

  /** The preset of a round keeps its name, except that a discussion becomes the preset discuss. */
  lemma {:induction false} PresetNameIsKept(p: RoundPreset)
    ensures ContractNames.PresetName(NodePreset(p)) == if p.Discussion? then "discuss" else RoundPresetName(p)
  {
  }

  /** The artifact of a round that generates some: all its outputs, never through a symbolic link, by the
      OpenSpec convention exactly for a proposal. */
  lemma {:induction false} ArtifactIs(unitLe: (string, string) -> bool, r: Round, a: Artifact)
    ensures NodeOf(unitLe, r).artifacts.Some? && |NodeOf(unitLe, r).artifacts.value| == if r.scope.ArtifactGeneration? then 1 else 0
    ensures a in NodeOf(unitLe, r).artifacts.value ==>
              && a.symlinks == Some(RejectAll) && a.scope == Some(ArtifactGeneration) && !a.convention.NoConvention?
              && (a.convention.OpenSpecConvention? <==> r.preset.Propose?)
              && multiset(a.paths) == if Outputs(r) == [] then multiset{"openspec/changes"} else multiset(Outputs(r))
  {
  }

  // ---------------------------------------------------------------- what comes back of a round

  function BackOutputs(unitLe: (string, string) -> bool, r: Round): Option<seq<string>> {
    if !r.scope.ArtifactGeneration? then None
    else Some(if Outputs(r) == [] then ["openspec/changes"] else Sorting.Sort(unitLe, Outputs(r)))
  }

  function BackJump(r: Round): Option<JumpRule> {
    if r.jump.None? then None
    else Some(JumpRule(r.jump.value.target, Some(r.jump.value.marker.GetOr(REWORK)), 0.0, r.jump.value.maxTriggers))
  }

  /** An empty title becomes the id, the outputs are sorted or the default, every jump forces rework on its
      marker, and no jump is forced without it. */
  function Back(unitLe: (string, string) -> bool, r: Round): Round {
    Round(r.id, if r.title == "" then r.id else r.title, r.preset, r.dispatch, r.scope, BackOutputs(unitLe, r),
          if r.promptAppend == Some("") then None else r.promptAppend,
          Some(if r.jump.None? then NoVerdict else ForcedRework), None, BackJump(r))
  }

  function BackAll(unitLe: (string, string) -> bool, rounds: seq<Round>): (r: seq<Round>)
    ensures |r| == |rounds| && forall i :: 0 <= i < |r| ==> r[i] == Back(unitLe, rounds[i])
  {
    seq(|rounds|, i requires 0 <= i < |rounds| => Back(unitLe, rounds[i]))
  }

  // ---------------------------------------------------------------- the nodes come in the order of the rounds

  /** The default edges lead through all nodes, one after the other. */
  ghost predicate Chained(k: Contract, nodes: seq<CompiledNode>, edges: seq<Edge>) {
    && nodes != [] && |edges| == |nodes| - 1 && DistinctNodes(nodes) && DistinctNodes(k.nodes)
    && (forall n :: n in nodes <==> n in k.nodes)
    && (forall i :: 0 <= i < |edges| ==> OutEdges(k.edges, nodes[i].id, Default) == [edges[i]] && edges[i].to == nodes[i + 1].id)
    && OutEdges(k.edges, nodes[|nodes| - 1].id, Default) == []
  }

  lemma {:induction false} NotYet(nodes: seq<CompiledNode>, i: nat)
    requires DistinctNodes(nodes) && i < |nodes|
    ensures nodes[i].id !in IdsOf(nodes[..i])
  {
    forall n | n in nodes[..i] ensures n.id != nodes[i].id {
      var j :| 0 <= j < i && nodes[..i][j] == n;
      assert nodes[j].id != nodes[i].id;
    }
  }

  lemma {:induction false} VisitFollows(k: Contract, nodes: seq<CompiledNode>, edges: seq<Edge>, i: nat)
    requires Chained(k, nodes, edges) && i < |nodes|
    ensures Visit(k, nodes[i].id, nodes[..i]) == nodes
    decreases |nodes| - i
  {
    if i + 1 < |nodes| {
      VisitFollows(k, nodes, edges, i + 1);
      VisitGoesOn(k, nodes, edges, i);
    } else {
      VisitEnds(k, nodes, edges);
    }
  }

  lemma {:induction false} VisitGoesOn(k: Contract, nodes: seq<CompiledNode>, edges: seq<Edge>, i: nat)
    requires Chained(k, nodes, edges) && i + 1 < |nodes|
    ensures Visit(k, nodes[i].id, nodes[..i]) == Visit(k, nodes[i + 1].id, nodes[..i + 1])
  {
    NotYet(nodes, i);
    assert nodes[i] in nodes;
    assert nodes[..i] + [nodes[i]] == nodes[..i + 1];
    VisitTakes(k, nodes[i], nodes[..i], edges[i]);
  }

  lemma {:induction false} VisitEnds(k: Contract, nodes: seq<CompiledNode>, edges: seq<Edge>)
    requires Chained(k, nodes, edges)
    ensures var last := |nodes| - 1; Visit(k, nodes[last].id, nodes[..last]) == nodes
  {
    var last := |nodes| - 1;
    NotYet(nodes, last);
    assert nodes[last] in nodes;
    VisitOpens(k, nodes[last], nodes[..last]);
    assert nodes[..last] + [nodes[last]] == nodes;
  }

  lemma {:induction false} VisitTakes(k: Contract, n: CompiledNode, ordered: seq<CompiledNode>, e: Edge)
    requires DistinctNodes(k.nodes) && n in k.nodes && n.id !in IdsOf(ordered) && OutEdges(k.edges, n.id, Default) == [e]
    ensures Visit(k, n.id, ordered) == Visit(k, e.to, ordered + [n])
  {
    VisitOpens(k, n, ordered);
    VisitOne(k, e, ordered + [n]);
  }

  lemma {:induction false} VisitOpens(k: Contract, n: CompiledNode, ordered: seq<CompiledNode>)
    requires DistinctNodes(k.nodes) && n in k.nodes && n.id !in IdsOf(ordered)
    ensures Visit(k, n.id, ordered) == VisitEach(k, OutEdges(k.edges, n.id, Default), ordered + [n])
  {
    assert n.id in IdsOf(k.nodes);
    SameNode(k.nodes, NodeBy(k.nodes, n.id), n);
  }

  lemma {:induction false} VisitOne(k: Contract, e: Edge, ordered: seq<CompiledNode>)
    ensures VisitEach(k, [e], ordered) == Visit(k, e.to, ordered)
  {
    assert [e][1..] == [];
  }

  lemma {:induction false} OrderFollows(k: Contract, nodes: seq<CompiledNode>, edges: seq<Edge>)
    requires Chained(k, nodes, edges) && k.rootNodeId == nodes[0].id && nodes[0].id != ""
    ensures Order(k) == nodes
  {
    VisitFollows(k, nodes, edges, 0);
    assert nodes[..0] == [];
    NothingLeft(k.nodes, nodes);
  }

  lemma {:induction false} NothingLeft(nodes: seq<CompiledNode>, all: seq<CompiledNode>)
    requires forall n :: n in nodes ==> n in all
    ensures Unvisited(nodes, all) == []
  {
    SomeNode(Unvisited(nodes, all));
  }

  lemma {:induction false} SomeNode(s: seq<CompiledNode>)
    ensures s == [] || exists n :: n in s
  {
    if s != [] {
      assert s[0] in s;
    }
  }

  /** The compiled nodes of the rounds, in order. */
  function NodesInOrder(c: Collation, rounds: seq<Round>): seq<CompiledNode>
    requires rounds != []
  {
    CompileNodes(c, Nodes(c.units, rounds), ForwardEdges(rounds) + JumpEdges(rounds))
  }

  lemma {:induction false} NodesAre(c: Collation, rounds: seq<Round>)
    requires rounds != []
    ensures |NodesInOrder(c, rounds)| == |rounds|
    ensures forall i :: 0 <= i < |rounds| ==> NodesInOrder(c, rounds)[i] == NodeAt(c, rounds, i) && NodeAt(c, rounds, i).id == rounds[i].id
  {
  }

  lemma {:induction false} CompiledApart(c: Collation, nodes: seq<Node>, edges: seq<Edge>)
    requires forall i, j :: 0 <= i < j < |nodes| ==> nodes[i].id != nodes[j].id
    ensures DistinctNodes(CompileNodes(c, nodes, edges))
  {
  }

  lemma {:induction false} MigratedNodes(c: Collation, digest: Contract -> string, key: Option<string>, rounds: seq<Round>, policy: Policy)
    requires rounds != [] && DistinctRounds(rounds)
    ensures var k, nodes := Migrated(c, digest, key, rounds, policy), NodesInOrder(c, rounds);
            DistinctNodes(nodes) && DistinctNodes(k.nodes) && forall n :: n in nodes <==> n in k.nodes
  {
    var nodes, edges := Nodes(c.units, rounds), ForwardEdges(rounds) + JumpEdges(rounds);
    var sorted := Sorting.Sort(Sorting.By(c.locale, NodeKey), nodes);
    ContractOrder.NodeIdsStayApart(nodes, sorted);
    CompiledApart(c, nodes, edges);
    CompiledApart(c, sorted, edges);
    ContractOrder.CompilePool(c, sorted, nodes, edges);
    Sorting.SamePool(CompileNodes(c, sorted, edges), CompileNodes(c, nodes, edges));
  }

  lemma {:induction false} ChainedFrom(k: Contract, nodes: seq<CompiledNode>, rounds: seq<Round>)
    requires rounds != [] && |nodes| == |rounds| && DistinctNodes(nodes) && DistinctNodes(k.nodes) && forall n :: n in nodes <==> n in k.nodes
    requires forall i :: 0 <= i < |rounds| ==> nodes[i].id == rounds[i].id
    requires forall i :: 0 <= i < |rounds| ==> OutEdges(k.edges, rounds[i].id, Default) == AsList(ForwardOf(rounds, i))
    ensures Chained(k, nodes, ForwardEdges(rounds))
  {
    var edges, last := ForwardEdges(rounds), |rounds| - 1;
    forall i | 0 <= i < |edges| ensures OutEdges(k.edges, nodes[i].id, Default) == [edges[i]] && edges[i].to == nodes[i + 1].id {
      assert ForwardOf(rounds, i) == Some(edges[i]) && nodes[i + 1].id == rounds[i + 1].id;
    }
    assert ForwardOf(rounds, last) == None && nodes[last].id == rounds[last].id;
  }

  lemma {:induction false} MigratedIsChained(c: Collation, digest: Contract -> string, key: Option<string>, rounds: seq<Round>, policy: Policy)
    requires Runs(c, key, rounds, policy)
    ensures Chained(Migrated(c, digest, key, rounds, policy), NodesInOrder(c, rounds), ForwardEdges(rounds))
  {
    var k := Migrated(c, digest, key, rounds, policy);
    NodesAre(c, rounds);
    MigratedNodes(c, digest, key, rounds, policy);
    forall i | 0 <= i < |rounds| ensures OutEdges(k.edges, rounds[i].id, Default) == AsList(ForwardOf(rounds, i)) {
      MigratedRoutes(c, digest, key, rounds, policy, i);
    }
    ChainedFrom(k, NodesInOrder(c, rounds), rounds);
  }

  // ---------------------------------------------------------------- the round trip

  lemma {:induction false} PresetsComeBack(p: RoundPreset)
    ensures RoundPresetOf(NodePreset(p)) == p
  {
  }

  lemma {:induction false} OutputsComeBack(unitLe: (string, string) -> bool, r: Round)
    requires Sorting.TotalPreorder(unitLe)
    ensures var artifacts := NodeOf(unitLe, r).artifacts.value;
            BackOutputs(unitLe, r) == if artifacts == [] then None else Some(Sorting.Sort(unitLe, AllPaths(artifacts)))
  {
    if r.scope.ArtifactGeneration? {
      var artifacts := NodeOf(unitLe, r).artifacts.value;
      var paths := artifacts[0].paths;
      assert artifacts[1..] == [] && AllPaths([]) == [];
      assert AllPaths(artifacts) == paths;
      Sorting.SortSorted(unitLe, Outputs(r));
      Sorting.SortFixed(unitLe, paths);
    }
  }

  lemma {:induction false} JumpComesBack(r: Round, budgets: seq<BudgetEntry>)
    requires r.jump.Some? && Lookup(budgets, JumpEdge(r).id) == Some(Whole(r.jump.value.maxTriggers.Floor))
    requires r.jump.value.maxTriggers == r.jump.value.maxTriggers.Floor as real
    ensures JumpRuleOf(JumpEdge(r), budgets) == BackJump(r)
  {
    MarkersDiffer(r.jump.value.marker.GetOr(REWORK), PASS);
    assert JumpEdge(r).condition == Some(Condition(VerdictMarkerEquals, MarkerText(r.jump.value.marker.GetOr(REWORK))));
  }

  lemma {:induction false} FieldsComeBack(c: Collation, rounds: seq<Round>, i: nat, k: Contract)
    requires rounds != [] && i < |rounds| && Sorting.TotalPreorder(c.units) && RoutesAs(k, rounds, i)
    requires rounds[i].jump.Some? ==>
               && AsBudget(rounds[i].jump.value.maxTriggers) == Whole(rounds[i].jump.value.maxTriggers.Floor)
               && rounds[i].jump.value.maxTriggers == rounds[i].jump.value.maxTriggers.Floor as real
    ensures RoundOf(c.units, k, NodeAt(c, rounds, i)) == Back(c.units, rounds[i])
  {
    var r, n := rounds[i], NodeAt(c, rounds, i);
    NodeSays(c, rounds, i);
    OutputsComeBack(c.units, r);
    JumpsComeBack(k, rounds, i);
    var a, b := RoundOf(c.units, k, n), Back(c.units, r);
    assert a.id == b.id && a.title == b.title && a.preset == b.preset && a.dispatch == b.dispatch && a.scope == b.scope;
    assert a.artifactOutputs == b.artifactOutputs && a.promptAppend == b.promptAppend;
    assert a.verdictPolicy == b.verdictPolicy && a.artifacts == b.artifacts && a.jump == b.jump;
  }

  /** The single values of the compiled node of a round. */
  lemma {:induction false} NodeSays(c: Collation, rounds: seq<Round>, i: nat)
    requires rounds != [] && i < |rounds|
    ensures var n, r := NodeAt(c, rounds, i), rounds[i];
            && n.id == r.id && n.title == (if r.title == "" then None else Some(r.title)) && RoundPresetOf(n.preset) == r.preset
            && n.dispatch == Some(r.dispatch) && n.scope == r.scope && n.artifacts == NodeOf(c.units, r).artifacts.value
            && n.promptAppend == if r.promptAppend == Some("") then None else r.promptAppend
  {
    PresetsComeBack(rounds[i].preset);
  }

  lemma {:induction false} JumpsComeBack(k: Contract, rounds: seq<Round>, i: nat)
    requires i < |rounds| && RoutesAs(k, rounds, i)
    requires rounds[i].jump.Some? ==>
               && AsBudget(rounds[i].jump.value.maxTriggers) == Whole(rounds[i].jump.value.maxTriggers.Floor)
               && rounds[i].jump.value.maxTriggers == rounds[i].jump.value.maxTriggers.Floor as real
    ensures var conditional := OutEdges(k.edges, rounds[i].id, Conditional);
            BackJump(rounds[i]) == if conditional == [] then None else JumpRuleOf(conditional[0], k.loopBudgets)
    ensures OutEdges(k.edges, rounds[i].id, Conditional) == [] <==> rounds[i].jump.None?
  {
    if rounds[i].jump.Some? {
      JumpComesBack(rounds[i], k.loopBudgets);
    }
  }

  /** Migrated, compiled and turned back, a round list that compiles comes back round by round in its order,
      each as Back says. */
  lemma {:induction false} RoundsComeBack(c: Collation, digest: Contract -> string, key: Option<string>, rounds: seq<Round>, policy: Policy)
    requires Runs(c, key, rounds, policy)
    ensures RoundsOf(c.units, Migrated(c, digest, key, rounds, policy)) == BackAll(c.units, rounds)
  {
    var k, nodes := Migrated(c, digest, key, rounds, policy), NodesInOrder(c, rounds);
    MigratedIsChained(c, digest, key, rounds, policy);
    NodesAre(c, rounds);
    RootIsFirst(c, digest, key, rounds, policy);
    OrderFollows(k, nodes, ForwardEdges(rounds));
    forall i | 0 <= i < |rounds| ensures RoundOf(c.units, k, nodes[i]) == Back(c.units, rounds[i]) {
      RoundComesBack(c, digest, key, rounds, policy, i);
    }
    AllComeBack(c.units, k, nodes, rounds);
  }

  lemma {:induction false} RoundComesBack(c: Collation, digest: Contract -> string, key: Option<string>, rounds: seq<Round>, policy: Policy, i: nat)
    requires Runs(c, key, rounds, policy) && i < |rounds|
    ensures RoundOf(c.units, Migrated(c, digest, key, rounds, policy), NodeAt(c, rounds, i)) == Back(c.units, rounds[i])
  {
    MigratedRoutes(c, digest, key, rounds, policy, i);
    if rounds[i].jump.Some? {
      LimitIsNatural(c, key, rounds, policy, i);
    }
    FieldsComeBack(c, rounds, i, Migrated(c, digest, key, rounds, policy));
  }

  lemma {:induction false} AllComeBack(unitLe: (string, string) -> bool, k: Contract, nodes: seq<CompiledNode>, rounds: seq<Round>)
    requires Order(k) == nodes && |nodes| == |rounds|
    requires forall i :: 0 <= i < |rounds| ==> RoundOf(unitLe, k, nodes[i]) == Back(unitLe, rounds[i])
    ensures RoundsOf(unitLe, k) == BackAll(unitLe, rounds)
  {
  }

  lemma {:induction false} RootIsFirst(c: Collation, digest: Contract -> string, key: Option<string>, rounds: seq<Round>, policy: Policy)
    requires rounds != [] && Accepted(rounds)
    ensures Migrated(c, digest, key, rounds, policy).rootNodeId == rounds[0].id && rounds[0].id != ""
  {
    assert rounds[0] in rounds && !Text.Blank(rounds[0].id);
  }

  // ---------------------------------------------------------------- what is lost, and that nothing more is lost later

  /** Nothing of the round is lost on the way. */
  ghost predicate Lossless(unitLe: (string, string) -> bool, r: Round) {
    && r.title != "" && r.promptAppend != Some("") && r.artifacts.None?
    && r.verdictPolicy == Some(if r.jump.None? then NoVerdict else ForcedRework)
    && (r.jump.Some? ==> r.jump.value.marker.Some? && r.jump.value.minTriggers == 0.0)
    && (if r.scope.ArtifactGeneration? then
          r.artifactOutputs.Some? && r.artifactOutputs.value != [] && Sorting.Sorted(unitLe, r.artifactOutputs.value)
        else r.artifactOutputs.None?)
  }

  lemma {:induction false} OutputsLossless(unitLe: (string, string) -> bool, r: Round)
    requires Sorting.TotalPreorder(unitLe) && r.scope.ArtifactGeneration? && r.artifactOutputs != Some([])
    ensures BackOutputs(unitLe, r) == r.artifactOutputs
            <==> r.artifactOutputs.Some? && Sorting.Sorted(unitLe, r.artifactOutputs.value)
  {
    if r.artifactOutputs.Some? {
      Sorting.SortSorted(unitLe, r.artifactOutputs.value);
      if Sorting.Sorted(unitLe, r.artifactOutputs.value) {
        Sorting.SortFixed(unitLe, r.artifactOutputs.value);
      }
    }
  }

  /** A round comes back as it was exactly when it has a title, no empty prompt text, forces rework on a named
      marker (and not without it) if it jumps, asks for no verdict if not, and has its outputs sorted. */
  lemma {:induction false} ComesBackIff(unitLe: (string, string) -> bool, r: Round)
    requires Sorting.TotalPreorder(unitLe) && r.id != ""
    ensures Back(unitLe, r) == r <==> Lossless(unitLe, r)
  {
    if r.scope.ArtifactGeneration? && r.artifactOutputs != Some([]) {
      OutputsLossless(unitLe, r);
    }
  }

  lemma {:induction false} BackIsLossless(unitLe: (string, string) -> bool, r: Round)
    requires Sorting.TotalPreorder(unitLe) && r.id != ""
    ensures Lossless(unitLe, Back(unitLe, r))
  {
    if r.scope.ArtifactGeneration? {
      Sorting.SortSorted(unitLe, Outputs(r));
    }
  }

  /** A second round trip changes nothing more. */
  lemma {:induction false} BackTwice(unitLe: (string, string) -> bool, r: Round)
    requires Sorting.TotalPreorder(unitLe) && r.id != ""
    ensures Back(unitLe, Back(unitLe, r)) == Back(unitLe, r)
  {
    BackIsLossless(unitLe, r);
    ComesBackIff(unitLe, Back(unitLe, r));
  }

  /** What comes back of an accepted list with sound limits is accepted again. */
  lemma {:induction false} BackIsAccepted(unitLe: (string, string) -> bool, rounds: seq<Round>)
    requires Sorting.TotalPreorder(unitLe) && Accepted(rounds)
    requires forall r :: r in rounds && r.jump.Some? ==> r.jump.value.maxTriggers >= 0.0
    ensures Accepted(BackAll(unitLe, rounds))
  {
    var back := BackAll(unitLe, rounds);
    forall i | 0 <= i < |back| ensures !Text.Blank(back[i].id) && RoundOk(back, i) {
      assert rounds[i] in rounds;
      BackRoundOk(unitLe, rounds, i);
    }
    forall r | r in back ensures !Text.Blank(r.id) {
      var i :| 0 <= i < |back| && back[i] == r;
    }
  }

  lemma {:induction false} BackRoundOk(unitLe: (string, string) -> bool, rounds: seq<Round>, i: nat)
    requires Sorting.TotalPreorder(unitLe) && i < |rounds| && RoundOk(rounds, i)
    requires rounds[i].jump.Some? ==> rounds[i].jump.value.maxTriggers >= 0.0
    ensures RoundOk(BackAll(unitLe, rounds), i)
  {
    var back := BackAll(unitLe, rounds);
    if rounds[i].jump.Some? {
      var j :| 0 <= j < i && rounds[j].id == rounds[i].jump.value.target;
      assert back[j].id == back[i].jump.value.target;
    }
  }
}
