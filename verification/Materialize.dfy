/** materializeOldAdvancedConfigToWorkflowDraft (shared/p2p-workflow-materialize.ts:38-105):
    a round list becomes a workflow draft, and means the same. */
module Materialize {
  import opened Wrappers
  import opened Workflow
  import opened Compiler
  import opened Contract
  import opened AdvancedRounds
  import Sorting

  function NodePreset(p: RoundPreset): Preset {
    match p
    case Discussion => Discuss
    case Propose => OpenSpecPropose
    case AuditProposal => ProposalAudit
    case Build => Implement
    case AuditBuild => ImplementationAudit
    case Free => Custom
  }

  function NodeOf(unitLe: (string, string) -> bool, r: Round): Node {
    var outputs := if Outputs(r) != [] then Sorting.Sort(unitLe, Outputs(r)) else ["openspec/changes"];
    var convention := if r.preset.Propose? then OpenSpecConvention else ExplicitPaths;
    Node(r.id, Some(r.title),
         if r.scope.Implementation? && r.preset.Free? then Script else Llm,
         NodePreset(r.preset), Some(r.dispatch), Some(r.scope),
         NonEmpty(r.promptAppend), None, None, None, None,
         Some(if r.scope.ArtifactGeneration? then [Artifact(convention, outputs, Some(ArtifactGeneration), Some(RejectAll))] else []))
  }

  function ForwardEdge(rounds: seq<Round>, i: nat): Edge
    requires i + 1 < |rounds|
  {
    Edge("edge_" + rounds[i].id + "_to_" + rounds[i + 1].id, rounds[i].id, rounds[i + 1].id, Default, None)
  }

  function JumpEdge(r: Round): Edge
    requires r.jump.Some?
  {
    var marker := if r.jump.value.marker == Some(PASS) then "PASS" else "REWORK";
    Edge("edge_" + r.id + "_to_" + r.jump.value.target + "_rework", r.id, r.jump.value.target,
         Conditional, Some(Condition(VerdictMarkerEquals, marker)))
  }

  function AsBudget(max: real): Budget {
    if max.Floor as real == max then Whole(max.Floor) else NotWhole
  }

  /** loopBudgets[key] = value. */
  function Put(entries: seq<BudgetEntry>, key: Id, value: Budget): (r: seq<BudgetEntry>)
    ensures forall k :: Lookup(r, k) == if k == key then Some(value) else Lookup(entries, k)
    ensures IsRecord(entries) ==> IsRecord(r)
    ensures forall b :: b in r ==> b in entries || b == BudgetEntry(key, value)
  {
    if entries == [] then [BudgetEntry(key, value)]
    else if entries[0].edge == key then [BudgetEntry(key, value)] + entries[1..]
    else
      var tail := Put(entries[1..], key, value);
      assert IsRecord(entries) ==> IsRecord(entries[1..]);
      assert forall b :: b in entries[1..] ==> b in entries;
      assert IsRecord(entries) ==> forall b :: b in tail ==> b.edge != entries[0].edge;
      [entries[0]] + tail
  }

  function ForwardEdges(rounds: seq<Round>): (r: seq<Edge>)
    requires rounds != []
    ensures |r| == |rounds| - 1 && forall i :: 0 <= i < |r| ==> r[i] == ForwardEdge(rounds, i)
  {
    seq(|rounds| - 1, i requires 0 <= i < |rounds| - 1 => ForwardEdge(rounds, i))
  }

  function JumpEdges(rounds: seq<Round>): (r: seq<Edge>)
    ensures forall e :: e in r <==> exists x :: x in rounds && x.jump.Some? && e == JumpEdge(x)
  {
    if rounds == [] then []
    else
      var last := rounds[|rounds| - 1];
      assert rounds == rounds[..|rounds| - 1] + [last];
      JumpEdges(rounds[..|rounds| - 1]) + if last.jump.Some? then [JumpEdge(last)] else []
  }

  function Budgets(rounds: seq<Round>): (r: seq<BudgetEntry>)
    ensures IsRecord(r)
    ensures forall b :: b in r ==> exists x :: x in rounds && x.jump.Some? && b == BudgetEntry(JumpEdge(x).id, AsBudget(x.jump.value.maxTriggers))
    ensures forall x :: x in rounds && x.jump.Some? ==> Lookup(r, JumpEdge(x).id).Some?
  {
    if rounds == [] then []
    else
      var last := rounds[|rounds| - 1];
      var r := Budgets(rounds[..|rounds| - 1]);
      assert rounds == rounds[..|rounds| - 1] + [last];
      if last.jump.Some? then Put(r, JumpEdge(last).id, AsBudget(last.jump.value.maxTriggers)) else r
  }

  function Nodes(unitLe: (string, string) -> bool, rounds: seq<Round>): (r: seq<Node>)
    ensures |r| == |rounds| && forall i :: 0 <= i < |r| ==> r[i] == NodeOf(unitLe, rounds[i])
  {
    seq(|rounds|, i requires 0 <= i < |rounds| => NodeOf(unitLe, rounds[i]))
  }

  function DraftOf(unitLe: (string, string) -> bool, presetKey: Option<string>, rounds: seq<Round>): Draft
    requires rounds != []
  {
    Draft(if presetKey.Some? && presetKey.value != "" then "old_" + presetKey.value else "old_custom_advanced",
          Nodes(unitLe, rounds), ForwardEdges(rounds) + JumpEdges(rounds), Some(rounds[0].id), [], Some(Budgets(rounds)))
  }

  /** The rounds to translate: those given, else the built-in preset, else nothing. */
  function ChosenRounds(presetKey: Option<string>, rounds: Option<seq<Round>>): seq<Round> {
    if rounds.GetOr([]) != [] then rounds.value
    else if presetKey == Some("openspec") then OPENSPEC_ROUNDS
    else []
  }

  /** The consecutive rounds become default edges. */
  method CollectForward(rounds: seq<Round>) returns (edges: seq<Edge>)
    requires rounds != []
    ensures edges == ForwardEdges(rounds)
  {
    edges := [];
    for index := 0 to |rounds| - 1
      invariant edges == ForwardEdges(rounds)[..index]
    {
      edges := edges + [ForwardEdge(rounds, index)];
    }
  }

  lemma {:induction false} JumpStep(rounds: seq<Round>, i: nat)
    requires i < |rounds|
    ensures JumpEdges(rounds[..i + 1]) == JumpEdges(rounds[..i]) + if rounds[i].jump.Some? then [JumpEdge(rounds[i])] else []
    ensures Budgets(rounds[..i + 1])
            == if rounds[i].jump.Some? then Put(Budgets(rounds[..i]), JumpEdge(rounds[i]).id, AsBudget(rounds[i].jump.value.maxTriggers))
               else Budgets(rounds[..i])
  {
    assert rounds[..i + 1][..i] == rounds[..i];
  }

  /** The jump rules become conditional edges, each with a budget. */
  method CollectJumps(rounds: seq<Round>) returns (edges: seq<Edge>, budgets: seq<BudgetEntry>)
    ensures edges == JumpEdges(rounds) && budgets == Budgets(rounds)
  {
    edges, budgets := [], [];
    for i := 0 to |rounds|
      invariant edges == JumpEdges(rounds[..i])
      invariant budgets == Budgets(rounds[..i])
    {
      JumpStep(rounds, i);
      var round := rounds[i];
      if round.jump.Some? {
        edges := edges + [JumpEdge(round)];
        budgets := Put(budgets, JumpEdge(round).id, AsBudget(round.jump.value.maxTriggers));
      }
    }
    assert rounds[..|rounds|] == rounds;
  }

  method Materialize(unitLe: (string, string) -> bool, presetKey: Option<string>, rounds: Option<seq<Round>>)
    returns (r: Option<Draft>)
    ensures r == if ChosenRounds(presetKey, rounds) == [] then None
                 else Some(DraftOf(unitLe, presetKey, ChosenRounds(presetKey, rounds)))
  {
    var chosen := ChosenRounds(presetKey, rounds);
    if chosen == [] {
      return None;
    }
    var edges := CollectForward(chosen);
    var jumps, budgets := CollectJumps(chosen);
    var id := if presetKey.Some? && presetKey.value != "" then "old_" + presetKey.value else "old_custom_advanced";
    r := Some(Draft(id, Nodes(unitLe, chosen), edges + jumps, Some(chosen[0].id), [], Some(budgets)));
  }
}
