/** Which old round lists turn into drafts that compile: materializeOldAdvancedConfigToWorkflowDraft
    (shared/p2p-workflow-materialize.ts:38-105) followed by compileP2pWorkflowDraft
    (shared/p2p-workflow-compiler.ts:27-68). */
module Migration {
  import opened Wrappers
  import opened Workflow
  import opened Compiler
  import opened Contract
  import opened AdvancedRounds
  import opened Materialize
  import opened Translation
  import Text

  /** The scope of the round suits its preset.  A custom implementation round would become a script
      node, which needs a script contract that no round carries. */
  predicate Placeable(r: Round) {
    match r.preset
    case Discussion | Free => !r.scope.Implementation?
    case Propose => r.scope.ArtifactGeneration?
    case AuditProposal | AuditBuild => r.scope.AnalysisOnly?
    case Build => r.scope.Implementation?
  }

  /** What the round carries over passes the checks on single values. */
  predicate Carryable(checks: Checks, r: Round) {
    && FitsPrompt(r.promptAppend)
    && (r.scope.ArtifactGeneration? ==>
          && |Outputs(r)| <= MAX_ARTIFACT_FILES
          && if Outputs(r) == [] then checks.pathOk("openspec/changes") else forall p :: p in Outputs(r) ==> checks.pathOk(p))
  }

  predicate Suitable(checks: Checks, r: Round) {
    Placeable(r) && Carryable(checks, r)
  }

  lemma {:induction false} PathsFitIff(unitLe: (string, string) -> bool, checks: Checks, r: Round)
    ensures (forall a :: a in NodeOf(unitLe, r).artifacts.value ==> ArtifactOk(checks, a))
            <==> (r.scope.ArtifactGeneration? ==>
                    && |Outputs(r)| <= MAX_ARTIFACT_FILES
                    && if Outputs(r) == [] then checks.pathOk("openspec/changes") else forall p :: p in Outputs(r) ==> checks.pathOk(p))
    ensures DeclaresOpenSpec(NodeOf(unitLe, r)) <==> WritesProposal(r)
  {
    var n := NodeOf(unitLe, r);
    if r.scope.ArtifactGeneration? {
      var a := n.artifacts.value[0];
      assert n.artifacts.value == [a];
      assert a in n.artifacts.value;
    }
  }

  lemma {:induction false} NodeFitsIff(unitLe: (string, string) -> bool, checks: Checks, r: Round)
    requires !Text.Blank(r.id)
    ensures NodeOk(checks, NodeOf(unitLe, r)) <==> Suitable(checks, r)
  {
    PathsFitIff(unitLe, checks, r);
    ScopeFitsIff(NodeOf(unitLe, r), r);
    PromptFitsIff(r.promptAppend);
  }

  lemma {:induction false} ScopeFitsIff(n: Node, r: Round)
    requires n.kind == (if r.scope.Implementation? && r.preset.Free? then Script else Llm)
    requires n.preset == NodePreset(r.preset) && n.scope == Some(r.scope) && n.artifacts.Some?
    requires DeclaresOpenSpec(n) <==> WritesProposal(r)
    requires n.artifacts.value != [] <==> r.scope.ArtifactGeneration?
    ensures ScopeFits(n) && !n.kind.Script? <==> Placeable(r)
  {
  }

  lemma {:induction false} PromptFitsIff(text: Option<string>)
    ensures FitsPrompt(NonEmpty(text)) <==> FitsPrompt(text)
  {
  }

  lemma {:induction false} NodesFitIff(unitLe: (string, string) -> bool, checks: Checks, rounds: seq<Round>)
    requires forall r :: r in rounds ==> !Text.Blank(r.id)
    ensures (forall n :: n in Nodes(unitLe, rounds) ==> NodeOk(checks, n)) <==> forall r :: r in rounds ==> Suitable(checks, r)
  {
    var nodes := Nodes(unitLe, rounds);
    if forall n :: n in nodes ==> NodeOk(checks, n) {
      forall r | r in rounds ensures Suitable(checks, r) {
        var i :| 0 <= i < |rounds| && rounds[i] == r;
        assert nodes[i] in nodes;
        NodeFitsIff(unitLe, checks, r);
      }
    }
    if forall r :: r in rounds ==> Suitable(checks, r) {
      forall n | n in nodes ensures NodeOk(checks, n) {
        var i :| 0 <= i < |nodes| && nodes[i] == n;
        assert rounds[i] in rounds;
        NodeFitsIff(unitLe, checks, rounds[i]);
      }
    }
  }

  lemma {:induction false} NotBlank(s: string, k: nat)
    requires k < |s| && !Text.IsSpace(s[k])
    ensures !Text.Blank(s)
  {
    assert s[k] in s;
  }

  lemma {:induction false} EdgeFits(rounds: seq<Round>, e: Edge)
    requires rounds != [] && Accepted(rounds) && e in ForwardEdges(rounds) + JumpEdges(rounds)
    ensures EdgeOk(e)
  {
    var i := EdgeCases(rounds, e);
    assert rounds[i] in rounds;
    assert e.id[0] == 'e';
    NotBlank(e.id, 0);
    if e.kind.Default? {
      assert rounds[i + 1] in rounds;
    } else {
      assert RoundOk(rounds, i);
      var j :| 0 <= j < i && rounds[j].id == e.to;
      assert rounds[j] in rounds;
    }
  }

  lemma {:induction false} DraftFitsIff(unitLe: (string, string) -> bool, checks: Checks, key: Option<string>, rounds: seq<Round>)
    requires rounds != [] && Accepted(rounds)
    ensures DraftOk(checks, DraftOf(unitLe, key, rounds)) <==> forall r :: r in rounds ==> Suitable(checks, r)
  {
    var d := DraftOf(unitLe, key, rounds);
    assert d.id[0] == 'o';
    NotBlank(d.id, 0);
    forall e | e in d.edges ensures EdgeOk(e) {
      EdgeFits(rounds, e);
    }
    NodesFitIff(unitLe, checks, rounds);
  }

  lemma {:induction false} CompilableIff(d: Draft, policy: Policy)
    requires d.variables == []
    ensures Compilable(d, policy)
            <==> DraftOk(policy.checks, d) && |d.nodes| <= policy.maxNodes && |d.edges| <= policy.maxEdges && GraphSound(d)
  {
    CompilableParts(d, policy);
    NoVariables(policy.checks, d);
    if forall f :: !GraphFault(d, policy, f) {
      assert !GraphFault(d, policy, TooLarge);
      forall f ensures !ShapeFault(d, f) && !BudgetFault(d, f) {
        assert !GraphFault(d, policy, f);
      }
    }
  }

  lemma {:induction false} NoVariables(checks: Checks, d: Draft)
    requires d.variables == []
    ensures ValidDraft(checks, d) <==> DraftOk(checks, d)
  {
    forall f ensures !VariableFault(checks, d.variables, f) {
    }
    if ValidDraft(checks, d) {
      assert !DraftFault(checks, d, InvalidDraft);
    }
  }

  /** An accepted round list compiles exactly when every round suits its preset and carries only
      checkable texts and paths, the graph is not too large, the generated edge ids differ, the
      trigger limits are natural numbers, and at most one round writes a proposal. */
  lemma {:induction false} CompilesIff(unitLe: (string, string) -> bool, key: Option<string>, rounds: seq<Round>, policy: Policy)
    requires rounds != [] && Accepted(rounds)
    ensures Compilable(DraftOf(unitLe, key, rounds), policy)
            <==> && (forall r :: r in rounds ==> Suitable(policy.checks, r))
                 && |rounds| <= policy.maxNodes && |rounds| - 1 + |JumpEdges(rounds)| <= policy.maxEdges
                 && EdgeNamesDiffer(rounds) && NaturalTriggers(rounds) && OneProposal(rounds)
  {
    CompilableIff(DraftOf(unitLe, key, rounds), policy);
    DraftFitsIff(unitLe, policy.checks, key, rounds);
    SurvivesIff(unitLe, key, rounds);
  }

  // ---------------------------------------------------------------- an accepted list that does not

  lemma {:induction false} CollidingRoundsSuit(checks: Checks)
    ensures forall r :: r in COLLIDING_ROUNDS ==> Suitable(checks, r)
  {
    var rounds := COLLIDING_ROUNDS;
    forall i | 0 <= i < 3 ensures Suitable(checks, rounds[i]) {
    }
  }

  /** The colliding rounds are accepted and their draft is valid, but its graph is refused for the two
      edges with one id. */
  lemma {:induction false} AcceptedButRefused(unitLe: (string, string) -> bool, policy: Policy)
    ensures Accepted(COLLIDING_ROUNDS) && NaturalTriggers(COLLIDING_ROUNDS) && OneProposal(COLLIDING_ROUNDS)
    ensures var d := DraftOf(unitLe, None, COLLIDING_ROUNDS);
            ValidDraft(policy.checks, d) && CompileFault(d, policy, DuplicateEdge("edge_x_to_y_rework"))
  {
    CollidingRoundsAreAccepted();
    CollidingRoundsCollide(unitLe);
    CollidingRoundsSuit(policy.checks);
    DraftFitsIff(unitLe, policy.checks, None, COLLIDING_ROUNDS);
    NoVariables(policy.checks, DraftOf(unitLe, None, COLLIDING_ROUNDS));
  }

  // ---------------------------------------------------------------- the built-in preset

  /** What the proof needs to know about five rounds with one jump, from the last to the fourth. */
  ghost predicate PresetLike(rounds: seq<Round>) {
    |rounds| == 5 && PresetIds(rounds) && PresetFields(rounds)
  }

  ghost predicate PresetIds(rounds: seq<Round>)
    requires |rounds| == 5
  {
    && |rounds[0].id| == 10 && |rounds[1].id| == 16 && |rounds[2].id| == 14 && |rounds[3].id| == 14 && |rounds[4].id| == 20
    && rounds[2].id != rounds[3].id
    && (forall i :: 0 <= i < 5 ==> !Text.IsSpace(rounds[i].id[0]))
    && rounds[4].jump.Some? && rounds[4].jump.value.target == rounds[3].id
  }

  ghost predicate PresetFields(rounds: seq<Round>)
    requires |rounds| == 5
  {
    && (forall i :: 0 <= i < 5 ==> Placeable(rounds[i]) && rounds[i].promptAppend.None? && Outputs(rounds[i]) == [])
    && (forall i :: 0 <= i < 5 ==> rounds[i].verdictPolicy != Some(ForcedRework) && !ArtifactsOf(rounds[i]).Explicit?)
    && (forall i :: 0 <= i < 4 ==> rounds[i].jump.None?)
    && (forall i :: 0 <= i < 5 && i != 1 ==> !rounds[i].preset.Propose?)
    && rounds[4].preset.AuditBuild? && rounds[4].jump.Some? && rounds[4].jump.value.maxTriggers == 2.0
  }

  lemma {:induction false} PresetHasIds()
    ensures PresetIds(OPENSPEC_ROUNDS)
  {
    var rounds := OPENSPEC_ROUNDS;
    assert rounds[2].id[0] == 'p' && rounds[3].id[0] == 'i';
  }

  lemma {:induction false} PresetHasFields()
    ensures PresetFields(OPENSPEC_ROUNDS)
  {
  }

  lemma {:induction false} PresetLikeIsAccepted(rounds: seq<Round>)
    requires PresetLike(rounds)
    ensures Accepted(rounds) && NaturalTriggers(rounds) && OneProposal(rounds)
  {
    forall r | r in rounds ensures !Text.Blank(r.id) {
      NotBlank(r.id, 0);
    }
    assert rounds[3].id == rounds[4].jump.value.target;
  }

  lemma {:induction false} PresetLikeSuits(checks: Checks, rounds: seq<Round>)
    requires PresetLike(rounds) && checks.pathOk("openspec/changes")
    ensures forall r :: r in rounds ==> Suitable(checks, r)
  {
    forall i | 0 <= i < 5 ensures Suitable(checks, rounds[i]) {
    }
  }

  lemma {:induction false} OneJump(rounds: seq<Round>)
    requires PresetLike(rounds)
    ensures JumpEdges(rounds) == [JumpEdge(rounds[4])]
  {
    assert rounds[..5] == rounds;
    NoJumps(rounds, 4);
    JumpStep(rounds, 4);
  }

  lemma {:induction false} NoJumps(rounds: seq<Round>, n: nat)
    requires n <= |rounds| && forall i :: 0 <= i < n ==> rounds[i].jump.None?
    ensures JumpEdges(rounds[..n]) == []
  {
    if n > 0 {
      NoJumps(rounds, n - 1);
      JumpStep(rounds, n - 1);
    }
  }

  /** No two of the five edge ids have the same length. */
  lemma {:induction false} PresetEdgesDiffer(rounds: seq<Round>)
    requires PresetLike(rounds)
    ensures EdgeNamesDiffer(rounds) && |JumpEdges(rounds)| == 1
  {
    OneJump(rounds);
    var edges := ForwardEdges(rounds) + JumpEdges(rounds);
    assert edges == [ForwardEdge(rounds, 0), ForwardEdge(rounds, 1), ForwardEdge(rounds, 2), ForwardEdge(rounds, 3), JumpEdge(rounds[4])];
    assert |edges[0].id| == 35 && |edges[1].id| == 39 && |edges[2].id| == 37 && |edges[3].id| == 43 && |edges[4].id| == 50;
    forall i, j | 0 <= i < j < |edges| ensures edges[i].id != edges[j].id {
      assert |edges[i].id| != |edges[j].id|;
    }
  }

  /** The built-in preset turns into a draft that compiles, if the policy admits five nodes and edges
      and the default path. */
  lemma {:induction false} BuiltInPresetCompiles(unitLe: (string, string) -> bool, policy: Policy)
    requires policy.maxNodes >= 5 && policy.maxEdges >= 5 && policy.checks.pathOk("openspec/changes")
    ensures Compilable(DraftOf(unitLe, Some("openspec"), OPENSPEC_ROUNDS), policy)
  {
    PresetHasIds();
    PresetHasFields();
    PresetLikeIsAccepted(OPENSPEC_ROUNDS);
    PresetLikeSuits(policy.checks, OPENSPEC_ROUNDS);
    PresetEdgesDiffer(OPENSPEC_ROUNDS);
    CompilesIff(unitLe, Some("openspec"), OPENSPEC_ROUNDS, policy);
  }
}
