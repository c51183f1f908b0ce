/** The older round-list language (shared/p2p-advanced.ts) and the check that
    resolveP2pRoundPlan runs on it (lines 382-389 and 414-436). */
module AdvancedRounds {
  import opened Wrappers
  import opened Workflow
  import Text

  datatype RoundPreset = Discussion | Propose | AuditProposal | Build | AuditBuild | Free
  datatype VerdictPolicy = NoVerdict | SmartGate | ForcedRework
  datatype Marker = PASS | REWORK
  datatype RoundArtifacts = NoArtifacts | Explicit | OpenSpec

  /** The trigger limits are JavaScript numbers; nothing here says they are whole. */
  datatype JumpRule = JumpRule(target: Id, marker: Option<Marker>, minTriggers: real, maxTriggers: real)

  datatype Round = Round(
    id: Id, title: string, preset: RoundPreset, dispatch: Dispatch, scope: Scope,
    artifactOutputs: Option<seq<string>>, promptAppend: Option<string>,
    verdictPolicy: Option<VerdictPolicy>, artifacts: Option<RoundArtifacts>, jump: Option<JumpRule>)

  datatype RoundError =
    | BlankRoundId
    | DuplicateRoundId(id: Id)
    | OutputsMissing(id: Id)
    | JumpRuleMissing(id: Id)
    | BadMinTriggers(id: Id)
    | BadMaxTriggers(id: Id)
    | UnknownTarget(id: Id)
    | NotBackward(id: Id)
    | AuditCannotRoute

  function RoundIds(rounds: seq<Round>): set<Id> {
    set r | r in rounds :: r.id
  }

  function Outputs(r: Round): seq<string> {
    r.artifactOutputs.GetOr([])
  }

  function ArtifactsOf(r: Round): RoundArtifacts {
    if r.artifacts.Some? then r.artifacts.value
    else if r.preset.Propose? && Outputs(r) == [] then OpenSpec
    else if r.scope.ArtifactGeneration? then Explicit
    else NoArtifacts
  }

  ghost predicate DistinctRounds(rounds: seq<Round>) {
    forall i, j :: 0 <= i < j < |rounds| ==> rounds[i].id != rounds[j].id
  }

  /** Round i may stay: it declares what it writes, its trigger limits make sense where they are
      checked, and its jump goes to an earlier round. */
  ghost predicate RoundOk(rounds: seq<Round>, i: nat)
    requires i < |rounds|
  {
    var r := rounds[i];
    && (r.scope.ArtifactGeneration? && ArtifactsOf(r).Explicit? ==> Outputs(r) != [])
    && (r.verdictPolicy == Some(ForcedRework) ==>
          r.jump.Some? && 0.0 <= r.jump.value.minTriggers <= r.jump.value.maxTriggers)
    && (r.jump.Some? ==> !r.preset.AuditProposal? && exists j :: 0 <= j < i && rounds[j].id == r.jump.value.target)
  }

  ghost predicate Accepted(rounds: seq<Round>) {
    && (forall r :: r in rounds ==> !Text.Blank(r.id))
    && DistinctRounds(rounds)
    && forall i :: 0 <= i < |rounds| ==> RoundOk(rounds, i)
  }

  /** findIndex by id: the first one. */
  function FindIndex(rounds: seq<Round>, id: Id): (i: nat)
    requires id in RoundIds(rounds)
    ensures i < |rounds| && rounds[i].id == id
    ensures forall j :: 0 <= j < i ==> rounds[j].id != id
  {
    if rounds[0].id == id then 0
    else
      assert rounds == [rounds[0]] + rounds[1..];
      1 + FindIndex(rounds[1..], id)
  }

  method ValidateIds(rounds: seq<Round>) returns (error: Option<RoundError>)
    ensures error.None? <==> (forall r :: r in rounds ==> !Text.Blank(r.id)) && DistinctRounds(rounds)
  {
    var seen: set<Id> := {};
    for i := 0 to |rounds|
      invariant seen == RoundIds(rounds[..i])
      invariant forall k :: 0 <= k < i ==> !Text.Blank(rounds[k].id)
      invariant DistinctRounds(rounds[..i])
    {
      assert rounds[..i + 1] == rounds[..i] + [rounds[i]];
      if Text.Blank(rounds[i].id) {
        return Some(BlankRoundId);
      }
      if rounds[i].id in seen {
        ghost var r :| r in rounds[..i] && r.id == rounds[i].id;
        return Some(DuplicateRoundId(rounds[i].id));
      }
      seen := seen + {rounds[i].id};
    }
    assert rounds[..|rounds|] == rounds;
    error := None;
  }

  /** Accepts exactly the round lists whose rounds are distinct, declare their outputs, and only
      jump backward. */
  method ValidateRounds(rounds: seq<Round>) returns (error: Option<RoundError>)
    ensures error.None? <==> Accepted(rounds)
  {
    error := ValidateIds(rounds);
    if error.Some? {
      return;
    }
    for i := 0 to |rounds|
      invariant forall k :: 0 <= k < i ==> RoundOk(rounds, k)
    {
      error := CheckRound(rounds, i);
      if error.Some? {
        return;
      }
    }
    error := None;
  }

  method CheckRound(rounds: seq<Round>, i: nat) returns (error: Option<RoundError>)
    requires i < |rounds| && DistinctRounds(rounds)
    ensures error.None? <==> RoundOk(rounds, i)
  {
    var r := rounds[i];
    if r.scope.ArtifactGeneration? && ArtifactsOf(r).Explicit? && Outputs(r) == [] {
      return Some(OutputsMissing(r.id));
    }
    if r.verdictPolicy == Some(ForcedRework) {
      if r.jump.None? {
        return Some(JumpRuleMissing(r.id));
      }
      if r.jump.value.minTriggers < 0.0 {
        return Some(BadMinTriggers(r.id));
      }
      if r.jump.value.maxTriggers < r.jump.value.minTriggers {
        return Some(BadMaxTriggers(r.id));
      }
    }
    if r.jump.Some? {
      if r.jump.value.target !in RoundIds(rounds) {
        return Some(UnknownTarget(r.id));
      }
      assert r.id in RoundIds(rounds);
      if FindIndex(rounds, r.jump.value.target) >= FindIndex(rounds, r.id) {
        return Some(NotBackward(r.id));
      }
      if r.preset.AuditProposal? {
        return Some(AuditCannotRoute);
      }
    }
    error := None;
  }

  function ARound(id: Id, preset: RoundPreset, dispatch: Dispatch, scope: Scope, policy: VerdictPolicy, jump: Option<JumpRule>): Round {
    Round(id, id, preset, dispatch, scope, None, None, Some(policy), None, jump)
  }

  /** BUILT_IN_ADVANCED_PRESETS.openspec. */
  const OPENSPEC_ROUNDS: seq<Round> := [
    ARound("discussion", Discussion, MultiDispatch, AnalysisOnly, NoVerdict, None),
    ARound("openspec_propose", Propose, SingleMain, ArtifactGeneration, NoVerdict, None),
    ARound("proposal_audit", AuditProposal, SingleMain, AnalysisOnly, NoVerdict, None),
    ARound("implementation", Build, MultiDispatch, Implementation, NoVerdict, None),
    ARound("implementation_audit", AuditBuild, SingleMain, AnalysisOnly, SmartGate,
           Some(JumpRule("implementation", Some(REWORK), 0.0, 2.0)))
  ]
}
