/** The names that enumerations have in a contract's JSON (shared/p2p-workflow-constants.ts), and the
    single values a contract is made of: canonical JSON tells all of them apart. */
module ContractNames {
  import opened Wrappers
  import opened Workflow
  import opened Contract
  import opened Json
  import opened PolicyJson
  import opened ContractJson

  // ---------------------------------------------------------------- enumerations

  function KindName(k: NodeKind): string {
    match k case Llm => "llm" case Logic => "logic" case Script => "script"
  }

  function PresetName(p: Preset): string {
    match p
    case Brainstorm => "brainstorm"
    case Discuss => "discuss"
    case Audit => "audit"
    case Review => "review"
    case Plan => "plan"
    case OpenSpecPropose => "openspec_propose"
    case ProposalAudit => "proposal_audit"
    case Implement => "implementation"
    case ImplementationAudit => "implementation_audit"
    case Custom => "custom"
  }

  function ScopeName(s: Scope): string {
    match s
    case AnalysisOnly => "analysis_only"
    case ArtifactGeneration => "artifact_generation"
    case Implementation => "implementation"
  }

  function DispatchName(d: Dispatch): string {
    match d case SingleMain => "single_main" case MultiDispatch => "multi_dispatch"
  }

  function ConventionName(c: Convention): string {
    match c case NoConvention => "none" case ExplicitPaths => "explicit_paths" case OpenSpecConvention => "openspec_convention"
  }

  function SymlinkName(p: SymlinkPolicy): string {
    match p case RejectAll => "reject_all" case AllowExisting => "allow_existing_under_root"
  }

  function CommandName(c: CommandKind): string {
    match c case Argv => "argv" case Interpreter => "interpreter"
  }

  function EdgeKindName(k: EdgeKind): string {
    match k case Default => "default" case Conditional => "conditional"
  }

  function ConditionName(k: ConditionKind): string {
    match k
    case RoutingKeyEquals => "routing_key_equals"
    case VerdictMarkerEquals => "verdict_marker_equals"
    case LogicMarkerEquals => "logic_marker_equals"
  }

  function CapabilityName(c: Capability): string {
    match c
    case Workflows => "p2p.workflow.v1"
    case ScriptArgv => "p2p.workflow.script.argv.v1"
    case ScriptInterpreter => "p2p.workflow.script.interpreter.v1"
    case OpenSpecArtifacts => "p2p.workflow.openspec-artifacts.v1"
    case ImplementationWork => "p2p.workflow.implementation.v1"
  }

  function NameOf<T>(name: T -> string): T -> Value {
    x => TextOf(name(x))
  }

  ghost predicate NamesApart<T(!new)>(name: T -> string) {
    forall x, y :: name(x) == name(y) ==> x == y
  }

  lemma {:induction false} NameSeparates<T(!new)>(name: T -> string)
    requires NamesApart(name)
    ensures Separates(NameOf(name))
  {
    TextSeparates();
    forall x, y | Canonicalize(NameOf(name)(x)) == Canonicalize(NameOf(name)(y)) ensures x == y {
      assert NameOf(name)(x) == TextOf(name(x)) && NameOf(name)(y) == TextOf(name(y));
    }
    forall x ensures Canonicalize(NameOf(name)(x)) != Null {
      assert NameOf(name)(x) == TextOf(name(x));
    }
  }

  lemma {:induction false} KindNames()
    ensures NamesApart(KindName)
  {
    forall x, y | KindName(x) == KindName(y) ensures x == y {
      assert |KindName(x)| == |KindName(y)|;
    }
  }

  lemma {:induction false} PresetNames()
    ensures NamesApart(PresetName)
  {
    forall x, y | PresetName(x) == PresetName(y) ensures x == y {
      assert |PresetName(x)| == |PresetName(y)| && PresetName(x)[0] == PresetName(y)[0];
    }
  }

  lemma {:induction false} ScopeNames()
    ensures NamesApart(ScopeName)
  {
    forall x, y | ScopeName(x) == ScopeName(y) ensures x == y {
      assert |ScopeName(x)| == |ScopeName(y)|;
    }
  }

  lemma {:induction false} DispatchNames()
    ensures NamesApart(DispatchName)
  {
    forall x, y | DispatchName(x) == DispatchName(y) ensures x == y {
      assert |DispatchName(x)| == |DispatchName(y)|;
    }
  }

  lemma {:induction false} ConventionNames()
    ensures NamesApart(ConventionName)
  {
    forall x, y | ConventionName(x) == ConventionName(y) ensures x == y {
      assert |ConventionName(x)| == |ConventionName(y)|;
    }
  }

  lemma {:induction false} SymlinkNames()
    ensures NamesApart(SymlinkName)
  {
    forall x, y | SymlinkName(x) == SymlinkName(y) ensures x == y {
      assert |SymlinkName(x)| == |SymlinkName(y)|;
    }
  }

  lemma {:induction false} CommandNames()
    ensures NamesApart(CommandName)
  {
    forall x, y | CommandName(x) == CommandName(y) ensures x == y {
      assert |CommandName(x)| == |CommandName(y)|;
    }
  }

  lemma {:induction false} EdgeKindNames()
    ensures NamesApart(EdgeKindName)
  {
    forall x, y | EdgeKindName(x) == EdgeKindName(y) ensures x == y {
      assert |EdgeKindName(x)| == |EdgeKindName(y)|;
    }
  }

  lemma {:induction false} ConditionNames()
    ensures NamesApart(ConditionName)
  {
    forall x, y | ConditionName(x) == ConditionName(y) ensures x == y {
      assert ConditionName(x)[0] == ConditionName(y)[0];
    }
  }

  lemma {:induction false} CapabilityNames()
    ensures NamesApart(CapabilityName)
  {
    forall x, y | CapabilityName(x) == CapabilityName(y) ensures x == y {
      assert |CapabilityName(x)| == |CapabilityName(y)| && CapabilityName(x)[13] == CapabilityName(y)[13];
    }
  }

  lemma {:induction false} NamesAgree<T(!new)>(name: T -> string, x: T, y: T)
    requires NamesApart(name) && Canonicalize(NameOf(name)(x)) == Canonicalize(NameOf(name)(y))
    ensures x == y
  {
    NameSeparates(name);
  }

  lemma {:induction false} MaybeNamesAgree<T(!new)>(name: T -> string, x: Option<T>, y: Option<T>)
    requires NamesApart(name) && Canonicalize(MaybeOf(NameOf(name), x)) == Canonicalize(MaybeOf(NameOf(name), y))
    ensures x == y
  {
    NameSeparates(name);
    MaybeAgrees(NameOf(name), x, y);
  }

  lemma {:induction false} TextsAgree(x: seq<string>, y: seq<string>)
    requires Canonicalize(TextsOf(x)) == Canonicalize(TextsOf(y))
    ensures x == y
  {
    TextsSeparate();
  }

  lemma {:induction false} TextAgrees(x: string, y: string)
    requires Canonicalize(TextOf(x)) == Canonicalize(TextOf(y))
    ensures x == y
  {
    TextSeparates();
  }

  lemma {:induction false} MaybeTextAgrees(x: Option<string>, y: Option<string>)
    requires Canonicalize(MaybeOf(TextOf, x)) == Canonicalize(MaybeOf(TextOf, y))
    ensures x == y
  {
    TextSeparates();
    MaybeAgrees(TextOf, x, y);
  }

  lemma {:induction false} MaybeTextsAgree(x: Option<seq<string>>, y: Option<seq<string>>)
    requires Canonicalize(MaybeOf(TextsOf, x)) == Canonicalize(MaybeOf(TextsOf, y))
    ensures x == y
  {
    TextsSeparate();
    MaybeAgrees(TextsOf, x, y);
  }

  lemma {:induction false} MaybeFlagAgrees(x: Option<bool>, y: Option<bool>)
    requires Canonicalize(MaybeOf(FlagOf, x)) == Canonicalize(MaybeOf(FlagOf, y))
    ensures x == y
  {
    FlagSeparates();
    MaybeAgrees(FlagOf, x, y);
  }

  lemma {:induction false} MaybeNumberAgrees(n: Numerals, x: Option<Number>, y: Option<Number>)
    requires Apart(n) && Canonicalize(MaybeOf(NumberOf(n), x)) == Canonicalize(MaybeOf(NumberOf(n), y))
    ensures x == y
  {
    NumberSeparates(n);
    MaybeAgrees(NumberOf(n), x, y);
  }
}
