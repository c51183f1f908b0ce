/** What the translation of round lists into drafts preserves: which lists survive the graph
    checks, and that the walks of the draft are the runs of the list. */
module Translation {
  import opened Wrappers
  import opened Workflow
  import opened Compiler
  import opened Contract
  import opened AdvancedRounds
  import opened Materialize
  import Execution
  import Text

  // ---------------------------------------------------------------- which lists survive

  ghost predicate EdgeNamesDiffer(rounds: seq<Round>) {
    rounds != [] && DistinctEdges(ForwardEdges(rounds) + JumpEdges(rounds))
  }

  ghost predicate NaturalTriggers(rounds: seq<Round>) {
    forall r :: r in rounds && r.jump.Some? ==> BudgetOk(AsBudget(r.jump.value.maxTriggers))
  }

  predicate WritesProposal(r: Round) {
    r.scope.ArtifactGeneration? && r.preset.Propose?
  }

  ghost predicate OneProposal(rounds: seq<Round>) {
    forall i, j :: 0 <= i < j < |rounds| ==> !(WritesProposal(rounds[i]) && WritesProposal(rounds[j]))
  }

  lemma {:induction false} PlaceOfRound(unitLe: (string, string) -> bool, rounds: seq<Round>, i: nat)
    requires DistinctRounds(rounds) && i < |rounds|
    ensures rounds[i].id in NodeIds(Nodes(unitLe, rounds)) && IndexOf(Nodes(unitLe, rounds), rounds[i].id) == i
  {
    var nodes := Nodes(unitLe, rounds);
    assert nodes[i] in nodes;
    var k := IndexOf(nodes, rounds[i].id);
    assert nodes[k].id == rounds[k].id;
  }

  lemma {:induction false} IdsAgree(unitLe: (string, string) -> bool, rounds: seq<Round>)
    ensures NodeIds(Nodes(unitLe, rounds)) == RoundIds(rounds)
  {
    var nodes := Nodes(unitLe, rounds);
    forall r | r in rounds ensures r.id in NodeIds(nodes) {
      var i :| 0 <= i < |rounds| && rounds[i] == r;
      assert nodes[i] in nodes;
    }
    forall n | n in nodes ensures n.id in RoundIds(rounds) {
      var i :| 0 <= i < |nodes| && nodes[i] == n;
      assert rounds[i] in rounds;
    }
  }

  /** An edge of the draft steps from round i to round i + 1 or is the jump of round i. */
  lemma {:induction false} EdgeCases(rounds: seq<Round>, e: Edge) returns (i: nat)
    requires rounds != [] && e in ForwardEdges(rounds) + JumpEdges(rounds)
    ensures i < |rounds| && e.from == rounds[i].id
    ensures e.kind.Default? ==> i + 1 < |rounds| && e == ForwardEdge(rounds, i)
    ensures e.kind.Conditional? ==> rounds[i].jump.Some? && e == JumpEdge(rounds[i])
  {
    if e in ForwardEdges(rounds) {
      i :| 0 <= i < |rounds| - 1 && ForwardEdges(rounds)[i] == e;
    } else {
      var r :| r in rounds && r.jump.Some? && e == JumpEdge(r);
      i :| 0 <= i < |rounds| && rounds[i] == r;
    }
  }

  lemma {:induction false} Endpoints(unitLe: (string, string) -> bool, rounds: seq<Round>, e: Edge)
    requires rounds != [] && Accepted(rounds) && e in ForwardEdges(rounds) + JumpEdges(rounds)
    ensures !Dangles(Nodes(unitLe, rounds), e)
    ensures IndexOf(Nodes(unitLe, rounds), e.to) <= IndexOf(Nodes(unitLe, rounds), e.from) ==> e.kind.Conditional?
  {
    IdsAgree(unitLe, rounds);
    var i := EdgeCases(rounds, e);
    PlaceOfRound(unitLe, rounds, i);
    if e.kind.Default? {
      PlaceOfRound(unitLe, rounds, i + 1);
    } else {
      assert RoundOk(rounds, i);
      var j :| 0 <= j < i && rounds[j].id == rounds[i].jump.value.target;
      PlaceOfRound(unitLe, rounds, j);
    }
  }

  lemma {:induction false} AllReached(rounds: seq<Round>, i: nat)
    requires i < |rounds|
    ensures Reaches(ForwardEdges(rounds) + JumpEdges(rounds), rounds[0].id, rounds[i].id)
  {
    var edges := ForwardEdges(rounds) + JumpEdges(rounds);
    if i == 0 {
      assert IsPath(edges, rounds[0].id, [], rounds[0].id);
    } else {
      AllReached(rounds, i - 1);
      var p :| IsPath(edges, rounds[0].id, p, rounds[i - 1].id);
      assert ForwardEdges(rounds)[i - 1] == ForwardEdge(rounds, i - 1);
      PathAppend(edges, rounds[0].id, p, rounds[i - 1].id, ForwardEdge(rounds, i - 1));
    }
  }

  lemma {:induction false} FewOutEdges(rounds: seq<Round>, id: Id, kind: EdgeKind)
    requires rounds != [] && DistinctRounds(rounds) && EdgeNamesDiffer(rounds)
    ensures |OutEdges(ForwardEdges(rounds) + JumpEdges(rounds), id, kind)| <= 1
  {
    var edges := ForwardEdges(rounds) + JumpEdges(rounds);
    forall e, f | e in edges && f in edges && e.from == f.from == id && e.kind == f.kind == kind ensures e == f {
      var i := EdgeCases(rounds, e);
      var j := EdgeCases(rounds, f);
      assert i == j;
    }
    AtMostOne(edges, id, kind);
  }

  lemma {:induction false} ProposalNodes(unitLe: (string, string) -> bool, rounds: seq<Round>)
    ensures TwoOpenSpecNodes(Nodes(unitLe, rounds)) <==> !OneProposal(rounds)
  {
    var nodes := Nodes(unitLe, rounds);
    forall i | 0 <= i < |rounds| ensures DeclaresOpenSpec(nodes[i]) <==> WritesProposal(rounds[i]) {
      if WritesProposal(rounds[i]) {
        assert nodes[i].artifacts.value[0].convention == OpenSpecConvention;
      }
    }
  }

  lemma {:induction false} NothingTwice<T>(s: seq<T>, name: T -> string)
    requires forall i, j :: 0 <= i < j < |s| ==> name(s[i]) != name(s[j])
    ensures forall id :: !Twice(s, name, id)
  {
  }

  lemma {:induction false} IdsOnce(unitLe: (string, string) -> bool, rounds: seq<Round>)
    requires rounds != [] && Accepted(rounds) && EdgeNamesDiffer(rounds)
    ensures forall id :: !Twice(Nodes(unitLe, rounds), NodeKey, id)
    ensures forall id :: !Twice(ForwardEdges(rounds) + JumpEdges(rounds), EdgeKey, id)
  {
    var nodes, edges := Nodes(unitLe, rounds), ForwardEdges(rounds) + JumpEdges(rounds);
    forall i, j | 0 <= i < j < |nodes| ensures NodeKey(nodes[i]) != NodeKey(nodes[j]) {
      assert rounds[i].id != rounds[j].id;
    }
    NothingTwice(nodes, NodeKey);
    forall i, j | 0 <= i < j < |edges| ensures EdgeKey(edges[i]) != EdgeKey(edges[j]) {
      assert edges[i].id != edges[j].id;
    }
    NothingTwice(edges, EdgeKey);
  }

  lemma {:induction false} RootSurvives(unitLe: (string, string) -> bool, rounds: seq<Round>)
    requires rounds != [] && Accepted(rounds)
    ensures rounds[0].id != "" && rounds[0].id in NodeIds(Nodes(unitLe, rounds))
  {
    IdsAgree(unitLe, rounds);
    assert rounds[0] in rounds;
    assert RoundOk(rounds, 0);
  }

  lemma {:induction false} AllReachedFromRoot(unitLe: (string, string) -> bool, rounds: seq<Round>)
    requires rounds != []
    ensures forall id :: id in NodeIds(Nodes(unitLe, rounds)) ==> Reaches(ForwardEdges(rounds) + JumpEdges(rounds), rounds[0].id, id)
  {
    IdsAgree(unitLe, rounds);
    forall id | id in RoundIds(rounds) ensures Reaches(ForwardEdges(rounds) + JumpEdges(rounds), rounds[0].id, id) {
      var r :| r in rounds && r.id == id;
      var i :| 0 <= i < |rounds| && rounds[i] == r;
      AllReached(rounds, i);
    }
  }

  lemma {:induction false} NothingDangles(unitLe: (string, string) -> bool, rounds: seq<Round>)
    requires rounds != [] && Accepted(rounds)
    ensures forall e :: e in ForwardEdges(rounds) + JumpEdges(rounds) ==> !Dangles(Nodes(unitLe, rounds), e)
  {
    forall e | e in ForwardEdges(rounds) + JumpEdges(rounds) ensures !Dangles(Nodes(unitLe, rounds), e) {
      Endpoints(unitLe, rounds, e);
    }
  }

  lemma {:induction false} NodesSurvive(unitLe: (string, string) -> bool, rounds: seq<Round>, f: Fault)
    requires rounds != [] && Accepted(rounds) && EdgeNamesDiffer(rounds)
    ensures forall n :: n in Nodes(unitLe, rounds) ==> !NodeFault(ForwardEdges(rounds) + JumpEdges(rounds), n, f)
  {
    forall n | n in Nodes(unitLe, rounds) ensures !NodeFault(ForwardEdges(rounds) + JumpEdges(rounds), n, f) {
      NodeSurvives(unitLe, rounds, n, f);
    }
  }

  lemma {:induction false} NoShapeFault(d: Draft, f: Fault)
    requires !TwoOpenSpecNodes(d.nodes)
    requires forall id :: !Twice(d.nodes, NodeKey, id) && !Twice(d.edges, EdgeKey, id)
    requires forall e :: e in d.edges ==> !Dangles(d.nodes, e)
    requires forall n :: n in d.nodes ==> !NodeFault(d.edges, n, f)
    requires d.root.Some? && d.root.value != "" && d.root.value in NodeIds(d.nodes)
    requires forall id :: id in NodeIds(d.nodes) ==> Reaches(d.edges, d.root.value, id)
    ensures !ShapeFault(d, f)
  {
  }

  lemma {:induction false} ShapeSurvives(unitLe: (string, string) -> bool, key: Option<string>, rounds: seq<Round>, f: Fault)
    requires rounds != [] && Accepted(rounds) && EdgeNamesDiffer(rounds) && OneProposal(rounds)
    ensures !ShapeFault(DraftOf(unitLe, key, rounds), f)
  {
    ProposalNodes(unitLe, rounds);
    IdsOnce(unitLe, rounds);
    NothingDangles(unitLe, rounds);
    NodesSurvive(unitLe, rounds, f);
    RootSurvives(unitLe, rounds);
    AllReachedFromRoot(unitLe, rounds);
    NoShapeFault(DraftOf(unitLe, key, rounds), f);
  }

  lemma {:induction false} JumpsHaveConditions(rounds: seq<Round>, id: Id, f: Fault)
    requires rounds != []
    ensures !UnconditionedFault(OutEdges(ForwardEdges(rounds) + JumpEdges(rounds), id, Conditional), f)
  {
    forall e | e in OutEdges(ForwardEdges(rounds) + JumpEdges(rounds), id, Conditional) ensures e.condition.Some? {
      var i := EdgeCases(rounds, e);
    }
  }

  lemma {:induction false} NoLogic(unitLe: (string, string) -> bool, rounds: seq<Round>, n: Node, f: Fault)
    requires n in Nodes(unitLe, rounds)
    ensures !LogicFault(n, f) && n.authority.None?
  {
    var i :| 0 <= i < |rounds| && n == NodeOf(unitLe, rounds[i]);
  }

  lemma {:induction false} NodeSurvives(unitLe: (string, string) -> bool, rounds: seq<Round>, n: Node, f: Fault)
    requires rounds != [] && Accepted(rounds) && EdgeNamesDiffer(rounds)
    requires n in Nodes(unitLe, rounds)
    ensures !NodeFault(ForwardEdges(rounds) + JumpEdges(rounds), n, f)
  {
    FewOutEdges(rounds, n.id, Default);
    FewOutEdges(rounds, n.id, Conditional);
    JumpsHaveConditions(rounds, n.id, f);
    NoLogic(unitLe, rounds, n, f);
  }

  lemma {:induction false} NoBudgetFault(d: Draft, f: Fault)
    requires forall e :: e in d.edges && !Dangles(d.nodes, e) && IndexOf(d.nodes, e.to) <= IndexOf(d.nodes, e.from) ==>
                           Lookup(BudgetsOf(d), e.id).Some?
    requires forall id :: Lookup(BudgetsOf(d), id).Some? ==>
                            BudgetOk(Lookup(BudgetsOf(d), id).value) && Names(d.edges, EdgeKey, id)
    requires forall e :: e in d.edges ==> !Inherited(e.id)
    ensures !BudgetFault(d, f)
  {
  }

  /** A generated edge id is not a name that objects inherit. */
  lemma {:induction false} GeneratedIdsAreOwn(rounds: seq<Round>, e: Edge)
    requires rounds != [] && e in ForwardEdges(rounds) + JumpEdges(rounds)
    ensures !Inherited(e.id)
  {
    var i := EdgeCases(rounds, e);
    assert e.id[0] == 'e';
    InheritedHeads(e.id);
  }

  lemma {:induction false} InheritedHeads(id: Id)
    requires id != "" && id[0] == 'e'
    ensures !Inherited(id)
  {
  }

  lemma {:induction false} BackwardIsBudgeted(unitLe: (string, string) -> bool, rounds: seq<Round>, e: Edge)
    requires rounds != [] && Accepted(rounds) && e in ForwardEdges(rounds) + JumpEdges(rounds)
    requires !Dangles(Nodes(unitLe, rounds), e)
    requires IndexOf(Nodes(unitLe, rounds), e.to) <= IndexOf(Nodes(unitLe, rounds), e.from)
    ensures Lookup(Budgets(rounds), e.id).Some?
  {
    Endpoints(unitLe, rounds, e);
    var i := EdgeCases(rounds, e);
    assert rounds[i] in rounds;
  }

  lemma {:induction false} BudgetIsNatural(rounds: seq<Round>, id: Id)
    requires NaturalTriggers(rounds) && Lookup(Budgets(rounds), id).Some?
    ensures BudgetOk(Lookup(Budgets(rounds), id).value)
  {
    assert BudgetEntry(id, Lookup(Budgets(rounds), id).value) in Budgets(rounds);
  }

  lemma {:induction false} NoStrayBudget(rounds: seq<Round>, id: Id)
    requires rounds != [] && Lookup(Budgets(rounds), id).Some?
    ensures Names(ForwardEdges(rounds) + JumpEdges(rounds), EdgeKey, id)
  {
    assert BudgetEntry(id, Lookup(Budgets(rounds), id).value) in Budgets(rounds);
    var x :| x in rounds && x.jump.Some? && id == JumpEdge(x).id;
    NamedIn(ForwardEdges(rounds) + JumpEdges(rounds), EdgeKey, JumpEdge(x));
  }

  lemma {:induction false} BudgetsSurvive(unitLe: (string, string) -> bool, key: Option<string>, rounds: seq<Round>, f: Fault)
    requires rounds != [] && Accepted(rounds) && NaturalTriggers(rounds)
    ensures !BudgetFault(DraftOf(unitLe, key, rounds), f)
  {
    var nodes, edges, budgets := Nodes(unitLe, rounds), ForwardEdges(rounds) + JumpEdges(rounds), Budgets(rounds);
    forall e | e in edges && !Dangles(nodes, e) && IndexOf(nodes, e.to) <= IndexOf(nodes, e.from)
      ensures Lookup(budgets, e.id).Some?
    {
      BackwardIsBudgeted(unitLe, rounds, e);
    }
    forall id | Lookup(budgets, id).Some? ensures BudgetOk(Lookup(budgets, id).value) && Names(edges, EdgeKey, id) {
      BudgetIsNatural(rounds, id);
      NoStrayBudget(rounds, id);
    }
    forall e | e in edges ensures !Inherited(e.id) {
      GeneratedIdsAreOwn(rounds, e);
    }
    NoBudgetFault(DraftOf(unitLe, key, rounds), f);
  }

  lemma {:induction false} SoundHasNoTwins(d: Draft)
    requires GraphSound(d)
    ensures DistinctEdges(d.edges)
  {
    forall i, j | 0 <= i < j < |d.edges| ensures d.edges[i].id != d.edges[j].id {
      assert !ShapeFault(d, DuplicateEdge(d.edges[i].id));
      assert EdgeKey(d.edges[i]) == d.edges[i].id && EdgeKey(d.edges[j]) == d.edges[j].id;
    }
  }

  lemma {:induction false} SoundWritesOnce(d: Draft)
    requires GraphSound(d)
    ensures !TwoOpenSpecNodes(d.nodes)
  {
    assert !ShapeFault(d, ManyOpenSpec);
  }

  lemma {:induction false} NamesDifferIfSound(unitLe: (string, string) -> bool, key: Option<string>, rounds: seq<Round>)
    requires rounds != [] && GraphSound(DraftOf(unitLe, key, rounds))
    ensures EdgeNamesDiffer(rounds) && OneProposal(rounds)
  {
    SoundHasNoTwins(DraftOf(unitLe, key, rounds));
    SoundWritesOnce(DraftOf(unitLe, key, rounds));
    ProposalNodes(unitLe, rounds);
  }

  lemma {:induction false} SoundIfNamesDiffer(unitLe: (string, string) -> bool, key: Option<string>, rounds: seq<Round>)
    requires rounds != [] && Accepted(rounds) && EdgeNamesDiffer(rounds) && NaturalTriggers(rounds) && OneProposal(rounds)
    ensures GraphSound(DraftOf(unitLe, key, rounds))
  {
    forall f ensures !ShapeFault(DraftOf(unitLe, key, rounds), f) && !BudgetFault(DraftOf(unitLe, key, rounds), f) {
      ShapeSurvives(unitLe, key, rounds, f);
      BudgetsSurvive(unitLe, key, rounds, f);
    }
  }

  /** An accepted round list passes the graph checks exactly when its generated edge ids differ,
      its trigger limits are natural numbers, and at most one round writes a proposal. */
  lemma {:induction false} SurvivesIff(unitLe: (string, string) -> bool, key: Option<string>, rounds: seq<Round>)
    requires rounds != [] && Accepted(rounds)
    ensures GraphSound(DraftOf(unitLe, key, rounds))
            <==> EdgeNamesDiffer(rounds) && NaturalTriggers(rounds) && OneProposal(rounds)
  {
    if EdgeNamesDiffer(rounds) && NaturalTriggers(rounds) && OneProposal(rounds) {
      SoundIfNamesDiffer(unitLe, key, rounds);
    }
    if GraphSound(DraftOf(unitLe, key, rounds)) {
      NamesDifferIfSound(unitLe, key, rounds);
      NaturalIfSound(unitLe, key, rounds);
    }
  }

  /** The key and the value that a round puts into the loop budgets. */
  function BudgetOf(r: Round): Option<BudgetEntry> {
    if r.jump.Some? then Some(BudgetEntry(JumpEdge(r).id, AsBudget(r.jump.value.maxTriggers))) else None
  }

  predicate Sets(entry: Option<BudgetEntry>, id: Id) {
    entry.Some? && entry.value.edge == id
  }

  lemma {:induction false} NextBudget(rounds: seq<Round>, n: nat, entry: Option<BudgetEntry>, id: Id)
    requires n < |rounds| && BudgetOf(rounds[n]) == entry
    ensures Lookup(Budgets(rounds[..n + 1]), id)
            == if Sets(entry, id) then Some(entry.value.budget) else Lookup(Budgets(rounds[..n]), id)
  {
    JumpStep(rounds, n);
  }

  /** The budget under an id after the first n entries have been set. */
  ghost function Latest(entries: seq<Option<BudgetEntry>>, n: nat, id: Id): Option<Budget>
    requires n <= |entries|
  {
    if n == 0 then None
    else if Sets(entries[n - 1], id) then Some(entries[n - 1].value.budget)
    else Latest(entries, n - 1, id)
  }

  ghost predicate EntriesOf(rounds: seq<Round>, entries: seq<Option<BudgetEntry>>) {
    |entries| == |rounds| && forall j :: 0 <= j < |rounds| ==> entries[j] == BudgetOf(rounds[j])
  }

  lemma {:induction false} LookupIsLatest(rounds: seq<Round>, entries: seq<Option<BudgetEntry>>, n: nat, id: Id)
    requires EntriesOf(rounds, entries) && n <= |rounds|
    ensures Lookup(Budgets(rounds[..n]), id) == Latest(entries, n, id)
    decreases n
  {
    if n == 0 {
      assert rounds[..0] == [];
    } else {
      NextBudget(rounds, n - 1, entries[n - 1], id);
      LookupIsLatest(rounds, entries, n - 1, id);
    }
  }

  lemma {:induction false} LastSetCounts(entries: seq<Option<BudgetEntry>>, n: nat, i: nat, id: Id)
    requires i < n <= |entries| && Sets(entries[i], id) && forall j :: i < j < n ==> !Sets(entries[j], id)
    ensures Latest(entries, n, id) == Some(entries[i].value.budget)
    decreases n
  {
    if i < n - 1 {
      LastSetCounts(entries, n - 1, i, id);
    }
  }

  lemma {:induction false} BudgetIsTriggers(rounds: seq<Round>, i: nat)
    requires rounds != [] && DistinctRounds(rounds) && EdgeNamesDiffer(rounds) && i < |rounds| && rounds[i].jump.Some?
    ensures Lookup(Budgets(rounds), JumpEdge(rounds[i]).id) == Some(AsBudget(rounds[i].jump.value.maxTriggers))
  {
    var id := JumpEdge(rounds[i]).id;
    var entries := seq(|rounds|, j requires 0 <= j < |rounds| => BudgetOf(rounds[j]));
    forall j | i < j < |rounds| ensures !Sets(entries[j], id) {
      if rounds[j].jump.Some? {
        JumpIdsDiffer(rounds, i, j);
      }
    }
    LastSetCounts(entries, |rounds|, i, id);
    LookupIsLatest(rounds, entries, |rounds|, id);
    assert rounds[..|rounds|] == rounds;
  }

  /** With different edge ids, different rounds have different jump edges. */
  lemma {:induction false} JumpIdsDiffer(rounds: seq<Round>, i: nat, j: nat)
    requires rounds != [] && DistinctRounds(rounds) && EdgeNamesDiffer(rounds)
    requires i < |rounds| && j < |rounds| && i != j && rounds[i].jump.Some? && rounds[j].jump.Some?
    ensures JumpEdge(rounds[i]).id != JumpEdge(rounds[j]).id
  {
    var edges := ForwardEdges(rounds) + JumpEdges(rounds);
    JumpIsEdge(rounds, i);
    JumpIsEdge(rounds, j);
    SameIdSameEdge(edges, JumpEdge(rounds[i]), JumpEdge(rounds[j]));
  }

  lemma {:induction false} JumpIsEdge(rounds: seq<Round>, i: nat)
    requires rounds != [] && i < |rounds| && rounds[i].jump.Some?
    ensures JumpEdge(rounds[i]) in ForwardEdges(rounds) + JumpEdges(rounds)
  {
    assert rounds[i] in rounds;
    assert JumpEdge(rounds[i]) in JumpEdges(rounds);
  }

  lemma {:induction false} SameIdSameEdge(edges: seq<Edge>, e: Edge, f: Edge)
    requires DistinctEdges(edges) && e in edges && f in edges
    ensures e.id == f.id ==> e == f
  {
    var k :| 0 <= k < |edges| && edges[k] == e;
    var l :| 0 <= l < |edges| && edges[l] == f;
  }

  lemma {:induction false} NaturalIfSound(unitLe: (string, string) -> bool, key: Option<string>, rounds: seq<Round>)
    requires rounds != [] && Accepted(rounds) && GraphSound(DraftOf(unitLe, key, rounds)) && EdgeNamesDiffer(rounds)
    ensures NaturalTriggers(rounds)
  {
    var d := DraftOf(unitLe, key, rounds);
    forall r | r in rounds && r.jump.Some? ensures BudgetOk(AsBudget(r.jump.value.maxTriggers)) {
      var i :| 0 <= i < |rounds| && rounds[i] == r;
      BudgetIsTriggers(rounds, i);
      assert BudgetEntry(JumpEdge(r).id, AsBudget(r.jump.value.maxTriggers)) in BudgetsOf(d);
      ValueIsNatural(d, BudgetEntry(JumpEdge(r).id, AsBudget(r.jump.value.maxTriggers)));
    }
  }

  const COLLIDING_ROUNDS: seq<Round> := [
    ARound("y", Discussion, SingleMain, AnalysisOnly, NoVerdict, None),
    ARound("x", AuditBuild, SingleMain, AnalysisOnly, SmartGate, Some(JumpRule("y", Some(REWORK), 0.0, 1.0))),
    ARound("y_rework", Discussion, SingleMain, AnalysisOnly, NoVerdict, None)
  ]

  lemma {:induction false} CollidingRoundsAreDistinct()
    ensures DistinctRounds(COLLIDING_ROUNDS)
    ensures forall r :: r in COLLIDING_ROUNDS ==> !Text.Blank(r.id)
  {
    var rounds := COLLIDING_ROUNDS;
    assert rounds[0].id[0] == 'y' && rounds[1].id[0] == 'x' && rounds[2].id[0] == 'y';
    assert 'y' in rounds[0].id && 'x' in rounds[1].id && 'y' in rounds[2].id;
    assert |rounds[0].id| == 1 && |rounds[2].id| == 8;
  }

  lemma {:induction false} CollidingRoundsAreAccepted()
    ensures Accepted(COLLIDING_ROUNDS) && NaturalTriggers(COLLIDING_ROUNDS) && OneProposal(COLLIDING_ROUNDS)
  {
    var rounds := COLLIDING_ROUNDS;
    CollidingRoundsAreDistinct();
    assert rounds[0].id == rounds[1].jump.value.target;
    assert RoundOk(rounds, 0) && RoundOk(rounds, 1) && RoundOk(rounds, 2);
  }

  /** Acceptance alone is not enough: "x" jumps back to "y" and is followed by "y_rework", so its
      jump and its forward step get the same edge id. */
  lemma {:induction false} CollidingRoundsCollide(unitLe: (string, string) -> bool)
    ensures ShapeFault(DraftOf(unitLe, None, COLLIDING_ROUNDS), DuplicateEdge("edge_x_to_y_rework"))
  {
    CollidingIds();
    SameIdTwice(COLLIDING_ROUNDS, 1, 1, "edge_x_to_y_rework");
  }

  lemma {:induction false} CollidingIds()
    ensures ForwardEdge(COLLIDING_ROUNDS, 1).id == "edge_x_to_y_rework"
    ensures JumpEdge(COLLIDING_ROUNDS[1]).id == "edge_x_to_y_rework"
  {
  }

  lemma {:induction false} TwoNamed<T>(s: seq<T>, t: seq<T>, name: T -> string, i: nat, k: nat, id: string)
    requires i < |s| && k < |t| && name(s[i]) == id && name(t[k]) == id
    ensures Twice(s + t, name, id)
  {
    assert (s + t)[i] == s[i] && (s + t)[|s| + k] == t[k];
  }

  lemma {:induction false} PlaceOfJump(rounds: seq<Round>, r: nat) returns (k: nat)
    requires r < |rounds| && rounds[r].jump.Some?
    ensures k < |JumpEdges(rounds)| && JumpEdges(rounds)[k] == JumpEdge(rounds[r])
  {
    assert rounds[r] in rounds;
    assert JumpEdge(rounds[r]) in JumpEdges(rounds);
    k :| 0 <= k < |JumpEdges(rounds)| && JumpEdges(rounds)[k] == JumpEdge(rounds[r]);
  }

  lemma {:induction false} SameIdTwice(rounds: seq<Round>, i: nat, r: nat, id: Id)
    requires i + 1 < |rounds| && r < |rounds| && rounds[r].jump.Some?
    requires ForwardEdge(rounds, i).id == id && JumpEdge(rounds[r]).id == id
    ensures Twice(ForwardEdges(rounds) + JumpEdges(rounds), EdgeKey, id)
  {
    var k := PlaceOfJump(rounds, r);
    TwoNamed(ForwardEdges(rounds), JumpEdges(rounds), EdgeKey, i, k, id);
  }

  // ---------------------------------------------------------------- walks are runs

  /** What a run does next: go on to the following round, or jump back. */
  datatype Move = Next | Back

  ghost function TargetIndex(rounds: seq<Round>, i: nat): (j: nat)
    requires Accepted(rounds) && i < |rounds| && rounds[i].jump.Some?
    ensures j < i && rounds[j].id == rounds[i].jump.value.target
  {
    assert RoundOk(rounds, i);
    var j :| 0 <= j < i && rounds[j].id == rounds[i].jump.value.target;
    j
  }

  /** The moves can be made one after the other from round i. */
  ghost predicate Plays(rounds: seq<Round>, i: nat, moves: seq<Move>)
    requires Accepted(rounds) && i < |rounds|
    decreases moves
  {
    if moves == [] then true
    else if moves[0].Next? then i + 1 < |rounds| && Plays(rounds, i + 1, moves[1..])
    else rounds[i].jump.Some? && Plays(rounds, TargetIndex(rounds, i), moves[1..])
  }

  /** How often the run jumps back from round r. */
  ghost function BacksAt(rounds: seq<Round>, i: nat, moves: seq<Move>, r: nat): nat
    requires Accepted(rounds) && i < |rounds| && Plays(rounds, i, moves)
    decreases moves
  {
    if moves == [] then 0
    else if moves[0].Next? then BacksAt(rounds, i + 1, moves[1..], r)
    else (if i == r then 1 else 0) + BacksAt(rounds, TargetIndex(rounds, i), moves[1..], r)
  }

  /** A run of the round list: it starts at the first round, goes from round i to round i + 1 or
      takes round i's backward jump, and takes each jump at most maxTriggers times. */
  ghost predicate IsRun(rounds: seq<Round>, moves: seq<Move>) {
    && rounds != [] && Accepted(rounds) && Plays(rounds, 0, moves)
    && forall r :: 0 <= r < |rounds| && rounds[r].jump.Some? ==>
                     BacksAt(rounds, 0, moves, r) as real <= rounds[r].jump.value.maxTriggers
  }

  /** The edges a run crosses. */
  ghost function Trace(rounds: seq<Round>, i: nat, moves: seq<Move>): (w: seq<Edge>)
    requires Accepted(rounds) && i < |rounds| && Plays(rounds, i, moves)
    ensures |w| == |moves|
    decreases moves
  {
    if moves == [] then []
    else if moves[0].Next? then [ForwardEdge(rounds, i)] + Trace(rounds, i + 1, moves[1..])
    else [JumpEdge(rounds[i])] + Trace(rounds, TargetIndex(rounds, i), moves[1..])
  }

  ghost function EndOf(rounds: seq<Round>, i: nat, moves: seq<Move>): (j: nat)
    requires Accepted(rounds) && i < |rounds| && Plays(rounds, i, moves)
    ensures j < |rounds|
    decreases moves
  {
    if moves == [] then i
    else if moves[0].Next? then EndOf(rounds, i + 1, moves[1..])
    else EndOf(rounds, TargetIndex(rounds, i), moves[1..])
  }

  lemma {:induction false} TraceIsPath(rounds: seq<Round>, i: nat, moves: seq<Move>)
    requires Accepted(rounds) && i < |rounds| && Plays(rounds, i, moves)
    ensures IsPath(ForwardEdges(rounds) + JumpEdges(rounds), rounds[i].id, Trace(rounds, i, moves), rounds[EndOf(rounds, i, moves)].id)
    decreases moves
  {
    if moves != [] {
      var w := Trace(rounds, i, moves);
      if moves[0].Next? {
        TraceIsPath(rounds, i + 1, moves[1..]);
        assert ForwardEdges(rounds)[i] == w[0];
        assert w[1..] == Trace(rounds, i + 1, moves[1..]);
      } else {
        TraceIsPath(rounds, TargetIndex(rounds, i), moves[1..]);
        assert rounds[i] in rounds;
        assert w[0] in JumpEdges(rounds);
        assert w[1..] == Trace(rounds, TargetIndex(rounds, i), moves[1..]);
      }
    }
  }

  lemma {:induction false} PlayNext(rounds: seq<Round>, i: nat, rest: seq<Move>)
    requires Accepted(rounds) && i + 1 < |rounds| && Plays(rounds, i + 1, rest)
    ensures Plays(rounds, i, [Next] + rest)
    ensures Trace(rounds, i, [Next] + rest) == [ForwardEdge(rounds, i)] + Trace(rounds, i + 1, rest)
    ensures forall r :: BacksAt(rounds, i, [Next] + rest, r) == BacksAt(rounds, i + 1, rest, r)
  {
    assert ([Next] + rest)[1..] == rest;
  }

  lemma {:induction false} PlayBack(rounds: seq<Round>, i: nat, rest: seq<Move>)
    requires Accepted(rounds) && i < |rounds| && rounds[i].jump.Some? && Plays(rounds, TargetIndex(rounds, i), rest)
    ensures Plays(rounds, i, [Back] + rest)
    ensures Trace(rounds, i, [Back] + rest) == [JumpEdge(rounds[i])] + Trace(rounds, TargetIndex(rounds, i), rest)
    ensures forall r :: BacksAt(rounds, i, [Back] + rest, r) == (if i == r then 1 else 0) + BacksAt(rounds, TargetIndex(rounds, i), rest, r)
  {
    assert ([Back] + rest)[1..] == rest;
  }

  lemma {:induction false} OwnEdge(rounds: seq<Round>, i: nat, e: Edge)
    requires Accepted(rounds) && i < |rounds| && e in ForwardEdges(rounds) + JumpEdges(rounds) && e.from == rounds[i].id
    ensures e.kind.Default? ==> i + 1 < |rounds| && e == ForwardEdge(rounds, i)
    ensures e.kind.Conditional? ==> rounds[i].jump.Some? && e == JumpEdge(rounds[i]) && e.to == rounds[TargetIndex(rounds, i)].id
  {
    var k := EdgeCases(rounds, e);
    assert k == i;
  }

  lemma {:induction false} FirstStep(edges: seq<Edge>, a: Id, w: seq<Edge>, b: Id)
    requires w != [] && IsPath(edges, a, w, b)
    ensures w[0] in edges && w[0].from == a && IsPath(edges, w[0].to, w[1..], b) && w == [w[0]] + w[1..]
  {
  }

  lemma {:induction false} PathIsTrace(rounds: seq<Round>, i: nat, w: seq<Edge>, b: Id) returns (moves: seq<Move>)
    requires Accepted(rounds) && i < |rounds|
    requires IsPath(ForwardEdges(rounds) + JumpEdges(rounds), rounds[i].id, w, b)
    ensures Plays(rounds, i, moves) && Trace(rounds, i, moves) == w
    decreases w
  {
    if w == [] {
      moves := [];
    } else {
      FirstStep(ForwardEdges(rounds) + JumpEdges(rounds), rounds[i].id, w, b);
      OwnEdge(rounds, i, w[0]);
      if w[0].kind.Default? {
        var rest := PathIsTrace(rounds, i + 1, w[1..], b);
        moves := [Next] + rest;
        PlayNext(rounds, i, rest);
      } else {
        var rest := PathIsTrace(rounds, TargetIndex(rounds, i), w[1..], b);
        moves := [Back] + rest;
        PlayBack(rounds, i, rest);
      }
    }
  }

  lemma {:induction false} ForwardIdDiffers(rounds: seq<Round>, i: nat, r: nat)
    requires EdgeNamesDiffer(rounds) && i + 1 < |rounds| && r < |rounds| && rounds[r].jump.Some?
    ensures ForwardEdge(rounds, i).id != JumpEdge(rounds[r]).id
  {
    var edges := ForwardEdges(rounds) + JumpEdges(rounds);
    var k := PlaceOfJump(rounds, r);
    assert edges[i] == ForwardEdge(rounds, i) && edges[|rounds| - 1 + k] == JumpEdge(rounds[r]);
  }

  lemma {:induction false} CrossingsStep(e: Edge, w: seq<Edge>, id: Id)
    ensures Crossings([e] + w, id) == (if e.id == id then 1 else 0) + Crossings(w, id)
  {
    assert ([e] + w)[1..] == w;
  }

  /** Crossings of a jump edge are jumps of its round. */
  lemma {:induction false} CrossingsAreBacks(rounds: seq<Round>, i: nat, moves: seq<Move>, r: nat)
    requires Accepted(rounds) && EdgeNamesDiffer(rounds) && i < |rounds| && Plays(rounds, i, moves)
    requires r < |rounds| && rounds[r].jump.Some?
    ensures Crossings(Trace(rounds, i, moves), JumpEdge(rounds[r]).id) == BacksAt(rounds, i, moves, r)
    decreases moves
  {
    if moves != [] {
      if moves[0].Next? {
        CrossingsAreBacks(rounds, i + 1, moves[1..], r);
        NextCrosses(rounds, i, moves, r);
      } else {
        CrossingsAreBacks(rounds, TargetIndex(rounds, i), moves[1..], r);
        BackCrosses(rounds, i, moves, r);
      }
    }
  }

  lemma {:induction false} NextCrosses(rounds: seq<Round>, i: nat, moves: seq<Move>, r: nat)
    requires Accepted(rounds) && EdgeNamesDiffer(rounds) && i < |rounds| && Plays(rounds, i, moves)
    requires r < |rounds| && rounds[r].jump.Some? && moves != [] && moves[0].Next?
    requires Crossings(Trace(rounds, i + 1, moves[1..]), JumpEdge(rounds[r]).id) == BacksAt(rounds, i + 1, moves[1..], r)
    ensures Crossings(Trace(rounds, i, moves), JumpEdge(rounds[r]).id) == BacksAt(rounds, i, moves, r)
  {
    ForwardIdDiffers(rounds, i, r);
    CrossingsStep(ForwardEdge(rounds, i), Trace(rounds, i + 1, moves[1..]), JumpEdge(rounds[r]).id);
  }

  lemma {:induction false} BackCrosses(rounds: seq<Round>, i: nat, moves: seq<Move>, r: nat)
    requires Accepted(rounds) && EdgeNamesDiffer(rounds) && i < |rounds| && Plays(rounds, i, moves)
    requires r < |rounds| && rounds[r].jump.Some? && moves != [] && moves[0].Back?
    requires var j := TargetIndex(rounds, i);
             Crossings(Trace(rounds, j, moves[1..]), JumpEdge(rounds[r]).id) == BacksAt(rounds, j, moves[1..], r)
    ensures Crossings(Trace(rounds, i, moves), JumpEdge(rounds[r]).id) == BacksAt(rounds, i, moves, r)
  {
    if i != r {
      JumpIdsDiffer(rounds, i, r);
    }
    CrossingsStep(JumpEdge(rounds[i]), Trace(rounds, TargetIndex(rounds, i), moves[1..]), JumpEdge(rounds[r]).id);
  }

  /** The budget of a round's jump edge is its trigger limit, and crossing it is jumping. */
  lemma {:induction false} JumpFacts(rounds: seq<Round>, moves: seq<Move>, r: nat)
    requires EdgeNamesDiffer(rounds) && Accepted(rounds) && NaturalTriggers(rounds) && Plays(rounds, 0, moves)
    requires r < |rounds| && rounds[r].jump.Some?
    ensures var id, limit := JumpEdge(rounds[r]).id, AsBudget(rounds[r].jump.value.maxTriggers);
            && BudgetEntry(id, limit) in Budgets(rounds) && BudgetOk(limit)
            && Crossings(Trace(rounds, 0, moves), id) == BacksAt(rounds, 0, moves, r)
  {
    BudgetIsTriggers(rounds, r);
    assert rounds[r] in rounds;
    CrossingsAreBacks(rounds, 0, moves, r);
  }

  lemma {:induction false} RespectLimits(rounds: seq<Round>, moves: seq<Move>, r: nat)
    requires EdgeNamesDiffer(rounds) && Accepted(rounds) && NaturalTriggers(rounds) && Plays(rounds, 0, moves)
    requires Respects(Budgets(rounds), Trace(rounds, 0, moves)) && r < |rounds| && rounds[r].jump.Some?
    ensures BacksAt(rounds, 0, moves, r) as real <= rounds[r].jump.value.maxTriggers
  {
    JumpFacts(rounds, moves, r);
  }

  lemma {:induction false} LimitsRespect(rounds: seq<Round>, moves: seq<Move>, b: BudgetEntry)
    requires EdgeNamesDiffer(rounds) && NaturalTriggers(rounds) && IsRun(rounds, moves)
    requires b in Budgets(rounds) && b.budget.Whole?
    ensures Crossings(Trace(rounds, 0, moves), b.edge) <= b.budget.count
  {
    var x :| x in rounds && x.jump.Some? && b == BudgetEntry(JumpEdge(x).id, AsBudget(x.jump.value.maxTriggers));
    var r :| 0 <= r < |rounds| && rounds[r] == x;
    JumpFacts(rounds, moves, r);
    assert BacksAt(rounds, 0, moves, r) as real <= x.jump.value.maxTriggers;
  }

  lemma {:induction false} BudgetsAreTriggers(rounds: seq<Round>, moves: seq<Move>)
    requires EdgeNamesDiffer(rounds) && Accepted(rounds) && NaturalTriggers(rounds) && Plays(rounds, 0, moves)
    ensures Respects(Budgets(rounds), Trace(rounds, 0, moves)) <==> IsRun(rounds, moves)
  {
    if Respects(Budgets(rounds), Trace(rounds, 0, moves)) {
      forall r | 0 <= r < |rounds| && rounds[r].jump.Some?
        ensures BacksAt(rounds, 0, moves, r) as real <= rounds[r].jump.value.maxTriggers
      {
        RespectLimits(rounds, moves, r);
      }
    }
    if IsRun(rounds, moves) {
      forall b | b in Budgets(rounds) && b.budget.Whole? ensures Crossings(Trace(rounds, 0, moves), b.edge) <= b.budget.count {
        LimitsRespect(rounds, moves, b);
      }
    }
  }

  lemma {:induction false} WalkIsRun(rounds: seq<Round>, w: seq<Edge>, b: Id) returns (moves: seq<Move>)
    requires EdgeNamesDiffer(rounds) && Accepted(rounds) && NaturalTriggers(rounds)
    requires IsPath(ForwardEdges(rounds) + JumpEdges(rounds), rounds[0].id, w, b) && Respects(Budgets(rounds), w)
    ensures IsRun(rounds, moves) && Trace(rounds, 0, moves) == w
  {
    moves := PathIsTrace(rounds, 0, w, b);
    BudgetsAreTriggers(rounds, moves);
  }

  lemma {:induction false} RunIsWalk(rounds: seq<Round>, moves: seq<Move>) returns (b: Id)
    requires EdgeNamesDiffer(rounds) && NaturalTriggers(rounds) && IsRun(rounds, moves)
    ensures IsPath(ForwardEdges(rounds) + JumpEdges(rounds), rounds[0].id, Trace(rounds, 0, moves), b)
    ensures Respects(Budgets(rounds), Trace(rounds, 0, moves))
  {
    TraceIsPath(rounds, 0, moves);
    BudgetsAreTriggers(rounds, moves);
    b := rounds[EndOf(rounds, 0, moves)].id;
  }

  ghost predicate TracesRun(rounds: seq<Round>, w: seq<Edge>) {
    exists moves :: IsRun(rounds, moves) && Trace(rounds, 0, moves) == w
  }

  /** The budget-respecting walks of the draft from its root are exactly the traces of the runs
      of the round list. */
  lemma {:induction false} WalksAreRuns(unitLe: (string, string) -> bool, key: Option<string>, rounds: seq<Round>, w: seq<Edge>)
    requires EdgeNamesDiffer(rounds) && Accepted(rounds) && NaturalTriggers(rounds)
    ensures BudgetedWalk(DraftOf(unitLe, key, rounds), w) <==> TracesRun(rounds, w)
  {
    var d := DraftOf(unitLe, key, rounds);
    if BudgetedWalk(d, w) {
      var b :| IsPath(d.edges, d.root.value, w, b);
      var moves := WalkIsRun(rounds, w, b);
    }
    if TracesRun(rounds, w) {
      var moves :| IsRun(rounds, moves) && Trace(rounds, 0, moves) == w;
      var b := RunIsWalk(rounds, moves);
    }
  }

  lemma {:induction false} RunIsSoundWalk(unitLe: (string, string) -> bool, key: Option<string>, rounds: seq<Round>, moves: seq<Move>)
    returns (d: Draft, b: Id)
    requires EdgeNamesDiffer(rounds) && NaturalTriggers(rounds) && OneProposal(rounds) && IsRun(rounds, moves)
    ensures GraphSound(d) && BudgetsOf(d) == Budgets(rounds) && |d.nodes| == |rounds|
    ensures rounds[0].id in NodeIds(d.nodes) && IsPath(d.edges, rounds[0].id, Trace(rounds, 0, moves), b)
    ensures Respects(BudgetsOf(d), Trace(rounds, 0, moves))
  {
    d := DraftOf(unitLe, key, rounds);
    SurvivesIff(unitLe, key, rounds);
    b := RunIsWalk(rounds, moves);
    RootSurvives(unitLe, rounds);
  }

  /** So every run of an accepted round list with sound names and limits ends. */
  lemma {:induction false} RunsAreBounded(rounds: seq<Round>, moves: seq<Move>)
    requires EdgeNamesDiffer(rounds) && NaturalTriggers(rounds) && OneProposal(rounds) && IsRun(rounds, moves)
    ensures var total := TotalBudget(Budgets(rounds));
            0 <= total && |moves| <= total + (total + 1) * (|rounds| - 1)
  {
    var d, b := RunIsSoundWalk((a, b) => true, None, rounds, moves);
    Execution.BoundedExecution(d, rounds[0].id, Trace(rounds, 0, moves), b);
  }
}
