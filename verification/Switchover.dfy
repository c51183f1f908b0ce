/** What becomes of an old round list when it is run as a compiled workflow: the routing of the old
    executor (src/daemon/p2p-orchestrator.ts:3981-3998 and 4107, shared/p2p-advanced.ts:301-351) against
    that of the compiled one, round by round. */
module Switchover {
  import opened Wrappers
  import opened Workflow
  import opened Compiler
  import opened Contract
  import opened AdvancedRounds
  import opened Materialize
  import Translation
  import opened Orchestrator
  import Migration
  import ContractOrder
  import Routing
  import Sorting

  /** Where a run goes after a round, or how it ends. */
  datatype Next = To(id: Id) | Complete | Broken

  function MarkerText(m: Marker): string {
    match m case PASS => "PASS" case REWORK => "REWORK"
  }

  // ---------------------------------------------------------------- the old executor

  function PolicyOf(r: Round): VerdictPolicy {
    r.verdictPolicy.GetOr(NoVerdict)
  }

  predicate AllowsRouting(r: Round) {
    !r.preset.AuditProposal? && !PolicyOf(r).NoVerdict? && r.jump.Some?
  }

  /** The jump is taken below its limit, on the round's marker, or without asking while rework is forced. Under
      an id that every object inherits the count is no number, and so never below the limit. */
  predicate Jumps(r: Round, count: nat, said: Option<Marker>) {
    && AllowsRouting(r) && !Inherited(r.id) && (count as real) < r.jump.value.maxTriggers
    && ((PolicyOf(r).ForcedRework? && (count as real) < r.jump.value.minTriggers)
        || said.GetOr(REWORK) == r.jump.value.marker.GetOr(REWORK))
  }

  /** After round i, which has jumped count times, and whose verdict is said. */
  function OldNext(rounds: seq<Round>, i: nat, count: nat, said: Option<Marker>): Next
    requires i < |rounds|
  {
    if Jumps(rounds[i], count, said) then To(rounds[i].jump.value.target)
    else if i + 1 < |rounds| then To(rounds[i + 1].id)
    else Complete
  }

  // ---------------------------------------------------------------- the compiled one

  /** A node is asked for a verdict if it has a conditional edge; a missing verdict counts as REWORK. */
  function Hands(k: Contract, n: CompiledNode, said: Option<Marker>): Output {
    Output(None,
           if n.kind.Llm? && OutEdges(k.edges, n.id, Conditional) != [] then Some(MarkerText(said.GetOr(REWORK))) else None,
           None)
  }

  function NewNext(k: Contract, n: CompiledNode, uses: Uses, said: Option<Marker>): Next {
    match NextMove(k, n.id, uses, Hands(k, n, said))
    case Along(e) => To(e.to)
    case Finished => Complete
    case Failed => Broken
  }

  // ---------------------------------------------------------------- what a migrated round looks like

  function Migrated(c: Collation, digest: Contract -> string, key: Option<string>, rounds: seq<Round>, policy: Policy): Contract
    requires rounds != []
  {
    Assemble(c, digest, DraftOf(c.units, key, rounds), policy).contract
  }

  ghost predicate Runs(c: Collation, key: Option<string>, rounds: seq<Round>, policy: Policy) {
    ContractOrder.Orders(c) && rounds != [] && Accepted(rounds) && Compilable(DraftOf(c.units, key, rounds), policy)
  }

  function AsList<T>(x: Option<T>): seq<T> {
    if x.Some? then [x.value] else []
  }

  function JumpOf(r: Round): Option<Edge> {
    if r.jump.Some? then Some(JumpEdge(r)) else None
  }

  function ForwardOf(rounds: seq<Round>, i: nat): Option<Edge>
    requires i < |rounds|
  {
    if i + 1 < |rounds| then Some(ForwardEdge(rounds, i)) else None
  }

  lemma {:induction false} OnlyMember<T>(s: seq<T>, x: Option<T>)
    requires |s| <= 1 && (forall y :: y in s ==> x == Some(y)) && (x.Some? ==> x.value in s)
    ensures s == AsList(x)
  {
    if s != [] {
      assert s[0] in s;
    }
  }

  ghost predicate EdgesAre(rounds: seq<Round>, edges: seq<Edge>) {
    rounds != [] && forall e :: e in edges <==> e in ForwardEdges(rounds) + JumpEdges(rounds)
  }

  /** Out of round i goes its jump, if it has one. */
  lemma {:induction false} JumpsOut(rounds: seq<Round>, edges: seq<Edge>, i: nat)
    requires DistinctRounds(rounds) && EdgesAre(rounds, edges) && i < |rounds|
    requires |OutEdges(edges, rounds[i].id, Conditional)| <= 1
    ensures OutEdges(edges, rounds[i].id, Conditional) == AsList(JumpOf(rounds[i]))
  {
    var out := OutEdges(edges, rounds[i].id, Conditional);
    forall e | e in out ensures JumpOf(rounds[i]) == Some(e) {
      var j := Translation.EdgeCases(rounds, e);
      assert i == j;
    }
    assert rounds[i] in rounds;
    OnlyMember(out, JumpOf(rounds[i]));
  }

  /** And the edge to the next round, if there is one. */
  lemma {:induction false} ForwardOut(rounds: seq<Round>, edges: seq<Edge>, i: nat)
    requires DistinctRounds(rounds) && EdgesAre(rounds, edges) && i < |rounds|
    requires |OutEdges(edges, rounds[i].id, Default)| <= 1
    ensures OutEdges(edges, rounds[i].id, Default) == AsList(ForwardOf(rounds, i))
  {
    var out := OutEdges(edges, rounds[i].id, Default);
    forall e | e in out ensures ForwardOf(rounds, i) == Some(e) {
      var j := Translation.EdgeCases(rounds, e);
      assert i == j;
    }
    if i + 1 < |rounds| {
      assert ForwardEdges(rounds)[i] == ForwardEdge(rounds, i);
    }
    OnlyMember(out, ForwardOf(rounds, i));
  }

  /** The part of a migrated contract that routing sees of round i. */
  ghost predicate RoutesAs(k: Contract, rounds: seq<Round>, i: nat)
    requires i < |rounds|
  {
    && OutEdges(k.edges, rounds[i].id, Conditional) == AsList(JumpOf(rounds[i]))
    && OutEdges(k.edges, rounds[i].id, Default) == AsList(ForwardOf(rounds, i))
    && (rounds[i].jump.Some? ==> Lookup(k.loopBudgets, JumpEdge(rounds[i]).id) == Some(AsBudget(rounds[i].jump.value.maxTriggers)))
  }

  lemma {:induction false} MigratedRoutes(c: Collation, digest: Contract -> string, key: Option<string>, rounds: seq<Round>, policy: Policy, i: nat)
    requires Runs(c, key, rounds, policy) && i < |rounds|
    ensures RoutesAs(Migrated(c, digest, key, rounds, policy), rounds, i)
  {
    var d, k := DraftOf(c.units, key, rounds), Migrated(c, digest, key, rounds, policy);
    CompiledShape(d, policy);
    ContractHolds(c, digest, d, policy);
    SameOut(d, k.edges, rounds[i].id);
    JumpsOut(rounds, k.edges, i);
    ForwardOut(rounds, k.edges, i);
    if rounds[i].jump.Some? {
      JumpBudgetKept(d, k, rounds, i);
    }
  }

  lemma {:induction false} JumpBudgetKept(d: Draft, k: Contract, rounds: seq<Round>, i: nat)
    requires rounds != [] && DistinctRounds(rounds) && Translation.EdgeNamesDiffer(rounds) && i < |rounds| && rounds[i].jump.Some?
    requires BudgetsOf(d) == Budgets(rounds) && Keeps(BudgetsOf(d), k.loopBudgets)
    ensures Lookup(k.loopBudgets, JumpEdge(rounds[i]).id) == Some(AsBudget(rounds[i].jump.value.maxTriggers))
  {
    var id := JumpEdge(rounds[i]).id;
    Translation.BudgetIsTriggers(rounds, i);
    assert id[0] == 'e';
    KeptBudget(BudgetsOf(d), k.loopBudgets, BudgetEntry(id, AsBudget(rounds[i].jump.value.maxTriggers)));
  }

  // ---------------------------------------------------------------- the compiled run of a migrated list

  /** The compiled node of round i. */
  function NodeAt(c: Collation, rounds: seq<Round>, i: nat): CompiledNode
    requires rounds != [] && i < |rounds|
  {
    CompileNode(c, NodeOf(c.units, rounds[i]), ForwardEdges(rounds) + JumpEdges(rounds))
  }

  lemma {:induction false} NodeInContract(c: Collation, digest: Contract -> string, key: Option<string>, rounds: seq<Round>, policy: Policy, i: nat)
    requires rounds != [] && i < |rounds|
    ensures NodeAt(c, rounds, i) in Migrated(c, digest, key, rounds, policy).nodes
  {
    var d := DraftOf(c.units, key, rounds);
    var sorted := Sorting.Sort(Sorting.By(c.locale, NodeKey), d.nodes);
    assert d.nodes[i] in sorted;
    var j :| 0 <= j < |sorted| && sorted[j] == d.nodes[i];
    assert Migrated(c, digest, key, rounds, policy).nodes[j] == NodeAt(c, rounds, i);
  }

  /** A round that compiles is run by a language model. */
  lemma {:induction false} MigratedIsLlm(c: Collation, key: Option<string>, rounds: seq<Round>, policy: Policy, i: nat)
    requires Runs(c, key, rounds, policy) && i < |rounds|
    ensures NodeAt(c, rounds, i).kind.Llm? && NodeAt(c, rounds, i).id == rounds[i].id
  {
    var d := DraftOf(c.units, key, rounds);
    CompilableParts(d, policy);
    assert !DraftFault(policy.checks, d, InvalidDraft);
    assert d.nodes[i] in d.nodes;
    assert NodeOk(policy.checks, d.nodes[i]);
  }

  /** The trigger limit of a jump that compiles is a natural number. */
  lemma {:induction false} LimitIsNatural(c: Collation, key: Option<string>, rounds: seq<Round>, policy: Policy, i: nat)
    requires Runs(c, key, rounds, policy) && i < |rounds| && rounds[i].jump.Some?
    ensures var max := rounds[i].jump.value.maxTriggers; AsBudget(max) == Whole(max.Floor) && max == max.Floor as real && max >= 0.0
  {
    Migration.CompilesIff(c.units, key, rounds, policy);
    assert rounds[i] in rounds;
  }

  lemma {:induction false} MarkersDiffer(a: Marker, b: Marker)
    ensures MarkerText(a) == MarkerText(b) <==> a == b
  {
    assert |MarkerText(PASS)| == 4 && |MarkerText(REWORK)| == 6;
  }

  /** No object inherits a member named like a jump's edge. */
  lemma {:induction false} JumpIsCounted(r: Round, edge: string)
    requires r.jump.Some? && edge == "edge_"
    ensures !Inherited(JumpEdge(r).id)
  {
    var id := JumpEdge(r).id;
    assert id == edge + (r.id + "_to_" + r.jump.value.target + "_rework");
    assert id[0] == 'e';
  }

  lemma {:induction false} JumpUnspent(budgets: seq<BudgetEntry>, r: Round, uses: Uses, limit: int)
    requires r.jump.Some? && Lookup(budgets, JumpEdge(r).id) == Some(Whole(limit))
    ensures Unspent(budgets, uses, JumpEdge(r).id) <==> UsesOf(uses, JumpEdge(r).id) < limit
  {
    JumpIsCounted(r, "edge_");
  }

  lemma {:induction false} NewNextIs(k: Contract, n: CompiledNode, rounds: seq<Round>, i: nat, uses: Uses, said: Option<Marker>)
    requires i < |rounds| && RoutesAs(k, rounds, i) && n.id == rounds[i].id && n.kind.Llm?
    requires rounds[i].jump.Some? ==> AsBudget(rounds[i].jump.value.maxTriggers) == Whole(rounds[i].jump.value.maxTriggers.Floor)
    ensures NewNext(k, n, uses, said)
            == if rounds[i].jump.Some? && UsesOf(uses, JumpEdge(rounds[i]).id) < rounds[i].jump.value.maxTriggers.Floor
                  && said.GetOr(REWORK) == rounds[i].jump.value.marker.GetOr(REWORK)
               then To(rounds[i].jump.value.target)
               else if i + 1 < |rounds| then To(rounds[i + 1].id)
               else if rounds[i].jump.Some? then Broken else Complete
  {
    if rounds[i].jump.Some? {
      var e, out := JumpEdge(rounds[i]), Hands(k, n, said);
      MarkersDiffer(said.GetOr(REWORK), rounds[i].jump.value.marker.GetOr(REWORK));
      assert e.condition == Some(Condition(VerdictMarkerEquals, MarkerText(rounds[i].jump.value.marker.GetOr(REWORK))));
      FirstOfOne(e, k.loopBudgets, uses, out);
      JumpUnspent(k.loopBudgets, rounds[i], uses, rounds[i].jump.value.maxTriggers.Floor);
    }
  }

  lemma {:induction false} FirstOfOne(e: Edge, budgets: seq<BudgetEntry>, uses: Uses, out: Output)
    ensures FirstTaken([e], budgets, uses, out) == if Taken(budgets, uses, out, e) then Some(e) else None
  {
    assert [e][1..] == [];
  }

  /** The node of a round with a jump decides the jump's condition, and no other. */
  lemma {:induction false} JumpIsDecided(c: Collation, key: Option<string>, rounds: seq<Round>, policy: Policy, i: nat, cond: Condition)
    requires Runs(c, key, rounds, policy) && i < |rounds|
    ensures Routing.Decides(NodeAt(c, rounds, i).authority, cond)
            <==> rounds[i].jump.Some? && cond == Condition(VerdictMarkerEquals, MarkerText(rounds[i].jump.value.marker.GetOr(REWORK)))
  {
    var n, edges := NodeOf(c.units, rounds[i]), ForwardEdges(rounds) + JumpEdges(rounds);
    MigratedIsLlm(c, key, rounds, policy, i);
    Routing.DerivedDecidesIff(c, n, edges, cond);
    MigratedAwaits(c, key, rounds, policy, i, cond.equals);
  }

  lemma {:induction false} MigratedAwaits(c: Collation, key: Option<string>, rounds: seq<Round>, policy: Policy, i: nat, value: string)
    requires Runs(c, key, rounds, policy) && i < |rounds|
    ensures Routing.Awaited(ForwardEdges(rounds) + JumpEdges(rounds), rounds[i].id, value)
            <==> rounds[i].jump.Some? && value == MarkerText(rounds[i].jump.value.marker.GetOr(REWORK))
  {
    var edges := ForwardEdges(rounds) + JumpEdges(rounds);
    Routing.AwaitedOut(edges, rounds[i].id, value);
    CompiledShape(DraftOf(c.units, key, rounds), policy);
    SameOut(DraftOf(c.units, key, rounds), edges, rounds[i].id);
    JumpsOut(rounds, edges, i);
    JumpCondition(rounds[i], value);
  }

  lemma {:induction false} JumpCondition(r: Round, value: string)
    ensures (exists e :: e in AsList(JumpOf(r)) && e.condition.Some? && e.condition.value.equals == value)
            <==> r.jump.Some? && value == MarkerText(r.jump.value.marker.GetOr(REWORK))
  {
    if r.jump.Some? {
      var e := JumpEdge(r);
      assert AsList(JumpOf(r)) == [e];
      assert e.condition == Some(Condition(VerdictMarkerEquals, MarkerText(r.jump.value.marker.GetOr(REWORK))));
      assert e in AsList(JumpOf(r));
    }
  }

  // ---------------------------------------------------------------- where the two runs agree

  /** How often the round has jumped: its jump is its own edge. */
  function CountOf(r: Round, uses: Uses): nat {
    if r.jump.Some? then UsesOf(uses, JumpEdge(r).id) else 0
  }

  /** There is no jump, or there is a next round and the jump can never be taken, or it is counted and taken on
      its marker alone. */
  predicate RunsAlike(rounds: seq<Round>, i: nat)
    requires i < |rounds|
  {
    var r := rounds[i];
    r.jump.None?
    || (i + 1 < |rounds|
        && (r.jump.value.maxTriggers == 0.0
            || (!Inherited(r.id) && !PolicyOf(r).NoVerdict? && (PolicyOf(r).ForcedRework? ==> r.jump.value.minTriggers == 0.0))))
  }

  /** What both executors see of a jump that compiles. */
  ghost predicate SoundJump(rounds: seq<Round>, i: nat)
    requires i < |rounds|
  {
    var r := rounds[i];
    r.jump.Some? ==>
      && r.jump.value.maxTriggers >= 0.0 && r.jump.value.maxTriggers == r.jump.value.maxTriggers.Floor as real
      && !r.preset.AuditProposal?
      && (PolicyOf(r).ForcedRework? ==> 0.0 <= r.jump.value.minTriggers <= r.jump.value.maxTriggers)
      && (i + 1 < |rounds| ==> r.jump.value.target != rounds[i + 1].id)
  }

  /** The next place as NewNextIs says it. */
  function ByMarker(rounds: seq<Round>, i: nat, count: nat, said: Option<Marker>): Next
    requires i < |rounds|
  {
    var r := rounds[i];
    if r.jump.Some? && count < r.jump.value.maxTriggers.Floor && said.GetOr(REWORK) == r.jump.value.marker.GetOr(REWORK) then To(r.jump.value.target)
    else if i + 1 < |rounds| then To(rounds[i + 1].id)
    else if r.jump.Some? then Broken else Complete
  }

  lemma {:induction false} AlikeAgrees(rounds: seq<Round>, i: nat, count: nat, said: Option<Marker>)
    requires i < |rounds| && SoundJump(rounds, i) && RunsAlike(rounds, i)
    ensures ByMarker(rounds, i, count, said) == OldNext(rounds, i, count, said)
  {
    if rounds[i].jump.Some? {
      BelowLimit(count, rounds[i].jump.value.maxTriggers);
    }
  }

  lemma {:induction false} BelowLimit(count: nat, max: real)
    requires max == max.Floor as real
    ensures (count as real) < max <==> count < max.Floor
  {
  }

  /** Where they are not alike, some verdict and count tell them apart. */
  lemma {:induction false} UnlikeDiffers(rounds: seq<Round>, i: nat) returns (count: nat, said: Option<Marker>)
    requires i < |rounds| && SoundJump(rounds, i) && !RunsAlike(rounds, i)
    ensures ByMarker(rounds, i, count, said) != OldNext(rounds, i, count, said)
  {
    var r := rounds[i];
    var rule := r.jump.value;
    var marker := rule.marker.GetOr(REWORK);
    if i + 1 == |rounds| {
      count, said := rule.maxTriggers.Floor, Some(marker);
    } else if PolicyOf(r).NoVerdict? || Inherited(r.id) {
      count, said := 0, Some(marker);
    } else {
      count, said := 0, Some(if marker.PASS? then REWORK else PASS);
    }
    BelowLimit(count, rule.maxTriggers);
  }

  lemma {:induction false} JumpIsSound(c: Collation, key: Option<string>, rounds: seq<Round>, policy: Policy, i: nat)
    requires Runs(c, key, rounds, policy) && i < |rounds|
    ensures SoundJump(rounds, i)
  {
    assert RoundOk(rounds, i);
    if rounds[i].jump.Some? {
      LimitIsNatural(c, key, rounds, policy, i);
      var j :| 0 <= j < i && rounds[j].id == rounds[i].jump.value.target;
    }
  }

  /** After round i of an old list that compiles, the compiled run goes where the old one would, whatever
      the verdict and however often the round has jumped, exactly when the round runs alike. */
  lemma {:induction false} NextAgreesIff(c: Collation, digest: Contract -> string, key: Option<string>, rounds: seq<Round>, policy: Policy, i: nat)
    requires Runs(c, key, rounds, policy) && i < |rounds|
    ensures var k, n := Migrated(c, digest, key, rounds, policy), NodeAt(c, rounds, i);
            n in k.nodes
            && ((forall uses, said :: NewNext(k, n, uses, said) == OldNext(rounds, i, CountOf(rounds[i], uses), said))
                <==> RunsAlike(rounds, i))
  {
    var k, n := Migrated(c, digest, key, rounds, policy), NodeAt(c, rounds, i);
    NodeInContract(c, digest, key, rounds, policy, i);
    JumpIsSound(c, key, rounds, policy, i);
    forall uses, said ensures NewNext(k, n, uses, said) == ByMarker(rounds, i, CountOf(rounds[i], uses), said) {
      NewNextOf(c, digest, key, rounds, policy, i, uses, said);
    }
    AgreesIff(k, n, rounds, i);
  }

  lemma {:induction false} AgreesIff(k: Contract, n: CompiledNode, rounds: seq<Round>, i: nat)
    requires i < |rounds| && SoundJump(rounds, i)
    requires forall uses, said :: NewNext(k, n, uses, said) == ByMarker(rounds, i, CountOf(rounds[i], uses), said)
    ensures (forall uses, said :: NewNext(k, n, uses, said) == OldNext(rounds, i, CountOf(rounds[i], uses), said)) <==> RunsAlike(rounds, i)
  {
    if RunsAlike(rounds, i) {
      forall uses, said ensures NewNext(k, n, uses, said) == OldNext(rounds, i, CountOf(rounds[i], uses), said) {
        AlikeAgrees(rounds, i, CountOf(rounds[i], uses), said);
      }
    } else {
      var count, said := UnlikeDiffers(rounds, i);
      var uses := map[JumpEdge(rounds[i]).id := count];
      assert NewNext(k, n, uses, said) != OldNext(rounds, i, CountOf(rounds[i], uses), said);
    }
  }

  lemma {:induction false} NewNextOf(c: Collation, digest: Contract -> string, key: Option<string>, rounds: seq<Round>, policy: Policy, i: nat, uses: Uses, said: Option<Marker>)
    requires Runs(c, key, rounds, policy) && i < |rounds|
    ensures NewNext(Migrated(c, digest, key, rounds, policy), NodeAt(c, rounds, i), uses, said)
            == ByMarker(rounds, i, CountOf(rounds[i], uses), said)
  {
    MigratedRoutes(c, digest, key, rounds, policy, i);
    MigratedIsLlm(c, key, rounds, policy, i);
    if rounds[i].jump.Some? {
      LimitIsNatural(c, key, rounds, policy, i);
    }
    NewNextIs(Migrated(c, digest, key, rounds, policy), NodeAt(c, rounds, i), rounds, i, uses, said);
  }

  /** The built-in preset ends well in the old executor when its last audit passes, and as a failure when
      it is compiled. */
  lemma {:induction false} PresetEndsInFailure(c: Collation, digest: Contract -> string, policy: Policy, uses: Uses)
    requires ContractOrder.Orders(c) && policy.maxNodes >= 5 && policy.maxEdges >= 5 && policy.checks.pathOk("openspec/changes")
    ensures var k := Migrated(c, digest, Some("openspec"), OPENSPEC_ROUNDS, policy);
            && Compilable(DraftOf(c.units, Some("openspec"), OPENSPEC_ROUNDS), policy)
            && NewNext(k, NodeAt(c, OPENSPEC_ROUNDS, 4), uses, Some(PASS)) == Broken
            && OldNext(OPENSPEC_ROUNDS, 4, CountOf(OPENSPEC_ROUNDS[4], uses), Some(PASS)) == Complete
  {
    Migration.BuiltInPresetCompiles(c.units, policy);
    Migration.PresetHasIds();
    Migration.PresetHasFields();
    Migration.PresetLikeIsAccepted(OPENSPEC_ROUNDS);
    PresetMarker();
    NewNextOf(c, digest, Some("openspec"), OPENSPEC_ROUNDS, policy, 4, uses, Some(PASS));
    LastPass(OPENSPEC_ROUNDS, CountOf(OPENSPEC_ROUNDS[4], uses));
  }

  lemma {:induction false} PresetMarker()
    ensures |OPENSPEC_ROUNDS| == 5 && OPENSPEC_ROUNDS[4].jump.Some? && OPENSPEC_ROUNDS[4].jump.value.marker == Some(REWORK)
    ensures PolicyOf(OPENSPEC_ROUNDS[4]).SmartGate?
  {
  }

  lemma {:induction false} LastPass(rounds: seq<Round>, count: nat)
    requires rounds != [] && rounds[|rounds| - 1].jump.Some? && rounds[|rounds| - 1].jump.value.marker == Some(REWORK)
    requires PolicyOf(rounds[|rounds| - 1]).SmartGate?
    ensures ByMarker(rounds, |rounds| - 1, count, Some(PASS)) == Broken && OldNext(rounds, |rounds| - 1, count, Some(PASS)) == Complete
  {
  }
}
