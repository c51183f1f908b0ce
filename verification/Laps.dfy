/** The bound that the loop-budget rule gives (shared/p2p-workflow-compiler.ts:256-277) is reached: for
    every number of nodes above one and every budget there is a draft that compiles and has a walk of
    exactly that many steps. */
module Laps {
  import opened Wrappers
  import opened Workflow
  import opened Compiler
  import opened Contract
  import opened AdvancedRounds
  import opened Materialize
  import opened Translation
  import opened Migration
  import Text
  import Version

  /** The only jump goes from the last round back to the first, at most limit times. */
  ghost predicate OneLoop(rounds: seq<Round>, limit: nat) {
    && |rounds| > 1 && Accepted(rounds) && (forall i :: 0 <= i < |rounds| - 1 ==> rounds[i].jump.None?)
    && var jump := rounds[|rounds| - 1].jump;
    jump.Some? && jump.value.target == rounds[0].id && jump.value.maxTriggers == limit as real
  }

  function Nexts(k: nat): (r: seq<Move>)
    ensures |r| == k
  {
    if k == 0 then [] else [Next] + Nexts(k - 1)
  }

  /** Through all n rounds, and back to the start as often as allowed. */
  function Laps(n: nat, limit: nat): seq<Move>
    requires n > 0
  {
    Nexts(n - 1) + if limit == 0 then [] else [Back] + Laps(n, limit - 1)
  }

  lemma {:induction false} LapsLength(n: nat, limit: nat)
    requires n > 0
    ensures |Laps(n, limit)| == limit + (limit + 1) * (n - 1)
  {
    if limit > 0 {
      LapsLength(n, limit - 1);
      assert (limit + 1) * (n - 1) == limit * (n - 1) + (n - 1);
    }
  }

  lemma {:induction false} PlaysOn(rounds: seq<Round>, i: nat, k: nat, rest: seq<Move>, r: nat)
    requires Accepted(rounds) && i + k < |rounds| && Plays(rounds, i + k, rest)
    ensures Plays(rounds, i, Nexts(k) + rest) && BacksAt(rounds, i, Nexts(k) + rest, r) == BacksAt(rounds, i + k, rest, r)
    decreases k
  {
    if k == 0 {
      assert Nexts(k) + rest == rest;
    } else {
      PlaysOn(rounds, i + 1, k - 1, rest, r);
      PlayNext(rounds, i, Nexts(k - 1) + rest);
      assert Nexts(k) + rest == [Next] + (Nexts(k - 1) + rest);
    }
  }

  lemma {:induction false} BackToStart(rounds: seq<Round>, limit: nat, rest: seq<Move>, r: nat)
    requires OneLoop(rounds, limit) && Plays(rounds, 0, rest)
    ensures var last := |rounds| - 1;
            && Plays(rounds, last, [Back] + rest)
            && BacksAt(rounds, last, [Back] + rest, r) == (if r == last then 1 else 0) + BacksAt(rounds, 0, rest, r)
  {
    assert TargetIndex(rounds, |rounds| - 1) == 0;
    PlayBack(rounds, |rounds| - 1, rest);
  }

  lemma {:induction false} LapsPlay(rounds: seq<Round>, limit: nat, b: nat, r: nat)
    requires OneLoop(rounds, limit)
    ensures var moves := Laps(|rounds|, b);
            Plays(rounds, 0, moves) && BacksAt(rounds, 0, moves, r) == if r == |rounds| - 1 then b else 0
  {
    var n := |rounds|;
    if b == 0 {
      PlaysOn(rounds, 0, n - 1, [], r);
    } else {
      LapsPlay(rounds, limit, b - 1, r);
      BackToStart(rounds, limit, Laps(n, b - 1), r);
      PlaysOn(rounds, 0, n - 1, [Back] + Laps(n, b - 1), r);
    }
  }

  lemma {:induction false} NoJumpsNoBudgets(rounds: seq<Round>)
    requires forall i :: 0 <= i < |rounds| ==> rounds[i].jump.None?
    ensures Budgets(rounds) == []
  {
    if rounds != [] {
      NoJumpsNoBudgets(rounds[..|rounds| - 1]);
    }
  }

  lemma {:induction false} LoopBudget(rounds: seq<Round>, limit: nat)
    requires OneLoop(rounds, limit)
    ensures TotalBudget(Budgets(rounds)) == limit
  {
    var last := |rounds| - 1;
    NoJumpsNoBudgets(rounds[..last]);
    var entry := BudgetEntry(JumpEdge(rounds[last]).id, AsBudget(limit as real));
    assert Budgets(rounds) == [entry];
    assert [entry][1..] == [];
  }

  lemma {:induction false} LapsAreRun(rounds: seq<Round>, limit: nat)
    requires OneLoop(rounds, limit)
    ensures IsRun(rounds, Laps(|rounds|, limit))
  {
    var moves := Laps(|rounds|, limit);
    LapsPlay(rounds, limit, limit, 0);
    forall r | 0 <= r < |rounds| && rounds[r].jump.Some?
      ensures BacksAt(rounds, 0, moves, r) as real <= rounds[r].jump.value.maxTriggers
    {
      LapsPlay(rounds, limit, limit, r);
    }
  }

  // ---------------------------------------------------------------- ids without an underscore

  lemma {:induction false} EdgeIdParts(a: string, x: string, b: string, y: string)
    requires "edge_" + a + "_to_" + x == "edge_" + b + "_to_" + y && '_' !in a && '_' !in b
    ensures a == b && x == y
  {
    EdgeIdTail(a, x);
    EdgeIdTail(b, y);
    Text.FirstSeparator('_', a, b, "to_" + x, "to_" + y);
    assert ("to_" + x)[3..] == x && ("to_" + y)[3..] == y;
  }

  lemma {:induction false} EdgeIdTail(a: string, x: string)
    ensures ("edge_" + a + "_to_" + x)[5..] == a + ['_'] + ("to_" + x)
  {
  }

  lemma {:induction false} JumpOwner(rounds: seq<Round>, n: nat, k: nat) returns (i: nat)
    requires n <= |rounds| && k < |JumpEdges(rounds[..n])|
    ensures i < n && JumpEdges(rounds[..n])[k].from == rounds[i].id
  {
    var e := JumpEdges(rounds[..n])[k];
    assert e in JumpEdges(rounds[..n]);
    var x :| x in rounds[..n] && x.jump.Some? && e == JumpEdge(x);
    i :| 0 <= i < n && rounds[..n][i] == x;
  }

  lemma {:induction false} LastJumpDiffers(rounds: seq<Round>, n: nat, k: nat)
    requires DistinctRounds(rounds) && 0 < n <= |rounds| && k < |JumpEdges(rounds[..n - 1])|
    ensures JumpEdges(rounds[..n - 1])[k].from != rounds[n - 1].id
  {
    var i := JumpOwner(rounds, n - 1, k);
    assert rounds[i].id != rounds[n - 1].id;
  }

  lemma {:induction false} JumpFroms(rounds: seq<Round>, n: nat, k: nat, l: nat)
    requires DistinctRounds(rounds) && n <= |rounds| && k < l < |JumpEdges(rounds[..n])|
    ensures JumpEdges(rounds[..n])[k].from != JumpEdges(rounds[..n])[l].from
  {
    var m := n - 1;
    var before := JumpEdges(rounds[..m]);
    JumpStep(rounds, m);
    assert rounds[..n] == rounds[..m + 1];
    if l < |before| {
      JumpFroms(rounds, m, k, l);
    } else {
      LastJumpDiffers(rounds, n, k);
    }
  }

  /** No id and no jump target holds an underscore. */
  ghost predicate PlainIds(rounds: seq<Round>) {
    forall r :: r in rounds ==> '_' !in r.id && (r.jump.Some? ==> '_' !in r.jump.value.target)
  }

  lemma {:induction false} ReworkShows(target: string)
    ensures '_' in target + "_rework"
  {
    assert (target + "_rework")[|target|] == '_';
  }

  lemma {:induction false} JumpIdIs(r: Round)
    requires r.jump.Some?
    ensures JumpEdge(r).id == "edge_" + r.id + "_to_" + (r.jump.value.target + "_rework")
  {
    var head, target := "edge_" + r.id + "_to_", r.jump.value.target;
    assert (head + target) + "_rework" == head + (target + "_rework");
  }

  lemma {:induction false} StepAndJumpDiffer(rounds: seq<Round>, i: nat, j: nat)
    requires PlainIds(rounds) && i + 1 < |rounds| && j < |rounds| && rounds[j].jump.Some?
    ensures ForwardEdge(rounds, i).id != JumpEdge(rounds[j]).id
  {
    assert rounds[i] in rounds && rounds[i + 1] in rounds && rounds[j] in rounds;
    var target := rounds[j].jump.value.target;
    ReworkShows(target);
    JumpIdIs(rounds[j]);
    if ForwardEdge(rounds, i).id == JumpEdge(rounds[j]).id {
      EdgeIdParts(rounds[i].id, rounds[i + 1].id, rounds[j].id, target + "_rework");
    }
  }

  lemma {:induction false} SameIdSameFrom(rounds: seq<Round>, e: Edge, f: Edge)
    requires rounds != [] && PlainIds(rounds)
    requires e in ForwardEdges(rounds) + JumpEdges(rounds) && f in ForwardEdges(rounds) + JumpEdges(rounds)
    ensures e.id == f.id ==> e.from == f.from && e.kind == f.kind
  {
    var i := EdgeCases(rounds, e);
    var j := EdgeCases(rounds, f);
    assert rounds[i] in rounds && rounds[j] in rounds;
    if e.kind.Default? && f.kind.Default? {
      if e.id == f.id {
        EdgeIdParts(rounds[i].id, rounds[i + 1].id, rounds[j].id, rounds[j + 1].id);
      }
    } else if e.kind.Default? {
      StepAndJumpDiffer(rounds, i, j);
    } else if f.kind.Default? {
      StepAndJumpDiffer(rounds, j, i);
    } else {
      JumpIdIs(rounds[i]);
      JumpIdIs(rounds[j]);
      if e.id == f.id {
        EdgeIdParts(rounds[i].id, rounds[i].jump.value.target + "_rework", rounds[j].id, rounds[j].jump.value.target + "_rework");
      }
    }
  }

  lemma {:induction false} StepFroms(rounds: seq<Round>, k: nat, l: nat)
    requires DistinctRounds(rounds) && rounds != [] && k < l < |ForwardEdges(rounds)|
    ensures ForwardEdges(rounds)[k].from != ForwardEdges(rounds)[l].from
  {
    assert rounds[k].id != rounds[l].id;
  }

  lemma {:induction false} JumpsDiffer(rounds: seq<Round>, k: nat, l: nat)
    requires DistinctRounds(rounds) && k < l < |JumpEdges(rounds)|
    ensures JumpEdges(rounds)[k].from != JumpEdges(rounds)[l].from
  {
    assert rounds[..|rounds|] == rounds;
    JumpFroms(rounds, |rounds|, k, l);
  }

  lemma {:induction false} JumpsAreConditional(rounds: seq<Round>, l: nat)
    requires l < |JumpEdges(rounds)|
    ensures JumpEdges(rounds)[l].kind.Conditional?
  {
    assert JumpEdges(rounds)[l] in JumpEdges(rounds);
  }

  /** Two edges of one kind leave different rounds. */
  lemma {:induction false} FromsDiffer(rounds: seq<Round>, k: nat, l: nat)
    requires rounds != [] && DistinctRounds(rounds) && k < l < |ForwardEdges(rounds) + JumpEdges(rounds)|
    ensures var edges := ForwardEdges(rounds) + JumpEdges(rounds);
            edges[k].from != edges[l].from || edges[k].kind != edges[l].kind
  {
    var n := |ForwardEdges(rounds)|;
    if l < n {
      StepFroms(rounds, k, l);
    } else if k >= n {
      JumpsDiffer(rounds, k - n, l - n);
    } else {
      JumpsAreConditional(rounds, l - n);
    }
  }

  /** Ids without underscores never give two edges one id. */
  lemma {:induction false} PlainIdsSuffice(rounds: seq<Round>)
    requires rounds != [] && DistinctRounds(rounds) && PlainIds(rounds)
    ensures EdgeNamesDiffer(rounds)
  {
    var edges := ForwardEdges(rounds) + JumpEdges(rounds);
    forall k, l | 0 <= k < l < |edges| ensures edges[k].id != edges[l].id {
      SameIdSameFrom(rounds, edges[k], edges[l]);
      FromsDiffer(rounds, k, l);
    }
  }

  // ---------------------------------------------------------------- one loop for each size and budget

  function LoopRound(n: nat, limit: nat, i: nat): Round {
    ARound(Text.Decimal(i), Discussion, SingleMain, AnalysisOnly, NoVerdict,
           if i + 1 == n then Some(JumpRule(Text.Decimal(0), Some(REWORK), 0.0, limit as real)) else None)
  }

  function LoopRounds(n: nat, limit: nat): (r: seq<Round>)
    ensures |r| == n && forall i :: 0 <= i < n ==> r[i] == LoopRound(n, limit, i)
  {
    seq(n, i requires 0 <= i < n => LoopRound(n, limit, i))
  }

  lemma {:induction false} DecimalsDiffer(i: nat, j: nat)
    ensures Text.Decimal(i) == Text.Decimal(j) <==> i == j
  {
    if Text.Decimal(i) == Text.Decimal(j) {
      Version.DecimalValue(i);
      Version.DecimalValue(j);
    }
  }

  lemma {:induction false} DecimalIsPlain(i: nat)
    ensures '_' !in Text.Decimal(i) && !Text.Blank(Text.Decimal(i))
  {
    var d := Text.Decimal(i);
    assert d[0] in d && !Text.IsSpace(d[0]);
  }

  lemma {:induction false} LoopIsAccepted(n: nat, limit: nat)
    requires n > 1
    ensures OneLoop(LoopRounds(n, limit), limit) && PlainIds(LoopRounds(n, limit))
  {
    var rounds := LoopRounds(n, limit);
    forall i, j | 0 <= i < j < n ensures rounds[i].id != rounds[j].id {
      DecimalsDiffer(i, j);
    }
    forall r | r in rounds ensures !Text.Blank(r.id) && '_' !in r.id && (r.jump.Some? ==> '_' !in r.jump.value.target) {
      var i :| 0 <= i < n && rounds[i] == r;
      DecimalIsPlain(i);
      DecimalIsPlain(0);
    }
    forall i | 0 <= i < n ensures RoundOk(rounds, i) {
      if i + 1 == n {
        assert rounds[0].id == Text.Decimal(0);
      }
    }
  }

  lemma {:induction false} LoopSuits(n: nat, limit: nat, checks: Checks)
    ensures forall r :: r in LoopRounds(n, limit) ==> Suitable(checks, r)
    ensures OneProposal(LoopRounds(n, limit)) && NaturalTriggers(LoopRounds(n, limit))
  {
  }

  lemma {:induction false} OneJumpEdge(rounds: seq<Round>, limit: nat)
    requires OneLoop(rounds, limit)
    ensures |JumpEdges(rounds)| == 1
  {
    var last := |rounds| - 1;
    assert rounds[..|rounds|] == rounds;
    NoJumps(rounds, last);
    JumpStep(rounds, last);
  }

  lemma {:induction false} LoopCompiles(unitLe: (string, string) -> bool, n: nat, limit: nat, policy: Policy)
    requires n > 1 && policy.maxNodes >= n && policy.maxEdges >= n
    ensures Compilable(DraftOf(unitLe, None, LoopRounds(n, limit)), policy)
  {
    var rounds := LoopRounds(n, limit);
    LoopIsAccepted(n, limit);
    PlainIdsSuffice(rounds);
    LoopSuits(n, limit, policy.checks);
    OneJumpEdge(rounds, limit);
    CompilesIff(unitLe, None, rounds, policy);
  }

  lemma {:induction false} LoopRunsLong(rounds: seq<Round>, limit: nat) returns (moves: seq<Move>)
    requires OneLoop(rounds, limit)
    ensures IsRun(rounds, moves) && |moves| == limit + (limit + 1) * (|rounds| - 1)
  {
    moves := Laps(|rounds|, limit);
    LapsAreRun(rounds, limit);
    LapsLength(|rounds|, limit);
  }

  /** The bound cannot be improved: for every n above one and every budget there is a draft with n
      nodes and that budget that compiles and has a walk as long as the bound. */
  lemma {:induction false} BoundIsReached(unitLe: (string, string) -> bool, n: nat, total: nat, policy: Policy)
    returns (d: Draft, w: seq<Edge>)
    requires n > 1 && policy.maxNodes >= n && policy.maxEdges >= n
    ensures Compilable(d, policy) && |d.nodes| == n && TotalBudget(BudgetsOf(d)) == total
    ensures BudgetedWalk(d, w) && |w| == total + (total + 1) * (n - 1)
  {
    var rounds := LoopRounds(n, total);
    d := DraftOf(unitLe, None, rounds);
    LoopIsAccepted(n, total);
    PlainIdsSuffice(rounds);
    LoopSuits(n, total, policy.checks);
    LoopCompiles(unitLe, n, total, policy);
    LoopBudget(rounds, total);
    var moves := LoopRunsLong(rounds, total);
    var b := RunIsWalk(rounds, moves);
    w := Trace(rounds, 0, moves);
  }
}
