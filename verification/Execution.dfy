/** Why a compiled workflow cannot run for ever: the loop-budget rule of
    validateLoopBudgets (shared/p2p-workflow-compiler.ts:256-277) bounds every walk. */
module Execution {
  import opened Wrappers
  import opened Workflow
  import opened Compiler
  import opened Contract

  /** The steps of w that use an edge with a budget. */
  ghost function BudgetedSteps(budgets: seq<BudgetEntry>, w: seq<Edge>): (r: nat)
    ensures r <= |w|
  {
    if w == [] then 0
    else (if Lookup(budgets, w[0].id).Some? then 1 else 0) + BudgetedSteps(budgets, w[1..])
  }

  /** The same count, taken budget by budget. */
  ghost function SumCrossings(budgets: seq<BudgetEntry>, w: seq<Edge>): nat {
    if budgets == [] then 0 else Crossings(w, budgets[0].edge) + SumCrossings(budgets[1..], w)
  }

  lemma {:induction false} SumStep(budgets: seq<BudgetEntry>, w: seq<Edge>)
    requires IsRecord(budgets) && w != []
    ensures SumCrossings(budgets, w) == SumCrossings(budgets, w[1..]) + (if Lookup(budgets, w[0].id).Some? then 1 else 0)
  {
    if budgets != [] {
      assert IsRecord(budgets[1..]);
      SumStep(budgets[1..], w);
      if budgets[0].edge == w[0].id {
        forall b | b in budgets[1..] ensures b.edge != w[0].id {
          var k :| 0 < k < |budgets| && budgets[k] == b;
        }
      }
    }
  }

  lemma {:induction false} CountedTwice(budgets: seq<BudgetEntry>, w: seq<Edge>)
    requires IsRecord(budgets)
    ensures BudgetedSteps(budgets, w) == SumCrossings(budgets, w)
  {
    if w == [] {
      NoCrossings(budgets);
    } else {
      SumStep(budgets, w);
      CountedTwice(budgets, w[1..]);
    }
  }

  lemma {:induction false} NoCrossings(budgets: seq<BudgetEntry>)
    ensures SumCrossings(budgets, []) == 0
  {
    if budgets != [] {
      NoCrossings(budgets[1..]);
    }
  }

  lemma {:induction false} SumWithinBudget(budgets: seq<BudgetEntry>, w: seq<Edge>)
    requires Respects(budgets, w) && forall b :: b in budgets ==> BudgetOk(b.budget)
    ensures SumCrossings(budgets, w) <= TotalBudget(budgets)
  {
    if budgets != [] {
      assert budgets[0] in budgets;
      SumWithinBudget(budgets[1..], w);
    }
  }

  /** A ranking of the nodes below n that every unbudgeted edge climbs. */
  ghost predicate Climbs(edges: seq<Edge>, budgets: seq<BudgetEntry>, place: map<Id, int>, n: int) {
    && (forall id :: id in place ==> 0 <= place[id] < n)
    && (forall e :: e in edges ==> e.from in place && e.to in place)
    && (forall e :: e in edges && Lookup(budgets, e.id).None? ==> place[e.from] < place[e.to])
  }

  /** Unbudgeted steps climb; a budgeted step gives back at most n - 1 places. */
  lemma {:induction false} ClimbOrPay(edges: seq<Edge>, budgets: seq<BudgetEntry>, place: map<Id, int>, n: int,
                                      a: Id, w: seq<Edge>, b: Id)
    requires Climbs(edges, budgets, place, n) && a in place && IsPath(edges, a, w, b)
    ensures b in place
    ensures |w| - BudgetedSteps(budgets, w) <= place[b] - place[a] + BudgetedSteps(budgets, w) * (n - 1)
    decreases w
  {
    if w != [] {
      ClimbOrPay(edges, budgets, place, n, w[0].to, w[1..], b);
      var paid := Lookup(budgets, w[0].id).Some?;
      assert paid || place[w[0].from] < place[w[0].to];
      OneStep(|w| - 1, BudgetedSteps(budgets, w[1..]), if paid then 1 else 0, place[w[0].to] - place[a], place[b] - place[w[0].to], n - 1);
    }
  }

  lemma {:induction false} OneStep(length: nat, later: nat, paid: nat, first: int, climb: int, top: int)
    requires length - later <= climb + later * top && -top <= first && paid <= 1 && (paid == 0 ==> first >= 1)
    ensures 1 + length - (later + paid) <= first + climb + (later + paid) * top
  {
    assert (later + paid) * top == later * top + paid * top;
  }

  /** In a sound draft the node order is such a ranking. */
  lemma {:induction false} SoundClimbs(d: Draft) returns (place: map<Id, int>)
    requires GraphSound(d)
    ensures place.Keys == NodeIds(d.nodes)
    ensures Climbs(d.edges, BudgetsOf(d), place, |d.nodes|)
    ensures IsRecord(BudgetsOf(d)) ==> forall b :: b in BudgetsOf(d) ==> BudgetOk(b.budget)
  {
    CompiledBudgeted(d);
    place := map id | id in NodeIds(d.nodes) :: IndexOf(d.nodes, id);
  }

  /** In a workflow with n nodes and budgets adding up to B that passes the graph checks, a walk
      that respects the budgets has at most B + (B + 1) * (n - 1) steps. */
  lemma {:induction false} BoundedExecution(d: Draft, a: Id, w: seq<Edge>, b: Id)
    requires GraphSound(d) && IsRecord(BudgetsOf(d))
    requires a in NodeIds(d.nodes) && IsPath(d.edges, a, w, b) && Respects(BudgetsOf(d), w)
    ensures var total := TotalBudget(BudgetsOf(d));
            0 <= total && |w| <= total + (total + 1) * (|d.nodes| - 1)
  {
    var place := SoundClimbs(d);
    var total, k, n := TotalBudget(BudgetsOf(d)), BudgetedSteps(BudgetsOf(d), w), |d.nodes|;
    ClimbOrPay(d.edges, BudgetsOf(d), place, n, a, w, b);
    CountedTwice(BudgetsOf(d), w);
    SumWithinBudget(BudgetsOf(d), w);
    WalkBound(|w|, k, total, n - 1, place[b] - place[a]);
  }

  lemma {:induction false} WalkBound(length: nat, paid: nat, total: int, top: int, climb: int)
    requires length - paid <= climb + paid * top && climb <= top && paid <= total && 0 <= top
    ensures length <= total + (total + 1) * top
  {
    assert paid * top <= total * top;
    assert (total + 1) * top == total * top + top;
  }

  /** Every cycle, self-loops included, pays: it uses an edge with a budget. */
  lemma {:induction false} CyclesArePaidFor(d: Draft, a: Id, w: seq<Edge>)
    requires GraphSound(d)
    requires a in NodeIds(d.nodes) && IsPath(d.edges, a, w, a) && w != []
    ensures exists e :: e in w && Lookup(BudgetsOf(d), e.id).Some?
  {
    var place := SoundClimbs(d);
    ClimbOrPay(d.edges, BudgetsOf(d), place, |d.nodes|, a, w, a);
    PaidStep(BudgetsOf(d), w);
  }

  lemma {:induction false} PaidStep(budgets: seq<BudgetEntry>, w: seq<Edge>)
    requires BudgetedSteps(budgets, w) > 0
    ensures exists e :: e in w && Lookup(budgets, e.id).Some?
  {
    if Lookup(budgets, w[0].id).None? {
      PaidStep(budgets, w[1..]);
    } else {
      assert w[0] in w;
    }
  }
}
