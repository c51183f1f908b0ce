/** Exactly when every run of a compiled workflow ends (src/daemon/p2p-orchestrator.ts:3925-4104): the
    orchestrator asks for the budgets of conditional edges only, and counts no uses under names that every
    object inherits, so no cycle that it can get to may consist of other edges. */
module Termination {
  import opened Wrappers
  import opened Workflow
  import opened Compiler
  import opened Contract
  import opened Orchestrator
  import ContractOrder
  import Execution
  import Sorting

  /** The orchestrator takes this edge any number of times. */
  ghost predicate Free(d: Draft, e: Edge) {
    e.kind == Default || Inherited(e.id) || Lookup(BudgetsOf(d), e.id).None?
  }

  /** It takes this edge at all. */
  ghost predicate Open(d: Draft, e: Edge) {
    Free(d, e) || Lookup(BudgetsOf(d), e.id) != Some(Whole(0))
  }

  /** It takes this edge even before any other. */
  ghost predicate Starts(d: Draft, e: Edge) {
    e.kind == Default || e.id == PROTO || Lookup(BudgetsOf(d), e.id) != Some(Whole(0))
  }

  ghost predicate AllFree(d: Draft, w: seq<Edge>) {
    forall i :: 0 <= i < |w| ==> Free(d, w[i])
  }

  ghost predicate AllOpen(d: Draft, w: seq<Edge>) {
    forall i :: 0 <= i < |w| ==> Open(d, w[i])
  }

  /** Edges that can be taken lead from the root to a cycle of free ones. */
  ghost predicate FreeLoop(d: Draft, p: seq<Edge>, x: Id, w: seq<Edge>) {
    && IsPath(d.edges, RootOf(d).GetOr(""), p, x) && AllOpen(d, p)
    && IsPath(d.edges, x, w, x) && AllFree(d, w) && w != []
    && Starts(d, (p + w)[0])
  }

  ghost predicate HasFreeLoop(d: Draft) {
    exists p, x, w :: FreeLoop(d, p, x, w)
  }

  ghost function Bound(total: int, n: int): int {
    total + (total + 1) * (n - 1)
  }

  /** Some run goes along at least m edges. */
  ghost predicate RunsFor(k: Contract, m: nat) {
    exists outs :: |Trace(k, k.rootNodeId, map[], outs)| >= m
  }

  // ---------------------------------------------------------------- paths

  /** Where the walk stands after i steps. */
  ghost function Stop(at: Id, w: seq<Edge>, i: nat): Id
    requires i <= |w|
  {
    if i == 0 then at else w[i - 1].to
  }

  lemma {:induction false} StopLater(at: Id, w: seq<Edge>, i: nat)
    requires w != [] && 0 < i <= |w|
    ensures Stop(at, w, i) == Stop(w[0].to, w[1..], i - 1)
  {
  }

  lemma {:induction false} SliceOfTail(w: seq<Edge>, i: nat, j: nat)
    requires 0 < i <= j <= |w|
    ensures w[1..][i - 1..j - 1] == w[i..j]
  {
  }

  /** A walk is a path from each of its stops to each later one. */
  lemma {:induction false} PathBetween(edges: seq<Edge>, at: Id, w: seq<Edge>, b: Id, i: nat, j: nat)
    requires IsPath(edges, at, w, b) && i <= j <= |w|
    ensures IsPath(edges, Stop(at, w, i), w[i..j], Stop(at, w, j))
    decreases |w|
  {
    if j > 0 {
      var rest := w[1..];
      if i > 0 {
        PathBetween(edges, w[0].to, rest, b, i - 1, j - 1);
        SliceOfTail(w, i, j);
      } else {
        PathBetween(edges, w[0].to, rest, b, 0, j - 1);
        assert w[0..j][1..] == rest[0..j - 1];
      }
    }
  }

  lemma {:induction false} PathEnds(edges: seq<Edge>, at: Id, w: seq<Edge>, b: Id)
    requires IsPath(edges, at, w, b)
    ensures Stop(at, w, |w|) == b
    decreases |w|
  {
    if w != [] {
      PathEnds(edges, w[0].to, w[1..], b);
    }
  }

  lemma {:induction false} PathJoin(edges: seq<Edge>, a: Id, p: seq<Edge>, b: Id, q: seq<Edge>, c: Id)
    requires IsPath(edges, a, p, b) && IsPath(edges, b, q, c)
    ensures IsPath(edges, a, p + q, c)
    decreases |p|
  {
    if p == [] {
      assert p + q == q;
    } else {
      PathJoin(edges, p[0].to, p[1..], b, q, c);
      assert (p + q)[1..] == p[1..] + q;
    }
  }

  /** The edges of a walk, each of them out of the stop before it. */
  lemma {:induction false} PathParts(edges: seq<Edge>, at: Id, w: seq<Edge>, b: Id, i: nat)
    requires IsPath(edges, at, w, b) && i < |w|
    ensures w[i] in edges && w[i].from == Stop(at, w, i)
    decreases |w|
  {
    if i > 0 {
      PathParts(edges, w[0].to, w[1..], b, i - 1);
    }
  }

  // ---------------------------------------------------------------- walks without a free cycle are short

  ghost predicate Unpaid(paid: seq<BudgetEntry>, w: seq<Edge>, i: int, j: int)
    requires 0 <= i <= j <= |w|
  {
    forall k :: i <= k < j ==> Lookup(paid, w[k].id).None?
  }

  /** No stretch of the walk that pays nothing comes back to where it began. */
  ghost predicate Tame(paid: seq<BudgetEntry>, at: Id, w: seq<Edge>) {
    forall i, j :: 0 <= i < j <= |w| && Unpaid(paid, w, i, j) ==> Stop(at, w, i) != Stop(at, w, j)
  }

  /** Nor does its first stretch come to one of these nodes. */
  ghost predicate Shuns(paid: seq<BudgetEntry>, at: Id, w: seq<Edge>, seen: set<Id>) {
    forall j :: 0 <= j <= |w| && Unpaid(paid, w, 0, j) ==> Stop(at, w, j) !in seen
  }

  lemma {:induction false} TameTail(paid: seq<BudgetEntry>, at: Id, w: seq<Edge>)
    requires w != [] && Tame(paid, at, w)
    ensures Tame(paid, w[0].to, w[1..])
  {
    var rest, to := w[1..], w[0].to;
    forall i, j | 0 <= i < j <= |rest| && Unpaid(paid, rest, i, j) ensures Stop(to, rest, i) != Stop(to, rest, j) {
      UnpaidTail(paid, w, i + 1, j + 1);
      StopLater(at, w, i + 1);
      StopLater(at, w, j + 1);
    }
  }

  lemma {:induction false} UnpaidTail(paid: seq<BudgetEntry>, w: seq<Edge>, i: nat, j: nat)
    requires 0 < i <= j <= |w|
    ensures Unpaid(paid, w, i, j) <==> Unpaid(paid, w[1..], i - 1, j - 1)
  {
    if Unpaid(paid, w, i, j) {
      forall k | i - 1 <= k < j - 1 ensures Lookup(paid, w[1..][k].id).None? {
        assert w[1..][k] == w[k + 1];
      }
    }
    if Unpaid(paid, w[1..], i - 1, j - 1) {
      forall k | i <= k < j ensures Lookup(paid, w[k].id).None? {
        assert w[k] == w[1..][k - 1];
      }
    }
  }

  /** After a step that pays nothing, the node it leaves is shunned as well. */
  lemma {:induction false} ShunsTail(paid: seq<BudgetEntry>, at: Id, w: seq<Edge>, seen: set<Id>)
    requires w != [] && Tame(paid, at, w) && Shuns(paid, at, w, seen) && Lookup(paid, w[0].id).None?
    ensures Shuns(paid, w[0].to, w[1..], seen + {at})
  {
    var rest, to := w[1..], w[0].to;
    forall j | 0 <= j <= |rest| && Unpaid(paid, rest, 0, j) ensures Stop(to, rest, j) !in seen + {at} {
      UnpaidTail(paid, w, 1, j + 1);
      assert Unpaid(paid, w, 0, j + 1);
      StopLater(at, w, j + 1);
      assert Stop(at, w, 0) == at;
    }
  }

  /** Between two payments a walk has fewer steps than there are nodes. */
  lemma {:induction false} TameIsShort(paid: seq<BudgetEntry>, at: Id, w: seq<Edge>, ids: set<Id>, seen: set<Id>)
    requires Tame(paid, at, w) && Shuns(paid, at, w, seen) && seen <= ids
    requires forall i :: 0 <= i <= |w| ==> Stop(at, w, i) in ids
    ensures var k := Execution.BudgetedSteps(paid, w); |w| <= k + (k + 1) * (|ids| - 1) - |seen|
    decreases |w|
  {
    assert Unpaid(paid, w, 0, 0);
    assert Stop(at, w, 0) in ids && at !in seen;
    Smaller(seen + {at}, ids);
    if w != [] {
      TameTail(paid, at, w);
      forall i | 0 <= i <= |w[1..]| ensures Stop(w[0].to, w[1..], i) in ids {
        StopLater(at, w, i + 1);
      }
      var k := Execution.BudgetedSteps(paid, w);
      if Lookup(paid, w[0].id).None? {
        ShunsTail(paid, at, w, seen);
        TameIsShort(paid, w[0].to, w[1..], ids, seen + {at});
      } else {
        TameIsShort(paid, w[0].to, w[1..], ids, {});
        OnePayment(k, |ids| - 1);
      }
    }
  }

  lemma {:induction false} OnePayment(k: nat, top: int)
    ensures (k + 1) * top == k * top + top
  {
  }

  lemma {:induction false} Smaller(a: set<Id>, b: set<Id>)
    requires a <= b
    ensures |a| <= |b|
  {
    if a != {} {
      var x :| x in a;
      Smaller(a - {x}, b - {x});
    }
  }

  // ---------------------------------------------------------------- the budgets that are asked for

  ghost predicate AskedFor(edges: seq<Edge>, b: BudgetEntry) {
    !Inherited(b.edge) && exists e :: e in edges && e.id == b.edge && e.kind == Conditional
  }

  ghost function Asked(edges: seq<Edge>, entries: seq<BudgetEntry>): (r: seq<BudgetEntry>)
    ensures forall b :: b in r <==> b in entries && AskedFor(edges, b)
  {
    if entries == [] then [] else (if AskedFor(edges, entries[0]) then [entries[0]] else []) + Asked(edges, entries[1..])
  }

  lemma {:induction false} AskedIsRecord(edges: seq<Edge>, entries: seq<BudgetEntry>)
    requires IsRecord(entries)
    ensures IsRecord(Asked(edges, entries))
  {
    if entries != [] {
      HeadIsOther(entries);
      AskedIsRecord(edges, entries[1..]);
      var tail := Asked(edges, entries[1..]);
      RecordCons(entries[0], tail);
      assert Asked(edges, entries) == [entries[0]] + tail || Asked(edges, entries) == [] + tail;
    }
  }

  lemma {:induction false} RecordCons(head: BudgetEntry, tail: seq<BudgetEntry>)
    requires IsRecord(tail) && forall b :: b in tail ==> b.edge != head.edge
    ensures IsRecord([head] + tail) && IsRecord([] + tail)
  {
    assert [] + tail == tail;
    var r := [head] + tail;
    forall i, j | 0 <= i < j < |r| ensures r[i].edge != r[j].edge {
      assert r[j] == tail[j - 1];
      if i > 0 {
        assert r[i] == tail[i - 1];
      }
    }
  }

  lemma {:induction false} AskedAddUp(edges: seq<Edge>, entries: seq<BudgetEntry>)
    requires forall b :: b in entries ==> BudgetOk(b.budget)
    ensures TotalBudget(Asked(edges, entries)) <= TotalBudget(entries)
  {
    if entries != [] {
      assert entries[0] in entries && forall b :: b in entries[1..] ==> b in entries;
      AskedAddUp(edges, entries[1..]);
      var tail := Asked(edges, entries[1..]);
      assert ([entries[0]] + tail)[1..] == tail && [] + tail == tail;
    }
  }

  lemma {:induction false} HeadIsOther(entries: seq<BudgetEntry>)
    requires IsRecord(entries) && entries != []
    ensures IsRecord(entries[1..]) && forall b :: b in entries[1..] ==> b.edge != entries[0].edge
  {
    forall b | b in entries[1..] ensures b.edge != entries[0].edge {
      var i :| 0 <= i < |entries[1..]| && entries[1..][i] == b;
      assert entries[i + 1] == b;
    }
  }

  lemma {:induction false} SameEdge(d: Draft, e: Edge, f: Edge)
    requires UniqueIds(d) && e in d.edges && f in d.edges && e.id == f.id
    ensures e == f
  {
    var i :| 0 <= i < |d.edges| && d.edges[i] == e;
    var j :| 0 <= j < |d.edges| && d.edges[j] == f;
  }

  /** The edges that are not free are those with a budget that is asked for. */
  lemma {:induction false} FreeIff(d: Draft, e: Edge)
    requires UniqueIds(d) && e in d.edges
    ensures Free(d, e) <==> Lookup(Asked(d.edges, BudgetsOf(d)), e.id).None?
  {
    var all := BudgetsOf(d);
    if !Free(d, e) {
      var b := BudgetEntry(e.id, Lookup(all, e.id).value);
      assert AskedFor(d.edges, b) && b in Asked(d.edges, all);
    }
    if Lookup(Asked(d.edges, all), e.id).Some? {
      var b := BudgetEntry(e.id, Lookup(Asked(d.edges, all), e.id).value);
      var f :| f in d.edges && f.id == b.edge && f.kind == Conditional;
      SameEdge(d, e, f);
    }
  }

  // ---------------------------------------------------------------- runs pay what they are asked for

  /** The contract of the draft, as far as moving on goes. */
  ghost predicate Speaks(k: Contract, d: Draft) {
    && UniqueIds(d) && Budgeted(d) && IsRecord(BudgetsOf(d)) && Keeps(BudgetsOf(d), k.loopBudgets)
    && (forall e :: e in k.edges <==> e in d.edges)
    && (forall at :: |OutEdges(k.edges, at, Conditional)| <= 1 && |OutEdges(k.edges, at, Default)| <= 1)
    && (forall e :: e in d.edges && e.kind == Conditional ==> e.condition.Some?)
  }

  lemma {:induction false} BudgetIsWhole(d: Draft, id: Id)
    requires Budgeted(d) && IsRecord(BudgetsOf(d)) && Lookup(BudgetsOf(d), id).Some?
    ensures Lookup(BudgetsOf(d), id).value.Whole? && Lookup(BudgetsOf(d), id).value.count >= 0
  {
    var b := BudgetEntry(id, Lookup(BudgetsOf(d), id).value);
    assert b in BudgetsOf(d) && BudgetOk(b.budget);
  }

  lemma {:induction false} KeptIff(all: seq<BudgetEntry>, kept: seq<BudgetEntry>, id: Id)
    requires Keeps(all, kept)
    ensures Lookup(kept, id) == if id == PROTO then None else Lookup(all, id)
  {
    if Lookup(all, id).Some? {
      KeptBudget(all, kept, BudgetEntry(id, Lookup(all, id).value));
    }
    if Lookup(kept, id).Some? {
      assert BudgetEntry(id, Lookup(kept, id).value) in all;
    }
  }

  /** The orchestrator asks for the budget of an edge that is not free, and it is the draft's. */
  lemma {:induction false} AsksIff(k: Contract, d: Draft, e: Edge)
    requires Speaks(k, d) && e in d.edges
    ensures !Free(d, e) ==> Lookup(k.loopBudgets, e.id) == Lookup(BudgetsOf(d), e.id) && Lookup(BudgetsOf(d), e.id).value.Whole?
    ensures Free(d, e) && e.kind == Conditional && !Inherited(e.id) ==> Lookup(k.loopBudgets, e.id).None?
  {
    KeptIff(BudgetsOf(d), k.loopBudgets, e.id);
    if Lookup(BudgetsOf(d), e.id).Some? {
      BudgetIsWhole(d, e.id);
    }
  }

  lemma {:induction false} UnspentAtFirst(budgets: seq<BudgetEntry>, id: Id)
    requires Lookup(budgets, id).Some? ==> Lookup(budgets, id).value.Whole? && Lookup(budgets, id).value.count >= 0
    ensures Unspent(budgets, map[], id) <==> Lookup(budgets, id) != Some(Whole(0))
  {
  }

  /** Before any other edge, it takes exactly the edges that start a run. */
  lemma {:induction false} StartsIff(k: Contract, d: Draft, e: Edge)
    requires Speaks(k, d) && e in d.edges
    ensures Starts(d, e) <==> e.kind == Default || Unspent(k.loopBudgets, map[], e.id)
  {
    KeptIff(BudgetsOf(d), k.loopBudgets, e.id);
    if Lookup(BudgetsOf(d), e.id).Some? {
      BudgetIsWhole(d, e.id);
    }
    UnspentAtFirst(k.loopBudgets, e.id);
  }

  lemma {:induction false} MoveAsks(k: Contract, d: Draft, at: Id, uses: Uses, out: Output)
    requires Speaks(k, d) && NextMove(k, at, uses, out).Along?
    ensures var e := NextMove(k, at, uses, out).edge;
            e in d.edges && Open(d, e)
            && (!Free(d, e) ==> Lookup(BudgetsOf(d), e.id).value.Whole? && UsesOf(uses, e.id) < Lookup(BudgetsOf(d), e.id).value.count)
  {
    MoveIsEdge(k, at, uses, out);
    AsksIff(k, d, NextMove(k, at, uses, out).edge);
  }

  lemma {:induction false} TraceIsOpen(k: Contract, d: Draft, at: Id, uses: Uses, outs: seq<Output>)
    requires Speaks(k, d)
    ensures AllOpen(d, Trace(k, at, uses, outs))
    decreases |outs|
  {
    if Trace(k, at, uses, outs) != [] {
      var e := NextMove(k, at, uses, outs[0]).edge;
      MoveAsks(k, d, at, uses, outs[0]);
      TraceIsOpen(k, d, e.to, Used(uses, e.id), outs[1..]);
      TraceStep(k, at, uses, outs, e);
      OpenStep(d, e, Trace(k, e.to, Used(uses, e.id), outs[1..]));
    }
  }

  lemma {:induction false} TraceStarts(k: Contract, d: Draft, at: Id, outs: seq<Output>)
    requires Speaks(k, d)
    ensures var w := Trace(k, at, map[], outs); w != [] ==> Starts(d, w[0])
  {
    if Trace(k, at, map[], outs) != [] {
      MoveIsEdge(k, at, map[], outs[0]);
      StartsIff(k, d, NextMove(k, at, map[], outs[0]).edge);
    }
  }

  lemma {:induction false} OpenStep(d: Draft, e: Edge, rest: seq<Edge>)
    requires Open(d, e) && AllOpen(d, rest)
    ensures AllOpen(d, [e] + rest)
  {
  }

  lemma {:induction false} AskedIsPaid(k: Contract, d: Draft, at: Id, uses: Uses, outs: seq<Output>, b: BudgetEntry)
    requires Speaks(k, d) && b in Asked(d.edges, BudgetsOf(d)) && b.budget.Whole? && UsesOf(uses, b.edge) <= b.budget.count
    ensures UsesOf(uses, b.edge) + Crossings(Trace(k, at, uses, outs), b.edge) <= b.budget.count
    decreases |outs|
  {
    if Trace(k, at, uses, outs) != [] {
      var e := NextMove(k, at, uses, outs[0]).edge;
      MoveAsks(k, d, at, uses, outs[0]);
      EntryIsAsked(d, e, b);
      TraceStep(k, at, uses, outs, e);
      CrossingsStep(e, Trace(k, e.to, Used(uses, e.id), outs[1..]), b.edge);
      UsedOnce(uses, e.id, b.edge);
      AskedIsPaid(k, d, e.to, Used(uses, e.id), outs[1..], b);
    }
  }

  lemma {:induction false} EntryIsAsked(d: Draft, e: Edge, b: BudgetEntry)
    requires UniqueIds(d) && IsRecord(BudgetsOf(d)) && e in d.edges && b in Asked(d.edges, BudgetsOf(d))
    ensures e.id == b.edge ==> !Free(d, e) && Lookup(BudgetsOf(d), e.id) == Some(b.budget)
  {
    FreeIff(d, e);
    LookupRecord(BudgetsOf(d), b);
  }

  /** A walk from the root that comes back to a node unpaid has found a free loop. */
  lemma {:induction false} UnpaidReturn(d: Draft, w: seq<Edge>, b: Id, i: nat, j: nat)
    requires UniqueIds(d) && IsPath(d.edges, RootOf(d).GetOr(""), w, b) && AllOpen(d, w)
    requires i < j <= |w| && Unpaid(Asked(d.edges, BudgetsOf(d)), w, i, j)
    requires Stop(RootOf(d).GetOr(""), w, i) == Stop(RootOf(d).GetOr(""), w, j) && Starts(d, w[0])
    ensures HasFreeLoop(d)
  {
    var root := RootOf(d).GetOr("");
    PathBetween(d.edges, root, w, b, 0, i);
    PathBetween(d.edges, root, w, b, i, j);
    UnpaidIsFree(d, root, w, b, i, j);
    OpenPrefix(d, w, i);
    assert w[0..i] == w[..i] && (w[..i] + w[i..j])[0] == w[0];
    assert FreeLoop(d, w[..i], Stop(root, w, i), w[i..j]);
  }

  /** Without a free loop no walk comes back to a node unpaid. */
  lemma {:induction false} OpenIsTame(d: Draft, paid: seq<BudgetEntry>, root: Id, w: seq<Edge>, b: Id)
    requires UniqueIds(d) && !HasFreeLoop(d) && root == RootOf(d).GetOr("") && paid == Asked(d.edges, BudgetsOf(d))
    requires IsPath(d.edges, root, w, b) && AllOpen(d, w) && (w != [] ==> Starts(d, w[0]))
    ensures Tame(paid, root, w)
  {
    forall i, j | 0 <= i < j <= |w| && Unpaid(paid, w, i, j) ensures Stop(root, w, i) != Stop(root, w, j) {
      if Stop(root, w, i) == Stop(root, w, j) {
        UnpaidReturn(d, w, b, i, j);
      }
    }
  }

  lemma {:induction false} OpenPrefix(d: Draft, w: seq<Edge>, i: nat)
    requires AllOpen(d, w) && i <= |w|
    ensures AllOpen(d, w[..i])
  {
  }

  lemma {:induction false} UnpaidIsFree(d: Draft, at: Id, w: seq<Edge>, b: Id, i: nat, j: nat)
    requires UniqueIds(d) && IsPath(d.edges, at, w, b) && i <= j <= |w| && Unpaid(Asked(d.edges, BudgetsOf(d)), w, i, j)
    ensures AllFree(d, w[i..j])
  {
    forall m | 0 <= m < |w[i..j]| ensures Free(d, w[i..j][m]) {
      assert w[i..j][m] == w[i + m];
      PathParts(d.edges, at, w, b, i + m);
      FreeIff(d, w[i + m]);
    }
  }

  lemma {:induction false} TraceInDraft(k: Contract, d: Draft, at: Id, uses: Uses, outs: seq<Output>)
    requires Speaks(k, d)
    ensures EndsSomewhere(d.edges, at, Trace(k, at, uses, outs))
  {
    var w := Trace(k, at, uses, outs);
    TraceIsPath(k, at, uses, outs);
    var b :| IsPath(k.edges, at, w, b);
    ContractOrder.PathKept(k.edges, d.edges, at, w, b);
  }

  /** A run pays no more than the budgets add up to. */
  lemma {:induction false} PaysWithin(k: Contract, d: Draft, root: Id, outs: seq<Output>)
    requires Speaks(k, d)
    ensures Execution.BudgetedSteps(Asked(d.edges, BudgetsOf(d)), Trace(k, root, map[], outs)) <= TotalBudget(BudgetsOf(d))
  {
    var w, paid := Trace(k, root, map[], outs), Asked(d.edges, BudgetsOf(d));
    assert forall b :: b in BudgetsOf(d) ==> BudgetOk(b.budget);
    AskedIsRecord(d.edges, BudgetsOf(d));
    AskedAddUp(d.edges, BudgetsOf(d));
    forall b | b in paid && b.budget.Whole? ensures Crossings(w, b.edge) <= b.budget.count {
      assert BudgetOk(b.budget);
      AskedIsPaid(k, d, root, map[], outs, b);
    }
    Execution.CountedTwice(paid, w);
    Execution.SumWithinBudget(paid, w);
  }

  lemma {:induction false} LooplessWalkEnds(d: Draft, root: Id, w: seq<Edge>, b: Id)
    requires UniqueIds(d) && Budgeted(d) && !HasFreeLoop(d) && root == RootOf(d).GetOr("") && root in NodeIds(d.nodes)
    requires IsPath(d.edges, root, w, b) && AllOpen(d, w) && (w != [] ==> Starts(d, w[0]))
    requires Execution.BudgetedSteps(Asked(d.edges, BudgetsOf(d)), w) <= TotalBudget(BudgetsOf(d))
    ensures |w| <= Bound(TotalBudget(BudgetsOf(d)), |d.nodes|)
  {
    OpenIsTame(d, Asked(d.edges, BudgetsOf(d)), root, w, b);
    StopsAreNodes(d, root, w, b);
    ShortEnough(Asked(d.edges, BudgetsOf(d)), root, w, d.nodes, TotalBudget(BudgetsOf(d)));
  }

  /** Without a free loop every run ends within the bound. */
  lemma {:induction false} LooplessRunsEnd(k: Contract, d: Draft, root: Id, outs: seq<Output>)
    requires Speaks(k, d) && !HasFreeLoop(d) && root == RootOf(d).GetOr("") && root in NodeIds(d.nodes)
    ensures |Trace(k, root, map[], outs)| <= Bound(TotalBudget(BudgetsOf(d)), |d.nodes|)
  {
    TraceInDraft(k, d, root, map[], outs);
    var b :| IsPath(d.edges, root, Trace(k, root, map[], outs), b);
    TraceIsOpen(k, d, root, map[], outs);
    TraceStarts(k, d, root, outs);
    PaysWithin(k, d, root, outs);
    LooplessWalkEnds(d, root, Trace(k, root, map[], outs), b);
  }

  lemma {:induction false} ShortEnough(paid: seq<BudgetEntry>, at: Id, w: seq<Edge>, nodes: seq<Node>, total: int)
    requires Tame(paid, at, w) && Execution.BudgetedSteps(paid, w) <= total
    requires forall i :: 0 <= i <= |w| ==> Stop(at, w, i) in NodeIds(nodes)
    ensures |w| <= Bound(total, |nodes|)
  {
    var ids := NodeIds(nodes);
    TameIsShort(paid, at, w, ids, {});
    IdsFit(nodes);
    assert Stop(at, w, 0) in ids;
    BoundGrows(Execution.BudgetedSteps(paid, w), total, |ids| - 1, |nodes| - 1);
  }

  lemma {:induction false} BoundGrows(k: nat, total: int, top: int, most: int)
    requires k <= total && 0 <= top <= most
    ensures k + (k + 1) * top <= total + (total + 1) * most
  {
    assert (k + 1) * top <= (total + 1) * top <= (total + 1) * most;
  }

  lemma {:induction false} IdsFit(nodes: seq<Node>)
    ensures |NodeIds(nodes)| <= |nodes|
  {
    if nodes != [] {
      IdsFit(nodes[1..]);
      assert NodeIds(nodes) == {nodes[0].id} + NodeIds(nodes[1..]) by {
        assert nodes == [nodes[0]] + nodes[1..];
      }
    }
  }

  lemma {:induction false} StopsAreNodes(d: Draft, root: Id, w: seq<Edge>, b: Id)
    requires Budgeted(d) && root in NodeIds(d.nodes) && IsPath(d.edges, root, w, b)
    ensures forall i :: 0 <= i <= |w| ==> Stop(root, w, i) in NodeIds(d.nodes)
  {
    forall i | 0 <= i <= |w| ensures Stop(root, w, i) in NodeIds(d.nodes) {
      if i > 0 {
        PathParts(d.edges, root, w, b, i - 1);
        EndIsNode(d, w[i - 1]);
      }
    }
  }

  lemma {:induction false} EndIsNode(d: Draft, e: Edge)
    requires Budgeted(d) && e in d.edges
    ensures e.to in NodeIds(d.nodes)
  {
  }

  // ---------------------------------------------------------------- a walk that can be afforded is a run

  ghost predicate Affords(d: Draft, uses: Uses, q: seq<Edge>) {
    forall e :: e in q && !Free(d, e) ==> Payable(d, uses, e.id, Crossings(q, e.id))
  }

  ghost predicate Payable(d: Draft, uses: Uses, id: Id, times: nat) {
    var budget := Lookup(BudgetsOf(d), id);
    budget.Some? && budget.value.Whole? && UsesOf(uses, id) + times <= budget.value.count
  }

  lemma {:induction false} AffordsTail(d: Draft, uses: Uses, q: seq<Edge>)
    requires q != [] && Affords(d, uses, q)
    ensures Affords(d, Used(uses, q[0].id), q[1..])
  {
    forall e | e in q[1..] && !Free(d, e) ensures Payable(d, Used(uses, q[0].id), e.id, Crossings(q[1..], e.id)) {
      assert e in q;
      UsedOnce(uses, q[0].id, e.id);
    }
  }

  lemma {:induction false} CanAfford(k: Contract, d: Draft, uses: Uses, e: Edge, q: seq<Edge>)
    requires Speaks(k, d) && e in d.edges && q != [] && q[0] == e && Affords(d, uses, q) && (uses == map[] ==> Starts(d, e))
    ensures e.kind == Conditional ==> Unspent(k.loopBudgets, uses, e.id)
  {
    AsksIff(k, d, e);
    StartsIff(k, d, e);
    if !Free(d, e) {
      assert e in q && Crossings(q, e.id) >= 1;
    }
  }

  lemma {:induction false} Follow(k: Contract, d: Draft, at: Id, uses: Uses, q: seq<Edge>, b: Id) returns (outs: seq<Output>)
    requires Speaks(k, d) && IsPath(d.edges, at, q, b) && Affords(d, uses, q)
    requires uses == map[] && q != [] ==> Starts(d, q[0])
    ensures Trace(k, at, uses, outs) == q
    decreases |q|
  {
    if q == [] {
      outs := [];
    } else {
      var out := FirstOutput(k, d, at, uses, q);
      AffordsTail(d, uses, q);
      var rest := Follow(k, d, q[0].to, Used(uses, q[0].id), q[1..], b);
      outs := [out] + rest;
      FirstMove(k, at, uses, out, rest, q);
    }
  }

  lemma {:induction false} FirstOutput(k: Contract, d: Draft, at: Id, uses: Uses, q: seq<Edge>) returns (out: Output)
    requires Speaks(k, d) && q != [] && q[0] in d.edges && q[0].from == at && Affords(d, uses, q)
    requires uses == map[] ==> Starts(d, q[0])
    ensures NextMove(k, at, uses, out) == Along(q[0])
  {
    CanAfford(k, d, uses, q[0], q);
    out := CanTake(k, at, uses, q[0]);
  }

  lemma {:induction false} FirstMove(k: Contract, at: Id, uses: Uses, out: Output, rest: seq<Output>, q: seq<Edge>)
    requires q != [] && NextMove(k, at, uses, out) == Along(q[0]) && Trace(k, q[0].to, Used(uses, q[0].id), rest) == q[1..]
    ensures Trace(k, at, uses, [out] + rest) == q
  {
    assert ([out] + rest)[1..] == rest;
    TraceStep(k, at, uses, [out] + rest, q[0]);
  }

  // ---------------------------------------------------------------- a way to the loop, and then round it

  /** It comes back to no node, except to the first, and does not take its first edge again. */
  ghost predicate Simple(at: Id, q: seq<Edge>) {
    && (forall i, j :: 1 <= i < j <= |q| ==> Stop(at, q, i) != Stop(at, q, j))
    && (forall i :: 1 <= i < |q| ==> q[i] != q[0])
  }

  ghost predicate SameStart(p: seq<Edge>, q: seq<Edge>) {
    (p == [] <==> q == []) && (p != [] ==> q[0] == p[0])
  }

  /** A way without detours, with the same first edge. */
  lemma {:induction false} SimpleWay(d: Draft, at: Id, p: seq<Edge>, b: Id) returns (q: seq<Edge>)
    requires IsPath(d.edges, at, p, b) && AllOpen(d, p)
    ensures IsPath(d.edges, at, q, b) && AllOpen(d, q) && Simple(at, q) && SameStart(p, q)
    decreases |p|
  {
    if i :| 1 <= i < |p| && p[i] == p[0] {
      var shorter := From(d, at, p, b, i);
      q := SimpleWay(d, at, shorter, b);
    } else if i, j :| 1 <= i < j <= |p| && Stop(at, p, i) == Stop(at, p, j) {
      var shorter := Without(d, at, p, b, i, j);
      q := SimpleWay(d, at, shorter, b);
    } else {
      q := p;
    }
  }

  /** Beginning where the first edge is taken again. */
  lemma {:induction false} From(d: Draft, at: Id, p: seq<Edge>, b: Id, i: nat) returns (q: seq<Edge>)
    requires IsPath(d.edges, at, p, b) && AllOpen(d, p) && 1 <= i < |p| && p[i] == p[0]
    ensures IsPath(d.edges, at, q, b) && AllOpen(d, q) && |q| < |p| && SameStart(p, q)
  {
    PathBetween(d.edges, at, p, b, i, |p|);
    PathEnds(d.edges, at, p, b);
    PathParts(d.edges, at, p, b, i);
    PathParts(d.edges, at, p, b, 0);
    q := p[i..|p|];
  }

  lemma {:induction false} Without(d: Draft, at: Id, p: seq<Edge>, b: Id, i: nat, j: nat) returns (q: seq<Edge>)
    requires IsPath(d.edges, at, p, b) && AllOpen(d, p) && 1 <= i < j <= |p| && Stop(at, p, i) == Stop(at, p, j)
    ensures IsPath(d.edges, at, q, b) && AllOpen(d, q) && |q| < |p| && SameStart(p, q)
  {
    PathBetween(d.edges, at, p, b, 0, i);
    PathBetween(d.edges, at, p, b, j, |p|);
    PathEnds(d.edges, at, p, b);
    PathJoin(d.edges, at, p[0..i], Stop(at, p, i), p[j..|p|], b);
    q := p[0..i] + p[j..|p|];
    assert q[0] == p[0];
  }

  /** Such a way crosses no edge twice. */
  lemma {:induction false} SimpleCrossesOnce(d: Draft, at: Id, q: seq<Edge>, b: Id, id: Id)
    requires UniqueIds(d) && IsPath(d.edges, at, q, b) && Simple(at, q)
    ensures Crossings(q, id) <= 1
  {
    forall i, j | 0 <= i < j < |q| ensures q[i].id != q[j].id {
      PathParts(d.edges, at, q, b, i);
      PathParts(d.edges, at, q, b, j);
      assert i >= 1 ==> Stop(at, q, i) != Stop(at, q, j);
      if q[i].id == q[j].id {
        SameEdge(d, q[i], q[j]);
      }
    }
    OnceEach(q, id);
  }

  lemma {:induction false} OnceEach(q: seq<Edge>, id: Id)
    requires forall i, j :: 0 <= i < j < |q| ==> q[i].id != q[j].id
    ensures Crossings(q, id) <= 1
  {
    if q != [] {
      if q[0].id == id {
        NeverCrosses(q[1..], id);
      } else {
        OnceEach(q[1..], id);
      }
    }
  }

  lemma {:induction false} NeverCrosses(q: seq<Edge>, id: Id)
    requires forall i :: 0 <= i < |q| ==> q[i].id != id
    ensures Crossings(q, id) == 0
  {
    if q != [] {
      NeverCrosses(q[1..], id);
    }
  }

  lemma {:induction false} CrossingsJoin(p: seq<Edge>, q: seq<Edge>, id: Id)
    ensures Crossings(p + q, id) == Crossings(p, id) + Crossings(q, id)
  {
    if p == [] {
      assert p + q == q;
    } else {
      CrossingsJoin(p[1..], q, id);
      assert (p + q)[1..] == p[1..] + q;
    }
  }

  ghost function Turns(w: seq<Edge>, m: nat): (r: seq<Edge>)
    ensures w != [] ==> |r| >= m
  {
    if m == 0 then [] else w + Turns(w, m - 1)
  }

  lemma {:induction false} TurnsAround(d: Draft, x: Id, w: seq<Edge>, m: nat)
    requires IsPath(d.edges, x, w, x) && AllFree(d, w)
    ensures IsPath(d.edges, x, Turns(w, m), x) && AllFree(d, Turns(w, m))
  {
    if m > 0 {
      TurnsAround(d, x, w, m - 1);
      PathJoin(d.edges, x, w, x, Turns(w, m - 1), x);
    }
  }

  lemma {:induction false} FreeIsFree(d: Draft, t: seq<Edge>)
    requires AllFree(d, t)
    ensures forall e :: e in t ==> Free(d, e)
  {
  }

  /** A way without detours, and then a free walk, can be afforded. */
  lemma {:induction false} WayIsAffordable(d: Draft, at: Id, q: seq<Edge>, x: Id, t: seq<Edge>, b: Id)
    requires UniqueIds(d) && Budgeted(d) && IsRecord(BudgetsOf(d))
    requires IsPath(d.edges, at, q, x) && AllOpen(d, q) && Simple(at, q) && IsPath(d.edges, x, t, b) && AllFree(d, t)
    ensures Affords(d, map[], q + t)
  {
    forall e | e in q + t && !Free(d, e) ensures Payable(d, map[], e.id, Crossings(q + t, e.id)) {
      FreeIsFree(d, t);
      assert e in q && Open(d, e);
      SimpleCrossesOnce(d, at, q, x, e.id);
      CrossingsJoin(q, t, e.id);
      FreeAvoids(d, q, at, x, t, b, e);
      OpenIsPayable(d, e);
    }
  }

  lemma {:induction false} FreeAvoids(d: Draft, q: seq<Edge>, at: Id, x: Id, t: seq<Edge>, b: Id, e: Edge)
    requires UniqueIds(d) && IsPath(d.edges, at, q, x) && IsPath(d.edges, x, t, b) && AllFree(d, t) && e in q && !Free(d, e)
    ensures Crossings(t, e.id) == 0 && e in d.edges
  {
    var i :| 0 <= i < |q| && q[i] == e;
    PathParts(d.edges, at, q, x, i);
    forall j | 0 <= j < |t| ensures t[j].id != e.id {
      PathParts(d.edges, x, t, b, j);
      if t[j].id == e.id {
        SameEdge(d, t[j], e);
      }
    }
    NeverCrosses(t, e.id);
  }

  lemma {:induction false} OpenIsPayable(d: Draft, e: Edge)
    requires Budgeted(d) && IsRecord(BudgetsOf(d)) && Open(d, e) && !Free(d, e)
    ensures Payable(d, map[], e.id, 1)
  {
    assert BudgetEntry(e.id, Lookup(BudgetsOf(d), e.id).value) in BudgetsOf(d);
  }

  lemma {:induction false} FirstOfBoth(p: seq<Edge>, q: seq<Edge>, w: seq<Edge>, m: nat)
    requires SameStart(p, q) && w != []
    ensures q + Turns(w, m) != [] ==> (q + Turns(w, m))[0] == (p + w)[0]
  {
    if q == [] && m > 0 {
      assert Turns(w, m) == w + Turns(w, m - 1);
    }
  }

  lemma {:induction false} LoopRunsOn(k: Contract, d: Draft, m: nat)
    requires Speaks(k, d) && HasFreeLoop(d) && k.rootNodeId == RootOf(d).GetOr("")
    ensures RunsFor(k, m)
  {
    var p, x, w :| FreeLoop(d, p, x, w);
    var q := SimpleWay(d, k.rootNodeId, p, x);
    TurnsAround(d, x, w, m);
    WayIsAffordable(d, k.rootNodeId, q, x, Turns(w, m), x);
    PathJoin(d.edges, k.rootNodeId, q, x, Turns(w, m), x);
    FirstOfBoth(p, q, w, m);
    var outs := Follow(k, d, k.rootNodeId, map[], q + Turns(w, m), x);
  }

  // ---------------------------------------------------------------- the condition

  lemma {:induction false} ContractSpeaks(c: Collation, digest: Contract -> string, d: Draft, policy: Policy)
    requires ContractOrder.Orders(c) && Compilable(d, policy) && IsRecord(BudgetsOf(d))
    ensures var k := Assemble(c, digest, d, policy).contract;
            Speaks(k, d) && k.rootNodeId == RootOf(d).GetOr("") && k.rootNodeId in NodeIds(d.nodes)
  {
    var k := Assemble(c, digest, d, policy).contract;
    CompiledShape(d, policy);
    ContractHolds(c, digest, d, policy);
    ConditionsSet(d, policy);
    Sorting.SamePool(k.edges, d.edges);
    forall at ensures |OutEdges(k.edges, at, Conditional)| <= 1 && |OutEdges(k.edges, at, Default)| <= 1 {
      SameOut(d, k.edges, at);
    }
  }

  ghost predicate RunsWithin(k: Contract, most: int) {
    forall outs :: |Trace(k, k.rootNodeId, map[], outs)| <= most
  }

  lemma {:induction false} TooLong(k: Contract, most: int)
    requires RunsFor(k, if most < 0 then 0 else most + 1)
    ensures !RunsWithin(k, most)
  {
  }

  lemma {:induction false} EndsIff(k: Contract, d: Draft)
    requires Speaks(k, d) && k.rootNodeId == RootOf(d).GetOr("") && k.rootNodeId in NodeIds(d.nodes)
    ensures RunsWithin(k, Bound(TotalBudget(BudgetsOf(d)), |d.nodes|)) <==> !HasFreeLoop(d)
  {
    var most := Bound(TotalBudget(BudgetsOf(d)), |d.nodes|);
    if HasFreeLoop(d) {
      LoopRunsOn(k, d, if most < 0 then 0 else most + 1);
      TooLong(k, most);
    } else {
      forall outs ensures |Trace(k, k.rootNodeId, map[], outs)| <= most {
        LooplessRunsEnd(k, d, k.rootNodeId, outs);
      }
    }
  }

  /** Every run of a compiled workflow, whatever its nodes hand over, ends within the bound if and only if no
      edges that can be taken lead to a cycle of edges whose budgets are not asked for; if some do, there are
      runs of every length. */
  lemma {:induction false} RunsEndIff(c: Collation, digest: Contract -> string, d: Draft, policy: Policy)
    requires ContractOrder.Orders(c) && Compilable(d, policy) && IsRecord(BudgetsOf(d))
    ensures var k := Assemble(c, digest, d, policy).contract;
            && (RunsWithin(k, Bound(TotalBudget(BudgetsOf(d)), |d.nodes|)) <==> !HasFreeLoop(d))
            && (HasFreeLoop(d) ==> forall m: nat :: RunsFor(k, m))
  {
    var k := Assemble(c, digest, d, policy).contract;
    ContractSpeaks(c, digest, d, policy);
    EndsIff(k, d);
    if HasFreeLoop(d) {
      forall m: nat ensures RunsFor(k, m) {
        LoopRunsOn(k, d, m);
      }
    }
  }
}
