/** The contract of compileP2pWorkflowDraft (shared/p2p-workflow-compiler.ts:44-68) as a canonical
    form: it forgets in which order a draft lists its parts, and nothing else. */
module ContractOrder {
  import opened Workflow
  import opened Compiler
  import opened Contract
  import Sorting

  // ---------------------------------------------------------------- the contract forgets order

  /** Both ways of comparing strings are orders; localeCompare may tie different strings. */
  ghost predicate Orders(c: Collation) {
    Sorting.TotalPreorder(c.locale) && Sorting.TotalOrder(c.units)
  }

  /** Among the parts of the draft, localeCompare ties no two. */
  ghost predicate NothingTies(c: Collation, d: Draft) {
    && Sorting.NoTies(Sorting.By(c.locale, NodeKey), d.nodes)
    && Sorting.NoTies(Sorting.By(c.locale, EdgeKey), d.edges)
    && Sorting.NoTies(Sorting.By(c.locale, VariableKey), d.variables)
  }

  ghost predicate SameUpToOrder(d: Draft, e: Draft) {
    && d.id == e.id && d.root == e.root
    && multiset(d.nodes) == multiset(e.nodes) && multiset(d.edges) == multiset(e.edges)
    && multiset(d.variables) == multiset(e.variables) && multiset(BudgetsOf(d)) == multiset(BudgetsOf(e))
  }

  lemma {:induction false} SameRoot(d: Draft, e: Draft)
    requires SameUpToOrder(d, e) && RootOf(d).Some? && RootOf(e).Some?
    ensures RootOf(d) == RootOf(e)
  {
    Sorting.SamePool(d.nodes, e.nodes);
    Sorting.SamePool(d.edges, e.edges);
    assert NodeIds(d.nodes) == NodeIds(e.nodes) && Targets(d.edges) == Targets(e.edges);
    if d.root.None? {
      OneSource(d.nodes, d.edges, e.nodes, e.edges);
    }
  }

  lemma {:induction false} OneSource(m: seq<Node>, s: seq<Edge>, n: seq<Node>, t: seq<Edge>)
    requires NodeIds(m) == NodeIds(n) && Targets(s) == Targets(t) && |Sources(m, s)| == |Sources(n, t)| == 1
    ensures Sources(m, s) == Sources(n, t)
  {
    assert Sources(m, s)[0] in Sources(n, t);
  }

  lemma {:induction false} SameAuthority(unitLe: (string, string) -> bool, d: Draft, e: Draft, n: Node)
    requires multiset(d.edges) == multiset(e.edges) && Routed(d) && Routed(e)
    requires DistinctEdges(d.edges) && DistinctEdges(e.edges)
    ensures DeriveAuthority(unitLe, n, d.edges) == DeriveAuthority(unitLe, n, e.edges)
  {
    Sorting.SamePool(d.edges, e.edges);
    var p, q := OutEdges(d.edges, n.id, Conditional), OutEdges(e.edges, n.id, Conditional);
    assert |p| <= 1 by { AtMostOne(d.edges, n.id, Conditional); }
    assert |q| <= 1 by { AtMostOne(e.edges, n.id, Conditional); }
    assert p == q by {
      if p != [] { assert p[0] in q; }
      if q != [] { assert q[0] in p; }
    }
  }

  lemma {:induction false} SameSort<T(!new)>(le: (string, string) -> bool, key: T -> string, s: seq<T>, t: seq<T>)
    requires Sorting.TotalPreorder(le) && Sorting.NoTies(Sorting.By(le, key), s) && multiset(s) == multiset(t)
    ensures Sorting.Sort(Sorting.By(le, key), s) == Sorting.Sort(Sorting.By(le, key), t)
  {
    Sorting.ByPreorder(le, key);
    Sorting.SortForgetsOrder(Sorting.By(le, key), s, t);
  }

  lemma {:induction false} RecordHasNoTies(c: Collation, entries: seq<BudgetEntry>)
    requires Sorting.TotalOrder(c.units) && IsRecord(entries)
    ensures Sorting.NoTies(Sorting.By(c.units, BudgetKey), entries)
  {
    Sorting.ByNoTies(c.units, BudgetKey, entries);
  }

  ghost predicate SameSorts(c: Collation, d: Draft, e: Draft) {
    && Sorting.Sort(Sorting.By(c.locale, NodeKey), d.nodes) == Sorting.Sort(Sorting.By(c.locale, NodeKey), e.nodes)
    && Sorting.Sort(Sorting.By(c.locale, EdgeKey), d.edges) == Sorting.Sort(Sorting.By(c.locale, EdgeKey), e.edges)
    && Sorting.Sort(Sorting.By(c.locale, VariableKey), d.variables) == Sorting.Sort(Sorting.By(c.locale, VariableKey), e.variables)
  }

  /** Parts that localeCompare ties stand in the same order in both drafts. */
  ghost predicate TiesInOrder(c: Collation, d: Draft, e: Draft) {
    && Sorting.SameTies(Sorting.By(c.locale, NodeKey), d.nodes, e.nodes)
    && Sorting.SameTies(Sorting.By(c.locale, EdgeKey), d.edges, e.edges)
    && Sorting.SameTies(Sorting.By(c.locale, VariableKey), d.variables, e.variables)
  }

  lemma {:induction false} TiesDecideSorts(c: Collation, d: Draft, e: Draft)
    requires Orders(c)
    ensures SameSorts(c, d, e) <==> TiesInOrder(c, d, e)
  {
    Sorting.TiesDecideSortBy(c.locale, NodeKey, d.nodes, e.nodes);
    Sorting.TiesDecideSortBy(c.locale, EdgeKey, d.edges, e.edges);
    Sorting.TiesDecideSortBy(c.locale, VariableKey, d.variables, e.variables);
  }

  /** A list is known by its pool and the order of its keys. */
  lemma {:induction false} SameByKey<T(!new)>(key: T -> string, s: seq<T>, t: seq<T>)
    requires multiset(s) == multiset(t) && forall i, j :: 0 <= i < j < |s| ==> key(s[i]) != key(s[j])
    requires forall i :: 0 <= i < |s| && i < |t| ==> key(s[i]) == key(t[i])
    ensures s == t
  {
    Sorting.SamePool(s, t);
    forall i | 0 <= i < |s| ensures s[i] == t[i] {
      assert t[i] in s;
      var k :| 0 <= k < |s| && s[k] == t[i];
      assert key(s[k]) == key(s[i]);
    }
  }

  lemma {:induction false} ContractNodesKeepOrder(c: Collation, s: seq<Node>, t: seq<Node>, edges: seq<Edge>, others: seq<Edge>)
    requires multiset(s) == multiset(t) && (forall i, j :: 0 <= i < j < |s| ==> s[i].id != s[j].id)
    requires CompileNodes(c, s, edges) == CompileNodes(c, t, others)
    ensures s == t
  {
    var a, b := CompileNodes(c, s, edges), CompileNodes(c, t, others);
    forall i | 0 <= i < |s| && i < |t| ensures NodeKey(s[i]) == NodeKey(t[i]) {
      assert a[i].id == s[i].id && b[i].id == t[i].id;
    }
    assert forall i, j :: 0 <= i < j < |s| ==> NodeKey(s[i]) != NodeKey(s[j]);
    SameByKey(NodeKey, s, t);
  }

  /** Two drafts that list the same parts in different orders, and both compile, have the same contract
      and the same contract hash exactly when parts that localeCompare ties stand in the same order. */
  lemma {:induction false} OrderForgottenIff(c: Collation, digest: Contract -> string, d: Draft, e: Draft, policy: Policy)
    requires Orders(c) && SameUpToOrder(d, e) && IsRecord(BudgetsOf(d))
    requires Compilable(d, policy) && Compilable(e, policy)
    ensures Assemble(c, digest, d, policy) == Assemble(c, digest, e, policy) <==> TiesInOrder(c, d, e)
  {
    TiesDecideSorts(c, d, e);
    if SameSorts(c, d, e) {
      SameSortsSameContract(c, digest, d, e, policy);
    }
    if Assemble(c, digest, d, policy) == Assemble(c, digest, e, policy) {
      SameContractSameSorts(c, digest, d, e, policy);
    }
  }

  lemma {:induction false} SameContractSameSorts(c: Collation, digest: Contract -> string, d: Draft, e: Draft, policy: Policy)
    requires SameUpToOrder(d, e) && Compilable(d, policy)
    requires Assemble(c, digest, d, policy) == Assemble(c, digest, e, policy)
    ensures SameSorts(c, d, e)
  {
    var le := Sorting.By(c.locale, NodeKey);
    CompiledShape(d, policy);
    var s := Sorting.Sort(le, d.nodes);
    NodeIdsStayApart(d.nodes, s);
    ContractNodesKeepOrder(c, s, Sorting.Sort(le, e.nodes), d.edges, e.edges);
  }

  lemma {:induction false} NodeIdsStayApart(s: seq<Node>, t: seq<Node>)
    requires multiset(s) == multiset(t) && forall i, j :: 0 <= i < j < |s| ==> s[i].id != s[j].id
    ensures forall i, j :: 0 <= i < j < |t| ==> t[i].id != t[j].id
  {
    assert forall i, j :: 0 <= i < j < |s| ==> NodeKey(s[i]) != NodeKey(s[j]);
    Sorting.DistinctKept(s, t, NodeKey);
    forall i, j | 0 <= i < j < |t| ensures t[i].id != t[j].id {
      assert NodeKey(t[i]) != NodeKey(t[j]);
    }
  }

  /** Two drafts that list the same nodes, edges, variables and loop budgets in different orders, and
      both compile, have the same contract and the same contract hash, if localeCompare ties no two
      nodes, edges or variables of the draft. */
  lemma {:induction false} CompilationIsCanonical(c: Collation, digest: Contract -> string, d: Draft, e: Draft, policy: Policy)
    requires Orders(c) && NothingTies(c, d)
    requires SameUpToOrder(d, e) && IsRecord(BudgetsOf(d))
    requires Compilable(d, policy) && Compilable(e, policy)
    ensures Assemble(c, digest, d, policy) == Assemble(c, digest, e, policy)
  {
    SameSort(c.locale, NodeKey, d.nodes, e.nodes);
    SameSort(c.locale, EdgeKey, d.edges, e.edges);
    SameSort(c.locale, VariableKey, d.variables, e.variables);
    SameSortsSameContract(c, digest, d, e, policy);
  }

  lemma {:induction false} SameSortsSameContract(c: Collation, digest: Contract -> string, d: Draft, e: Draft, policy: Policy)
    requires Orders(c) && SameSorts(c, d, e) && SameUpToOrder(d, e) && IsRecord(BudgetsOf(d))
    requires Compilable(d, policy) && Compilable(e, policy)
    ensures Assemble(c, digest, d, policy) == Assemble(c, digest, e, policy)
  {
    assert UniqueIds(d) && UniqueIds(e) && Routed(d) && Routed(e) by {
      CompiledShape(d, policy);
      CompiledShape(e, policy);
    }
    assert RootOf(d) == RootOf(e) by {
      CompiledShape(d, policy);
      CompiledShape(e, policy);
      SameRoot(d, e);
    }
    RecordHasNoTies(c, BudgetsOf(d));
    SameSort(c.units, BudgetKey, BudgetsOf(d), BudgetsOf(e));
    SameNodes(c, d, e, Sorting.Sort(Sorting.By(c.locale, NodeKey), d.nodes));
  }

  lemma {:induction false} SameNodes(c: Collation, d: Draft, e: Draft, nodes: seq<Node>)
    requires multiset(d.edges) == multiset(e.edges) && Routed(d) && Routed(e)
    requires DistinctEdges(d.edges) && DistinctEdges(e.edges)
    ensures CompileNodes(c, nodes, d.edges) == CompileNodes(c, nodes, e.edges)
  {
    forall i | 0 <= i < |nodes| ensures CompileNode(c, nodes[i], d.edges) == CompileNode(c, nodes[i], e.edges) {
      SameAuthority(c.units, d, e, nodes[i]);
    }
  }

  // ---------------------------------------------------------------- and it needs that nothing ties

  /** e lists the edges and variables of d in some order. */
  ghost predicate Rearranged(d: Draft, e: Draft) {
    && e == d.(edges := e.edges, variables := e.variables)
    && multiset(e.edges) == multiset(d.edges) && multiset(e.variables) == multiset(d.variables)
  }

  lemma {:induction false} SameSources(nodes: seq<Node>, s: seq<Edge>, t: seq<Edge>)
    requires Targets(s) == Targets(t)
    ensures Sources(nodes, s) == Sources(nodes, t)
  {
    if nodes != [] {
      SameSources(nodes[1..], s, t);
    }
  }

  lemma {:induction false} PathKept(s: seq<Edge>, t: seq<Edge>, a: Id, p: seq<Edge>, b: Id)
    requires (forall e :: e in s ==> e in t) && IsPath(s, a, p, b)
    ensures IsPath(t, a, p, b)
    decreases p
  {
    if p != [] {
      PathKept(s, t, p[0].to, p[1..], b);
    }
  }

  lemma {:induction false} NotTwice<T>(s: seq<T>, name: T -> string, id: string)
    requires forall i, j :: 0 <= i < j < |s| ==> name(s[i]) != name(s[j])
    ensures !Twice(s, name, id)
  {
  }

  lemma {:induction false} RootKept(d: Draft, e: Draft)
    requires Rearranged(d, e)
    ensures RootOf(e) == RootOf(d)
  {
    Sorting.SamePool(e.edges, d.edges);
    assert Targets(e.edges) == Targets(d.edges);
    SameSources(d.nodes, d.edges, e.edges);
  }

  lemma {:induction false} ReachKept(d: Draft, e: Draft, a: Id, b: Id)
    requires Rearranged(d, e) && Reaches(d.edges, a, b)
    ensures Reaches(e.edges, a, b)
  {
    Sorting.SamePool(e.edges, d.edges);
    var p :| IsPath(d.edges, a, p, b);
    PathKept(d.edges, e.edges, a, p, b);
  }

  lemma {:induction false} EdgesKept(d: Draft, e: Draft)
    requires Rearranged(d, e) && UniqueIds(d) && Routed(d)
    ensures DistinctEdges(e.edges) && Routed(e)
    ensures forall id, kind :: |OutEdges(e.edges, id, kind)| <= 1
  {
    Sorting.SamePool(e.edges, d.edges);
    Sorting.DistinctKept(d.edges, e.edges, EdgeKey);
    forall i, j | 0 <= i < j < |e.edges| ensures e.edges[i].id != e.edges[j].id {
      assert EdgeKey(e.edges[i]) != EdgeKey(e.edges[j]);
    }
    forall id, kind ensures |OutEdges(e.edges, id, kind)| <= 1 {
      AtMostOne(e.edges, id, kind);
    }
  }

  lemma {:induction false} RoutingKept(d: Draft, e: Draft, n: Node, f: Fault)
    requires Rearranged(d, e) && RoutingFault(e.edges, n, f)
    requires forall id, kind :: |OutEdges(e.edges, id, kind)| <= 1
    ensures RoutingFault(d.edges, n, f)
  {
    Sorting.SamePool(e.edges, d.edges);
    var p, q := OutEdges(e.edges, n.id, Conditional), OutEdges(d.edges, n.id, Conditional);
    assert forall x :: x in p <==> x in q;
    if p != [] {
      assert p[0] in q;
    }
  }

  lemma {:induction false} NodeFaultsKept(d: Draft, e: Draft, f: Fault)
    requires Rearranged(d, e) && UniqueIds(d) && Routed(d) && SomeNodeFault(e.nodes, e.edges, f)
    ensures SomeNodeFault(d.nodes, d.edges, f)
  {
    EdgesKept(d, e);
    var n :| n in e.nodes && NodeFault(e.edges, n, f);
    if RoutingFault(e.edges, n, f) {
      RoutingKept(d, e, n, f);
    }
    assert NodeFault(d.edges, n, f);
  }

  lemma {:induction false} ReachFaultKept(d: Draft, e: Draft, root: Id, f: Fault)
    requires Rearranged(d, e) && ReachFault(e.nodes, root, e.edges, f)
    ensures ReachFault(d.nodes, root, d.edges, f)
  {
    if Reaches(d.edges, root, f.id) {
      ReachKept(d, e, root, f.id);
    }
  }

  lemma {:induction false} EdgeFaultsKept(d: Draft, e: Draft, f: Fault)
    requires Rearranged(d, e) && UniqueIds(d) && Routed(d) && EdgeFault(e.nodes, e.edges, f)
    ensures EdgeFault(d.nodes, d.edges, f)
  {
    Sorting.SamePool(e.edges, d.edges);
    EdgesKept(d, e);
    forall id ensures !Twice(e.edges, EdgeKey, id) {
      NotTwice(e.edges, EdgeKey, id);
    }
  }

  lemma {:induction false} ShapeKept(d: Draft, e: Draft, f: Fault)
    requires Rearranged(d, e) && UniqueIds(d) && Routed(d) && ShapeFault(e, f)
    ensures ShapeFault(d, f)
  {
    RootKept(d, e);
    if EdgeFault(e.nodes, e.edges, f) {
      EdgeFaultsKept(d, e, f);
    } else if SomeNodeFault(e.nodes, e.edges, f) {
      NodeFaultsKept(d, e, f);
    } else if !FalsyId(RootOf(e)) && ReachFault(e.nodes, RootOf(e).value, e.edges, f) {
      ReachFaultKept(d, e, RootOf(e).value, f);
    }
  }

  lemma {:induction false} BudgetsKept(d: Draft, e: Draft, f: Fault)
    requires Rearranged(d, e) && !BudgetFault(d, f)
    ensures !BudgetFault(e, f)
  {
    Sorting.SamePool(e.edges, d.edges);
    assert forall x: Edge :: ReadBudget(e, x.id) == ReadBudget(d, x.id);
    if f.BudgetStray? && Names(d.edges, EdgeKey, f.id) {
      var i :| 0 <= i < |d.edges| && EdgeKey(d.edges[i]) == f.id;
      NamedIn(e.edges, EdgeKey, d.edges[i]);
    }
  }

  lemma {:induction false} VariablesKept(checks: Checks, d: Draft, e: Draft, f: Fault)
    requires Rearranged(d, e) && (forall g :: !VariableFault(checks, d.variables, g))
    requires forall i, j :: 0 <= i < j < |d.variables| ==> d.variables[i].name != d.variables[j].name
    ensures !VariableFault(checks, e.variables, f)
  {
    Sorting.SamePool(e.variables, d.variables);
    assert !VariableFault(checks, d.variables, f);
    match f
    case DuplicateVariable(name) =>
      Sorting.DistinctKept(d.variables, e.variables, VariableKey);
      NotTwice(e.variables, VariableKey, name);
    case BadVariableName(name) =>
      if Names(e.variables, VariableKey, name) {
        var i :| 0 <= i < |e.variables| && VariableKey(e.variables[i]) == name;
        NamedIn(d.variables, VariableKey, e.variables[i]);
      }
    case _ =>
  }

  /** Rearranging edges and variables does not change whether a draft compiles. */
  lemma {:induction false} RearrangedCompiles(d: Draft, e: Draft, policy: Policy)
    requires Rearranged(d, e) && Compilable(d, policy)
    ensures Compilable(e, policy)
  {
    CompiledShape(d, policy);
    CompilableParts(d, policy);
    CompilableParts(e, policy);
    Sorting.SamePool(e.edges, d.edges);
    assert DraftOk(policy.checks, d) by {
      assert !DraftFault(policy.checks, d, InvalidDraft);
    }
    forall g ensures !VariableFault(policy.checks, d.variables, g) {
      assert !DraftFault(policy.checks, d, g);
    }
    forall f ensures !DraftFault(policy.checks, e, f) && !GraphFault(e, policy, f) {
      VariablesKept(policy.checks, d, e, f);
      assert !GraphFault(d, policy, f);
      GraphKept(d, e, policy, f);
    }
  }

  lemma {:induction false} GraphKept(d: Draft, e: Draft, policy: Policy, f: Fault)
    requires Rearranged(d, e) && UniqueIds(d) && Routed(d) && !GraphFault(d, policy, f)
    requires !VariableFault(policy.checks, e.variables, f)
    ensures !GraphFault(e, policy, f)
  {
    if ShapeFault(e, f) {
      ShapeKept(d, e, f);
    }
    BudgetsKept(d, e, f);
    Sorting.SamePool(e.edges, d.edges);
  }

  /** Every rearrangement of its edges and variables gives a compiled draft the same contract, exactly
      when localeCompare ties no two different ones. */
  lemma {:induction false} RearrangementForgottenIff(c: Collation, digest: Contract -> string, d: Draft, policy: Policy)
    requires Orders(c) && Compilable(d, policy)
    ensures (forall e :: Rearranged(d, e) ==>
                           Compilable(e, policy) && Assemble(c, digest, e, policy) == Assemble(c, digest, d, policy))
            <==> Sorting.NoTies(Sorting.By(c.locale, EdgeKey), d.edges)
                 && Sorting.NoTies(Sorting.By(c.locale, VariableKey), d.variables)
  {
    var edgeLe, nameLe := Sorting.By(c.locale, EdgeKey), Sorting.By(c.locale, VariableKey);
    if Sorting.NoTies(edgeLe, d.edges) && Sorting.NoTies(nameLe, d.variables) {
      forall e | Rearranged(d, e)
        ensures Compilable(e, policy) && Assemble(c, digest, e, policy) == Assemble(c, digest, d, policy)
      {
        RearrangedCompiles(d, e, policy);
        RearrangementForgotten(c, digest, d, e, policy);
      }
    }
    if !Sorting.NoTies(edgeLe, d.edges) {
      var e := EdgeTieShows(c, digest, d, policy);
      assert Rearranged(d, e);
    } else if !Sorting.NoTies(nameLe, d.variables) {
      var e := VariableTieShows(c, digest, d, policy);
      assert Rearranged(d, e);
    }
  }

  lemma {:induction false} RearrangementForgotten(c: Collation, digest: Contract -> string, d: Draft, e: Draft, policy: Policy)
    requires Orders(c) && Rearranged(d, e) && Compilable(d, policy) && Compilable(e, policy)
    requires Sorting.NoTies(Sorting.By(c.locale, EdgeKey), d.edges)
    requires Sorting.NoTies(Sorting.By(c.locale, VariableKey), d.variables)
    ensures Assemble(c, digest, e, policy) == Assemble(c, digest, d, policy)
  {
    assert UniqueIds(d) && UniqueIds(e) && Routed(d) && Routed(e) by {
      CompiledShape(d, policy);
      CompiledShape(e, policy);
    }
    RootKept(d, e);
    SameSort(c.locale, EdgeKey, d.edges, e.edges);
    SameSort(c.locale, VariableKey, d.variables, e.variables);
    SameNodes(c, d, e, Sorting.Sort(Sorting.By(c.locale, NodeKey), d.nodes));
  }

  lemma {:induction false} EdgeTieShows(c: Collation, digest: Contract -> string, d: Draft, policy: Policy) returns (e: Draft)
    requires Orders(c) && !Sorting.NoTies(Sorting.By(c.locale, EdgeKey), d.edges)
    ensures Rearranged(d, e) && Assemble(c, digest, e, policy) != Assemble(c, digest, d, policy)
  {
    Sorting.ByPreorder(c.locale, EdgeKey);
    var t := Sorting.TieShows(Sorting.By(c.locale, EdgeKey), d.edges);
    e := d.(edges := t);
  }

  lemma {:induction false} VariableTieShows(c: Collation, digest: Contract -> string, d: Draft, policy: Policy) returns (e: Draft)
    requires Orders(c) && !Sorting.NoTies(Sorting.By(c.locale, VariableKey), d.variables)
    ensures Rearranged(d, e) && Assemble(c, digest, e, policy) != Assemble(c, digest, d, policy)
  {
    Sorting.ByPreorder(c.locale, VariableKey);
    var t := Sorting.TieShows(Sorting.By(c.locale, VariableKey), d.variables);
    e := d.(variables := t);
  }

  // ---------------------------------------------------------------- it forgets nothing but order

  lemma {:induction false} CompileConcat(c: Collation, s: seq<Node>, t: seq<Node>, edges: seq<Edge>)
    ensures CompileNodes(c, s + t, edges) == CompileNodes(c, s, edges) + CompileNodes(c, t, edges)
  {
  }

  lemma {:induction false} PullOut<T>(p: seq<T>, x: T, q: seq<T>)
    ensures multiset(p + [x] + q) == multiset([x] + (p + q))
  {
  }

  lemma {:induction false} PoolTail<T>(s: seq<T>, p: seq<T>, x: T, q: seq<T>)
    requires multiset([x] + s) == multiset(p + [x] + q)
    ensures multiset(s) == multiset(p + q)
  {
    PullOut(p, x, q);
    assert multiset(s) == multiset([x] + s) - multiset{x};
    assert multiset(p + q) == multiset([x] + (p + q)) - multiset{x};
  }

  /** Compiling node by node only sees the pool of nodes, not their order. */
  lemma {:induction false} CompilePool(c: Collation, s: seq<Node>, t: seq<Node>, edges: seq<Edge>)
    requires multiset(s) == multiset(t)
    ensures multiset(CompileNodes(c, s, edges)) == multiset(CompileNodes(c, t, edges))
  {
    Sorting.SamePool(s, t);
    if s != [] {
      var x := s[0];
      assert x in t;
      var i :| 0 <= i < |t| && t[i] == x;
      var p, q := t[..i], t[i + 1..];
      assert s == [x] + s[1..] && t == p + [x] + q;
      PoolTail(s[1..], p, x, q);
      CompilePool(c, s[1..], p + q, edges);
      CompileParts(c, s[1..], p, x, q, edges);
    }
  }

  lemma {:induction false} CompileParts(c: Collation, s: seq<Node>, p: seq<Node>, x: Node, q: seq<Node>, edges: seq<Edge>)
    requires multiset(CompileNodes(c, s, edges)) == multiset(CompileNodes(c, p + q, edges))
    ensures multiset(CompileNodes(c, [x] + s, edges)) == multiset(CompileNodes(c, p + [x] + q, edges))
  {
    var y := CompileNode(c, x, edges);
    assert CompileNodes(c, [x], edges) == [y];
    CompileConcat(c, [x], s, edges);
    CompileConcat(c, p, q, edges);
    CompileConcat(c, p + [x], q, edges);
    CompileConcat(c, p, [x], edges);
    PullOut(CompileNodes(c, p, edges), y, CompileNodes(c, q, edges));
  }

  function CompiledKey(n: CompiledNode): Id { n.id }

  lemma {:induction false} CompiledInOrder(c: Collation, sorted: seq<Node>, edges: seq<Edge>)
    requires Sorting.Sorted(Sorting.By(c.locale, NodeKey), sorted)
    ensures Sorting.Sorted(Sorting.By(c.locale, CompiledKey), CompileNodes(c, sorted, edges))
  {
    var nodes := CompileNodes(c, sorted, edges);
    var le, key := Sorting.By(c.locale, NodeKey), Sorting.By(c.locale, CompiledKey);
    forall i, j | 0 <= i < j < |nodes| ensures key(nodes[i], nodes[j]) {
      assert le(sorted[i], sorted[j]);
      ByMeans(c.locale, NodeKey, sorted[i], sorted[j]);
      ByMeans(c.locale, CompiledKey, nodes[i], nodes[j]);
    }
  }

  lemma {:induction false} ByMeans<T, K>(le: (K, K) -> bool, key: T -> K, x: T, y: T)
    ensures Sorting.By(le, key)(x, y) <==> le(key(x), key(y))
  {
  }

  lemma {:induction false} CompiledApart(c: Collation, sorted: seq<Node>, edges: seq<Edge>)
    requires Sorting.NoTies(Sorting.By(c.locale, NodeKey), sorted)
    ensures Sorting.NoTies(Sorting.By(c.locale, CompiledKey), CompileNodes(c, sorted, edges))
  {
    var nodes, key := CompileNodes(c, sorted, edges), Sorting.By(c.locale, CompiledKey);
    forall x, y | x in nodes && y in nodes && key(x, y) && key(y, x) ensures x == y {
      var i :| 0 <= i < |nodes| && nodes[i] == x;
      var j :| 0 <= j < |nodes| && nodes[j] == y;
      assert sorted[i] in sorted && sorted[j] in sorted;
      ByMeans(c.locale, CompiledKey, x, y);
      ByMeans(c.locale, CompiledKey, y, x);
      ByMeans(c.locale, NodeKey, sorted[i], sorted[j]);
      ByMeans(c.locale, NodeKey, sorted[j], sorted[i]);
    }
  }

  /** The nodes of the contract. */
  ghost function ContractNodes(c: Collation, d: Draft): seq<CompiledNode> {
    CompileNodes(c, Sorting.Sort(Sorting.By(c.locale, NodeKey), d.nodes), d.edges)
  }

  lemma {:induction false} ContractNodesSorted(c: Collation, d: Draft)
    requires Sorting.TotalPreorder(c.locale)
    ensures Sorting.Sorted(Sorting.By(c.locale, CompiledKey), ContractNodes(c, d))
  {
    Sorting.ByPreorder(c.locale, NodeKey);
    Sorting.SortSorted(Sorting.By(c.locale, NodeKey), d.nodes);
    CompiledInOrder(c, Sorting.Sort(Sorting.By(c.locale, NodeKey), d.nodes), d.edges);
  }

  lemma {:induction false} ContractNodesApart(c: Collation, d: Draft)
    requires Sorting.NoTies(Sorting.By(c.locale, NodeKey), d.nodes)
    ensures Sorting.NoTies(Sorting.By(c.locale, CompiledKey), ContractNodes(c, d))
  {
    var sorted := Sorting.Sort(Sorting.By(c.locale, NodeKey), d.nodes);
    assert Sorting.NoTies(Sorting.By(c.locale, NodeKey), sorted);
    CompiledApart(c, sorted, d.edges);
  }

  /** The two drafts say the same, in whatever order: the same compiled nodes, edges, variables and
      loop budgets, under the same workflow id and root. */
  ghost predicate SayTheSame(c: Collation, d: Draft, e: Draft) {
    && d.id == e.id && RootOf(d) == RootOf(e)
    && multiset(CompileNodes(c, d.nodes, d.edges)) == multiset(CompileNodes(c, e.nodes, e.edges))
    && multiset(d.edges) == multiset(e.edges) && multiset(d.variables) == multiset(e.variables)
    && multiset(Settable(BudgetsOf(d))) == multiset(Settable(BudgetsOf(e)))
  }

  lemma {:induction false} SameContractNodes(c: Collation, d: Draft, e: Draft)
    requires Sorting.TotalPreorder(c.locale) && Sorting.NoTies(Sorting.By(c.locale, NodeKey), d.nodes)
    ensures ContractNodes(c, d) == ContractNodes(c, e)
            <==> multiset(CompileNodes(c, d.nodes, d.edges)) == multiset(CompileNodes(c, e.nodes, e.edges))
  {
    var le := Sorting.By(c.locale, NodeKey);
    CompilePool(c, Sorting.Sort(le, d.nodes), d.nodes, d.edges);
    CompilePool(c, Sorting.Sort(le, e.nodes), e.nodes, e.edges);
    ContractNodesSorted(c, d);
    ContractNodesSorted(c, e);
    ContractNodesApart(c, d);
    if multiset(CompileNodes(c, d.nodes, d.edges)) == multiset(CompileNodes(c, e.nodes, e.edges)) {
      Reflexive(c.locale, CompiledKey, ContractNodes(c, d));
      Sorting.SortedUnique(Sorting.By(c.locale, CompiledKey), ContractNodes(c, d), ContractNodes(c, e));
    }
  }

  lemma {:induction false} Reflexive<T(!new)>(le: (string, string) -> bool, key: T -> string, s: seq<T>)
    requires Sorting.TotalPreorder(le)
    ensures forall x :: x in s ==> Sorting.By(le, key)(x, x)
  {
    Sorting.ByPreorder(le, key);
  }

  lemma {:induction false} SortsAgreeIff<T(!new)>(le: (string, string) -> bool, key: T -> string, s: seq<T>, t: seq<T>)
    requires Sorting.TotalPreorder(le) && Sorting.NoTies(Sorting.By(le, key), s)
    ensures Sorting.Sort(Sorting.By(le, key), s) == Sorting.Sort(Sorting.By(le, key), t) <==> multiset(s) == multiset(t)
  {
    if multiset(s) == multiset(t) {
      SameSort(le, key, s, t);
    }
  }

  lemma {:induction false} SettablePool(s: seq<BudgetEntry>, b: BudgetEntry)
    ensures multiset(Settable(s))[b] == if b.edge == PROTO then 0 else multiset(s)[b]
  {
    if s != [] {
      SettablePool(s[1..], b);
      HeadCounts(s, b);
      HeadCounts([s[0]] + Settable(s[1..]), b);
      assert ([s[0]] + Settable(s[1..]))[1..] == Settable(s[1..]);
    }
  }

  lemma {:induction false} HeadCounts<T>(s: seq<T>, x: T)
    requires s != []
    ensures multiset(s)[x] == (if s[0] == x then 1 else 0) + multiset(s[1..])[x]
  {
    assert s == [s[0]] + s[1..];
  }

  lemma {:induction false} SettableInOrder(le: (BudgetEntry, BudgetEntry) -> bool, s: seq<BudgetEntry>)
    requires Sorting.Sorted(le, s)
    ensures Sorting.Sorted(le, Settable(s))
  {
    if s != [] {
      SettableInOrder(le, s[1..]);
      var t := Settable(s[1..]);
      forall j | 0 <= j < |t| ensures le(s[0], t[j]) {
        assert t[j] in s[1..];
        var k :| 0 < k < |s| && s[k] == t[j];
      }
    }
  }

  lemma {:induction false} RecordsAgreeIff(c: Collation, s: seq<BudgetEntry>, t: seq<BudgetEntry>)
    requires Sorting.TotalOrder(c.units) && IsRecord(s)
    ensures SortedRecord(c, s) == SortedRecord(c, t) <==> multiset(Settable(s)) == multiset(Settable(t))
  {
    SortedRecordPool(c, s);
    SortedRecordPool(c, t);
    if multiset(Settable(s)) == multiset(Settable(t)) {
      SortedRecordInOrder(c, s);
      SortedRecordInOrder(c, t);
      SettableHasNoTies(c, s);
      Sorting.SortedUnique(Sorting.By(c.units, BudgetKey), SortedRecord(c, s), SortedRecord(c, t));
    }
  }

  lemma {:induction false} SortedRecordPool(c: Collation, s: seq<BudgetEntry>)
    ensures multiset(SortedRecord(c, s)) == multiset(Settable(s))
  {
    var u := Sorting.Sort(Sorting.By(c.units, BudgetKey), s);
    forall b ensures multiset(Settable(u))[b] == multiset(Settable(s))[b] {
      SettablePool(u, b);
      SettablePool(s, b);
    }
  }

  lemma {:induction false} SortedRecordInOrder(c: Collation, s: seq<BudgetEntry>)
    requires Sorting.TotalOrder(c.units)
    ensures Sorting.Sorted(Sorting.By(c.units, BudgetKey), SortedRecord(c, s))
    ensures IsRecord(s) ==> IsRecord(SortedRecord(c, s))
  {
    var le := Sorting.By(c.units, BudgetKey);
    Sorting.ByPreorder(c.units, BudgetKey);
    Sorting.SortSorted(le, s);
    SettableInOrder(le, Sorting.Sort(le, s));
    if IsRecord(s) {
      SortIsRecord(le, s);
      SettableIsRecord(Sorting.Sort(le, s));
    }
  }

  lemma {:induction false} SortIsRecord(le: (BudgetEntry, BudgetEntry) -> bool, s: seq<BudgetEntry>)
    requires IsRecord(s)
    ensures IsRecord(Sorting.Sort(le, s))
  {
    var u := Sorting.Sort(le, s);
    assert forall i, j :: 0 <= i < j < |s| ==> BudgetKey(s[i]) != BudgetKey(s[j]);
    Sorting.DistinctKept(s, u, BudgetKey);
    forall i, j | 0 <= i < j < |u| ensures u[i].edge != u[j].edge {
      assert BudgetKey(u[i]) != BudgetKey(u[j]);
    }
  }

  lemma {:induction false} SettableIsRecord(s: seq<BudgetEntry>)
    requires IsRecord(s)
    ensures IsRecord(Settable(s))
  {
    if s != [] {
      SettableIsRecord(s[1..]);
      var t := Settable(s[1..]);
      forall j | 0 <= j < |t| ensures t[j].edge != s[0].edge {
        assert t[j] in s[1..];
        var k :| 0 < k < |s| && s[k] == t[j];
      }
    }
  }

  /** Nothing ties in a record: what is read back from the sorted record lies in it. */
  lemma {:induction false} SettableHasNoTies(c: Collation, s: seq<BudgetEntry>)
    requires Sorting.TotalOrder(c.units) && IsRecord(s)
    ensures Sorting.NoTies(Sorting.By(c.units, BudgetKey), SortedRecord(c, s))
    ensures forall x :: x in SortedRecord(c, s) ==> Sorting.By(c.units, BudgetKey)(x, x)
  {
    RecordHasNoTies(c, s);
    Sorting.ByPreorder(c.units, BudgetKey);
  }

  /** The contract is a canonical form: two drafts that compile have the same contract exactly when
      they say the same in some order. */
  lemma {:induction false} ContractsAgreeIff(c: Collation, digest: Contract -> string, d: Draft, e: Draft, policy: Policy)
    requires Orders(c) && NothingTies(c, d)
    requires IsRecord(BudgetsOf(d)) && Compilable(d, policy) && Compilable(e, policy)
    ensures Assemble(c, digest, d, policy).contract == Assemble(c, digest, e, policy).contract <==> SayTheSame(c, d, e)
  {
    CompiledShape(d, policy);
    CompiledShape(e, policy);
    SameContractNodes(c, d, e);
    SortsAgreeIff(c.locale, EdgeKey, d.edges, e.edges);
    SortsAgreeIff(c.locale, VariableKey, d.variables, e.variables);
    RecordsAgreeIff(c, BudgetsOf(d), BudgetsOf(e));
  }
}
