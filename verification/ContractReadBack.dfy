/** A compiled contract read as a draft again (shared/p2p-workflow-compiler.ts:44-131): compiling it once
    more gives the same contract, and it asks for exactly the capabilities that its draft needs. */
module ContractReadBack {
  import opened Wrappers
  import opened Workflow
  import opened Compiler
  import opened Contract
  import ContractOrder
  import Migration
  import Sorting

  // ---------------------------------------------------------------- read back as a draft

  /** A compiled node has all the fields of a draft node. */
  function AsNode(n: CompiledNode): Node {
    Node(n.id, n.title, n.kind, n.preset, n.dispatch, Some(n.scope), n.promptAppend, n.summaryOverride, Some(n.authority),
         n.script, n.logic, Some(n.artifacts))
  }

  function AsNodes(nodes: seq<CompiledNode>): (r: seq<Node>)
    ensures |r| == |nodes| && forall i :: 0 <= i < |r| ==> r[i] == AsNode(nodes[i])
  {
    seq(|nodes|, i requires 0 <= i < |nodes| => AsNode(nodes[i]))
  }

  function AsDraft(k: Contract): Draft {
    Draft(k.workflowId, AsNodes(k.nodes), k.edges, Some(k.rootNodeId), k.variables, Some(k.loopBudgets))
  }

  /** A compiled node compiles to itself, whatever the edges are. */
  lemma {:induction false} NodeReadsBack(c: Collation, n: Node, edges: seq<Edge>, others: seq<Edge>)
    ensures CompileNode(c, AsNode(CompileNode(c, n, edges)), others) == CompileNode(c, n, edges)
    ensures AsNode(CompileNode(c, n, edges)).id == n.id
  {
  }

  /** And passes the checks of a draft node exactly when the node did. */
  lemma {:induction false} ReadBackFitsIff(c: Collation, checks: Checks, n: Node, edges: seq<Edge>)
    ensures NodeOk(checks, AsNode(CompileNode(c, n, edges))) <==> NodeOk(checks, n)
  {
    var m := AsNode(CompileNode(c, n, edges));
    Migration.PromptFitsIff(n.promptAppend);
    Migration.PromptFitsIff(n.summaryOverride);
    assert m.artifacts.value == n.artifacts.GetOr([]);
    assert DeclaresOpenSpec(m) <==> DeclaresOpenSpec(n);
    assert ScopeFits(m) <==> ScopeFits(n);
  }

  lemma {:induction false} NodesReadBack(c: Collation, nodes: seq<Node>, edges: seq<Edge>, others: seq<Edge>)
    ensures CompileNodes(c, AsNodes(CompileNodes(c, nodes, edges)), others) == CompileNodes(c, nodes, edges)
  {
    forall i | 0 <= i < |nodes|
      ensures CompileNode(c, AsNode(CompileNode(c, nodes[i], edges)), others) == CompileNode(c, nodes[i], edges)
    {
      NodeReadsBack(c, nodes[i], edges, others);
    }
  }

  lemma {:induction false} NodesStayInOrder(c: Collation, nodes: seq<Node>, edges: seq<Edge>)
    requires Sorting.Sorted(Sorting.By(c.locale, NodeKey), nodes)
    ensures var back := AsNodes(CompileNodes(c, nodes, edges)); Sorting.Sort(Sorting.By(c.locale, NodeKey), back) == back
  {
    var back, le := AsNodes(CompileNodes(c, nodes, edges)), Sorting.By(c.locale, NodeKey);
    forall i, j | 0 <= i < j < |back| ensures le(back[i], back[j]) {
      assert le(nodes[i], nodes[j]);
      ContractOrder.ByMeans(c.locale, NodeKey, nodes[i], nodes[j]);
      ContractOrder.ByMeans(c.locale, NodeKey, back[i], back[j]);
    }
    Sorting.SortFixed(le, back);
  }

  lemma {:induction false} SortedTwice<T(!new)>(le: (string, string) -> bool, key: T -> string, s: seq<T>)
    requires Sorting.TotalPreorder(le)
    ensures Sorting.Sort(Sorting.By(le, key), Sorting.Sort(Sorting.By(le, key), s)) == Sorting.Sort(Sorting.By(le, key), s)
  {
    Sorting.ByPreorder(le, key);
    Sorting.SortSorted(Sorting.By(le, key), s);
    Sorting.SortFixed(Sorting.By(le, key), Sorting.Sort(Sorting.By(le, key), s));
  }

  lemma {:induction false} SettableAlready(s: seq<BudgetEntry>)
    requires forall b :: b in s ==> b.edge != PROTO
    ensures Settable(s) == s
  {
    if s != [] {
      assert s[0] in s;
      SettableAlready(s[1..]);
      assert s == [s[0]] + s[1..];
    }
  }

  lemma {:induction false} RecordTwice(c: Collation, s: seq<BudgetEntry>)
    requires Sorting.TotalOrder(c.units)
    ensures SortedRecord(c, SortedRecord(c, s)) == SortedRecord(c, s)
  {
    var r := SortedRecord(c, s);
    ContractOrder.SortedRecordInOrder(c, s);
    Sorting.SortFixed(Sorting.By(c.units, BudgetKey), r);
    SettableAlready(r);
  }

  /** Compiling what a contract says gives the contract again, hash and all. */
  lemma {:induction false} ContractReadsBack(c: Collation, digest: Contract -> string, d: Draft, policy: Policy)
    requires ContractOrder.Orders(c)
    ensures var x := Assemble(c, digest, d, policy); Assemble(c, digest, AsDraft(x.contract), policy) == x
  {
    var nodes := Sorting.Sort(Sorting.By(c.locale, NodeKey), d.nodes);
    var k := Assemble(c, digest, d, policy).contract;
    Sorting.ByPreorder(c.locale, NodeKey);
    Sorting.SortSorted(Sorting.By(c.locale, NodeKey), d.nodes);
    NodesStayInOrder(c, nodes, d.edges);
    NodesReadBack(c, nodes, d.edges, k.edges);
    SortedTwice(c.locale, EdgeKey, d.edges);
    SortedTwice(c.locale, VariableKey, d.variables);
    RecordTwice(c, BudgetsOf(d));
  }

  // ---------------------------------------------------------------- what a contract asks for

  lemma {:induction false} ScriptNodes(c: Collation, nodes: seq<Node>, edges: seq<Edge>)
    ensures var k := RequiredCapabilities(CompileNodes(c, nodes, edges));
            && Workflows in k
            && (ScriptArgv in k <==> exists n :: n in nodes && n.kind.Script?)
            && (ScriptInterpreter in k <==> exists n :: n in nodes && n.kind.Script? && n.script.Some? && n.script.value.command.Interpreter?)
  {
    var compiled := CompileNodes(c, nodes, edges);
    forall n | n in nodes ensures CompileNode(c, n, edges) in compiled {
      var i :| 0 <= i < |nodes| && nodes[i] == n;
      assert compiled[i] in compiled;
    }
    forall m | m in compiled ensures exists n :: n in nodes && m == CompileNode(c, n, edges) {
      var i :| 0 <= i < |compiled| && compiled[i] == m;
      assert nodes[i] in nodes;
    }
  }

  lemma {:induction false} ArtifactNodes(c: Collation, nodes: seq<Node>, edges: seq<Edge>)
    ensures var k := RequiredCapabilities(CompileNodes(c, nodes, edges));
            && (OpenSpecArtifacts in k <==> exists n :: n in nodes && DeclaresOpenSpec(n))
            && (ImplementationWork in k <==> exists n :: n in nodes && n.scope == Some(Implementation))
  {
    var compiled := CompileNodes(c, nodes, edges);
    forall n | n in nodes ensures CompileNode(c, n, edges) in compiled {
      var i :| 0 <= i < |nodes| && nodes[i] == n;
      assert compiled[i] in compiled;
    }
    forall m | m in compiled ensures exists n :: n in nodes && m == CompileNode(c, n, edges) {
      var i :| 0 <= i < |compiled| && compiled[i] == m;
      assert nodes[i] in nodes;
    }
  }

  /** The capabilities of a contract, each in terms of the draft's nodes. */
  lemma {:induction false} CapabilitiesIff(c: Collation, digest: Contract -> string, d: Draft, policy: Policy)
    ensures var k := Assemble(c, digest, d, policy).contract.capabilities;
            && Workflows in k
            && (ScriptArgv in k <==> exists n :: n in d.nodes && n.kind.Script?)
            && (ScriptInterpreter in k <==> exists n :: n in d.nodes && n.kind.Script? && n.script.Some? && n.script.value.command.Interpreter?)
            && (OpenSpecArtifacts in k <==> exists n :: n in d.nodes && DeclaresOpenSpec(n))
            && (ImplementationWork in k <==> exists n :: n in d.nodes && n.scope == Some(Implementation))
  {
    var nodes := Sorting.Sort(Sorting.By(c.locale, NodeKey), d.nodes);
    ScriptNodes(c, nodes, d.edges);
    ArtifactNodes(c, nodes, d.edges);
  }

  // ---------------------------------------------------------------- and what it leaves out

  /** Two nodes compile alike exactly when they say the same, an empty text counting as none, no scope as
      analysis only and no artifacts as an empty list. */
  lemma {:induction false} NodesAlikeIff(c: Collation, n: Node, m: Node, edges: seq<Edge>)
    ensures CompileNode(c, n, edges) == CompileNode(c, m, edges)
            <==> && n.id == m.id && n.kind == m.kind && n.preset == m.preset && n.dispatch == m.dispatch
                 && n.script == m.script && n.logic == m.logic
                 && Said(n.title) == Said(m.title) && Said(n.promptAppend) == Said(m.promptAppend)
                 && Said(n.summaryOverride) == Said(m.summaryOverride)
                 && ScopeOf(n) == ScopeOf(m) && ArtifactsOf(n) == ArtifactsOf(m)
                 && CompileNode(c, n, edges).authority == CompileNode(c, m, edges).authority
  {
  }

  function Said(text: Option<string>): string {
    if text.Some? then text.value else ""
  }

  function ScopeOf(n: Node): Scope {
    if n.scope.Some? then n.scope.value else AnalysisOnly
  }

  function ArtifactsOf(n: Node): seq<Artifact> {
    if n.artifacts.Some? then n.artifacts.value else []
  }

  /** A draft compiles to different contracts under policies with different hashes, and to one under
      policies with the same hash. */
  lemma {:induction false} PolicyShowsIff(c: Collation, digest: Contract -> string, d: Draft, p: Policy, q: Policy)
    ensures Assemble(c, digest, d, p) == Assemble(c, digest, d, q) <==> p.hash == q.hash
  {
  }
}
