/** Which value stands under which name in the JSON of a contract (shared/p2p-workflow-compiler.ts:51-93). */
module ContractEntries {
  import opened Wrappers
  import opened Workflow
  import opened Contract
  import opened CodeUnits
  import opened Json
  import opened ContractJson
  import opened ContractNames
  import opened ContractLayout
  import opened ContractText

  /** The i-th entry of the object has this name and this value. */
  ghost predicate Has(v: Value, i: nat, key: string, value: Value) {
    v.Record? && i < |v.members| && v.members[i] == Member(Utf16(key), value)
  }

  lemma {:induction false} Entry(v: Value, keys: seq<string>, values: seq<Value>, i: nat)
    requires |keys| == |values| && i < |keys| && v == ObjectOf(keys, values)
    ensures Has(v, i, keys[i], values[i])
  {
  }

  /** The fields of a contract. */
  lemma {:induction false} OfContract(n: Numerals, c: Contract, keys: seq<string>)
    requires keys == ["schemaVersion", "workflowId", "rootNodeId", "nodes", "edges", "variables", "loopBudgets",
                      "derivedRequiredCapabilities", "staticPolicyHash"]
    ensures var v := ContractOf(n, c);
            && Has(v, 1, keys[1], TextOf(c.workflowId)) && Has(v, 2, keys[2], TextOf(c.rootNodeId))
            && Has(v, 3, keys[3], ListOf(NodeOf(n), c.nodes)) && Has(v, 4, keys[4], ListOf(EdgeOf, c.edges))
            && Has(v, 5, keys[5], ListOf(VariableOf(n), c.variables)) && Has(v, 6, keys[6], BudgetsJson(n, c.loopBudgets))
            && Has(v, 7, keys[7], TextsOf(CapabilityList(c.capabilities))) && Has(v, 8, keys[8], TextOf(c.policyHash))
  {
    Entry(ContractOf(n, c), keys, ContractFields(n, c), 1);
    Entry(ContractOf(n, c), keys, ContractFields(n, c), 2);
    Entry(ContractOf(n, c), keys, ContractFields(n, c), 3);
    Entry(ContractOf(n, c), keys, ContractFields(n, c), 4);
    Entry(ContractOf(n, c), keys, ContractFields(n, c), 5);
    Entry(ContractOf(n, c), keys, ContractFields(n, c), 6);
    Entry(ContractOf(n, c), keys, ContractFields(n, c), 7);
    Entry(ContractOf(n, c), keys, ContractFields(n, c), 8);
  }

  /** The fields of an edge. */
  lemma {:induction false} OfEdge(e: Edge, keys: seq<string>)
    requires keys == ["id", "fromNodeId", "toNodeId", "edgeKind", "condition"]
    ensures var v := EdgeOf(e);
            && Has(v, 0, keys[0], TextOf(e.id)) && Has(v, 1, keys[1], TextOf(e.from)) && Has(v, 2, keys[2], TextOf(e.to))
            && Has(v, 3, keys[3], TextOf(EdgeKindName(e.kind))) && Has(v, 4, keys[4], MaybeOf(ConditionOf, e.condition))
  {
    Entry(EdgeOf(e), keys, EdgeFields(e), 0);
    Entry(EdgeOf(e), keys, EdgeFields(e), 1);
    Entry(EdgeOf(e), keys, EdgeFields(e), 2);
    Entry(EdgeOf(e), keys, EdgeFields(e), 3);
    Entry(EdgeOf(e), keys, EdgeFields(e), 4);
  }

  /** The fields of a node. */
  lemma {:induction false} OfNode(n: Numerals, c: CompiledNode, keys: seq<string>)
    requires keys == ["id", "title", "nodeKind", "preset", "dispatchStyle", "permissionScope", "promptAppend",
                      "summaryPromptOverride", "routingAuthority", "script", "logic", "artifacts"]
    ensures var v := NodeOf(n)(c);
            && Has(v, 0, keys[0], TextOf(c.id)) && Has(v, 1, keys[1], MaybeOf(TextOf, c.title)) && Has(v, 2, keys[2], TextOf(KindName(c.kind)))
            && Has(v, 3, keys[3], TextOf(PresetName(c.preset))) && Has(v, 4, keys[4], MaybeOf(NameOf(DispatchName), c.dispatch))
            && Has(v, 5, keys[5], TextOf(ScopeName(c.scope))) && Has(v, 6, keys[6], MaybeOf(TextOf, c.promptAppend))
            && Has(v, 7, keys[7], MaybeOf(TextOf, c.summaryOverride)) && Has(v, 8, keys[8], AuthorityOf(c.authority))
            && Has(v, 9, keys[9], MaybeOf(ScriptOf(n), c.script)) && Has(v, 10, keys[10], MaybeOf(LogicOf, c.logic))
            && Has(v, 11, keys[11], ListOf(ArtifactOf, c.artifacts))
  {
    Entry(NodeOf(n)(c), keys, NodeFields(n, c), 0);
    Entry(NodeOf(n)(c), keys, NodeFields(n, c), 1);
    Entry(NodeOf(n)(c), keys, NodeFields(n, c), 2);
    Entry(NodeOf(n)(c), keys, NodeFields(n, c), 3);
    Entry(NodeOf(n)(c), keys, NodeFields(n, c), 4);
    Entry(NodeOf(n)(c), keys, NodeFields(n, c), 5);
    Entry(NodeOf(n)(c), keys, NodeFields(n, c), 6);
    Entry(NodeOf(n)(c), keys, NodeFields(n, c), 7);
    Entry(NodeOf(n)(c), keys, NodeFields(n, c), 8);
    Entry(NodeOf(n)(c), keys, NodeFields(n, c), 9);
    Entry(NodeOf(n)(c), keys, NodeFields(n, c), 10);
    Entry(NodeOf(n)(c), keys, NodeFields(n, c), 11);
  }

  /** The fields of an authority. */
  lemma {:induction false} OfAuthority(a: Authority, keys: seq<string>)
    requires keys == ["kind", "allowedMarkers", "allowedKeys"]
    ensures Has(AuthorityOf(a), 0, keys[0], TextOf(AuthorityName(a)))
    ensures Has(AuthorityOf(a), 1, keys[1], MaybeOf(TextsOf, Markers(a)))
    ensures Has(AuthorityOf(a), 2, keys[2], MaybeOf(TextsOf, Keys(a)))
  {
    Entry(AuthorityOf(a), keys, AuthorityFields(a), 0);
    Entry(AuthorityOf(a), keys, AuthorityFields(a), 1);
    Entry(AuthorityOf(a), keys, AuthorityFields(a), 2);
  }

  /** Verdict and logic markers stand under one name, routing keys under another. */
  lemma {:induction false} AllowedAre(a: Authority)
    ensures Markers(a).Some? <==> a.VerdictMarkers? || a.LogicMarkers?
    ensures Keys(a).Some? <==> a.RoutingKeys?
    ensures !a.NoAuthority? ==> Markers(a) == Some(a.allowed) || Keys(a) == Some(a.allowed)
  {
  }
}
