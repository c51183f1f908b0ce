/** What the contract hash of compileP2pWorkflowDraft (shared/p2p-workflow-compiler.ts:51-66) is taken
    of: stableHash(stableStringify(contractInput)). */
module ContractHash {
  import opened Workflow
  import opened ContractJson
  import opened ContractText
  import Compiler
  import Contract
  import ContractOrder
  import CodeUnits
  import PolicyJson
  import Sorting
  import StableHash

  /** The text that is hashed. */
  function Preimage(n: Numerals, contract: Contract.Contract): CodeUnits.Text {
    PolicyJson.StableStringify(ContractOf(n, contract))
  }

  function Hash(n: Numerals): Contract.Contract -> string {
    contract => StableHash.Digest(Preimage(n, contract))
  }

  /** The text determines the contract, if different numbers print differently. */
  lemma {:induction false} TextDeterminesContract(c: Contract.Collation, n: Numerals, d: Draft, e: Draft, policy: Compiler.Policy)
    requires Apart(n) && ContractOrder.Orders(c) && IsRecord(BudgetsOf(d)) && IsRecord(BudgetsOf(e))
    ensures var x, y := Contract.Assemble(c, Hash(n), d, policy).contract, Contract.Assemble(c, Hash(n), e, policy).contract;
            Preimage(n, x) == Preimage(n, y) <==> x == y
  {
    var x, y := Contract.Assemble(c, Hash(n), d, policy).contract, Contract.Assemble(c, Hash(n), e, policy).contract;
    ContractOrder.SortedRecordInOrder(c, BudgetsOf(d));
    ContractOrder.SortedRecordInOrder(c, BudgetsOf(e));
    SameTextSameContract(n, c.units, x, y);
  }

  lemma {:induction false} SameTextSameContract(n: Numerals, le: (string, string) -> bool, x: Contract.Contract, y: Contract.Contract)
    requires Apart(n) && Sorting.TotalOrder(le) && InOrder(le, x.loopBudgets) && InOrder(le, y.loopBudgets)
    ensures Preimage(n, x) == Preimage(n, y) ==> x == y
  {
    PolicyJson.PrintsCanonical(ContractOf(n, x), ContractOf(n, y));
    if Preimage(n, x) == Preimage(n, y) {
      ContractAgrees(n, le, x, y);
    }
  }

  /** The hashes of two drafts that compile are taken of the same text exactly when the drafts say the
      same in some order; so drafts with different hashes say different things. */
  lemma {:induction false} SameTextIff(c: Contract.Collation, n: Numerals, d: Draft, e: Draft, policy: Compiler.Policy)
    requires Apart(n) && ContractOrder.Orders(c) && ContractOrder.NothingTies(c, d)
    requires IsRecord(BudgetsOf(d)) && IsRecord(BudgetsOf(e)) && Contract.Compilable(d, policy) && Contract.Compilable(e, policy)
    ensures var x, y := Contract.Assemble(c, Hash(n), d, policy), Contract.Assemble(c, Hash(n), e, policy);
            && (Preimage(n, x.contract) == Preimage(n, y.contract) <==> ContractOrder.SayTheSame(c, d, e))
            && (x.contractHash != y.contractHash ==> !ContractOrder.SayTheSame(c, d, e))
  {
    ContractOrder.ContractsAgreeIff(c, Hash(n), d, e, policy);
    TextDeterminesContract(c, n, d, e, policy);
  }
}
