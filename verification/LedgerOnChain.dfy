/** What the rules of the raindex contract add: which of the conditions on logs hold of every log it can write. */
module LedgerOnChain {
  import opened Common
  import opened Ledger
  import opened LedgerProofs
  import opened LedgerRecords
  import opened LedgerTotals

  /** The contract only logs trades of two different tokens, only clears matching orders of two different owners, and
      refuses a clear that leaves a negative bounty. */
  predicate Allowed(e: Event)
    requires e.WellFormed()
  {
    match e
    case TakeOrder(_, order, i, o, _, _) => order.validInputs[i].token != order.validOutputs[o].token
    case Clear(_, alice, bob, _) =>
      var data := TemporaryData(e);
      alice.owner != bob.owner && Crosswise(data) && data.aliceInput.token != data.aliceOutput.token
    case AfterClear(_, _, change) => Covered(change)
    case _ => true
  }

  ghost predicate AllAllowed(log: seq<Event>)
    requires WellFormedLog(log)
  {
    forall i :: 0 <= i < |log| ==> Allowed(log[i])
  }

  lemma {:induction false} WaitingIsOfClear(log: seq<Event>, address: Address, txHash: Word) returns (j: nat)
    requires WellFormedLog(log) && Waiting(log, address, txHash).Some?
    ensures j < |log| && log[j].Clear? && Waiting(log, address, txHash) == Some(TemporaryData(log[j]))
  {
    j := |log| - 1;
    if !OfClear(log[j], address, txHash) {
      j := WaitingIsOfClear(log[..|log| - 1], address, txHash);
    }
  }

  lemma {:induction false} AllowedIsFair(log: seq<Event>)
    requires WellFormedLog(log) && AllAllowed(log)
    ensures FairClears(log)
  {
    if |log| > 0 {
      var init, e := log[..|log| - 1], log[|log| - 1];
      AllowedIsFair(init);
      if e.AfterClear? && Waiting(init, e.meta.address, e.meta.txHash).Some? {
        var j := WaitingIsOfClear(init, e.meta.address, e.meta.txHash);
        assert Allowed(log[j]) && Allowed(e);
      }
    }
  }

  lemma {:induction false} AllowedIsUnaliased(log: seq<Event>)
    requires WellFormedLog(log) && AllAllowed(log)
    ensures AllUnaliased(log)
  {
    if |log| > 0 {
      var init, e := log[..|log| - 1], log[|log| - 1];
      AllowedIsUnaliased(init);
      assert Allowed(e);
      if e.AfterClear? && Waiting(init, e.meta.address, e.meta.txHash).Some? {
        var j := WaitingIsOfClear(init, e.meta.address, e.meta.txHash);
        assert Allowed(log[j]);
      }
    }
  }

  /** In every log the contract can write, vaults hold what was deposited and paid in, less what was withdrawn and paid
      out: clears keep every token's total. */
  lemma {:induction false} OnChainConservation(log: seq<Event>, decimals: Decimals, pot: Pot)
    requires WellFormedLog(log) && AllAllowed(log)
    ensures Total(Run(log, decimals).vaults, pot) == OuterFlows(log, decimals, pot)
  {
    AllowedIsFair(log);
    FairConservation(log, decimals, pot);
  }

  /** In every log the contract can write, no record of a balance change overwrites another. */
  lemma {:induction false} OnChainRecordsKeptApart(log: seq<Event>, decimals: Decimals)
    requires WellFormedLog(log) && AllAllowed(log) && DistinctMetas(log)
    ensures IdsDistinct(Journal(log, decimals))
  {
    AllowedIsUnaliased(log);
    RecordsKeptApart(log, decimals);
  }
}
