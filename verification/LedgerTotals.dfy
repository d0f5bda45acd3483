/** Conservation: what the vaults of a token hold together, after every log of events. */
module LedgerTotals {
  import opened Common
  import opened Ledger
  import opened LedgerProofs

  /** A token of a raindex. */
  datatype Pot = Pot(raindex: Address, token: Address)

  function PotOf(ref: VaultRef): Pot { Pot(ref.raindex, ref.token) }

  ghost function Share(v: Vault, pot: Pot): real { if PotOf(v.ref) == pot then v.balance else 0.0 }

  /** The sum of the balances of all vaults of the pot. */
  ghost function Total(vaults: map<Hash, Vault>, pot: Pot): real
    decreases |vaults|
  {
    if vaults == map[] then 0.0
    else
      var id :| id in vaults;
      Share(vaults[id], pot) + Total(vaults - {id}, pot)
  }

  lemma {:induction false} TotalWithout(vaults: map<Hash, Vault>, pot: Pot, id: Hash)
    requires id in vaults
    ensures Total(vaults, pot) == Share(vaults[id], pot) + Total(vaults - {id}, pot)
    decreases |vaults|
  {
    var first :| first in vaults && Total(vaults, pot) == Share(vaults[first], pot) + Total(vaults - {first}, pot);
    if first != id {
      TotalWithout(vaults - {first}, pot, id);
      TotalWithout(vaults - {id}, pot, first);
      assert vaults - {first} - {id} == vaults - {id} - {first};
    }
  }

  lemma {:induction false} TotalUpdate(vaults: map<Hash, Vault>, pot: Pot, id: Hash, v: Vault)
    ensures Total(vaults[id := v], pot) ==
      Total(vaults, pot) + Share(v, pot) - (if id in vaults then Share(vaults[id], pot) else 0.0)
  {
    TotalWithout(vaults[id := v], pot, id);
    assert vaults[id := v] - {id} == vaults - {id};
    if id in vaults {
      TotalWithout(vaults, pot, id);
    } else {
      assert vaults - {id} == vaults;
    }
  }

  ghost function PostingShare(p: Posting, pot: Pot): real { if PotOf(p.ref) == pot then p.amount else 0.0 }

  ghost function PostedTo(ps: seq<Posting>, pot: Pot): real {
    if |ps| == 0 then 0.0 else PostedTo(ps[..|ps| - 1], pot) + PostingShare(ps[|ps| - 1], pot)
  }

  lemma {:induction false} WithVaultTotal(b: Books, ref: VaultRef, decimals: Decimals, pot: Pot)
    ensures Total(WithVault(b, ref, decimals).vaults, pot) == Total(b.vaults, pot)
  {
    if VaultEntityId(ref) !in b.vaults {
      TotalUpdate(b.vaults, pot, VaultEntityId(ref), Vault(ref, 0.0));
    }
  }

  lemma {:induction false} PostTotal(b: Books, p: Posting, decimals: Decimals, pot: Pot)
    requires Keyed(b)
    ensures Total(Post(b, p, decimals).vaults, pot) == Total(b.vaults, pot) + PostingShare(p, pot)
  {
    var ready, id := WithVault(b, p.ref, decimals), VaultEntityId(p.ref);
    WithVaultTotal(b, p.ref, decimals, pot);
    assert ready.vaults[id].ref == p.ref by {
      if id in b.vaults {
        SameVaultId(b.vaults[id].ref, p.ref);
      }
    }
    TotalUpdate(ready.vaults, pot, id, ready.vaults[id].(balance := ready.vaults[id].balance + p.amount));
  }

  lemma {:induction false} PostAllTotal(b: Books, ps: seq<Posting>, decimals: Decimals, pot: Pot)
    requires Keyed(b)
    ensures Total(PostAll(b, ps, decimals).vaults, pot) == Total(b.vaults, pot) + PostedTo(ps, pot)
    decreases |ps|
  {
    if |ps| > 0 {
      PostAllTotal(b, ps[..|ps| - 1], decimals, pot);
      PostAllKeyed(b, ps[..|ps| - 1], decimals);
      PostTotal(PostAll(b, ps[..|ps| - 1], decimals), ps[|ps| - 1], decimals, pot);
    }
  }

  lemma {:induction false} OpenAllTotal(b: Books, owner: Address, raindex: Address, ios: seq<IO>, decimals: Decimals,
                                        pot: Pot)
    ensures Total(OpenAll(b, owner, raindex, ios, decimals).vaults, pot) == Total(b.vaults, pot)
    decreases |ios|
  {
    if |ios| > 0 {
      var io := ios[|ios| - 1];
      OpenAllTotal(b, owner, raindex, ios[..|ios| - 1], decimals, pot);
      WithVaultTotal(OpenAll(b, owner, raindex, ios[..|ios| - 1], decimals),
                     VaultRef(raindex, owner, io.vaultId, io.token), decimals, pot);
    }
  }

  // ----- the reference: flows in and out of a pot, read off the log

  function If(condition: bool, amount: real): real { if condition then amount else 0.0 }

  function Positive(amount: real): real { if amount > 0.0 then amount else 0.0 }

  /** What a clear moves into (and out of) the vaults of a token. */
  ghost function ClearFlow(c: ClearStateChange, data: ClearTemporaryData, token: Address): real {
    If(data.aliceInput.token == token, c.aliceInput) - If(data.aliceOutput.token == token, c.aliceOutput)
    + If(data.bobInput.token == token, c.bobInput) - If(data.bobOutput.token == token, c.bobOutput)
    + If(data.aliceOutput.token == token, Positive(c.aliceOutput - c.bobInput))
    + If(data.bobOutput.token == token, Positive(c.bobOutput - c.aliceInput))
  }

  /** Deposits minus withdrawals plus what takers gave minus what they got. */
  ghost function OuterFlow(e: Event, decimals: Decimals, pot: Pot): real
    requires e.WellFormed()
  {
    if e.meta.address != pot.raindex then 0.0
    else
      match e
      case Deposit(_, _, token, _, amount) =>
        if token == pot.token && decimals(token).Some? then FromFixedDecimalLossless(amount, decimals(token).value)
        else 0.0
      case Withdraw(_, _, token, _, amount) => -If(token == pot.token, amount)
      case TakeOrder(_, order, i, o, input, output) =>
        If(order.validInputs[i].token == pot.token, output) - If(order.validOutputs[o].token == pot.token, input)
      case _ => 0.0
  }

  ghost function ClearedFlow(e: Event, waiting: Option<ClearTemporaryData>, pot: Pot): real {
    if e.AfterClear? && e.meta.address == pot.raindex && waiting.Some? then
      ClearFlow(e.change, waiting.value, pot.token)
    else 0.0
  }

  ghost function OuterFlows(log: seq<Event>, decimals: Decimals, pot: Pot): real
    requires WellFormedLog(log)
  {
    if |log| == 0 then 0.0
    else OuterFlows(log[..|log| - 1], decimals, pot) + OuterFlow(log[|log| - 1], decimals, pot)
  }

  ghost function ClearedFlows(log: seq<Event>, pot: Pot): real
    requires WellFormedLog(log)
  {
    if |log| == 0 then 0.0
    else
      var init, e := log[..|log| - 1], log[|log| - 1];
      ClearedFlows(init, pot) + ClearedFlow(e, Waiting(init, e.meta.address, e.meta.txHash), pot)
  }

  lemma {:induction false} PostedToSplits(ps: seq<Posting>, qs: seq<Posting>, pot: Pot)
    ensures PostedTo(ps + qs, pot) == PostedTo(ps, pot) + PostedTo(qs, pot)
    decreases |qs|
  {
    if |qs| == 0 {
      assert ps + qs == ps;
    } else {
      PostedToSplits(ps, qs[..|qs| - 1], pot);
      assert (ps + qs)[..|ps + qs| - 1] == ps + qs[..|qs| - 1];
    }
  }

  lemma {:induction false} PostedToOne(p: Posting, pot: Pot)
    ensures PostedTo([p], pot) == PostingShare(p, pot)
  {
    assert [p][..0] == [];
  }

  lemma {:induction false} PostedToTwo(p: Posting, q: Posting, pot: Pot)
    ensures PostedTo([p, q], pot) == PostingShare(p, pot) + PostingShare(q, pot)
  {
    assert [p, q] == [p] + [q];
    PostedToSplits([p], [q], pot);
    PostedToOne(p, pot);
    PostedToOne(q, pot);
  }

  lemma {:induction false} BountyPosted(meta: Meta, sender: Address, vaultId: Word, token: Address, amount: real,
                                        pot: Pot)
    ensures PostedTo(BountyPostings(meta, sender, vaultId, token, amount), pot) ==
      If(Pot(meta.address, token) == pot, Positive(amount))
  {
    PostedToOne(Posting(ClearBounties, meta, None, VaultRef(meta.address, sender, vaultId, token), amount), pot);
  }

  lemma {:induction false} ClearPosted(meta: Meta, sender: Address, c: ClearStateChange, data: ClearTemporaryData,
                                       pot: Pot)
    ensures PostedTo(ClearPostings(meta, sender, c, data), pot) ==
      if meta.address == pot.raindex then ClearFlow(c, data, pot.token) else 0.0
  {
    var alice, bob := AlicePostings(meta, c, data), BobPostings(meta, c, data);
    var p := BountyPostings(meta, sender, data.aliceBounty, data.aliceOutput.token, c.aliceOutput - c.bobInput);
    var q := BountyPostings(meta, sender, data.bobBounty, data.bobOutput.token, c.bobOutput - c.aliceInput);
    PostedToSplits(alice + bob + p, q, pot);
    PostedToSplits(alice + bob, p, pot);
    PostedToSplits(alice, bob, pot);
    PostedToTwo(alice[0], alice[1], pot);
    PostedToTwo(bob[0], bob[1], pot);
    BountyPosted(meta, sender, data.aliceBounty, data.aliceOutput.token, c.aliceOutput - c.bobInput, pot);
    BountyPosted(meta, sender, data.bobBounty, data.bobOutput.token, c.bobOutput - c.aliceInput, pot);
  }

  lemma {:induction false} EventPosted(e: Event, waiting: Option<ClearTemporaryData>, decimals: Decimals, pot: Pot)
    requires e.WellFormed()
    ensures PostedTo(Postings(e, waiting, decimals), pot) ==
      OuterFlow(e, decimals, pot) + ClearedFlow(e, waiting, pot)
  {
    match e
    case Deposit(meta, sender, token, vaultId, amount) =>
      if decimals(token).Some? {
        PostedToOne(Postings(e, waiting, decimals)[0], pot);
      }
    case Withdraw(_, _, _, _, _) => PostedToOne(Postings(e, waiting, decimals)[0], pot);
    case TakeOrder(_, _, _, _, _, _) =>
      var ps := Postings(e, waiting, decimals);
      PostedToTwo(ps[0], ps[1], pot);
    case AfterClear(meta, sender, change) =>
      if waiting.Some? {
        ClearPosted(meta, sender, change, waiting.value, pot);
      }
    case _ =>
  }

  lemma {:induction false} ApplyTotal(b: Books, e: Event, decimals: Decimals, pot: Pot)
    requires Keyed(b) && e.WellFormed()
    ensures Total(Apply(b, e, decimals).vaults, pot) == Total(b.vaults, pot) +
      PostedTo(Postings(e, if e.AfterClear? then PendingFor(b, e) else None, decimals), pot)
  {
    match e
    case AddOrder(meta, sender, order) =>
      OpenAllTotal(b, sender, meta.address, order.validInputs, decimals, pot);
      OpenAllTotal(OpenAll(b, sender, meta.address, order.validInputs, decimals), sender, meta.address,
                   order.validOutputs, decimals, pot);
    case Deposit(_, _, token, _, _) =>
      PostAllTotal(WithToken(b, token, decimals), Postings(e, None, decimals), decimals, pot);
    case Clear(_, _, _, _) =>
    case AfterClear(_, _, _) => PostAllTotal(b, Postings(e, PendingFor(b, e), decimals), decimals, pot);
    case _ => PostAllTotal(b, Postings(e, None, decimals), decimals, pot);
  }

  /** For every log, the vaults of a token of a raindex hold together exactly what flowed in from outside, less what
      flowed out, plus what its clears moved. */
  lemma {:induction false} Conservation(log: seq<Event>, decimals: Decimals, pot: Pot)
    requires WellFormedLog(log)
    ensures Total(Run(log, decimals).vaults, pot) == OuterFlows(log, decimals, pot) + ClearedFlows(log, pot)
  {
    if |log| > 0 {
      var init, e := log[..|log| - 1], log[|log| - 1];
      Conservation(init, decimals, pot);
      RunKeyed(init, decimals);
      var b := Run(init, decimals);
      var waiting := if e.AfterClear? then PendingFor(b, e) else None;
      ApplyTotal(b, e, decimals, pot);
      EventPosted(e, waiting, decimals, pot);
      PendingIsWaiting(init, decimals, e.meta.address, e.meta.txHash);
    }
  }

  // ----- clears are neutral

  /** Each order takes what the other one gives. */
  predicate Crosswise(data: ClearTemporaryData) {
    data.aliceInput.token == data.bobOutput.token && data.aliceOutput.token == data.bobInput.token
  }

  /** Each side gave at least what the other received. */
  predicate Covered(c: ClearStateChange) { c.aliceOutput >= c.bobInput && c.bobOutput >= c.aliceInput }

  /** A clear of matching orders moves nothing into or out of any token exactly when both outputs cover the other side's
      input, whichever vaults the bounties go to; also if the orders trade a token for itself. */
  lemma {:induction false} ClearIsNeutral(c: ClearStateChange, data: ClearTemporaryData)
    requires Crosswise(data)
    ensures (forall token :: ClearFlow(c, data, token) == 0.0) <==> Covered(c)
  {
    var a, b := c.aliceOutput - c.bobInput, c.bobOutput - c.aliceInput;
    if data.aliceInput.token == data.aliceOutput.token {
      assert ClearFlow(c, data, data.aliceInput.token) == Positive(a) - a + Positive(b) - b;
    } else {
      assert ClearFlow(c, data, data.aliceOutput.token) == Positive(a) - a;
      assert ClearFlow(c, data, data.aliceInput.token) == Positive(b) - b;
    }
  }

  /** Every AfterClear that finds its Clear settles matching orders whose outputs cover the inputs. */
  ghost predicate FairClears(log: seq<Event>)
    requires WellFormedLog(log)
  {
    |log| == 0 ||
    (var init, e := log[..|log| - 1], log[|log| - 1];
     FairClears(init) &&
     (e.AfterClear? && Waiting(init, e.meta.address, e.meta.txHash).Some? ==>
        Crosswise(Waiting(init, e.meta.address, e.meta.txHash).value) && Covered(e.change)))
  }

  /** With fair clears only deposits, withdrawals and takes count, however vaults coincide. */
  lemma {:induction false} FairConservation(log: seq<Event>, decimals: Decimals, pot: Pot)
    requires WellFormedLog(log) && FairClears(log)
    ensures Total(Run(log, decimals).vaults, pot) == OuterFlows(log, decimals, pot)
  {
    Conservation(log, decimals, pot);
    FairClearsCancel(log, pot);
  }

  lemma {:induction false} FairClearsCancel(log: seq<Event>, pot: Pot)
    requires WellFormedLog(log) && FairClears(log)
    ensures ClearedFlows(log, pot) == 0.0
  {
    if |log| > 0 {
      var init, e := log[..|log| - 1], log[|log| - 1];
      FairClearsCancel(init, pot);
      var waiting := Waiting(init, e.meta.address, e.meta.txHash);
      if e.AfterClear? && waiting.Some? {
        ClearIsNeutral(e.change, waiting.value);
      }
    }
  }
}
