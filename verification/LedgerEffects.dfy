/** Which vaults an event moves, by how much, and what it records, read off the events themselves. */
module LedgerEffects {
  import opened Common
  import opened Ledger
  import opened LedgerProofs
  import opened LedgerTotals

  /** The store after an event of a log is the one before it with that event applied; the first one is empty. */
  lemma {:induction false} LogStep(log: seq<Event>, decimals: Decimals, i: nat)
    requires WellFormedLog(log) && i < |log|
    ensures Run(log[..i + 1], decimals) == Apply(Run(log[..i], decimals), log[i], decimals)
    ensures Run([], decimals) == Books(map[], map[], map[], [])
  {
    assert log[..i + 1][..i] == log[..i];
  }

  /** The balance of a vault; a vault that has never been touched has 0. */
  ghost function BalanceOf(b: Books, ref: VaultRef): real {
    if VaultEntityId(ref) in b.vaults then b.vaults[VaultEntityId(ref)].balance else 0.0
  }

  /** `amount` if this vault is the one it is due to. */
  ghost function Due(ref: VaultRef, raindex: Address, owner: Address, token: Address, vaultId: Word, amount: real): real
  {
    if ref.raindex == raindex && ref.owner == owner && ref.token == token && ref.vaultId == vaultId then amount else 0.0
  }

  // ----- postings

  ghost function PostedToVault(ps: seq<Posting>, ref: VaultRef): real {
    if |ps| == 0 then 0.0
    else PostedToVault(ps[..|ps| - 1], ref) + (if ps[|ps| - 1].ref == ref then ps[|ps| - 1].amount else 0.0)
  }

  lemma {:induction false} PostMoves(b: Books, p: Posting, decimals: Decimals, ref: VaultRef)
    ensures BalanceOf(Post(b, p, decimals), ref) == BalanceOf(b, ref) + (if p.ref == ref then p.amount else 0.0)
  {
    if VaultEntityId(p.ref) == VaultEntityId(ref) {
      SameVaultId(p.ref, ref);
    }
  }

  lemma {:induction false} PostAllMoves(b: Books, ps: seq<Posting>, decimals: Decimals, ref: VaultRef)
    ensures BalanceOf(PostAll(b, ps, decimals), ref) == BalanceOf(b, ref) + PostedToVault(ps, ref)
    decreases |ps|
  {
    if |ps| > 0 {
      PostAllMoves(b, ps[..|ps| - 1], decimals, ref);
      PostMoves(PostAll(b, ps[..|ps| - 1], decimals), ps[|ps| - 1], decimals, ref);
    }
  }

  lemma {:induction false} OpenAllMovesNothing(b: Books, owner: Address, raindex: Address, ios: seq<IO>,
                                               decimals: Decimals, ref: VaultRef)
    ensures BalanceOf(OpenAll(b, owner, raindex, ios, decimals), ref) == BalanceOf(b, ref)
    decreases |ios|
  {
    if |ios| > 0 {
      OpenAllMovesNothing(b, owner, raindex, ios[..|ios| - 1], decimals, ref);
    }
  }

  lemma {:induction false} PostedSplits(ps: seq<Posting>, qs: seq<Posting>, ref: VaultRef)
    ensures PostedToVault(ps + qs, ref) == PostedToVault(ps, ref) + PostedToVault(qs, ref)
    decreases |qs|
  {
    if |qs| == 0 {
      assert ps + qs == ps;
    } else {
      PostedSplits(ps, qs[..|qs| - 1], ref);
      InitOfSum(ps, qs);
    }
  }

  lemma {:induction false} PostedOne(p: Posting, ref: VaultRef)
    ensures PostedToVault([p], ref) == if p.ref == ref then p.amount else 0.0
  {
    assert [p][..0] == [];
  }

  lemma {:induction false} PostedTwo(p: Posting, q: Posting, ref: VaultRef)
    ensures PostedToVault([p, q], ref) ==
      (if p.ref == ref then p.amount else 0.0) + (if q.ref == ref then q.amount else 0.0)
  {
    assert [p, q][..1] == [p];
    PostedOne(p, ref);
  }

  // ----- single events

  /** A deposit moves the depositor's vault by the amount in whole tokens; nothing if the decimals are unknown. */
  lemma {:induction false} DepositMoves(b: Books, e: Event, decimals: Decimals, ref: VaultRef)
    requires e.Deposit?
    ensures BalanceOf(Apply(b, e, decimals), ref) == BalanceOf(b, ref) +
      if decimals(e.token).None? then 0.0
      else Due(ref, e.meta.address, e.sender, e.token, e.vaultId,
               e.depositAmountUint256 as real / Pow10(decimals(e.token).value))
  {
    PostAllMoves(WithToken(b, e.token, decimals), Postings(e, None, decimals), decimals, ref);
    if decimals(e.token).Some? {
      PostedOne(Postings(e, None, decimals)[0], ref);
    }
  }

  /** A whole token of 6 or 18 decimals is that many of its smallest units. */
  lemma {:induction false} WholeTokens()
    ensures Pow10(6) == 1_000_000.0 && Pow10(18) == 1_000_000_000_000_000_000.0
  {
    assert Pow10(3) == 1_000.0;
    PowersAdd(3, 3);
    PowersAdd(6, 6);
    PowersAdd(12, 6);
  }

  lemma {:induction false} PowersAdd(j: nat, k: nat)
    ensures Pow10(j + k) == Pow10(j) * Pow10(k)
  {
    if j > 0 {
      PowersAdd(j - 1, k);
      assert 10.0 * Pow10(j - 1) * Pow10(k) == 10.0 * (Pow10(j - 1) * Pow10(k));
    }
  }

  /** A withdrawal takes the amount out of the owner's vault. */
  lemma {:induction false} WithdrawMoves(b: Books, e: Event, decimals: Decimals, ref: VaultRef)
    requires e.Withdraw?
    ensures BalanceOf(Apply(b, e, decimals), ref) ==
      BalanceOf(b, ref) - Due(ref, e.meta.address, e.sender, e.token, e.vaultId, e.withdrawAmount)
  {
    PostAllMoves(b, Postings(e, None, decimals), decimals, ref);
    PostedOne(Postings(e, None, decimals)[0], ref);
  }

  /** A take moves the order owner's two vaults: the selected output loses what the taker got, the selected input gains
      what the taker gave. */
  lemma {:induction false} TakeMoves(b: Books, e: Event, decimals: Decimals, ref: VaultRef)
    requires e.TakeOrder? && e.WellFormed()
    ensures var raindex, owner := e.meta.address, e.order.owner;
      var gains, loses := e.order.validInputs[e.inputIOIndex], e.order.validOutputs[e.outputIOIndex];
      BalanceOf(Apply(b, e, decimals), ref) == BalanceOf(b, ref)
        + Due(ref, raindex, owner, gains.token, gains.vaultId, e.output)
        - Due(ref, raindex, owner, loses.token, loses.vaultId, e.input)
  {
    var ps := Postings(e, None, decimals);
    PostAllMoves(b, ps, decimals, ref);
    PostedTwo(ps[0], ps[1], ref);
  }

  /** Orders, their removal and metadata, and a Clear by itself move nothing. */
  lemma {:induction false} OthersMoveNothing(b: Books, e: Event, decimals: Decimals, ref: VaultRef)
    requires e.WellFormed() && (e.AddOrder? || e.RemoveOrder? || e.OrderMeta? || e.Clear?)
    ensures BalanceOf(Apply(b, e, decimals), ref) == BalanceOf(b, ref)
  {
    match e
    case AddOrder(meta, sender, order) =>
      OpenAllMovesNothing(b, sender, meta.address, order.validInputs, decimals, ref);
      OpenAllMovesNothing(OpenAll(b, sender, meta.address, order.validInputs, decimals), sender, meta.address,
                          order.validOutputs, decimals, ref);
    case _ =>
  }

  /** An AfterClear without data moves nothing. */
  lemma {:induction false} LoneAfterClearMovesNothing(log: seq<Event>, decimals: Decimals, i: nat, ref: VaultRef)
    requires WellFormedLog(log) && i < |log| && log[i].AfterClear? && !FollowsClear(log, i)
    ensures BalanceOf(Run(log[..i + 1], decimals), ref) == BalanceOf(Run(log[..i], decimals), ref)
  {
    LogStep(log, decimals, i);
    DataWaitsExactly(log, decimals, i);
  }

  // ----- clears

  lemma {:induction false} BountyMoves(meta: Meta, sender: Address, vaultId: Word, token: Address, amount: real,
                                       ref: VaultRef)
    ensures PostedToVault(BountyPostings(meta, sender, vaultId, token, amount), ref) ==
      Due(ref, meta.address, sender, token, vaultId, Positive(amount))
  {
    if amount > 0.0 {
      PostedOne(BountyPostings(meta, sender, vaultId, token, amount)[0], ref);
    }
  }

  lemma {:induction false} TradeMoves(meta: Meta, orderHash: Hash, owner: Address, input: IO, inputAmount: real,
                                      output: IO, outputAmount: real, ref: VaultRef)
    ensures PostedToVault(TradePostings(meta, orderHash, owner, input, inputAmount, output, outputAmount), ref) ==
      Due(ref, meta.address, owner, input.token, input.vaultId, inputAmount)
      - Due(ref, meta.address, owner, output.token, output.vaultId, outputAmount)
  {
    var ps := TradePostings(meta, orderHash, owner, input, inputAmount, output, outputAmount);
    PostedTwo(ps[0], ps[1], ref);
  }

  lemma {:induction false} ClearPostingsMove(meta: Meta, sender: Address, change: ClearStateChange,
                                             data: ClearTemporaryData, ref: VaultRef)
    ensures PostedToVault(ClearPostings(meta, sender, change, data), ref) ==
      PostedToVault(AlicePostings(meta, change, data), ref) + PostedToVault(BobPostings(meta, change, data), ref)
      + Due(ref, meta.address, sender, data.aliceOutput.token, data.aliceBounty,
            Positive(change.aliceOutput - change.bobInput))
      + Due(ref, meta.address, sender, data.bobOutput.token, data.bobBounty,
            Positive(change.bobOutput - change.aliceInput))
  {
    var alice, bob := AlicePostings(meta, change, data), BobPostings(meta, change, data);
    var a, b := change.aliceOutput - change.bobInput, change.bobOutput - change.aliceInput;
    var p := BountyPostings(meta, sender, data.aliceBounty, data.aliceOutput.token, a);
    var q := BountyPostings(meta, sender, data.bobBounty, data.bobOutput.token, b);
    PostedSplits(alice + bob + p, q, ref);
    PostedSplits(alice + bob, p, ref);
    PostedSplits(alice, bob, ref);
    BountyMoves(meta, sender, data.aliceBounty, data.aliceOutput.token, a, ref);
    BountyMoves(meta, sender, data.bobBounty, data.bobOutput.token, b, ref);
  }

  /** What Clear `c` and its AfterClear `a` move in the vault of one side: the selected input of its order gains, the
      selected output loses. */
  ghost function SideDue(ref: VaultRef, raindex: Address, order: Order, inputIOIndex: nat, outputIOIndex: nat,
                         gained: real, lost: real): real
    requires inputIOIndex < |order.validInputs| && outputIOIndex < |order.validOutputs|
  {
    Due(ref, raindex, order.owner, order.validInputs[inputIOIndex].token,
        order.validInputs[inputIOIndex].vaultId, gained)
    - Due(ref, raindex, order.owner, order.validOutputs[outputIOIndex].token,
          order.validOutputs[outputIOIndex].vaultId, lost)
  }

  /** In every log, for a Clear at `j` and the AfterClear at `i` that it precedes: Alice's and Bob's own vaults gain
      what they took in and lose what they gave, the sender's bounty vaults gain what is left over, no other vault
      moves. */
  lemma {:induction false} ClearMoves(log: seq<Event>, decimals: Decimals, j: nat, i: nat, ref: VaultRef)
    requires WellFormedLog(log) && i < |log| && Precedes(log, j, i) && log[j].Clear? && log[i].AfterClear?
    ensures var raindex, change, config := log[i].meta.address, log[i].change, log[j].config;
      var alice, bob := log[j].alice, log[j].bob;
      BalanceOf(Run(log[..i + 1], decimals), ref) == BalanceOf(Run(log[..i], decimals), ref)
        + SideDue(ref, raindex, alice, config.aliceInputIOIndex, config.aliceOutputIOIndex, change.aliceInput,
                  change.aliceOutput)
        + SideDue(ref, raindex, bob, config.bobInputIOIndex, config.bobOutputIOIndex, change.bobInput,
                  change.bobOutput)
        + Due(ref, raindex, log[i].sender, alice.validOutputs[config.aliceOutputIOIndex].token,
              config.aliceBountyVaultId, Positive(change.aliceOutput - change.bobInput))
        + Due(ref, raindex, log[i].sender, bob.validOutputs[config.bobOutputIOIndex].token,
              config.bobBountyVaultId, Positive(change.bobOutput - change.aliceInput))
  {
    var b, e, data := Run(log[..i], decimals), log[i], TemporaryData(log[j]);
    LogStep(log, decimals, i);
    PrecedingData(log, decimals, j, i);
    PostAllMoves(b, ClearPostings(e.meta, e.sender, e.change, data), decimals, ref);
    ClearPostingsMove(e.meta, e.sender, e.change, data, ref);
    TradeMoves(e.meta, data.aliceOrderHash, data.aliceAddress, data.aliceInput, e.change.aliceInput, data.aliceOutput,
               e.change.aliceOutput, ref);
    TradeMoves(e.meta, data.bobOrderHash, data.bobAddress, data.bobInput, e.change.bobInput, data.bobOutput,
               e.change.bobOutput, ref);
  }

  // ----- records

  /** One saved record: in its table, under its id, about its vault; `trade` for the changes that belong to a trade. */
  ghost predicate IsRecord(c: Change, table: Table, id: Hash, meta: Meta, trade: Option<Hash>, owner: Address,
                           token: Address, vaultId: Word, amount: real)
  {
    && c.table == table && c.id == id && c.meta == meta && c.trade == trade && c.amount == amount
    && c.vault == VaultHash(meta.address, owner, token, vaultId)
    && c.newVaultBalance == c.oldVaultBalance + amount
  }

  ghost function EventHash(meta: Meta): Hash {
    Keccak([AddressPart(meta.address), WordPart(meta.txHash), NumberPart(meta.logIndex)])
  }

  ghost function VaultHash(raindex: Address, owner: Address, token: Address, vaultId: Word): Hash {
    Keccak([AddressPart(raindex), AddressPart(owner), AddressPart(token), WordPart(vaultId)])
  }

  /** The record of a trade change: its id is that of event and vault, its trade that of event and order. */
  ghost predicate IsTradeRecord(c: Change, meta: Meta, order: Order, io: IO, amount: real) {
    IsRecord(c, TradeVaultBalanceChanges,
             Keccak([HashPart(EventHash(meta)), HashPart(VaultHash(meta.address, order.owner, io.token, io.vaultId))]),
             meta, Some(Keccak([HashPart(EventHash(meta)), HashPart(Keccak([OrderPart(order)]))])), order.owner,
             io.token, io.vaultId, amount)
  }

  ghost predicate IsBountyRecord(c: Change, meta: Meta, sender: Address, token: Address, vaultId: Word, amount: real)
  {
    IsRecord(c, ClearBounties,
             Keccak([HashPart(VaultHash(meta.address, sender, token, vaultId)), HashPart(EventHash(meta))]),
             meta, None, sender, token, vaultId, amount)
  }

  /** The records after `n` old ones are those of the postings, in order. */
  ghost predicate Recorded(trail: seq<Change>, n: nat, ps: seq<Posting>) {
    |trail| == n + |ps| && forall k :: 0 <= k < |ps| ==> IsPosted(trail[n + k], ps[k])
  }

  ghost predicate IsPosted(c: Change, p: Posting) {
    IsRecord(c, p.table, p.RecordId(), p.meta, p.trade, p.ref.owner, p.ref.token, p.ref.vaultId, p.amount)
  }

  lemma {:induction false} PostAllRecorded(b: Books, ps: seq<Posting>, decimals: Decimals)
    requires forall k :: 0 <= k < |ps| ==> ps[k].ref.raindex == ps[k].meta.address
    ensures Recorded(PostAll(b, ps, decimals).trail, |b.trail|, ps)
    ensures PostAll(b, ps, decimals).trail[..|b.trail|] == b.trail
    decreases |ps|
  {
    if |ps| > 0 {
      PostAllRecorded(b, ps[..|ps| - 1], decimals);
    }
  }

  /** A deposit is recorded under its event, with the amount in whole tokens; not at all if the decimals are unknown. */
  lemma {:induction false} DepositRecord(b: Books, e: Event, decimals: Decimals)
    requires e.Deposit?
    ensures var trail, n := Apply(b, e, decimals).trail, |b.trail|;
      if decimals(e.token).None? then trail == b.trail
      else |trail| == n + 1 && trail[..n] == b.trail &&
           IsRecord(trail[n], Deposits, EventHash(e.meta), e.meta, None, e.sender, e.token, e.vaultId,
                    e.depositAmountUint256 as real / Pow10(decimals(e.token).value))
  {
    PostAllRecorded(WithToken(b, e.token, decimals), Postings(e, None, decimals), decimals);
  }

  lemma {:induction false} WithdrawRecord(b: Books, e: Event, decimals: Decimals)
    requires e.Withdraw?
    ensures var trail, n := Apply(b, e, decimals).trail, |b.trail|;
      |trail| == n + 1 && trail[..n] == b.trail &&
      IsRecord(trail[n], Withdrawals, EventHash(e.meta), e.meta, None, e.sender, e.token, e.vaultId, -e.withdrawAmount)
  {
    PostAllRecorded(b, Postings(e, None, decimals), decimals);
  }

  /** A take is recorded as two changes of one trade: first what the output vault lost, then what the input vault
      gained. */
  lemma {:induction false} TakeRecords(b: Books, e: Event, decimals: Decimals)
    requires e.TakeOrder? && e.WellFormed()
    ensures var trail, n := Apply(b, e, decimals).trail, |b.trail|;
      && |trail| == n + 2 && trail[..n] == b.trail
      && IsTradeRecord(trail[n], e.meta, e.order, e.order.validOutputs[e.outputIOIndex], -e.input)
      && IsTradeRecord(trail[n + 1], e.meta, e.order, e.order.validInputs[e.inputIOIndex], e.output)
  {
    PostAllRecorded(b, Postings(e, None, decimals), decimals);
    var trail, n := Apply(b, e, decimals).trail, |b.trail|;
    assert IsPosted(trail[n + 0], Postings(e, None, decimals)[0]);
    assert IsPosted(trail[n + 1], Postings(e, None, decimals)[1]);
  }

  lemma {:induction false} OthersRecordNothing(b: Books, e: Event, decimals: Decimals)
    requires e.WellFormed() && (e.AddOrder? || e.RemoveOrder? || e.OrderMeta? || e.Clear?)
    ensures Apply(b, e, decimals).trail == b.trail
  {
    match e
    case AddOrder(meta, sender, order) =>
      OpenAllKeepsRest(b, sender, meta.address, order.validInputs, decimals);
      OpenAllKeepsRest(OpenAll(b, sender, meta.address, order.validInputs, decimals), sender, meta.address,
                       order.validOutputs, decimals);
    case _ =>
  }

  lemma {:induction false} TradePosted(c: Change, meta: Meta, order: Order, io: IO, amount: real)
    requires IsPosted(c, TradeChange(meta, OrderHash(order), RefTo(meta, order.owner, io), amount))
    ensures IsTradeRecord(c, meta, order, io, amount)
  {
  }

  lemma {:induction false} BountyPosted(c: Change, meta: Meta, sender: Address, token: Address, vaultId: Word,
                                        amount: real)
    requires IsPosted(c, Posting(ClearBounties, meta, None, VaultRef(meta.address, sender, vaultId, token), amount))
    ensures IsBountyRecord(c, meta, sender, token, vaultId, amount)
  {
  }

  /** The postings of a clear, with the parts of its own Clear event. */
  lemma {:induction false} ClearPostingsAre(meta: Meta, sender: Address, change: ClearStateChange, c: Event)
    requires c.Clear? && c.WellFormed()
    ensures var ps, config := ClearPostings(meta, sender, change, TemporaryData(c)), c.config;
      var a, b := change.aliceOutput - change.bobInput, change.bobOutput - change.aliceInput;
      var aliceOutput, bobOutput :=
        c.alice.validOutputs[config.aliceOutputIOIndex], c.bob.validOutputs[config.bobOutputIOIndex];
      && |ps| == 4 + (if a > 0.0 then 1 else 0) + (if b > 0.0 then 1 else 0)
      && ps[0] == TradeChange(meta, OrderHash(c.alice),
                    RefTo(meta, c.alice.owner, c.alice.validInputs[config.aliceInputIOIndex]), change.aliceInput)
      && ps[1] == TradeChange(meta, OrderHash(c.alice), RefTo(meta, c.alice.owner, aliceOutput), -change.aliceOutput)
      && ps[2] == TradeChange(meta, OrderHash(c.bob),
                    RefTo(meta, c.bob.owner, c.bob.validInputs[config.bobInputIOIndex]), change.bobInput)
      && ps[3] == TradeChange(meta, OrderHash(c.bob), RefTo(meta, c.bob.owner, bobOutput), -change.bobOutput)
      && (a > 0.0 ==> ps[4] == Posting(ClearBounties, meta, None,
                        VaultRef(meta.address, sender, config.aliceBountyVaultId, aliceOutput.token), a))
      && (b > 0.0 ==> ps[|ps| - 1] == Posting(ClearBounties, meta, None,
                        VaultRef(meta.address, sender, config.bobBountyVaultId, bobOutput.token), b))
  {
  }

  /** The records of a clear, given those of its postings. */
  ghost predicate AreClearRecords(trail: seq<Change>, n: nat, meta: Meta, sender: Address, change: ClearStateChange,
                                  c: Event)
    requires c.Clear? && c.WellFormed()
  {
    var config, a, b := c.config, change.aliceOutput - change.bobInput, change.bobOutput - change.aliceInput;
    && |trail| == n + 4 + (if a > 0.0 then 1 else 0) + (if b > 0.0 then 1 else 0)
    && IsTradeRecord(trail[n], meta, c.alice, c.alice.validInputs[config.aliceInputIOIndex], change.aliceInput)
    && IsTradeRecord(trail[n + 1], meta, c.alice, c.alice.validOutputs[config.aliceOutputIOIndex], -change.aliceOutput)
    && IsTradeRecord(trail[n + 2], meta, c.bob, c.bob.validInputs[config.bobInputIOIndex], change.bobInput)
    && IsTradeRecord(trail[n + 3], meta, c.bob, c.bob.validOutputs[config.bobOutputIOIndex], -change.bobOutput)
    && (a > 0.0 ==> IsBountyRecord(trail[n + 4], meta, sender, c.alice.validOutputs[config.aliceOutputIOIndex].token,
                                   config.aliceBountyVaultId, a))
    && (b > 0.0 ==> IsBountyRecord(trail[|trail| - 1], meta, sender,
                                   c.bob.validOutputs[config.bobOutputIOIndex].token, config.bobBountyVaultId, b))
  }

  lemma {:induction false} RecordedClear(trail: seq<Change>, n: nat, meta: Meta, sender: Address,
                                         change: ClearStateChange, c: Event)
    requires c.Clear? && c.WellFormed()
    requires Recorded(trail, n, ClearPostings(meta, sender, change, TemporaryData(c)))
    ensures AreClearRecords(trail, n, meta, sender, change, c)
  {
    var ps, config := ClearPostings(meta, sender, change, TemporaryData(c)), c.config;
    var a, b := change.aliceOutput - change.bobInput, change.bobOutput - change.aliceInput;
    var aliceOutput, bobOutput :=
      c.alice.validOutputs[config.aliceOutputIOIndex], c.bob.validOutputs[config.bobOutputIOIndex];
    ClearPostingsAre(meta, sender, change, c);
    assert forall k :: 0 <= k < |ps| ==> IsPosted(trail[n + k], ps[k]);
    assert IsPosted(trail[n], ps[0]);
    TradePosted(trail[n], meta, c.alice, c.alice.validInputs[config.aliceInputIOIndex], change.aliceInput);
    TradePosted(trail[n + 1], meta, c.alice, aliceOutput, -change.aliceOutput);
    TradePosted(trail[n + 2], meta, c.bob, c.bob.validInputs[config.bobInputIOIndex], change.bobInput);
    TradePosted(trail[n + 3], meta, c.bob, bobOutput, -change.bobOutput);
    if a > 0.0 {
      BountyPosted(trail[n + 4], meta, sender, aliceOutput.token, config.aliceBountyVaultId, a);
    }
    if b > 0.0 {
      assert IsPosted(trail[n + (|ps| - 1)], ps[|ps| - 1]);
      BountyPosted(trail[|trail| - 1], meta, sender, bobOutput.token, config.bobBountyVaultId, b);
    }
  }

  /** A clear is recorded as two changes for each order, input first, under the trade of that very order; and one for
      each positive bounty, Alice's first. */
  lemma {:induction false} ClearRecords(log: seq<Event>, decimals: Decimals, j: nat, i: nat)
    requires WellFormedLog(log) && i < |log| && Precedes(log, j, i) && log[j].Clear? && log[i].AfterClear?
    ensures var before, trail := Run(log[..i], decimals).trail, Run(log[..i + 1], decimals).trail;
      && AreClearRecords(trail, |before|, log[i].meta, log[i].sender, log[i].change, log[j])
      && trail[..|before|] == before
  {
    var b, e := Run(log[..i], decimals), log[i];
    LogStep(log, decimals, i);
    PrecedingData(log, decimals, j, i);
    PostAllRecorded(b, ClearPostings(e.meta, e.sender, e.change, TemporaryData(log[j])), decimals);
    RecordedClear(Run(log[..i + 1], decimals).trail, |b.trail|, e.meta, e.sender, e.change, log[j]);
  }

  // ----- vaults and tokens

  /** The id is that of the owner's vault for one of the IOs. */
  ghost predicate IsVaultOf(id: Hash, raindex: Address, owner: Address, ios: seq<IO>) {
    exists k :: 0 <= k < |ios| && id == VaultHash(raindex, owner, ios[k].token, ios[k].vaultId)
  }

  /** The vaults after opening: the old ones as they were, and empty ones for the IOs that had none. */
  lemma {:induction false} OpenedVaults(b: Books, owner: Address, raindex: Address, ios: seq<IO>, decimals: Decimals,
                                        id: Hash)
    ensures var after := OpenAll(b, owner, raindex, ios, decimals).vaults;
      && (id in b.vaults ==> id in after && after[id] == b.vaults[id])
      && (id in after && id !in b.vaults ==> after[id].balance == 0.0)
      && (id in after <==> id in b.vaults || IsVaultOf(id, raindex, owner, ios))
    decreases |ios|
  {
    if |ios| > 0 {
      var init, last := ios[..|ios| - 1], ios[|ios| - 1];
      OpenedVaults(b, owner, raindex, init, decimals, id);
      if k: nat :| k < |ios| && id == VaultHash(raindex, owner, ios[k].token, ios[k].vaultId) {
        assert k < |init| ==> init[k] == ios[k];
      }
      if k: nat :| k < |init| && id == VaultHash(raindex, owner, init[k].token, init[k].vaultId) {
        assert ios[k] == init[k];
      }
    }
  }

  /** Every vault's token is known by what its contract answers. */
  ghost predicate TokensKnown(b: Books, decimals: Decimals) {
    forall id :: id in b.vaults ==>
      b.vaults[id].ref.token in b.tokens && b.tokens[b.vaults[id].ref.token] == decimals(b.vaults[id].ref.token)
  }

  ghost predicate AnswersKept(b: Books, decimals: Decimals) {
    forall t :: t in b.tokens ==> b.tokens[t] == decimals(t)
  }

  lemma {:induction false} PostAllTokens(b: Books, ps: seq<Posting>, decimals: Decimals)
    requires TokensKnown(b, decimals) && AnswersKept(b, decimals)
    ensures TokensKnown(PostAll(b, ps, decimals), decimals) && AnswersKept(PostAll(b, ps, decimals), decimals)
    decreases |ps|
  {
    if |ps| > 0 {
      PostAllTokens(b, ps[..|ps| - 1], decimals);
    }
  }

  lemma {:induction false} OpenAllTokens(b: Books, owner: Address, raindex: Address, ios: seq<IO>, decimals: Decimals)
    requires TokensKnown(b, decimals) && AnswersKept(b, decimals)
    ensures TokensKnown(OpenAll(b, owner, raindex, ios, decimals), decimals)
    ensures AnswersKept(OpenAll(b, owner, raindex, ios, decimals), decimals)
    decreases |ios|
  {
    if |ios| > 0 {
      OpenAllTokens(b, owner, raindex, ios[..|ios| - 1], decimals);
    }
  }

  lemma {:induction false} TokensAreKnown(log: seq<Event>, decimals: Decimals)
    requires WellFormedLog(log)
    ensures TokensKnown(Run(log, decimals), decimals) && AnswersKept(Run(log, decimals), decimals)
  {
    if |log| > 0 {
      var b, e := Run(log[..|log| - 1], decimals), log[|log| - 1];
      TokensAreKnown(log[..|log| - 1], decimals);
      match e
      case AddOrder(meta, sender, order) =>
        OpenAllTokens(b, sender, meta.address, order.validInputs, decimals);
        OpenAllTokens(OpenAll(b, sender, meta.address, order.validInputs, decimals), sender, meta.address,
                      order.validOutputs, decimals);
      case Deposit(_, _, token, _, _) =>
        PostAllTokens(WithToken(b, token, decimals), Postings(e, None, decimals), decimals);
      case Clear(_, _, _, _) =>
      case AfterClear(_, _, _) => PostAllTokens(b, Postings(e, PendingFor(b, e), decimals), decimals);
      case _ => PostAllTokens(b, Postings(e, None, decimals), decimals);
    }
  }

  /** An order opens exactly the vaults of its inputs and outputs for its sender; no balance changes. */
  lemma {:induction false} AddOrderOpens(b: Books, e: Event, decimals: Decimals, id: Hash)
    requires e.AddOrder?
    ensures var after := Apply(b, e, decimals).vaults;
      && (id in b.vaults ==> id in after && after[id] == b.vaults[id])
      && (id in after && id !in b.vaults ==> after[id].balance == 0.0)
      && (id in after <==>
            || id in b.vaults
            || IsVaultOf(id, e.meta.address, e.sender, e.order.validInputs)
            || IsVaultOf(id, e.meta.address, e.sender, e.order.validOutputs))
  {
    OpenedVaults(b, e.sender, e.meta.address, e.order.validInputs, decimals, id);
    OpenedVaults(OpenAll(b, e.sender, e.meta.address, e.order.validInputs, decimals), e.sender, e.meta.address,
                 e.order.validOutputs, decimals, id);
  }
}
