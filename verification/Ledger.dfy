/** What the subgraph keeps of a raindex: vault balances, and one record for every balance change.

    Amounts are exact. Keccak is an injective constructor over the fixed-width parts that are concatenated. */
module Ledger {
  import opened Common

  type Address = nat
  type Word = nat

  datatype Part =
    | AddressPart(a: Address)
    | WordPart(w: Word)
    | NumberPart(n: nat)
    | HashPart(h: Hash)
    | OrderPart(order: Order)

  datatype Hash = Keccak(parts: seq<Part>)

  /** Where an event was logged: the raindex that logged it, the transaction, and the position in the log. */
  datatype Meta = Meta(address: Address, txHash: Word, logIndex: nat)

  datatype IO = IO(token: Address, vaultId: Word)

  datatype Order = Order(owner: Address, evaluable: Word, validInputs: seq<IO>, validOutputs: seq<IO>, nonce: Word)

  datatype ClearConfig = ClearConfig(aliceInputIOIndex: nat, aliceOutputIOIndex: nat, bobInputIOIndex: nat,
                                     bobOutputIOIndex: nat, aliceBountyVaultId: Word, bobBountyVaultId: Word)

  datatype ClearStateChange = ClearStateChange(aliceInput: real, aliceOutput: real, bobInput: real, bobOutput: real)

  datatype Event =
    | Deposit(meta: Meta, sender: Address, token: Address, vaultId: Word, depositAmountUint256: nat)
    | Withdraw(meta: Meta, sender: Address, token: Address, vaultId: Word, withdrawAmount: real)
    | AddOrder(meta: Meta, sender: Address, order: Order)
    | RemoveOrder(meta: Meta, sender: Address, order: Order)
    | OrderMeta(meta: Meta, sender: Address, subject: Word)
    | TakeOrder(meta: Meta, order: Order, inputIOIndex: nat, outputIOIndex: nat, input: real, output: real)
    | Clear(meta: Meta, alice: Order, bob: Order, config: ClearConfig)
    | AfterClear(meta: Meta, sender: Address, change: ClearStateChange)
  {
    /** The IO indexes of the event select IOs of its orders. */
    predicate WellFormed() {
      match this
      case TakeOrder(_, order, i, o, _, _) => i < |order.validInputs| && o < |order.validOutputs|
      case Clear(_, alice, bob, config) =>
        && config.aliceInputIOIndex < |alice.validInputs| && config.aliceOutputIOIndex < |alice.validOutputs|
        && config.bobInputIOIndex < |bob.validInputs| && config.bobOutputIOIndex < |bob.validOutputs|
      case _ => true
    }
  }

  /** The vault of one owner, one token and one vault id in one raindex. */
  datatype VaultRef = VaultRef(raindex: Address, owner: Address, vaultId: Word, token: Address)

  datatype Vault = Vault(ref: VaultRef, balance: real)

  datatype ClearTemporaryData = ClearTemporaryData(
    aliceOrderHash: Hash, bobOrderHash: Hash,
    aliceAddress: Address, bobAddress: Address,
    aliceInput: IO, aliceOutput: IO, bobInput: IO, bobOutput: IO,
    aliceBounty: Word, bobBounty: Word)

  datatype Table = Deposits | Withdrawals | TradeVaultBalanceChanges | ClearBounties

  /** One saved record of a balance change; `trade` is the trade that a trade change belongs to. */
  datatype Change = Change(table: Table, id: Hash, meta: Meta, trade: Option<Hash>, vault: Hash, amount: real,
                           oldVaultBalance: real, newVaultBalance: real)

  /** The store: vaults and temporary data by id, the decimals of known tokens, and the records in saving order. */
  datatype Books = Books(vaults: map<Hash, Vault>, tokens: map<Address, Option<nat>>,
                         pending: map<Hash, ClearTemporaryData>, trail: seq<Change>)

  const EMPTY: Books := Books(map[], map[], map[], [])

  /** What the token contract answers for its decimals, `None` when the call reverts. */
  type Decimals = Address -> Option<nat>

  function VaultEntityId(ref: VaultRef): Hash {
    Keccak([AddressPart(ref.raindex), AddressPart(ref.owner), AddressPart(ref.token), WordPart(ref.vaultId)])
  }

  function EventId(meta: Meta): Hash {
    Keccak([AddressPart(meta.address), WordPart(meta.txHash), NumberPart(meta.logIndex)])
  }

  function OrderHash(order: Order): Hash { Keccak([OrderPart(order)]) }

  function TradeId(meta: Meta, orderHash: Hash): Hash {
    Keccak([HashPart(EventId(meta)), HashPart(orderHash)])
  }

  function ClearEventId(address: Address, txHash: Word): Hash {
    Keccak([AddressPart(address), WordPart(txHash)])
  }

  function TradeVaultBalanceChangeId(meta: Meta, vault: Hash): Hash {
    Keccak([HashPart(EventId(meta)), HashPart(vault)])
  }

  function ClearBountyId(meta: Meta, vault: Hash): Hash {
    Keccak([HashPart(vault), HashPart(EventId(meta))])
  }

  function Pow10(k: nat): (r: real)
    ensures r > 0.0
  {
    if k == 0 then 1.0 else 10.0 * Pow10(k - 1)
  }

  function FromFixedDecimalLossless(amount: nat, decimals: nat): real {
    amount as real / Pow10(decimals)
  }

  // ----- specification: events as postings

  /** An amount posted to a vault, and the table its record goes to. */
  datatype Posting = Posting(table: Table, meta: Meta, trade: Option<Hash>, ref: VaultRef, amount: real) {
    function RecordId(): Hash {
      match table
      case Deposits => EventId(meta)
      case Withdrawals => EventId(meta)
      case TradeVaultBalanceChanges => TradeVaultBalanceChangeId(meta, VaultEntityId(ref))
      case ClearBounties => ClearBountyId(meta, VaultEntityId(ref))
    }
  }

  function WithToken(b: Books, token: Address, decimals: Decimals): Books {
    if token in b.tokens then b else b.(tokens := b.tokens[token := decimals(token)])
  }

  function WithVault(b: Books, ref: VaultRef, decimals: Decimals): (b': Books)
    ensures VaultEntityId(ref) in b'.vaults
  {
    if VaultEntityId(ref) in b.vaults then b
    else
      var b' := WithToken(b, ref.token, decimals);
      b'.(vaults := b'.vaults[VaultEntityId(ref) := Vault(ref, 0.0)])
  }

  function Post(b: Books, p: Posting, decimals: Decimals): Books {
    var ready, id := WithVault(b, p.ref, decimals), VaultEntityId(p.ref);
    var balance := ready.vaults[id].balance;
    ready.(vaults := ready.vaults[id := ready.vaults[id].(balance := balance + p.amount)],
            trail := b.trail + [Change(p.table, p.RecordId(), p.meta, p.trade, id, p.amount, balance,
                                       balance + p.amount)])
  }

  function PostAll(b: Books, ps: seq<Posting>, decimals: Decimals): Books
    decreases |ps|
  {
    if |ps| == 0 then b else Post(PostAll(b, ps[..|ps| - 1], decimals), ps[|ps| - 1], decimals)
  }

  function OpenAll(b: Books, owner: Address, raindex: Address, ios: seq<IO>, decimals: Decimals): Books
    decreases |ios|
  {
    if |ios| == 0 then b
    else
      var io := ios[|ios| - 1];
      WithVault(OpenAll(b, owner, raindex, ios[..|ios| - 1], decimals), VaultRef(raindex, owner, io.vaultId, io.token),
                decimals)
  }

  function TemporaryData(e: Event): ClearTemporaryData
    requires e.Clear? && e.WellFormed()
  {
    ClearTemporaryData(
      OrderHash(e.alice), OrderHash(e.bob), e.alice.owner, e.bob.owner,
      e.alice.validInputs[e.config.aliceInputIOIndex], e.alice.validOutputs[e.config.aliceOutputIOIndex],
      e.bob.validInputs[e.config.bobInputIOIndex], e.bob.validOutputs[e.config.bobOutputIOIndex],
      e.config.aliceBountyVaultId, e.config.bobBountyVaultId)
  }

  function RefTo(meta: Meta, owner: Address, io: IO): VaultRef {
    VaultRef(meta.address, owner, io.vaultId, io.token)
  }

  function TradeChange(meta: Meta, orderHash: Hash, ref: VaultRef, amount: real): Posting {
    Posting(TradeVaultBalanceChanges, meta, Some(TradeId(meta, orderHash)), ref, amount)
  }

  function TradePostings(meta: Meta, orderHash: Hash, owner: Address, input: IO, inputAmount: real, output: IO,
                         outputAmount: real): seq<Posting>
  {
    [TradeChange(meta, orderHash, RefTo(meta, owner, input), inputAmount),
     TradeChange(meta, orderHash, RefTo(meta, owner, output), -outputAmount)]
  }

  function AlicePostings(meta: Meta, change: ClearStateChange, data: ClearTemporaryData): seq<Posting> {
    TradePostings(meta, data.aliceOrderHash, data.aliceAddress, data.aliceInput, change.aliceInput, data.aliceOutput,
                  change.aliceOutput)
  }

  function BobPostings(meta: Meta, change: ClearStateChange, data: ClearTemporaryData): seq<Posting> {
    TradePostings(meta, data.bobOrderHash, data.bobAddress, data.bobInput, change.bobInput, data.bobOutput,
                  change.bobOutput)
  }

  /** A bounty goes to the sender's vault `vaultId`, if there is anything left. */
  function BountyPostings(meta: Meta, sender: Address, vaultId: Word, token: Address, amount: real): seq<Posting> {
    if amount > 0.0 then [Posting(ClearBounties, meta, None, VaultRef(meta.address, sender, vaultId, token), amount)]
    else []
  }

  /** The postings of a cleared pair of orders: each side's input and output, and what is left over as bounties. */
  function ClearPostings(meta: Meta, sender: Address, change: ClearStateChange, data: ClearTemporaryData)
    : seq<Posting>
  {
    AlicePostings(meta, change, data) + BobPostings(meta, change, data)
    + BountyPostings(meta, sender, data.aliceBounty, data.aliceOutput.token, change.aliceOutput - change.bobInput)
    + BountyPostings(meta, sender, data.bobBounty, data.bobOutput.token, change.bobOutput - change.aliceInput)
  }

  function Postings(e: Event, pending: Option<ClearTemporaryData>, decimals: Decimals): seq<Posting>
    requires e.WellFormed()
  {
    match e
    case Deposit(meta, sender, token, vaultId, amount) =>
      if decimals(token).None? then []
      else [Posting(Deposits, meta, None, VaultRef(meta.address, sender, vaultId, token),
                    FromFixedDecimalLossless(amount, decimals(token).value))]
    case Withdraw(meta, sender, token, vaultId, amount) =>
      [Posting(Withdrawals, meta, None, VaultRef(meta.address, sender, vaultId, token), -amount)]
    case TakeOrder(meta, order, i, o, input, output) =>
      [TradeChange(meta, OrderHash(order), RefTo(meta, order.owner, order.validOutputs[o]), -input),
       TradeChange(meta, OrderHash(order), RefTo(meta, order.owner, order.validInputs[i]), output)]
    case AfterClear(meta, sender, change) =>
      if pending.None? then [] else ClearPostings(meta, sender, change, pending.value)
    case _ => []
  }

  function PendingFor(b: Books, e: Event): Option<ClearTemporaryData> {
    var id := ClearEventId(e.meta.address, e.meta.txHash);
    if id in b.pending then Some(b.pending[id]) else None
  }

  /** The store after one event. */
  function Apply(b: Books, e: Event, decimals: Decimals): Books
    requires e.WellFormed()
  {
    var id := ClearEventId(e.meta.address, e.meta.txHash);
    match e
    case Deposit(_, _, token, _, _) =>
      PostAll(WithToken(b, token, decimals), Postings(e, None, decimals), decimals)
    case AddOrder(meta, sender, order) =>
      OpenAll(OpenAll(b, sender, meta.address, order.validInputs, decimals), sender, meta.address, order.validOutputs,
              decimals)
    case Clear(_, _, _, _) => b.(pending := b.pending[id := TemporaryData(e)])
    case AfterClear(_, _, _) =>
      var b' := PostAll(b, Postings(e, PendingFor(b, e), decimals), decimals);
      b'.(pending := b'.pending - {id})
    case _ => PostAll(b, Postings(e, None, decimals), decimals)
  }

  predicate WellFormedLog(log: seq<Event>) {
    forall i :: 0 <= i < |log| ==> log[i].WellFormed()
  }

  function Run(log: seq<Event>, decimals: Decimals): Books
    requires WellFormedLog(log)
  {
    if |log| == 0 then EMPTY else Apply(Run(log[..|log| - 1], decimals), log[|log| - 1], decimals)
  }

  // ----- the handlers

  class Subgraph {
    const decimals: Decimals
    var vaults: map<Hash, Vault>
    var tokens: map<Address, Option<nat>>
    var clearTemporaryData: map<Hash, ClearTemporaryData>
    var trail: seq<Change>

    constructor (decimals: Decimals)
      ensures this.decimals == decimals && State() == EMPTY
    {
      this.decimals := decimals;
      vaults, tokens, clearTemporaryData, trail := map[], map[], map[], [];
    }

    ghost function State(): Books
      reads this
    {
      Books(vaults, tokens, clearTemporaryData, trail)
    }

    /** The known tokens are known by what their contracts answer. */
    ghost predicate Valid()
      reads this
    {
      forall t :: t in tokens ==> tokens[t] == decimals(t)
    }

    method GetERC20Entity(token: Address)
      modifies this
      ensures State() == WithToken(old(State()), token, decimals)
      ensures old(Valid()) ==> Valid()
      ensures token in tokens
    {
      if token !in tokens {
        tokens := tokens[token := decimals(token)];
      }
    }

    method GetVault(ref: VaultRef) returns (vault: Vault)
      modifies this
      ensures State() == WithVault(old(State()), ref, decimals)
      ensures vault == vaults[VaultEntityId(ref)]
      ensures old(Valid()) ==> Valid()
    {
      var id := VaultEntityId(ref);
      if id !in vaults {
        GetERC20Entity(ref.token);
        vaults := vaults[id := Vault(ref, 0.0)];
      }
      vault := vaults[id];
    }

    method HandleVaultBalanceChange(ref: VaultRef, amount: real) returns (oldBalance: real, newBalance: real)
      modifies this
      ensures old(Valid()) ==> Valid()
      ensures var ready, id := WithVault(old(State()), ref, decimals), VaultEntityId(ref);
        && oldBalance == ready.vaults[id].balance && newBalance == oldBalance + amount
        && State() == ready.(vaults := ready.vaults[id := ready.vaults[id].(balance := newBalance)])
    {
      var vault := GetVault(ref);
      oldBalance := vault.balance;
      newBalance := oldBalance + amount;
      vaults := vaults[VaultEntityId(ref) := vault.(balance := newBalance)];
    }

    method SaveChange(change: Change)
      modifies this`trail
      ensures trail == old(trail) + [change]
    {
      trail := trail + [change];
    }

    /** The record recomputes the new balance from the old one. */
    method CreateTradeVaultBalanceChangeEntity(meta: Meta, orderHash: Hash, vault: Hash, oldBalance: real, amount: real)
      modifies this`trail
      ensures trail == old(trail) +
        [Change(TradeVaultBalanceChanges, TradeVaultBalanceChangeId(meta, vault), meta, Some(TradeId(meta, orderHash)),
                vault, amount, oldBalance, oldBalance + amount)]
    {
      SaveChange(Change(TradeVaultBalanceChanges, TradeVaultBalanceChangeId(meta, vault), meta,
                        Some(TradeId(meta, orderHash)), vault, amount, oldBalance, oldBalance + amount));
    }

    method CreateClearBountyEntity(meta: Meta, vault: Hash, oldBalance: real, amount: real)
      modifies this`trail
      ensures trail == old(trail) + [Change(ClearBounties, ClearBountyId(meta, vault), meta, None, vault, amount,
                                            oldBalance, oldBalance + amount)]
    {
      SaveChange(Change(ClearBounties, ClearBountyId(meta, vault), meta, None, vault, amount, oldBalance,
                        oldBalance + amount));
    }

    method HandleDeposit(e: Event)
      requires e.Deposit? && Valid()
      modifies this
      ensures Valid() && State() == Apply(old(State()), e, decimals)
    {
      GetERC20Entity(e.token);
      if tokens[e.token].None? {
        return;
      }
      var amount := FromFixedDecimalLossless(e.depositAmountUint256, tokens[e.token].value);
      var ref := VaultRef(e.meta.address, e.sender, e.vaultId, e.token);
      PostOne(WithToken(old(State()), e.token, decimals), Posting(Deposits, e.meta, None, ref, amount),
              decimals);
      var oldBalance, newBalance := HandleVaultBalanceChange(ref, amount);
      SaveChange(Change(Deposits, EventId(e.meta), e.meta, None, VaultEntityId(ref), amount, oldBalance, newBalance));
    }

    method HandleWithdraw(e: Event)
      requires e.Withdraw? && Valid()
      modifies this
      ensures Valid() && State() == Apply(old(State()), e, decimals)
    {
      var ref := VaultRef(e.meta.address, e.sender, e.vaultId, e.token);
      PostOne(State(), Posting(Withdrawals, e.meta, None, ref, -e.withdrawAmount), decimals);
      var oldBalance, newBalance := HandleVaultBalanceChange(ref, -e.withdrawAmount);
      SaveChange(Change(Withdrawals, EventId(e.meta), e.meta, None, VaultEntityId(ref), -e.withdrawAmount, oldBalance,
                        oldBalance - e.withdrawAmount));
    }

    method HandleAddOrder(e: Event)
      requires e.AddOrder? && Valid()
      modifies this
      ensures Valid() && State() == Apply(old(State()), e, decimals)
    {
      OpenVaults(e.sender, e.meta.address, e.order.validInputs);
      OpenVaults(e.sender, e.meta.address, e.order.validOutputs);
    }

    method OpenVaults(owner: Address, raindex: Address, ios: seq<IO>)
      requires Valid()
      modifies this
      ensures Valid() && State() == OpenAll(old(State()), owner, raindex, ios, decimals)
    {
      for i := 0 to |ios|
        invariant Valid()
        invariant State() == OpenAll(old(State()), owner, raindex, ios[..i], decimals)
      {
        var vault := GetVault(VaultRef(raindex, owner, ios[i].vaultId, ios[i].token));
        assert ios[..i + 1][..i] == ios[..i];
      }
      assert ios[..|ios|] == ios;
    }

    /** Post one trade change: the vault is updated, then the record is saved with the old balance. */
    method PostTradeChange(meta: Meta, orderHash: Hash, ref: VaultRef, amount: real)
      requires Valid()
      modifies this
      ensures Valid()
      ensures State() == Post(old(State()), TradeChange(meta, orderHash, ref, amount), decimals)
    {
      var oldBalance, newBalance := HandleVaultBalanceChange(ref, amount);
      CreateTradeVaultBalanceChangeEntity(meta, orderHash, VaultEntityId(ref), oldBalance, amount);
    }

    method HandleTakeOrder(e: Event)
      requires e.TakeOrder? && e.WellFormed() && Valid()
      modifies this
      ensures Valid() && State() == Apply(old(State()), e, decimals)
    {
      ghost var ps := Postings(e, None, decimals);
      PostTwo(State(), ps[0], ps[1], decimals);
      var orderOutput := e.order.validOutputs[e.outputIOIndex];
      PostTradeChange(e.meta, OrderHash(e.order), RefTo(e.meta, e.order.owner, orderOutput), -e.input);
      var orderInput := e.order.validInputs[e.inputIOIndex];
      PostTradeChange(e.meta, OrderHash(e.order), RefTo(e.meta, e.order.owner, orderInput), e.output);
    }

    method HandleClear(e: Event)
      requires e.Clear? && e.WellFormed() && Valid()
      modifies this`clearTemporaryData
      ensures Valid() && State() == Apply(old(State()), e, decimals)
    {
      var aliceInput := e.alice.validInputs[e.config.aliceInputIOIndex];
      var aliceOutput := e.alice.validOutputs[e.config.aliceOutputIOIndex];
      var bobInput := e.bob.validInputs[e.config.bobInputIOIndex];
      var bobOutput := e.bob.validOutputs[e.config.bobOutputIOIndex];
      clearTemporaryData := clearTemporaryData[ClearEventId(e.meta.address, e.meta.txHash) :=
        ClearTemporaryData(OrderHash(e.alice), OrderHash(e.bob), e.alice.owner, e.bob.owner, aliceInput, aliceOutput,
                           bobInput, bobOutput, e.config.aliceBountyVaultId, e.config.bobBountyVaultId)];
    }

    method CreateTrade(meta: Meta, owner: Address, orderHash: Hash, input: IO, inputAmount: real, output: IO,
                       outputAmount: real)
      requires Valid()
      modifies this
      ensures Valid()
      ensures State() ==
        PostAll(old(State()), TradePostings(meta, orderHash, owner, input, inputAmount, output, outputAmount), decimals)
    {
      ghost var ps := TradePostings(meta, orderHash, owner, input, inputAmount, output, outputAmount);
      PostTwo(State(), ps[0], ps[1], decimals);
      PostTradeChange(meta, orderHash, RefTo(meta, owner, input), inputAmount);
      PostTradeChange(meta, orderHash, RefTo(meta, owner, output), -outputAmount);
    }

    method PostBounty(meta: Meta, sender: Address, vaultId: Word, token: Address, amount: real)
      requires Valid()
      modifies this
      ensures Valid()
      ensures State() == PostAll(old(State()), BountyPostings(meta, sender, vaultId, token, amount), decimals)
    {
      if amount > 0.0 {
        var ref := VaultRef(meta.address, sender, vaultId, token);
        PostOne(State(), Posting(ClearBounties, meta, None, ref, amount), decimals);
        var oldBalance, newBalance := HandleVaultBalanceChange(ref, amount);
        CreateClearBountyEntity(meta, VaultEntityId(ref), oldBalance, amount);
      }
    }

    method HandleAfterClear(e: Event)
      requires e.AfterClear? && Valid()
      modifies this
      ensures Valid() && State() == Apply(old(State()), e, decimals)
    {
      var id := ClearEventId(e.meta.address, e.meta.txHash);
      if id in clearTemporaryData {
        PostClear(e, clearTemporaryData[id]);
        clearTemporaryData := clearTemporaryData - {id};
      } else {
        assert clearTemporaryData - {id} == clearTemporaryData;
      }
    }

    /** Both trades and both bounties of a clear. */
    method PostClear(e: Event, data: ClearTemporaryData)
      requires e.AfterClear? && Valid()
      modifies this
      ensures Valid()
      ensures State() == PostAll(old(State()), ClearPostings(e.meta, e.sender, e.change, data), decimals)
      ensures clearTemporaryData == old(clearTemporaryData)
    {
      CreateTrade(e.meta, data.aliceAddress, data.aliceOrderHash, data.aliceInput, e.change.aliceInput,
                  data.aliceOutput, e.change.aliceOutput);
      CreateTrade(e.meta, data.bobAddress, data.bobOrderHash, data.bobInput, e.change.bobInput, data.bobOutput,
                  e.change.bobOutput);
      var aliceBounty := e.change.aliceOutput - e.change.bobInput;
      var bobBounty := e.change.bobOutput - e.change.aliceInput;
      PostBounty(e.meta, e.sender, data.aliceBounty, data.aliceOutput.token, aliceBounty);
      PostBounty(e.meta, e.sender, data.bobBounty, data.bobOutput.token, bobBounty);
      ClearInSteps(old(State()), e, data, decimals);
    }

    method Handle(e: Event)
      requires e.WellFormed() && Valid()
      modifies this
      ensures Valid() && State() == Apply(old(State()), e, decimals)
    {
      match e
      case Deposit(_, _, _, _, _) => HandleDeposit(e);
      case Withdraw(_, _, _, _, _) => HandleWithdraw(e);
      case AddOrder(_, _, _) => HandleAddOrder(e);
      case TakeOrder(_, _, _, _, _, _) => HandleTakeOrder(e);
      case Clear(_, _, _, _) => HandleClear(e);
      case AfterClear(_, _, _) => HandleAfterClear(e);
      case RemoveOrder(_, _, _) =>
      case OrderMeta(_, _, _) =>
    }
  }

  /** Index a whole log from an empty store. */
  method Index(log: seq<Event>, decimals: Decimals) returns (subgraph: Subgraph)
    requires WellFormedLog(log)
    ensures fresh(subgraph) && subgraph.State() == Run(log, decimals)
  {
    subgraph := new Subgraph(decimals);
    for i := 0 to |log|
      invariant fresh(subgraph) && subgraph.decimals == decimals && subgraph.Valid()
      invariant subgraph.State() == Run(log[..i], decimals)
    {
      subgraph.Handle(log[i]);
      assert log[..i + 1][..i] == log[..i];
    }
    assert log[..|log|] == log;
  }

  lemma {:induction false} InitOfSum(ps: seq<Posting>, qs: seq<Posting>)
    requires |qs| > 0
    ensures (ps + qs)[..|ps + qs| - 1] == ps + qs[..|qs| - 1] && (ps + qs)[|ps + qs| - 1] == qs[|qs| - 1]
  {
  }

  lemma {:induction false} PostAllSplits(b: Books, ps: seq<Posting>, qs: seq<Posting>, decimals: Decimals)
    ensures PostAll(b, ps + qs, decimals) == PostAll(PostAll(b, ps, decimals), qs, decimals)
    decreases |qs|
  {
    if |qs| == 0 {
      assert ps + qs == ps;
    } else {
      var init := qs[..|qs| - 1];
      PostAllSplits(b, ps, init, decimals);
      InitOfSum(ps, qs);
    }
  }

  lemma {:induction false} PostAllKeepsPending(b: Books, ps: seq<Posting>, decimals: Decimals)
    ensures PostAll(b, ps, decimals).pending == b.pending
    decreases |ps|
  {
    if |ps| > 0 {
      PostAllKeepsPending(b, ps[..|ps| - 1], decimals);
    }
  }

  lemma {:induction false} PostOne(b: Books, p: Posting, decimals: Decimals)
    ensures PostAll(b, [p], decimals) == Post(b, p, decimals)
  {
    assert [p][..0] == [];
  }

  lemma {:induction false} PostTwo(b: Books, p: Posting, q: Posting, decimals: Decimals)
    ensures PostAll(b, [p, q], decimals) == Post(Post(b, p, decimals), q, decimals)
  {
    assert [p, q][..1] == [p];
    PostOne(b, p, decimals);
  }

  /** The postings of a clear, one handler call after the other. */
  lemma {:induction false} ClearInSteps(b: Books, e: Event, data: ClearTemporaryData, decimals: Decimals)
    requires e.AfterClear?
    ensures var m, c := e.meta, e.change;
      var alice := PostAll(b, AlicePostings(m, c, data), decimals);
      var both := PostAll(alice, BobPostings(m, c, data), decimals);
      var paid := PostAll(both,
        BountyPostings(m, e.sender, data.aliceBounty, data.aliceOutput.token, c.aliceOutput - c.bobInput), decimals);
      PostAll(b, ClearPostings(m, e.sender, c, data), decimals) == PostAll(paid,
        BountyPostings(m, e.sender, data.bobBounty, data.bobOutput.token, c.bobOutput - c.aliceInput), decimals)
    ensures PostAll(b, ClearPostings(e.meta, e.sender, e.change, data), decimals).pending == b.pending
  {
    var m, c := e.meta, e.change;
    var alice, bob := AlicePostings(m, c, data), BobPostings(m, c, data);
    var p := BountyPostings(m, e.sender, data.aliceBounty, data.aliceOutput.token, c.aliceOutput - c.bobInput);
    var q := BountyPostings(m, e.sender, data.bobBounty, data.bobOutput.token, c.bobOutput - c.aliceInput);
    PostAllSplits(b, alice + bob + p, q, decimals);
    PostAllSplits(b, alice + bob, p, decimals);
    PostAllSplits(b, alice, bob, decimals);
    PostAllKeepsPending(b, alice + bob + p + q, decimals);
  }
}
