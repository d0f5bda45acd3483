/** What holds of the indexed store after every log of events. */
module LedgerProofs {
  import opened Common
  import opened Ledger

  // ----- the vault table

  /** Every vault is stored under the id of its own raindex, owner, token and vault id. */
  ghost predicate Keyed(b: Books) {
    forall id :: id in b.vaults ==> id == VaultEntityId(b.vaults[id].ref)
  }

  /** A vault id determines its raindex, owner, token and vault id. */
  lemma {:induction false} SameVaultId(a: VaultRef, b: VaultRef)
    requires VaultEntityId(a) == VaultEntityId(b)
    ensures a == b
  {
    var s, t := VaultEntityId(a).parts, VaultEntityId(b).parts;
    assert s[0] == t[0] && s[1] == t[1] && s[2] == t[2] && s[3] == t[3];
  }

  lemma {:induction false} PostAllKeyed(b: Books, ps: seq<Posting>, decimals: Decimals)
    requires Keyed(b)
    ensures Keyed(PostAll(b, ps, decimals))
    decreases |ps|
  {
    if |ps| > 0 {
      PostAllKeyed(b, ps[..|ps| - 1], decimals);
    }
  }

  lemma {:induction false} OpenAllKeyed(b: Books, owner: Address, raindex: Address, ios: seq<IO>, decimals: Decimals)
    requires Keyed(b)
    ensures Keyed(OpenAll(b, owner, raindex, ios, decimals))
    decreases |ios|
  {
    if |ios| > 0 {
      OpenAllKeyed(b, owner, raindex, ios[..|ios| - 1], decimals);
    }
  }

  lemma {:induction false} RunKeyed(log: seq<Event>, decimals: Decimals)
    requires WellFormedLog(log)
    ensures Keyed(Run(log, decimals))
  {
    if |log| > 0 {
      var b, e := Run(log[..|log| - 1], decimals), log[|log| - 1];
      RunKeyed(log[..|log| - 1], decimals);
      match e
      case AddOrder(meta, sender, order) =>
        OpenAllKeyed(b, sender, meta.address, order.validInputs, decimals);
        OpenAllKeyed(OpenAll(b, sender, meta.address, order.validInputs, decimals), sender, meta.address,
                     order.validOutputs, decimals);
      case Deposit(_, _, token, _, _) =>
        PostAllKeyed(WithToken(b, token, decimals), Postings(e, None, decimals), decimals);
      case Clear(_, _, _, _) =>
      case AfterClear(_, _, _) => PostAllKeyed(b, Postings(e, PendingFor(b, e), decimals), decimals);
      case _ => PostAllKeyed(b, Postings(e, None, decimals), decimals);
    }
  }

  // ----- the audit trail

  /** The balance that the last record of a vault left, 0 if there is none. */
  ghost function LastBalance(trail: seq<Change>, vault: Hash): real {
    if |trail| == 0 then 0.0
    else if trail[|trail| - 1].vault == vault then trail[|trail| - 1].newVaultBalance
    else LastBalance(trail[..|trail| - 1], vault)
  }

  ghost function AmountsOf(trail: seq<Change>, vault: Hash): real {
    if |trail| == 0 then 0.0
    else AmountsOf(trail[..|trail| - 1], vault) +
         (if trail[|trail| - 1].vault == vault then trail[|trail| - 1].amount else 0.0)
  }

  /** Every record starts from the balance that the previous record of its vault left, and adds its amount. */
  ghost predicate Linked(trail: seq<Change>) {
    forall i :: 0 <= i < |trail| ==>
      && trail[i].oldVaultBalance == LastBalance(trail[..i], trail[i].vault)
      && trail[i].newVaultBalance == trail[i].oldVaultBalance + trail[i].amount
  }

  /** The stored balance is what the last record left; only stored vaults have records. */
  ghost predicate Audited(b: Books) {
    && Linked(b.trail)
    && (forall id :: id in b.vaults ==> b.vaults[id].balance == LastBalance(b.trail, id))
    && (forall i :: 0 <= i < |b.trail| ==> b.trail[i].vault in b.vaults)
  }

  lemma {:induction false} NoRecordsNoBalance(trail: seq<Change>, vault: Hash)
    requires forall i :: 0 <= i < |trail| ==> trail[i].vault != vault
    ensures LastBalance(trail, vault) == 0.0 && AmountsOf(trail, vault) == 0.0
  {
    if |trail| > 0 {
      NoRecordsNoBalance(trail[..|trail| - 1], vault);
    }
  }

  lemma {:induction false} WithVaultAudited(b: Books, ref: VaultRef, decimals: Decimals)
    requires Audited(b)
    ensures Audited(WithVault(b, ref, decimals))
  {
    if VaultEntityId(ref) !in b.vaults {
      NoRecordsNoBalance(b.trail, VaultEntityId(ref));
    }
  }

  /** A record that starts from the last balance of its vault keeps the trail linked. */
  lemma {:induction false} LinkedNext(trail: seq<Change>, c: Change)
    requires Linked(trail) && c.oldVaultBalance == LastBalance(trail, c.vault)
    requires c.newVaultBalance == c.oldVaultBalance + c.amount
    ensures Linked(trail + [c])
  {
    var next := trail + [c];
    forall i | 0 <= i < |next|
      ensures next[i].oldVaultBalance == LastBalance(next[..i], next[i].vault)
      ensures next[i].newVaultBalance == next[i].oldVaultBalance + next[i].amount
    {
      assert next[..i] == trail[..i];
    }
  }

  lemma {:induction false} LastBalanceNext(trail: seq<Change>, c: Change, vault: Hash)
    ensures LastBalance(trail + [c], vault) == if c.vault == vault then c.newVaultBalance else LastBalance(trail, vault)
  {
    assert (trail + [c])[..|trail|] == trail;
  }

  lemma {:induction false} PostAudited(b: Books, p: Posting, decimals: Decimals)
    requires Audited(b)
    ensures Audited(Post(b, p, decimals))
  {
    WithVaultAudited(b, p.ref, decimals);
    var before, after := WithVault(b, p.ref, decimals), Post(b, p, decimals);
    var c := after.trail[|b.trail|];
    assert after.trail == before.trail + [c];
    LinkedNext(before.trail, c);
    forall id | id in after.vaults ensures after.vaults[id].balance == LastBalance(after.trail, id) {
      LastBalanceNext(before.trail, c, id);
    }
  }

  lemma {:induction false} PostAllAudited(b: Books, ps: seq<Posting>, decimals: Decimals)
    requires Audited(b)
    ensures Audited(PostAll(b, ps, decimals))
    decreases |ps|
  {
    if |ps| > 0 {
      PostAllAudited(b, ps[..|ps| - 1], decimals);
      PostAudited(PostAll(b, ps[..|ps| - 1], decimals), ps[|ps| - 1], decimals);
    }
  }

  lemma {:induction false} OpenAllAudited(b: Books, owner: Address, raindex: Address, ios: seq<IO>, decimals: Decimals)
    requires Audited(b)
    ensures Audited(OpenAll(b, owner, raindex, ios, decimals))
    decreases |ios|
  {
    if |ios| > 0 {
      var io := ios[|ios| - 1];
      OpenAllAudited(b, owner, raindex, ios[..|ios| - 1], decimals);
      WithVaultAudited(OpenAll(b, owner, raindex, ios[..|ios| - 1], decimals),
                       VaultRef(raindex, owner, io.vaultId, io.token), decimals);
    }
  }

  lemma {:induction false} RunAudited(log: seq<Event>, decimals: Decimals)
    requires WellFormedLog(log)
    ensures Audited(Run(log, decimals))
  {
    if |log| > 0 {
      var b, e := Run(log[..|log| - 1], decimals), log[|log| - 1];
      RunAudited(log[..|log| - 1], decimals);
      match e
      case AddOrder(meta, sender, order) =>
        OpenAllAudited(b, sender, meta.address, order.validInputs, decimals);
        OpenAllAudited(OpenAll(b, sender, meta.address, order.validInputs, decimals), sender, meta.address,
                       order.validOutputs, decimals);
      case Deposit(_, _, token, _, _) =>
        PostAllAudited(WithToken(b, token, decimals), Postings(e, None, decimals), decimals);
      case Clear(_, _, _, _) =>
      case AfterClear(_, _, _) =>
        PostAllAudited(b, Postings(e, PendingFor(b, e), decimals), decimals);
      case _ => PostAllAudited(b, Postings(e, None, decimals), decimals);
    }
  }

  lemma {:induction false} LastBalanceAt(trail: seq<Change>, vault: Hash, i: nat)
    requires i < |trail| && trail[i].vault == vault
    requires forall k :: i < k < |trail| ==> trail[k].vault != vault
    ensures LastBalance(trail, vault) == trail[i].newVaultBalance
  {
    if i < |trail| - 1 {
      LastBalanceAt(trail[..|trail| - 1], vault, i);
    }
  }

  lemma {:induction false} LinkedAmounts(trail: seq<Change>, vault: Hash)
    requires Linked(trail)
    ensures LastBalance(trail, vault) == AmountsOf(trail, vault)
  {
    if |trail| > 0 {
      var init := trail[..|trail| - 1];
      forall i | 0 <= i < |init| ensures init[..i] == trail[..i] && init[i] == trail[i] {
      }
      LinkedAmounts(init, vault);
    }
  }

  /** No record of the vault from position `from` up to `to`. */
  ghost predicate QuietVault(trail: seq<Change>, vault: Hash, from: nat, to: nat)
    requires to <= |trail|
  {
    forall k :: from <= k < to ==> trail[k].vault != vault
  }

  /** For every vault after every log: its first record starts at 0, each record starts where the previous one of the
      vault ended, and the last one ends at the stored balance, which is the sum of all recorded amounts. */
  lemma {:induction false} AuditTrail(log: seq<Event>, decimals: Decimals, vault: Hash)
    requires WellFormedLog(log)
    ensures var trail := Run(log, decimals).trail;
      forall i :: 0 <= i < |trail| && trail[i].vault == vault && QuietVault(trail, vault, 0, i) ==>
        trail[i].oldVaultBalance == 0.0
    ensures var trail := Run(log, decimals).trail;
      forall i, j :: 0 <= i < j < |trail| && trail[i].vault == trail[j].vault == vault &&
                     QuietVault(trail, vault, i + 1, j) ==>
        trail[j].oldVaultBalance == trail[i].newVaultBalance
    ensures var b := Run(log, decimals);
      forall i :: 0 <= i < |b.trail| && b.trail[i].vault == vault && QuietVault(b.trail, vault, i + 1, |b.trail|) ==>
        vault in b.vaults && b.vaults[vault].balance == b.trail[i].newVaultBalance
    ensures var b := Run(log, decimals);
      vault in b.vaults ==> b.vaults[vault].balance == AmountsOf(b.trail, vault)
  {
    RunAudited(log, decimals);
    var b := Run(log, decimals);
    var trail := b.trail;
    forall i | 0 <= i < |trail| && trail[i].vault == vault && QuietVault(trail, vault, 0, i)
      ensures trail[i].oldVaultBalance == 0.0
    {
      NoRecordsNoBalance(trail[..i], vault);
    }
    forall i, j | 0 <= i < j < |trail| && trail[i].vault == trail[j].vault == vault &&
                  QuietVault(trail, vault, i + 1, j)
      ensures trail[j].oldVaultBalance == trail[i].newVaultBalance
    {
      LastBalanceAt(trail[..j], vault, i);
    }
    forall i | 0 <= i < |trail| && trail[i].vault == vault && QuietVault(trail, vault, i + 1, |trail|)
      ensures vault in b.vaults && b.vaults[vault].balance == trail[i].newVaultBalance
    {
      LastBalanceAt(trail, vault, i);
    }
    LinkedAmounts(trail, vault);
  }

  // ----- the two-phase clear

  ghost predicate OfClear(e: Event, address: Address, txHash: Word) {
    (e.Clear? || e.AfterClear?) && e.meta.address == address && e.meta.txHash == txHash
  }

  /** The temporary data that should be waiting for an AfterClear of this raindex and transaction: that of the last
      Clear, unless an AfterClear has followed it. */
  ghost function Waiting(log: seq<Event>, address: Address, txHash: Word): Option<ClearTemporaryData>
    requires WellFormedLog(log)
  {
    if |log| == 0 then None
    else
      var e := log[|log| - 1];
      if !OfClear(e, address, txHash) then Waiting(log[..|log| - 1], address, txHash)
      else if e.Clear? then Some(TemporaryData(e))
      else None
  }

  lemma {:induction false} OpenAllKeepsRest(b: Books, owner: Address, raindex: Address, ios: seq<IO>,
                                            decimals: Decimals)
    ensures var b' := OpenAll(b, owner, raindex, ios, decimals);
      b'.pending == b.pending && b'.trail == b.trail
    decreases |ios|
  {
    if |ios| > 0 {
      OpenAllKeepsRest(b, owner, raindex, ios[..|ios| - 1], decimals);
    }
  }

  /** After one event, the temporary data has changed only for a Clear or an AfterClear, and only under its own id. */
  lemma {:induction false} ApplyPending(b: Books, e: Event, decimals: Decimals)
    requires e.WellFormed()
    ensures var id := ClearEventId(e.meta.address, e.meta.txHash);
      Apply(b, e, decimals).pending ==
        match e
        case Clear(_, _, _, _) => b.pending[id := TemporaryData(e)]
        case AfterClear(_, _, _) => b.pending - {id}
        case _ => b.pending
  {
    match e
    case AddOrder(meta, sender, order) =>
      OpenAllKeepsRest(b, sender, meta.address, order.validInputs, decimals);
      OpenAllKeepsRest(OpenAll(b, sender, meta.address, order.validInputs, decimals), sender, meta.address,
                       order.validOutputs, decimals);
    case Deposit(_, _, token, _, _) =>
      PostAllKeepsPending(WithToken(b, token, decimals), Postings(e, None, decimals), decimals);
    case Clear(_, _, _, _) =>
    case AfterClear(_, _, _) => PostAllKeepsPending(b, Postings(e, PendingFor(b, e), decimals), decimals);
    case _ => PostAllKeepsPending(b, Postings(e, None, decimals), decimals);
  }

  /** The temporary data of the store is exactly what is waiting, for every raindex and transaction. */
  lemma {:induction false} PendingIsWaiting(log: seq<Event>, decimals: Decimals, address: Address, txHash: Word)
    requires WellFormedLog(log)
    ensures var id, b := ClearEventId(address, txHash), Run(log, decimals);
      Waiting(log, address, txHash) == if id in b.pending then Some(b.pending[id]) else None
  {
    if |log| > 0 {
      PendingIsWaiting(log[..|log| - 1], decimals, address, txHash);
      ApplyPending(Run(log[..|log| - 1], decimals), log[|log| - 1], decimals);
      SameClearId(log[|log| - 1].meta, address, txHash);
    }
  }

  lemma {:induction false} SameClearId(meta: Meta, address: Address, txHash: Word)
    ensures ClearEventId(meta.address, meta.txHash) == ClearEventId(address, txHash) <==>
      meta.address == address && meta.txHash == txHash
  {
    var a, b := ClearEventId(meta.address, meta.txHash), ClearEventId(address, txHash);
    if a == b {
      assert a.parts[0] == b.parts[0] && a.parts[1] == b.parts[1];
    }
  }

  /** What is waiting belongs to the last event of the raindex and transaction. */
  lemma {:induction false} WaitingIsLast(log: seq<Event>, address: Address, txHash: Word, j: nat)
    requires WellFormedLog(log) && j < |log| && OfClear(log[j], address, txHash)
    requires forall k :: j < k < |log| ==> !OfClear(log[k], address, txHash)
    ensures Waiting(log, address, txHash) == if log[j].Clear? then Some(TemporaryData(log[j])) else None
  {
    if j < |log| - 1 {
      WaitingIsLast(log[..|log| - 1], address, txHash, j);
    }
  }

  lemma {:induction false} NothingWaits(log: seq<Event>, address: Address, txHash: Word)
    requires WellFormedLog(log)
    requires forall k :: 0 <= k < |log| ==> !OfClear(log[k], address, txHash)
    ensures Waiting(log, address, txHash) == None
  {
    if |log| > 0 {
      NothingWaits(log[..|log| - 1], address, txHash);
    }
  }

  /** No Clear or AfterClear of the raindex and transaction from position `from` up to `to`. */
  ghost predicate QuietClear(log: seq<Event>, address: Address, txHash: Word, from: nat, to: nat)
    requires to <= |log|
  {
    forall k :: from <= k < to ==> !OfClear(log[k], address, txHash)
  }

  /** An AfterClear is processed with the data of the nearest earlier Clear of its raindex and transaction, unless
      another AfterClear of them came in between; then, or without any such Clear, no data is found. */
  lemma {:induction false} AfterClearFindsItsClear(log: seq<Event>, decimals: Decimals, i: nat)
    requires WellFormedLog(log) && i < |log| && log[i].AfterClear?
    ensures var address, txHash := log[i].meta.address, log[i].meta.txHash;
      forall j :: 0 <= j < i && OfClear(log[j], address, txHash) && QuietClear(log, address, txHash, j + 1, i) ==>
        PendingFor(Run(log[..i], decimals), log[i]) ==
          if log[j].Clear? then Some(TemporaryData(log[j])) else None
    ensures QuietClear(log, log[i].meta.address, log[i].meta.txHash, 0, i) ==>
      PendingFor(Run(log[..i], decimals), log[i]) == None
  {
    var before := log[..i];
    var address, txHash := log[i].meta.address, log[i].meta.txHash;
    PendingIsWaiting(before, decimals, address, txHash);
    forall j | 0 <= j < i && OfClear(log[j], address, txHash) && QuietClear(log, address, txHash, j + 1, i)
      ensures Waiting(before, address, txHash) == if log[j].Clear? then Some(TemporaryData(log[j])) else None
    {
      WaitingIsLast(before, address, txHash, j);
    }
    if QuietClear(log, address, txHash, 0, i) {
      NothingWaits(before, address, txHash);
    }
  }

  /** `j` is the nearest earlier Clear or AfterClear of the raindex and transaction of event `i`. */
  ghost predicate Precedes(log: seq<Event>, j: nat, i: nat)
    requires i < |log|
  {
    j < i && OfClear(log[j], log[i].meta.address, log[i].meta.txHash) &&
    QuietClear(log, log[i].meta.address, log[i].meta.txHash, j + 1, i)
  }

  ghost predicate FollowsClear(log: seq<Event>, i: nat)
    requires i < |log|
  {
    exists j: nat :: Precedes(log, j, i) && log[j].Clear?
  }

  lemma {:induction false} LastOfClear(log: seq<Event>, address: Address, txHash: Word, k: nat) returns (j: nat)
    requires k < |log| && OfClear(log[k], address, txHash)
    ensures k <= j < |log| && OfClear(log[j], address, txHash)
    ensures forall m :: j < m < |log| ==> !OfClear(log[m], address, txHash)
    decreases |log| - k
  {
    if m: nat :| k < m < |log| && OfClear(log[m], address, txHash) {
      j := LastOfClear(log, address, txHash, m);
    } else {
      j := k;
    }
  }

  /** The data of the preceding Clear is what event `i` finds. */
  lemma {:induction false} PrecedingData(log: seq<Event>, decimals: Decimals, j: nat, i: nat)
    requires WellFormedLog(log) && i < |log| && Precedes(log, j, i)
    ensures PendingFor(Run(log[..i], decimals), log[i]) ==
      if log[j].Clear? then Some(TemporaryData(log[j])) else None
  {
    PendingIsWaiting(log[..i], decimals, log[i].meta.address, log[i].meta.txHash);
    WaitingIsLast(log[..i], log[i].meta.address, log[i].meta.txHash, j);
  }

  /** Data waits for a Clear or AfterClear exactly when the nearest earlier one of its raindex and transaction is a
      Clear, whatever events lie in between. */
  lemma {:induction false} DataWaitsExactly(log: seq<Event>, decimals: Decimals, i: nat)
    requires WellFormedLog(log) && i < |log|
    ensures PendingFor(Run(log[..i], decimals), log[i]).Some? <==> FollowsClear(log, i)
  {
    var before, address, txHash := log[..i], log[i].meta.address, log[i].meta.txHash;
    if FollowsClear(log, i) {
      var j: nat :| Precedes(log, j, i) && log[j].Clear?;
      PrecedingData(log, decimals, j, i);
    } else if k: nat :| k < i && OfClear(log[k], address, txHash) {
      var last := LastOfClear(before, address, txHash, k);
      assert Precedes(log, last, i);
      PrecedingData(log, decimals, last, i);
    } else {
      PendingIsWaiting(before, decimals, address, txHash);
      NothingWaits(before, address, txHash);
    }
  }

  /** Every AfterClear finds data, and no Clear overwrites data that still waits. */
  ghost predicate Orderly(log: seq<Event>, decimals: Decimals)
    requires WellFormedLog(log)
  {
    forall i :: 0 <= i < |log| ==>
      && (log[i].AfterClear? ==> PendingFor(Run(log[..i], decimals), log[i]).Some?)
      && (log[i].Clear? ==> PendingFor(Run(log[..i], decimals), log[i]).None?)
  }

  /** The Clears and AfterClears of each raindex and transaction alternate, starting with a Clear. */
  ghost predicate ClearsAlternate(log: seq<Event>) {
    forall i :: 0 <= i < |log| ==>
      && (log[i].AfterClear? ==> !QuietClear(log, log[i].meta.address, log[i].meta.txHash, 0, i))
      && (forall j: nat :: Precedes(log, j, i) ==>
           (log[i].AfterClear? ==> log[j].Clear?) && (log[i].Clear? ==> log[j].AfterClear?))
  }

  /** Clears are processed in order exactly when they alternate with their AfterClears; events of any other kind, and of
      other raindexes and transactions, may lie in between. */
  lemma {:induction false} OrderlyExactly(log: seq<Event>, decimals: Decimals)
    requires WellFormedLog(log)
    ensures Orderly(log, decimals) <==> ClearsAlternate(log)
  {
    forall i | 0 <= i < |log|
      ensures PendingFor(Run(log[..i], decimals), log[i]).Some? <==> FollowsClear(log, i)
      ensures FollowsClear(log, i) ==> forall j: nat :: Precedes(log, j, i) ==> log[j].Clear?
      ensures QuietClear(log, log[i].meta.address, log[i].meta.txHash, 0, i) ==> !FollowsClear(log, i)
      ensures !QuietClear(log, log[i].meta.address, log[i].meta.txHash, 0, i) ==> exists j: nat :: Precedes(log, j, i)
    {
      DataWaitsExactly(log, decimals, i);
      Predecessor(log, i);
    }
  }

  lemma {:induction false} Predecessor(log: seq<Event>, i: nat)
    requires i < |log|
    ensures forall j: nat, k: nat :: Precedes(log, j, i) && Precedes(log, k, i) ==> j == k
    ensures !QuietClear(log, log[i].meta.address, log[i].meta.txHash, 0, i) ==> exists j: nat :: Precedes(log, j, i)
  {
    var address, txHash := log[i].meta.address, log[i].meta.txHash;
    if k: nat :| k < i && OfClear(log[k], address, txHash) {
      var last := LastOfClear(log[..i], address, txHash, k);
      assert Precedes(log, last, i);
    }
  }

  /** After a second Clear of the same raindex and transaction without an AfterClear in between, the first one's data is
      overwritten while it waits; the next AfterClear gets the second one's, and after that nothing is left. */
  lemma {:induction false} NestedClearIsLost(log: seq<Event>, decimals: Decimals, j: nat, k: nat, i: nat)
    requires WellFormedLog(log) && k < i < |log| && Precedes(log, j, k) && Precedes(log, k, i)
    requires log[j].Clear? && log[k].Clear? && log[i].AfterClear?
    ensures PendingFor(Run(log[..k], decimals), log[k]) == Some(TemporaryData(log[j]))
    ensures PendingFor(Run(log[..i], decimals), log[i]) == Some(TemporaryData(log[k]))
    ensures PendingFor(Run(log[..i + 1], decimals), log[i]) == None
  {
    PrecedingData(log, decimals, j, k);
    PrecedingData(log, decimals, k, i);
    PendingIsWaiting(log[..i + 1], decimals, log[i].meta.address, log[i].meta.txHash);
    WaitingIsLast(log[..i + 1], log[i].meta.address, log[i].meta.txHash, i);
  }

  ghost predicate Answered(log: seq<Event>, j: nat)
    requires j < |log|
  {
    exists k :: j < k < |log| && log[k].AfterClear? && OfClear(log[k], log[j].meta.address, log[j].meta.txHash)
  }

  lemma {:induction false} PendingHasClear(log: seq<Event>, decimals: Decimals, id: Hash)
    requires WellFormedLog(log) && id in Run(log, decimals).pending
    ensures exists j :: 0 <= j < |log| && log[j].Clear? && id == ClearEventId(log[j].meta.address, log[j].meta.txHash)
  {
    if |log| > 0 {
      ApplyPending(Run(log[..|log| - 1], decimals), log[|log| - 1], decimals);
      if id in Run(log[..|log| - 1], decimals).pending {
        PendingHasClear(log[..|log| - 1], decimals, id);
        var j :| 0 <= j < |log| - 1 && log[..|log| - 1][j].Clear? &&
          id == ClearEventId(log[..|log| - 1][j].meta.address, log[..|log| - 1][j].meta.txHash);
        assert log[j].Clear?;
      }
    }
  }

  /** No temporary data is left behind exactly when every Clear is followed by an AfterClear of its raindex and
      transaction. */
  lemma {:induction false} NoDataLeftBehind(log: seq<Event>, decimals: Decimals)
    requires WellFormedLog(log)
    ensures Run(log, decimals).pending == map[] <==>
      forall j :: 0 <= j < |log| && log[j].Clear? ==> Answered(log, j)
  {
    var pending := Run(log, decimals).pending;
    if pending == map[] {
      forall j | 0 <= j < |log| && log[j].Clear? ensures Answered(log, j) {
        var address, txHash := log[j].meta.address, log[j].meta.txHash;
        var last := LastOfClear(log, address, txHash, j);
        PendingIsWaiting(log, decimals, address, txHash);
        WaitingIsLast(log, address, txHash, last);
        assert log[last].AfterClear?;
      }
    }
    if forall j :: 0 <= j < |log| && log[j].Clear? ==> Answered(log, j) {
      forall id ensures id !in pending {
        if id in pending {
          PendingHasClear(log, decimals, id);
          var j :| 0 <= j < |log| && log[j].Clear? && id == ClearEventId(log[j].meta.address, log[j].meta.txHash);
          var address, txHash := log[j].meta.address, log[j].meta.txHash;
          var last := LastOfClear(log, address, txHash, j);
          PendingIsWaiting(log, decimals, address, txHash);
          WaitingIsLast(log, address, txHash, last);
        }
      }
    }
  }

  lemma {:induction false} FirstOfClear(log: seq<Event>, j: nat, k: nat) returns (i: nat)
    requires j < k < |log| && OfClear(log[k], log[j].meta.address, log[j].meta.txHash)
    ensures j < i <= k && OfClear(log[i], log[j].meta.address, log[j].meta.txHash)
    ensures QuietClear(log, log[j].meta.address, log[j].meta.txHash, j + 1, i)
    decreases k
  {
    if m: nat :| j < m < k && OfClear(log[m], log[j].meta.address, log[j].meta.txHash) {
      i := FirstOfClear(log, j, m);
    } else {
      i := k;
    }
  }

  /** In an orderly log that leaves no data behind, every Clear is posted: the next AfterClear of its raindex and
      transaction is processed with exactly its data. */
  lemma {:induction false} EveryClearIsPosted(log: seq<Event>, decimals: Decimals, j: nat) returns (i: nat)
    requires WellFormedLog(log) && Orderly(log, decimals) && Run(log, decimals).pending == map[]
    requires j < |log| && log[j].Clear?
    ensures i < |log| && Precedes(log, j, i) && log[i].AfterClear?
    ensures PendingFor(Run(log[..i], decimals), log[i]) == Some(TemporaryData(log[j]))
  {
    OrderlyExactly(log, decimals);
    NoDataLeftBehind(log, decimals);
    assert Answered(log, j);
    var k :| j < k < |log| && log[k].AfterClear? && OfClear(log[k], log[j].meta.address, log[j].meta.txHash);
    i := FirstOfClear(log, j, k);
    assert Precedes(log, j, i);
    PrecedingData(log, decimals, j, i);
  }
}
