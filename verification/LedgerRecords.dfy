/** Records of balance changes are saved under ids: when no record overwrites another. */
module LedgerRecords {
  import opened Common
  import opened Ledger
  import opened LedgerProofs

  /** All postings of a log, in order. */
  ghost function Journal(log: seq<Event>, decimals: Decimals): seq<Posting>
    requires WellFormedLog(log)
  {
    if |log| == 0 then []
    else
      var init, e := log[..|log| - 1], log[|log| - 1];
      Journal(init, decimals) + Postings(e, Waiting(init, e.meta.address, e.meta.txHash), decimals)
  }

  ghost predicate Records(c: Change, p: Posting) {
    && c.table == p.table && c.id == p.RecordId() && c.meta == p.meta && c.vault == VaultEntityId(p.ref)
    && c.trade == p.trade && c.amount == p.amount
  }

  /** The saved records are the postings, one for one. */
  ghost predicate RecordsAll(trail: seq<Change>, ps: seq<Posting>) {
    |trail| == |ps| && forall i :: 0 <= i < |ps| ==> Records(trail[i], ps[i])
  }

  lemma {:induction false} PostAllRecords(b: Books, before: seq<Posting>, ps: seq<Posting>, decimals: Decimals)
    requires RecordsAll(b.trail, before)
    ensures RecordsAll(PostAll(b, ps, decimals).trail, before + ps)
    decreases |ps|
  {
    if |ps| == 0 {
      assert before + ps == before;
    } else {
      PostAllRecords(b, before, ps[..|ps| - 1], decimals);
      assert before + ps == before + ps[..|ps| - 1] + [ps[|ps| - 1]];
    }
  }

  /** The records saved by a whole log are its journal, one for one and in order. */
  lemma {:induction false} TrailIsJournal(log: seq<Event>, decimals: Decimals)
    requires WellFormedLog(log)
    ensures RecordsAll(Run(log, decimals).trail, Journal(log, decimals))
  {
    if |log| > 0 {
      var init, e := log[..|log| - 1], log[|log| - 1];
      TrailIsJournal(init, decimals);
      PendingIsWaiting(init, decimals, e.meta.address, e.meta.txHash);
      var b, before := Run(init, decimals), Journal(init, decimals);
      match e
      case AddOrder(meta, sender, order) =>
        OpenAllKeepsRest(b, sender, meta.address, order.validInputs, decimals);
        OpenAllKeepsRest(OpenAll(b, sender, meta.address, order.validInputs, decimals), sender, meta.address,
                         order.validOutputs, decimals);
        assert before + [] == before;
      case Deposit(_, _, token, _, _) =>
        PostAllRecords(WithToken(b, token, decimals), before, Postings(e, None, decimals), decimals);
      case Clear(_, _, _, _) =>
        assert before + [] == before;
      case AfterClear(_, _, _) => PostAllRecords(b, before, Postings(e, PendingFor(b, e), decimals), decimals);
      case _ => PostAllRecords(b, before, Postings(e, None, decimals), decimals);
    }
  }

  // ----- ids

  /** No two records of the same table have the same id. */
  ghost predicate IdsDistinct(ps: seq<Posting>) {
    forall i, j :: 0 <= i < j < |ps| && ps[i].table == ps[j].table ==> ps[i].RecordId() != ps[j].RecordId()
  }

  lemma {:induction false} SameEventId(a: Meta, b: Meta)
    requires EventId(a) == EventId(b)
    ensures a == b
  {
    var s, t := EventId(a).parts, EventId(b).parts;
    assert s[0] == t[0] && s[1] == t[1] && s[2] == t[2];
  }

  /** Ids of one table agree only for records of the same event, and trade changes and bounties only for the same vault
      besides. */
  lemma {:induction false} SameRecordId(p: Posting, q: Posting)
    requires p.table == q.table
    ensures p.RecordId() == q.RecordId() <==>
      p.meta == q.meta && (p.table.TradeVaultBalanceChanges? || p.table.ClearBounties? ==> p.ref == q.ref)
  {
    if p.RecordId() == q.RecordId() {
      var s, t := p.RecordId().parts, q.RecordId().parts;
      if p.table.Deposits? || p.table.Withdrawals? {
        SameEventId(p.meta, q.meta);
      } else {
        assert s[0] == t[0] && s[1] == t[1];
        SameEventId(p.meta, q.meta);
        SameVaultId(p.ref, q.ref);
      }
    }
  }

  /** What the event would have to look like for its own records to keep apart: the vaults it trades on differ. */
  predicate Unaliased(e: Event, waiting: Option<ClearTemporaryData>)
    requires e.WellFormed()
  {
    match e
    case TakeOrder(_, order, i, o, _, _) => order.validInputs[i] != order.validOutputs[o]
    case AfterClear(_, _, c) =>
      waiting.Some? ==>
        var data := waiting.value;
        && data.aliceInput != data.aliceOutput && data.bobInput != data.bobOutput
        && (data.aliceAddress == data.bobAddress ==>
             data.aliceInput != data.bobInput && data.aliceInput != data.bobOutput &&
             data.aliceOutput != data.bobInput && data.aliceOutput != data.bobOutput)
        && (c.aliceOutput > c.bobInput && c.bobOutput > c.aliceInput ==>
             data.aliceOutput.(vaultId := data.aliceBounty) != data.bobOutput.(vaultId := data.bobBounty))
    case _ => true
  }

  lemma {:induction false} RecordIdsOf(e: Event, waiting: Option<ClearTemporaryData>, decimals: Decimals)
    requires e.WellFormed()
    ensures IdsDistinct(Postings(e, waiting, decimals)) <==> Unaliased(e, waiting)
  {
    var ps := Postings(e, waiting, decimals);
    forall i, j | 0 <= i < j < |ps| && ps[i].table == ps[j].table
      ensures ps[i].RecordId() == ps[j].RecordId() <==> ps[i].ref == ps[j].ref
    {
      SameRecordId(ps[i], ps[j]);
    }
    if e.AfterClear? && waiting.Some? {
      ClearIds(e, waiting.value, ps);
    } else if e.TakeOrder? {
      assert ps[0].RecordId() == ps[1].RecordId() <==> ps[0].ref == ps[1].ref;
    }
  }

  lemma {:induction false} ClearIds(e: Event, data: ClearTemporaryData, ps: seq<Posting>)
    requires e.AfterClear? && ps == ClearPostings(e.meta, e.sender, e.change, data)
    requires forall i, j :: 0 <= i < j < |ps| && ps[i].table == ps[j].table ==>
      (ps[i].RecordId() == ps[j].RecordId() <==> ps[i].ref == ps[j].ref)
    ensures IdsDistinct(ps) <==> Unaliased(e, Some(data))
  {
    var m, c := e.meta, e.change;
    assert ps[0].ref == RefTo(m, data.aliceAddress, data.aliceInput);
    assert ps[1].ref == RefTo(m, data.aliceAddress, data.aliceOutput);
    assert ps[2].ref == RefTo(m, data.bobAddress, data.bobInput);
    assert ps[3].ref == RefTo(m, data.bobAddress, data.bobOutput);
    assert forall i :: 0 <= i < |ps| ==> (ps[i].table.TradeVaultBalanceChanges? <==> i < 4);
    if c.aliceOutput > c.bobInput && c.bobOutput > c.aliceInput {
      assert |ps| == 6;
      assert ps[4].ref == RefTo(m, e.sender, data.aliceOutput.(vaultId := data.aliceBounty));
      assert ps[5].ref == RefTo(m, e.sender, data.bobOutput.(vaultId := data.bobBounty));
    } else {
      assert |ps| <= 5;
    }
  }

  /** Events are told apart by where they were logged. */
  ghost predicate DistinctMetas(log: seq<Event>) {
    forall i, j :: 0 <= i < j < |log| ==> log[i].meta != log[j].meta
  }

  lemma {:induction false} PostingsMeta(e: Event, waiting: Option<ClearTemporaryData>, decimals: Decimals)
    requires e.WellFormed()
    ensures forall p :: p in Postings(e, waiting, decimals) ==> p.meta == e.meta
  {
    if e.AfterClear? && waiting.Some? {
      var data, c := waiting.value, e.change;
      var ps := ClearPostings(e.meta, e.sender, c, data);
      assert forall j :: 0 <= j < |ps| ==> ps[j].meta == e.meta;
    }
  }

  lemma {:induction false} JournalMetas(log: seq<Event>, decimals: Decimals, p: Posting)
    requires WellFormedLog(log) && p in Journal(log, decimals)
    ensures exists i :: 0 <= i < |log| && log[i].meta == p.meta
  {
    var init, e := log[..|log| - 1], log[|log| - 1];
    PostingsMeta(e, Waiting(init, e.meta.address, e.meta.txHash), decimals);
    if p in Journal(init, decimals) {
      JournalMetas(init, decimals, p);
      var i :| 0 <= i < |init| && init[i].meta == p.meta;
      assert log[i].meta == p.meta;
    } else {
      assert log[|log| - 1].meta == p.meta;
    }
  }

  /** The postings of the last event share no meta with those of the events before it. */
  lemma {:induction false} JournalApart(log: seq<Event>, decimals: Decimals, qs: seq<Posting>)
    requires |log| > 0 && WellFormedLog(log) && DistinctMetas(log)
    requires forall q :: q in qs ==> q.meta == log[|log| - 1].meta
    ensures var ps := Journal(log[..|log| - 1], decimals);
      forall i, j :: 0 <= i < |ps| && 0 <= j < |qs| ==> ps[i].meta != qs[j].meta
  {
    var init := log[..|log| - 1];
    var ps := Journal(init, decimals);
    forall i, j | 0 <= i < |ps| && 0 <= j < |qs| ensures ps[i].meta != qs[j].meta {
      JournalMetas(init, decimals, ps[i]);
    }
  }

  lemma {:induction false} IdsOfParts(ps: seq<Posting>, qs: seq<Posting>)
    requires forall i, j :: 0 <= i < |ps| && 0 <= j < |qs| ==> ps[i].meta != qs[j].meta
    ensures IdsDistinct(ps + qs) <==> IdsDistinct(ps) && IdsDistinct(qs)
  {
    var all := ps + qs;
    if IdsDistinct(all) {
      forall i, j | 0 <= i < j < |ps| && ps[i].table == ps[j].table ensures ps[i].RecordId() != ps[j].RecordId() {
        assert all[i] == ps[i] && all[j] == ps[j];
      }
      forall i, j | 0 <= i < j < |qs| && qs[i].table == qs[j].table ensures qs[i].RecordId() != qs[j].RecordId() {
        assert all[|ps| + i] == qs[i] && all[|ps| + j] == qs[j];
      }
    }
    if IdsDistinct(ps) && IdsDistinct(qs) {
      forall i, j | 0 <= i < j < |all| && all[i].table == all[j].table
        ensures all[i].RecordId() != all[j].RecordId()
      {
        if i < |ps| <= j {
          SameRecordId(ps[i], qs[j - |ps|]);
        }
      }
    }
  }

  ghost predicate AllUnaliased(log: seq<Event>)
    requires WellFormedLog(log)
  {
    |log| == 0 ||
    (var init, e := log[..|log| - 1], log[|log| - 1];
     AllUnaliased(init) && Unaliased(e, Waiting(init, e.meta.address, e.meta.txHash)))
  }

  /** No record of any log overwrites another exactly when every event trades on different vaults. */
  lemma {:induction false} RecordsKeptApart(log: seq<Event>, decimals: Decimals)
    requires WellFormedLog(log) && DistinctMetas(log)
    ensures IdsDistinct(Journal(log, decimals)) <==> AllUnaliased(log)
  {
    if |log| > 0 {
      var init, e := log[..|log| - 1], log[|log| - 1];
      var waiting := Waiting(init, e.meta.address, e.meta.txHash);
      RecordsKeptApart(init, decimals);
      JournalSplits(log, decimals, Journal(init, decimals), Postings(e, waiting, decimals));
      RecordIdsOf(e, waiting, decimals);
    }
  }

  lemma {:induction false} JournalSplits(log: seq<Event>, decimals: Decimals, ps: seq<Posting>, qs: seq<Posting>)
    requires |log| > 0 && WellFormedLog(log) && DistinctMetas(log)
    requires var init, e := log[..|log| - 1], log[|log| - 1];
      ps == Journal(init, decimals) &&
      qs == Postings(e, Waiting(init, e.meta.address, e.meta.txHash), decimals)
    ensures IdsDistinct(Journal(log, decimals)) <==> IdsDistinct(ps) && IdsDistinct(qs)
  {
    var init, e := log[..|log| - 1], log[|log| - 1];
    PostingsMeta(e, Waiting(init, e.meta.address, e.meta.txHash), decimals);
    JournalApart(log, decimals, qs);
    IdsOfParts(ps, qs);
  }
}
