/** Quoting a batch of targets: group by raindex address, cut into chunks, fail over between providers, scatter back. */
module BatchQuote {
  import opened Common
  import opened Positions
  import opened QuoteTypes
  import opened Bisection

  const DEFAULT_QUOTE_CHUNK_SIZE: nat := 16

  function NormalizeChunkSize(chunkSize: Option<nat>): (size: nat)
    ensures size >= 1
    ensures chunkSize.Some? && chunkSize.value >= 1 ==> size == chunkSize.value
    ensures chunkSize == Some(0) ==> size == 1
    ensures chunkSize.None? ==> size == 16
  {
    var size := if chunkSize.Some? then chunkSize.value else DEFAULT_QUOTE_CHUNK_SIZE;
    if size >= 1 then size else 1
  }

  // ----- what a batch may return, for any endpoints

  /** The failures of the first providers, each under its own URL. */
  function AttemptFailures(providers: seq<Provider>, errors: seq<Error>): (failures: seq<RpcFailure>)
    requires |errors| <= |providers|
    ensures |failures| == |errors|
    ensures forall q :: 0 <= q < |errors| ==> failures[q] == AttemptFailure(providers[q].url, errors[q])
  {
    seq(|errors|, q requires 0 <= q < |errors| => AttemptFailure(providers[q].url, errors[q]))
  }

  /** The first `|errors|` providers failed on the chunk with these errors, and then either the next provider served all
      of it, or there was none left and every slot reports every failure. */
  ghost predicate ServedAfter(chunk: seq<QuoteTarget>, providers: seq<Provider>, setup: seq<RpcFailure>,
                              errors: seq<Error>, results: seq<QuoteResult>)
  {
    && |errors| <= |providers| && |results| == |chunk|
    && (forall q :: 0 <= q < |errors| ==> Refused(providers[q].endpoint, chunk, errors[q]))
    && if |errors| < |providers| then AttemptOutcome(providers[|errors|].endpoint, chunk, Ok(results))
       else forall j :: 0 <= j < |results| ==>
         results[j] == Err(CorruptReturnData(AllRpcsFailed(setup + AttemptFailures(providers, errors))))
  }

  ghost predicate ChunkServed(chunk: seq<QuoteTarget>, providers: seq<Provider>, setup: seq<RpcFailure>,
                              results: seq<QuoteResult>)
  {
    exists errors :: ServedAfter(chunk, providers, setup, errors, results)
  }

  /** The provider's attempt made the requests of `trace` and failed with `error`. */
  ghost predicate RefusedWith(endpoint: Endpoint, chunk: seq<QuoteTarget>, error: Error, trace: seq<Exchange>) {
    Refused(endpoint, chunk, error) && AttemptTrace(endpoint, chunk, Err(error), trace)
  }

  /** As `ChunkServed`; `attempts` holds the requests of every provider that was asked, in order. */
  ghost predicate ServedBy(chunk: seq<QuoteTarget>, providers: seq<Provider>, setup: seq<RpcFailure>,
                           attempts: seq<seq<Exchange>>, results: seq<QuoteResult>)
  {
    exists errors ::
      && ServedAfter(chunk, providers, setup, errors, results)
      && AttemptsMade(chunk, providers, errors, attempts, results)
  }

  ghost predicate AttemptsMade(chunk: seq<QuoteTarget>, providers: seq<Provider>, errors: seq<Error>,
                               attempts: seq<seq<Exchange>>, results: seq<QuoteResult>)
    requires |errors| <= |providers|
  {
    && |attempts| == Min(|errors| + 1, |providers|)
    && (forall q :: 0 <= q < |errors| ==> RefusedWith(providers[q].endpoint, chunk, errors[q], attempts[q]))
    && (|errors| < |providers| ==>
         AttemptTrace(providers[|errors|].endpoint, chunk, Ok(results), attempts[|errors|]))
  }

  /** What was done for the targets `start..end` of a group: the requests of every attempt. */
  datatype Call = Call(start: nat, end: nat, attempts: seq<seq<Exchange>>)

  /** The calls are adjacent chunks of `size` targets from 0 to `done`; only a chunk that reaches `n` may be shorter. */
  ghost predicate Tiled(calls: seq<Call>, size: nat, n: nat, done: nat) {
    if |calls| == 0 then done == 0
    else
      var last := calls[|calls| - 1];
      && last.start < last.end == done <= n && last.end == Min(last.start + size, n)
      && Tiled(calls[..|calls| - 1], size, n, last.start)
  }

  ghost predicate CallServed(targets: seq<QuoteTarget>, providers: seq<Provider>, setup: seq<RpcFailure>, call: Call,
                             results: seq<QuoteResult>)
  {
    && call.start < call.end <= |targets| && call.end <= |results|
    && ServedBy(targets[call.start..call.end], providers, setup, call.attempts, results[call.start..call.end])
  }

  /** The targets of one raindex are tiled by chunks of `size`, each served on its own; `calls` says what was requested
      for each of them. */
  ghost predicate GroupServed(targets: seq<QuoteTarget>, size: nat, providers: seq<Provider>, setup: seq<RpcFailure>,
                              calls: seq<Call>, results: seq<QuoteResult>)
  {
    && |results| == |targets| && Tiled(calls, size, |targets|, |targets|)
    && forall c :: 0 <= c < |calls| ==> CallServed(targets, providers, setup, calls[c], results)
  }

  function Raindexes(targets: seq<QuoteTarget>): (r: seq<Address>)
    ensures |r| == |targets|
  {
    seq(|targets|, i requires 0 <= i < |targets| => targets[i].raindex)
  }

  /** The positions of the targets of one raindex. */
  function Members(targets: seq<QuoteTarget>, raindex: Address): (r: seq<nat>)
    ensures forall j :: 0 <= j < |r| ==> r[j] < |targets| && targets[r[j]].raindex == raindex
  {
    var r := PositionsOf(Raindexes(targets), raindex);
    assert forall j :: 0 <= j < |r| ==> r[j] in r;
    r
  }

  /** What was done for the targets of one raindex. */
  datatype GroupCalls = GroupCalls(raindex: Address, calls: seq<Call>)

  ghost predicate HasCalls(log: seq<GroupCalls>, raindex: Address) {
    exists g :: 0 <= g < |log| && log[g].raindex == raindex
  }

  /** Result slots stay with their targets, and every raindex's targets are served as one group; `log` says what was
      requested for each raindex. */
  ghost predicate BatchServed(targets: seq<QuoteTarget>, size: nat, providers: seq<Provider>, setup: seq<RpcFailure>,
                              log: seq<GroupCalls>, results: seq<QuoteResult>)
  {
    && |results| == |targets|
    && (forall g, h :: 0 <= g < h < |log| ==> log[g].raindex != log[h].raindex)
    && (forall i :: 0 <= i < |targets| ==> HasCalls(log, targets[i].raindex))
    && forall g :: 0 <= g < |log| ==> RaindexServed(targets, size, providers, setup, log[g], results)
  }

  ghost predicate RaindexServed(targets: seq<QuoteTarget>, size: nat, providers: seq<Provider>, setup: seq<RpcFailure>,
                                group: GroupCalls, results: seq<QuoteResult>)
    requires |results| == |targets|
  {
    var members := Members(targets, group.raindex);
    GroupServed(Select(targets, members), size, providers, setup, group.calls, Select(results, members))
  }

  // ----- the code

  lemma {:induction false} ServedAt(chunk: seq<QuoteTarget>, providers: seq<Provider>, setup: seq<RpcFailure>,
                                    errors: seq<Error>, attempts: seq<seq<Exchange>>, trace: seq<Exchange>,
                                    served: seq<QuoteResult>)
    requires |errors| == |attempts| < |providers|
    requires forall q :: 0 <= q < |errors| ==> RefusedWith(providers[q].endpoint, chunk, errors[q], attempts[q])
    requires AttemptOutcome(providers[|errors|].endpoint, chunk, Ok(served))
    requires AttemptTrace(providers[|errors|].endpoint, chunk, Ok(served), trace)
    ensures ChunkServed(chunk, providers, setup, served)
    ensures ServedBy(chunk, providers, setup, attempts + [trace], served)
  {
    assert ServedAfter(chunk, providers, setup, errors, served);
  }

  lemma {:induction false} FailuresGrow(providers: seq<Provider>, setup: seq<RpcFailure>, errors: seq<Error>,
                                        error: Error)
    requires |errors| < |providers|
    ensures setup + AttemptFailures(providers, errors + [error]) ==
      setup + AttemptFailures(providers, errors) + [AttemptFailure(providers[|errors|].url, error)]
  {
  }

  /** One chunk: the providers in order, until one attempt succeeds. */
  method QuoteChunk(chunk: seq<QuoteTarget>, providers: seq<Provider>, setup: seq<RpcFailure>)
    returns (results: seq<QuoteResult>, ghost attempts: seq<seq<Exchange>>)
    requires |chunk| > 0 && OneRaindex(chunk)
    ensures ChunkServed(chunk, providers, setup, results)
    ensures ServedBy(chunk, providers, setup, attempts, results)
  {
    var failures := setup;
    ghost var errors: seq<Error> := [];
    attempts := [];
    for p := 0 to |providers|
      invariant |errors| == |attempts| == p && failures == setup + AttemptFailures(providers, errors)
      invariant forall q :: 0 <= q < p ==> RefusedWith(providers[q].endpoint, chunk, errors[q], attempts[q])
    {
      var attempt;
      ghost var trace;
      attempt, trace := QuoteChunkWithProbeAndSplit(chunk, providers[p].endpoint);
      match attempt
      case Ok(served) =>
        ServedAt(chunk, providers, setup, errors, attempts, trace, served);
        return served, attempts + [trace];
      case Err(error) =>
        FailuresGrow(providers, setup, errors, error);
        failures := failures + [AttemptFailure(providers[p].url, error)];
        errors := errors + [error];
        attempts := attempts + [trace];
    }
    results := seq(|chunk|, _ => Err(CorruptReturnData(AllRpcsFailed(failures))));
    assert ServedAfter(chunk, providers, setup, errors, results);
  }

  ghost predicate AllHonest(providers: seq<Provider>, chain: Chain) {
    forall p :: 0 <= p < |providers| ==> Honest(providers[p].endpoint, chain)
  }

  ghost predicate SomeReliable(providers: seq<Provider>, chain: Chain) {
    exists p :: 0 <= p < |providers| && Reliable(providers[p].endpoint, chain)
  }

  // ----- what a chunk costs

  ghost function RequestCount(attempts: seq<seq<Exchange>>): nat {
    if |attempts| == 0 then 0
    else RequestCount(attempts[..|attempts| - 1]) + |attempts[|attempts| - 1]|
  }

  /** `b p`, as a sum. */
  ghost function Times(b: nat, p: nat): nat { if p == 0 then 0 else Times(b, p - 1) + b }

  lemma {:induction false} TimesIsProduct(b: nat, p: nat)
    ensures Times(b, p) == b * p
  {
    if p > 0 {
      TimesIsProduct(b, p - 1);
    }
  }

  lemma {:induction false} TimesSplits(b: nat, c: nat, p: nat)
    ensures Times(b + c, p) == Times(b, p) + Times(c, p)
  {
    if p > 0 {
      TimesSplits(b, c, p - 1);
    }
  }

  /** What is spent on two parts is within the budget of both together. */
  lemma {:induction false} Charge(m: nat, n: nat, total: nat, p: nat, requests: nat, more: nat)
    requires total == m + n && requests <= Times(2 * m, p) && more <= Times(2 * n, p)
    ensures requests + more <= Times(2 * total, p)
  {
    TimesSplits(2 * m, 2 * n, p);
  }

  lemma {:induction false} TimesMonotone(b: nat, p: nat, q: nat)
    requires p <= q
    ensures Times(b, p) <= Times(b, q)
  {
    if p < q {
      TimesMonotone(b, p, q - 1);
    }
  }

  lemma {:induction false} CountWithin(attempts: seq<seq<Exchange>>, bound: nat)
    requires forall q :: 0 <= q < |attempts| ==> |attempts[q]| <= bound
    ensures RequestCount(attempts) <= Times(bound, |attempts|)
  {
    if |attempts| > 0 {
      CountWithin(attempts[..|attempts| - 1], bound);
    }
  }

  lemma {:induction false} AttemptsWithin(chunk: seq<QuoteTarget>, providers: seq<Provider>, errors: seq<Error>,
                                          attempts: seq<seq<Exchange>>, results: seq<QuoteResult>)
    requires |chunk| > 0 && |errors| <= |providers| && AttemptsMade(chunk, providers, errors, attempts, results)
    ensures forall q :: 0 <= q < |attempts| ==> |attempts[q]| <= 2 * |chunk|
  {
    forall q | 0 <= q < |attempts| ensures |attempts[q]| <= 2 * |chunk| {
      RequestBound(providers[q].endpoint, chunk, if q < |errors| then Err(errors[q]) else Ok(results), attempts[q]);
    }
  }

  /** Serving a chunk takes at most `2 n` requests per provider, whatever the endpoints do. */
  lemma {:induction false} ChunkCost(chunk: seq<QuoteTarget>, providers: seq<Provider>, setup: seq<RpcFailure>,
                                     attempts: seq<seq<Exchange>>, results: seq<QuoteResult>)
    requires |chunk| > 0 && ServedBy(chunk, providers, setup, attempts, results)
    ensures RequestCount(attempts) <= Times(2 * |chunk|, |providers|)
    ensures RequestCount(attempts) <= 2 * |chunk| * |providers|
  {
    var errors :| ServedAfter(chunk, providers, setup, errors, results) &&
                  AttemptsMade(chunk, providers, errors, attempts, results);
    AttemptsWithin(chunk, providers, errors, attempts, results);
    CountWithin(attempts, 2 * |chunk|);
    TimesMonotone(2 * |chunk|, |attempts|, |providers|);
    TimesIsProduct(2 * |chunk|, |providers|);
  }

  /** What one attempt at a chunk may cost on a consistent chain, with `k` reverting targets: `2 + 2 k ceil(log2 n)`. */
  ghost function HonestBudget(chain: Chain, chunk: seq<QuoteTarget>): nat
    requires |chunk| > 0
  {
    2 + 2 * RevertCount(chain, chunk, 0, |chunk|) * CeilLog2(|chunk|)
  }

  lemma {:induction false} HonestAttempts(chunk: seq<QuoteTarget>, providers: seq<Provider>, errors: seq<Error>,
                                          attempts: seq<seq<Exchange>>, results: seq<QuoteResult>, chain: Chain)
    requires |chunk| > 0 && |errors| <= |providers| && AttemptsMade(chunk, providers, errors, attempts, results)
    requires OneRaindex(chunk) && AllHonest(providers, chain)
    ensures RequestCount(attempts) <= Times(HonestBudget(chain, chunk), |attempts|)
  {
    forall q | 0 <= q < |attempts| ensures |attempts[q]| <= HonestBudget(chain, chunk) {
      HonestCost(providers[q].endpoint, chain, chunk, if q < |errors| then Err(errors[q]) else Ok(results),
                 attempts[q]);
    }
    CountWithin(attempts, HonestBudget(chain, chunk));
  }

  /** On a consistent chain a chunk of `n` targets of which `k` revert takes at most `2 + 2 k ceil(log2 n)` requests per
      provider that was asked, failover included; and no provider is asked after one that served the chunk. */
  lemma {:induction false} HonestChunkCost(chunk: seq<QuoteTarget>, providers: seq<Provider>, setup: seq<RpcFailure>,
                                           attempts: seq<seq<Exchange>>, results: seq<QuoteResult>, chain: Chain)
    requires |chunk| > 0 && OneRaindex(chunk) && AllHonest(providers, chain)
    requires ServedBy(chunk, providers, setup, attempts, results)
    ensures |attempts| <= |providers|
    ensures RequestCount(attempts) <= HonestBudget(chain, chunk) * |attempts|
  {
    var errors :| ServedAfter(chunk, providers, setup, errors, results) &&
                  AttemptsMade(chunk, providers, errors, attempts, results);
    HonestAttempts(chunk, providers, errors, attempts, results, chain);
    TimesIsProduct(HonestBudget(chain, chunk), |attempts|);
  }

  // ----- what a batch costs

  ghost function GroupRequests(calls: seq<Call>): nat {
    if |calls| == 0 then 0
    else GroupRequests(calls[..|calls| - 1]) + RequestCount(calls[|calls| - 1].attempts)
  }

  ghost function BatchRequests(log: seq<GroupCalls>): nat {
    if |log| == 0 then 0 else BatchRequests(log[..|log| - 1]) + GroupRequests(log[|log| - 1].calls)
  }

  ghost predicate WithinBudget(call: Call, p: nat) {
    call.start <= call.end && RequestCount(call.attempts) <= Times(2 * (call.end - call.start), p)
  }

  lemma {:induction false} CallCost(targets: seq<QuoteTarget>, providers: seq<Provider>, setup: seq<RpcFailure>,
                                    call: Call, results: seq<QuoteResult>)
    requires CallServed(targets, providers, setup, call, results)
    ensures WithinBudget(call, |providers|)
  {
    ChunkCost(targets[call.start..call.end], providers, setup, call.attempts, results[call.start..call.end]);
  }

  lemma {:induction false} TiledCost(calls: seq<Call>, size: nat, n: nat, done: nat, p: nat)
    requires Tiled(calls, size, n, done)
    requires forall c :: 0 <= c < |calls| ==> WithinBudget(calls[c], p)
    ensures GroupRequests(calls) <= Times(2 * done, p)
  {
    if |calls| > 0 {
      var before, last := calls[..|calls| - 1], calls[|calls| - 1];
      TiledCost(before, size, n, last.start, p);
      Charge(last.start, last.end - last.start, done, p, GroupRequests(before), RequestCount(last.attempts));
    }
  }

  lemma {:induction false} GroupCost(targets: seq<QuoteTarget>, size: nat, providers: seq<Provider>,
                                     setup: seq<RpcFailure>, calls: seq<Call>, results: seq<QuoteResult>)
    requires GroupServed(targets, size, providers, setup, calls, results)
    ensures GroupRequests(calls) <= Times(2 * |targets|, |providers|)
  {
    forall c | 0 <= c < |calls| ensures WithinBudget(calls[c], |providers|) {
      CallCost(targets, providers, setup, calls[c], results);
    }
    TiledCost(calls, size, |targets|, |targets|, |providers|);
  }

  /** How many of the targets belong to the raindexes of the log. */
  ghost function LoggedTargets(targets: seq<QuoteTarget>, log: seq<GroupCalls>): nat {
    if |log| == 0 then 0
    else LoggedTargets(targets, log[..|log| - 1]) + |Members(targets, log[|log| - 1].raindex)|
  }

  lemma {:induction false} LoggedNext(targets: seq<QuoteTarget>, log: seq<GroupCalls>)
    requires |targets| > 0
    requires forall g, h :: 0 <= g < h < |log| ==> log[g].raindex != log[h].raindex
    ensures LoggedTargets(targets, log) == LoggedTargets(targets[..|targets| - 1], log) +
      (if HasCalls(log, targets[|targets| - 1].raindex) then 1 else 0)
  {
    if |log| > 0 {
      var n, a := |targets| - 1, log[|log| - 1].raindex;
      var init := log[..|log| - 1];
      LoggedNext(targets, init);
      MembersGrow(targets, n, a);
      assert targets[..n + 1] == targets;
      assert HasCalls(log, targets[n].raindex) <==> HasCalls(init, targets[n].raindex) || a == targets[n].raindex by {
        assert log == init + [log[|log| - 1]];
        if a == targets[n].raindex {
          assert log[|log| - 1].raindex == targets[n].raindex;
        } else if HasCalls(init, targets[n].raindex) {
          var g :| 0 <= g < |init| && init[g].raindex == targets[n].raindex;
          assert log[g].raindex == targets[n].raindex;
        }
      }
    }
  }

  /** Different raindexes have different targets. */
  lemma {:induction false} LoggedAtMost(targets: seq<QuoteTarget>, log: seq<GroupCalls>)
    requires forall g, h :: 0 <= g < h < |log| ==> log[g].raindex != log[h].raindex
    ensures LoggedTargets(targets, log) <= |targets|
  {
    if |targets| > 0 {
      LoggedAtMost(targets[..|targets| - 1], log);
      LoggedNext(targets, log);
    } else {
      NoTargetsLogged(log);
    }
  }

  lemma {:induction false} NoTargetsLogged(log: seq<GroupCalls>)
    ensures LoggedTargets([], log) == 0
  {
    if |log| > 0 {
      NoTargetsLogged(log[..|log| - 1]);
    }
  }

  lemma {:induction false} LogCost(targets: seq<QuoteTarget>, size: nat, providers: seq<Provider>,
                                   setup: seq<RpcFailure>, log: seq<GroupCalls>, results: seq<QuoteResult>)
    requires |results| == |targets|
    requires forall g :: 0 <= g < |log| ==> RaindexServed(targets, size, providers, setup, log[g], results)
    ensures BatchRequests(log) <= Times(2 * LoggedTargets(targets, log), |providers|)
  {
    if |log| > 0 {
      var init, last := log[..|log| - 1], log[|log| - 1];
      LogCost(targets, size, providers, setup, init, results);
      assert RaindexServed(targets, size, providers, setup, last, results);
      var members := Members(targets, last.raindex);
      GroupCost(Select(targets, members), size, providers, setup, last.calls, Select(results, members));
      Charge(LoggedTargets(targets, init), |members|, LoggedTargets(targets, log), |providers|, BatchRequests(init),
             GroupRequests(last.calls));
    }
  }

  /** A whole batch takes at most `2 n` requests per provider, whatever the endpoints do. */
  lemma {:induction false} BatchCost(targets: seq<QuoteTarget>, size: nat, providers: seq<Provider>,
                                     setup: seq<RpcFailure>, log: seq<GroupCalls>, results: seq<QuoteResult>)
    requires BatchServed(targets, size, providers, setup, log, results)
    ensures BatchRequests(log) <= 2 * |targets| * |providers|
  {
    LogCost(targets, size, providers, setup, log, results);
    LoggedAtMost(targets, log);
    Charge(LoggedTargets(targets, log), |targets| - LoggedTargets(targets, log), |targets|, |providers|,
           BatchRequests(log), 0);
    TimesIsProduct(2 * |targets|, |providers|);
  }

  // ----- group by group, chunk by chunk

  lemma {:induction false} PartOfOneRaindex(targets: seq<QuoteTarget>, a: nat, b: nat)
    requires OneRaindex(targets) && a <= b <= |targets|
    ensures OneRaindex(targets[a..b])
  {
    assert forall k :: 0 <= k < b - a ==> targets[a..b][k] == targets[a + k];
  }

  /** A served call stays served when results are added behind it. */
  lemma {:induction false} CallKept(targets: seq<QuoteTarget>, providers: seq<Provider>, setup: seq<RpcFailure>,
                                    call: Call, results: seq<QuoteResult>, more: seq<QuoteResult>)
    requires CallServed(targets, providers, setup, call, results)
    ensures CallServed(targets, providers, setup, call, results + more)
  {
    assert (results + more)[call.start..call.end] == results[call.start..call.end];
  }

  /** The first `|results|` targets of a group are tiled and served. */
  ghost predicate GroupProgress(targets: seq<QuoteTarget>, size: nat, providers: seq<Provider>, setup: seq<RpcFailure>,
                                calls: seq<Call>, results: seq<QuoteResult>)
  {
    && |results| <= |targets| && Tiled(calls, size, |targets|, |results|)
    && forall c :: 0 <= c < |calls| ==> CallServed(targets, providers, setup, calls[c], results)
  }

  lemma {:induction false} LastServed(targets: seq<QuoteTarget>, providers: seq<Provider>, setup: seq<RpcFailure>,
                                      results: seq<QuoteResult>, end: nat, attempts: seq<seq<Exchange>>,
                                      served: seq<QuoteResult>)
    requires |results| < end <= |targets| && |served| == end - |results|
    requires ServedBy(targets[|results|..end], providers, setup, attempts, served)
    ensures CallServed(targets, providers, setup, Call(|results|, end, attempts), results + served)
  {
    assert (results + served)[|results|..end] == served;
  }

  lemma {:induction false} TiledNext(calls: seq<Call>, size: nat, n: nat, next: Call)
    requires Tiled(calls, size, n, next.start)
    requires next.start < next.end == Min(next.start + size, n)
    ensures Tiled(calls + [next], size, n, next.end)
  {
    assert (calls + [next])[..|calls|] == calls;
  }

  lemma {:induction false} NextCall(targets: seq<QuoteTarget>, size: nat, providers: seq<Provider>,
                                    setup: seq<RpcFailure>, calls: seq<Call>, results: seq<QuoteResult>, end: nat,
                                    attempts: seq<seq<Exchange>>, served: seq<QuoteResult>)
    requires size > 0 && |results| < |targets| && end == Min(|results| + size, |targets|)
    requires GroupProgress(targets, size, providers, setup, calls, results)
    requires |served| == end - |results| && ServedBy(targets[|results|..end], providers, setup, attempts, served)
    ensures GroupProgress(targets, size, providers, setup, calls + [Call(|results|, end, attempts)], results + served)
  {
    var next := Call(|results|, end, attempts);
    TiledNext(calls, size, |targets|, next);
    LastServed(targets, providers, setup, results, end, attempts, served);
    forall c | 0 <= c < |calls + [next]|
      ensures CallServed(targets, providers, setup, (calls + [next])[c], results + served)
    {
      if c < |calls| {
        CallKept(targets, providers, setup, calls[c], results, served);
      }
    }
  }

  /** The targets of one raindex, chunk by chunk. */
  method QuoteGroup(targets: seq<QuoteTarget>, providers: seq<Provider>, setup: seq<RpcFailure>, size: nat)
    returns (results: seq<QuoteResult>, ghost calls: seq<Call>)
    requires OneRaindex(targets) && size > 0
    ensures GroupServed(targets, size, providers, setup, calls, results)
  {
    results := [];
    calls := [];
    var start := 0;
    while start < |targets|
      invariant start == |results| && GroupProgress(targets, size, providers, setup, calls, results)
    {
      var end := Min(start + size, |targets|);
      PartOfOneRaindex(targets, start, end);
      var served;
      ghost var attempts;
      served, attempts := QuoteChunk(targets[start..end], providers, setup);
      NextCall(targets, size, providers, setup, calls, results, end, attempts, served);
      calls := calls + [Call(start, end, attempts)];
      results := results + served;
      start := end;
    }
  }

  datatype Group = Group(raindex: Address, indexes: seq<nat>, targets: seq<QuoteTarget>)

  ghost predicate HasGroup(groups: seq<Group>, raindex: Address) {
    exists g :: 0 <= g < |groups| && groups[g].raindex == raindex
  }

  /** The groups hold exactly the first `n` targets, each under its own raindex and in input order. */
  ghost predicate Grouped(targets: seq<QuoteTarget>, n: nat, groups: seq<Group>)
    requires n <= |targets|
  {
    && (forall g :: 0 <= g < |groups| ==>
         groups[g].indexes == Members(targets[..n], groups[g].raindex) &&
         groups[g].targets == Select(targets[..n], Members(targets[..n], groups[g].raindex)))
    && (forall g, h :: 0 <= g < h < |groups| ==> groups[g].raindex != groups[h].raindex)
    && (forall i :: 0 <= i < n ==> HasGroup(groups, targets[i].raindex))
  }

  lemma {:induction false} MembersGrow(targets: seq<QuoteTarget>, i: nat, a: Address)
    requires i < |targets|
    ensures Members(targets[..i + 1], a) ==
      Members(targets[..i], a) + (if targets[i].raindex == a then [i] else [])
    ensures Select(targets[..i + 1], Members(targets[..i + 1], a)) ==
      Select(targets[..i], Members(targets[..i], a)) + (if targets[i].raindex == a then [targets[i]] else [])
  {
    var all := Raindexes(targets[..i + 1]);
    assert all[..i] == Raindexes(targets[..i]);
    assert all[i] == targets[i].raindex;
  }

  method FindGroup(groups: seq<Group>, raindex: Address) returns (g: nat)
    ensures g <= |groups|
    ensures g < |groups| ==> groups[g].raindex == raindex
    ensures forall h :: 0 <= h < g ==> groups[h].raindex != raindex
  {
    g := 0;
    while g < |groups| && groups[g].raindex != raindex
      invariant g <= |groups|
      invariant forall h :: 0 <= h < g ==> groups[h].raindex != raindex
    {
      g := g + 1;
    }
  }

  lemma {:induction false} NoMembersYet(targets: seq<QuoteTarget>, i: nat, groups: seq<Group>, a: Address)
    requires i < |targets| && Grouped(targets, i, groups)
    requires forall h :: 0 <= h < |groups| ==> groups[h].raindex != a
    ensures Members(targets[..i], a) == []
  {
    forall p | 0 <= p < i ensures targets[p].raindex != a {
      assert HasGroup(groups, targets[p].raindex);
    }
    NoPositions(Raindexes(targets[..i]), a);
  }

  method Scatter(slots: seq<Option<QuoteResult>>, indexes: seq<nat>, results: seq<QuoteResult>)
    returns (scattered: seq<Option<QuoteResult>>)
    requires |indexes| == |results|
    requires forall j :: 0 <= j < |indexes| ==> indexes[j] < |slots|
    requires forall i, j :: 0 <= i < j < |indexes| ==> indexes[i] != indexes[j]
    ensures |scattered| == |slots|
    ensures forall j :: 0 <= j < |indexes| ==> scattered[indexes[j]] == Some(results[j])
    ensures forall i :: 0 <= i < |slots| && i !in indexes ==> scattered[i] == slots[i]
  {
    scattered := slots;
    for k := 0 to |results|
      invariant |scattered| == |slots|
      invariant forall j :: 0 <= j < k ==> scattered[indexes[j]] == Some(results[j])
      invariant forall i :: 0 <= i < |slots| && i !in indexes ==> scattered[i] == slots[i]
    {
      scattered := scattered[indexes[k] := Some(results[k])];
    }
  }

  lemma {:induction false} GroupedNext(targets: seq<QuoteTarget>, i: nat, before: seq<Group>, g: nat,
                                       after: seq<Group>)
    requires i < |targets| && Grouped(targets, i, before) && g <= |before|
    requires g < |before| ==> before[g].raindex == targets[i].raindex
    requires forall h :: 0 <= h < g ==> before[h].raindex != targets[i].raindex
    requires after ==
      if g < |before| then
        before[g := Group(targets[i].raindex, before[g].indexes + [i], before[g].targets + [targets[i]])]
      else before + [Group(targets[i].raindex, [i], [targets[i]])]
    ensures Grouped(targets, i + 1, after)
  {
    if g == |before| {
      NoMembersYet(targets, i, before, targets[i].raindex);
    }
    forall h | 0 <= h < |after|
      ensures after[h].indexes == Members(targets[..i + 1], after[h].raindex)
      ensures after[h].targets == Select(targets[..i + 1], Members(targets[..i + 1], after[h].raindex))
    {
      MembersGrow(targets, i, after[h].raindex);
    }
    forall j | 0 <= j < i + 1 ensures HasGroup(after, targets[j].raindex) {
      if j < i {
        assert HasGroup(before, targets[j].raindex);
        var h :| 0 <= h < |before| && before[h].raindex == targets[j].raindex;
        assert after[h].raindex == targets[j].raindex;
      } else {
        assert after[g].raindex == targets[j].raindex;
      }
    }
  }

  method GroupByRaindex(targets: seq<QuoteTarget>) returns (groups: seq<Group>)
    ensures Grouped(targets, |targets|, groups)
  {
    groups := [];
    for i := 0 to |targets|
      invariant Grouped(targets, i, groups)
    {
      var target := targets[i];
      ghost var before := groups;
      var g := FindGroup(groups, target.raindex);
      if g < |groups| {
        groups := groups[g := Group(target.raindex, groups[g].indexes + [i], groups[g].targets + [target])];
      } else {
        groups := groups + [Group(target.raindex, [i], [target])];
      }
      GroupedNext(targets, i, before, g, groups);
    }
    assert targets[..|targets|] == targets;
  }

  /** Every group's results go to the positions of its targets; no slot is left empty. */
  method ScatterGroups(targets: seq<QuoteTarget>, groups: seq<Group>, served: seq<seq<QuoteResult>>)
    returns (slots: seq<Option<QuoteResult>>)
    requires Grouped(targets, |targets|, groups) && |served| == |groups|
    requires forall g :: 0 <= g < |groups| ==> |served[g]| == |groups[g].indexes|
    ensures |slots| == |targets|
    ensures forall i :: 0 <= i < |slots| ==> slots[i].Some?
    ensures forall h, j :: 0 <= h < |groups| && 0 <= j < |groups[h].indexes| ==>
      groups[h].indexes[j] < |slots| && slots[groups[h].indexes[j]] == Some(served[h][j])
  {
    assert targets[..|targets|] == targets;
    slots := seq(|targets|, _ => None);
    for g := 0 to |groups|
      invariant |slots| == |targets|
      invariant forall h, j :: 0 <= h < g && 0 <= j < |groups[h].indexes| ==>
        slots[groups[h].indexes[j]] == Some(served[h][j])
    {
      ghost var before := slots;
      slots := Scatter(slots, groups[g].indexes, served[g]);
      forall h, j | 0 <= h < g && 0 <= j < |groups[h].indexes|
        ensures slots[groups[h].indexes[j]] == Some(served[h][j])
      {
        var i := groups[h].indexes[j];
        assert targets[i].raindex == groups[h].raindex;
        assert i !in groups[g].indexes;
        assert before[i] == Some(served[h][j]);
      }
    }
    forall i | 0 <= i < |targets| ensures slots[i].Some? {
      assert HasGroup(groups, targets[i].raindex);
      var g :| 0 <= g < |groups| && groups[g].raindex == targets[i].raindex;
      assert i in PositionsOf(Raindexes(targets), groups[g].raindex);
      assert i in groups[g].indexes;
    }
  }

  method QuoteGroups(groups: seq<Group>, providers: seq<Provider>, setup: seq<RpcFailure>, size: nat)
    returns (served: seq<seq<QuoteResult>>, ghost log: seq<GroupCalls>)
    requires size > 0 && forall g :: 0 <= g < |groups| ==> OneRaindex(groups[g].targets)
    ensures |served| == |groups| == |log|
    ensures forall g :: 0 <= g < |groups| ==>
      && log[g].raindex == groups[g].raindex
      && GroupServed(groups[g].targets, size, providers, setup, log[g].calls, served[g])
  {
    served := [];
    log := [];
    for g := 0 to |groups|
      invariant |served| == |log| == g
      invariant forall h :: 0 <= h < g ==>
        && log[h].raindex == groups[h].raindex
        && GroupServed(groups[h].targets, size, providers, setup, log[h].calls, served[h])
    {
      var results;
      ghost var calls;
      results, calls := QuoteGroup(groups[g].targets, providers, setup, size);
      served := served + [results];
      log := log + [GroupCalls(groups[g].raindex, calls)];
    }
  }

  method BatchQuoteWithProviders(targets: seq<QuoteTarget>, providers: seq<Provider>, setup: seq<RpcFailure>,
                                 chunkSize: Option<nat>)
    returns (results: seq<QuoteResult>, ghost log: seq<GroupCalls>)
    ensures |results| == |targets|
    ensures BatchServed(targets, NormalizeChunkSize(chunkSize), providers, setup, log, results)
  {
    var size := NormalizeChunkSize(chunkSize);
    var groups := GroupByRaindex(targets);
    assert targets[..|targets|] == targets;
    var served;
    served, log := QuoteGroups(groups, providers, setup, size);

    var slots := ScatterGroups(targets, groups, served);
    results := seq(|slots|, i requires 0 <= i < |slots| => slots[i].value);
    GroupsAreBatch(targets, size, providers, setup, groups, log, served, results);
  }

  /** Results at the positions of their targets, group by group, serve the whole batch. */
  lemma {:induction false} GroupsAreBatch(targets: seq<QuoteTarget>, size: nat, providers: seq<Provider>,
                                          setup: seq<RpcFailure>, groups: seq<Group>, log: seq<GroupCalls>,
                                          served: seq<seq<QuoteResult>>, results: seq<QuoteResult>)
    requires |results| == |targets| && |served| == |groups| == |log| && Grouped(targets, |targets|, groups)
    requires forall g :: 0 <= g < |groups| ==>
      && log[g].raindex == groups[g].raindex
      && GroupServed(groups[g].targets, size, providers, setup, log[g].calls, served[g])
    requires forall g, j :: 0 <= g < |groups| && 0 <= j < |groups[g].indexes| ==>
      groups[g].indexes[j] < |results| && j < |served[g]| && results[groups[g].indexes[j]] == served[g][j]
    ensures BatchServed(targets, size, providers, setup, log, results)
  {
    assert targets[..|targets|] == targets;
    forall i | 0 <= i < |targets| ensures HasCalls(log, targets[i].raindex) {
      assert HasGroup(groups, targets[i].raindex);
      var g :| 0 <= g < |groups| && groups[g].raindex == targets[i].raindex;
      assert log[g].raindex == targets[i].raindex;
    }
    forall g | 0 <= g < |log| ensures RaindexServed(targets, size, providers, setup, log[g], results) {
      assert served[g] == Select(results, Members(targets, log[g].raindex));
    }
  }

  /** An RPC URL and what came of parsing it and building a provider for it. */
  datatype Rpc = Rpc(url: string, connection: Result<Endpoint, string>)

  function Providers(rpcs: seq<Rpc>): seq<Provider> {
    if |rpcs| == 0 then []
    else
      var rpc := rpcs[|rpcs| - 1];
      Providers(rpcs[..|rpcs| - 1]) + (if rpc.connection.Ok? then [Provider(rpc.url, rpc.connection.value)] else [])
  }

  function SetupFailures(rpcs: seq<Rpc>): seq<RpcFailure> {
    if |rpcs| == 0 then []
    else
      var rpc := rpcs[|rpcs| - 1];
      SetupFailures(rpcs[..|rpcs| - 1]) +
      (if rpc.connection.Err? then [SetupFailure(rpc.url, rpc.connection.error)] else [])
  }

  /** `places` are the positions, in order, of the RPCs that could (or could not) be connected to. */
  ghost predicate PlacesOf(rpcs: seq<Rpc>, usable: bool, places: seq<nat>) {
    && (forall i, j :: 0 <= i < j < |places| ==> places[i] < places[j])
    && (forall p: nat :: p in places <==> p < |rpcs| && rpcs[p].connection.Ok? == usable)
  }

  lemma {:induction false} PlacesGrow(rpcs: seq<Rpc>, usable: bool, places: seq<nat>) returns (places': seq<nat>)
    requires |rpcs| > 0 && PlacesOf(rpcs[..|rpcs| - 1], usable, places)
    ensures PlacesOf(rpcs, usable, places')
    ensures places' == if rpcs[|rpcs| - 1].connection.Ok? == usable then places + [|rpcs| - 1] else places
  {
    var init := rpcs[..|rpcs| - 1];
    places' := if rpcs[|rpcs| - 1].connection.Ok? == usable then places + [|rpcs| - 1] else places;
    assert forall i :: 0 <= i < |places| ==> places[i] in places;
    forall p: nat ensures p in places' <==> p < |rpcs| && rpcs[p].connection.Ok? == usable {
      assert p < |init| ==> init[p] == rpcs[p];
    }
  }

  ghost predicate IsProviderOf(provider: Provider, rpc: Rpc) {
    provider.url == rpc.url && rpc.connection == Ok(provider.endpoint)
  }

  /** The providers are exactly the RPCs that could be connected to, in the configured order, each under its own URL. */
  lemma {:induction false} ProvidersAreUsable(rpcs: seq<Rpc>) returns (places: seq<nat>)
    ensures PlacesOf(rpcs, true, places) && |Providers(rpcs)| == |places|
    ensures forall j :: 0 <= j < |places| ==>
      places[j] < |rpcs| && IsProviderOf(Providers(rpcs)[j], rpcs[places[j]])
  {
    if |rpcs| == 0 {
      places := [];
    } else {
      var before := ProvidersAreUsable(rpcs[..|rpcs| - 1]);
      places := PlacesGrow(rpcs, true, before);
      forall j | 0 <= j < |places|
        ensures places[j] < |rpcs| && IsProviderOf(Providers(rpcs)[j], rpcs[places[j]])
      {
        assert j < |before| ==> rpcs[before[j]] == rpcs[..|rpcs| - 1][before[j]];
      }
    }
  }

  ghost predicate IsFailureOf(failure: RpcFailure, rpc: Rpc) {
    failure.SetupFailure? && failure.url == rpc.url && rpc.connection == Err(failure.reason)
  }

  /** The setup failures are exactly the others, in the configured order, each with its own URL and reason. */
  lemma {:induction false} SetupFailuresAreOthers(rpcs: seq<Rpc>) returns (places: seq<nat>)
    ensures PlacesOf(rpcs, false, places) && |SetupFailures(rpcs)| == |places|
    ensures forall j :: 0 <= j < |places| ==>
      places[j] < |rpcs| && IsFailureOf(SetupFailures(rpcs)[j], rpcs[places[j]])
  {
    if |rpcs| == 0 {
      places := [];
    } else {
      var before := SetupFailuresAreOthers(rpcs[..|rpcs| - 1]);
      places := PlacesGrow(rpcs, false, before);
      forall j | 0 <= j < |places|
        ensures places[j] < |rpcs| && IsFailureOf(SetupFailures(rpcs)[j], rpcs[places[j]])
      {
        assert j < |before| ==> rpcs[before[j]] == rpcs[..|rpcs| - 1][before[j]];
      }
    }
  }

  /** What `BatchQuote` returns and does: one slot per target, served by the usable providers; or, without any, no
      request and the same explanation in every slot. */
  ghost predicate BatchLogged(targets: seq<QuoteTarget>, rpcs: seq<Rpc>, chunkSize: Option<nat>, log: seq<GroupCalls>,
                              results: seq<QuoteResult>)
  {
    if |targets| > 0 && Providers(rpcs) == [] then
      log == [] && results == seq(|targets|, _ => Err(CorruptReturnData(
        if rpcs == [] then NoRpcsConfigured else AllRpcsFailed(SetupFailures(rpcs)))))
    else BatchServed(targets, NormalizeChunkSize(chunkSize), Providers(rpcs), SetupFailures(rpcs), log, results)
  }

  ghost predicate BatchOutcome(targets: seq<QuoteTarget>, rpcs: seq<Rpc>, chunkSize: Option<nat>,
                               results: seq<QuoteResult>)
  {
    exists log :: BatchLogged(targets, rpcs, chunkSize, log, results)
  }

  method BatchQuote(targets: seq<QuoteTarget>, rpcs: seq<Rpc>, chunkSize: Option<nat>)
    returns (results: seq<QuoteResult>, ghost log: seq<GroupCalls>)
    ensures |results| == |targets| && BatchOutcome(targets, rpcs, chunkSize, results)
    ensures BatchLogged(targets, rpcs, chunkSize, log, results)
    ensures BatchRequests(log) <= 2 * |targets| * |Providers(rpcs)|
  {
    if |targets| == 0 {
      assert BatchLogged(targets, rpcs, chunkSize, [], []);
      return [], [];
    }
    var transportFailures: seq<RpcFailure> := [];
    var providers: seq<Provider> := [];
    for i := 0 to |rpcs|
      invariant providers == Providers(rpcs[..i]) && transportFailures == SetupFailures(rpcs[..i])
    {
      assert rpcs[..i + 1][..i] == rpcs[..i];
      match rpcs[i].connection
      case Err(reason) => transportFailures := transportFailures + [SetupFailure(rpcs[i].url, reason)];
      case Ok(endpoint) => providers := providers + [Provider(rpcs[i].url, endpoint)];
    }
    assert rpcs[..|rpcs|] == rpcs;
    if |providers| == 0 {
      var reason := if |rpcs| == 0 then NoRpcsConfigured else AllRpcsFailed(transportFailures);
      results := seq(|targets|, _ => Err(CorruptReturnData(reason)));
      assert BatchLogged(targets, rpcs, chunkSize, [], results);
      return results, [];
    }
    results, log := BatchQuoteWithProviders(targets, providers, transportFailures, chunkSize);
    assert BatchLogged(targets, rpcs, chunkSize, log, results);
    BatchCost(targets, NormalizeChunkSize(chunkSize), providers, transportFailures, log, results);
  }

  // ----- the batch on a consistent chain

  function QuoteEach(chain: Chain, targets: seq<QuoteTarget>): seq<QuoteResult> {
    seq(|targets|, i requires 0 <= i < |targets| => QuoteOne(chain, targets[i]))
  }

  lemma {:induction false} ChunkIsExact(chunk: seq<QuoteTarget>, providers: seq<Provider>, setup: seq<RpcFailure>,
                                        results: seq<QuoteResult>, chain: Chain)
    requires OneRaindex(chunk) && AllHonest(providers, chain) && SomeReliable(providers, chain)
    requires ChunkServed(chunk, providers, setup, results)
    ensures results == QuoteEach(chain, chunk)
  {
    var errors :| ServedAfter(chunk, providers, setup, errors, results);
    var p :| 0 <= p < |providers| && Reliable(providers[p].endpoint, chain);
    if p < |errors| {
      ReliableNeverRefuses(providers[p].endpoint, chain, chunk, errors[p]);
    }
    AttemptIsExact(providers[|errors|].endpoint, chain, chunk, Ok(results));
  }

  /** Chunk number `c` of a group starts at target `c * size` and has `size` targets, unless the group ends before. */
  lemma {:induction false} ChunkBounds(calls: seq<Call>, size: nat, n: nat, c: nat)
    requires Tiled(calls, size, n, n) && c < |calls|
    ensures calls[c].start == c * size
    ensures calls[c].end == if calls[c].start + size < n then calls[c].start + size else n
    ensures calls[c].end == n <==> c == |calls| - 1
  {
    if c == |calls| - 1 {
      StartOfLast(calls, size, n, n);
    } else {
      ChunkBoundsBefore(calls, size, n, n, c);
    }
  }

  lemma {:induction false} StartOfLast(calls: seq<Call>, size: nat, n: nat, done: nat)
    requires |calls| > 0 && Tiled(calls, size, n, done)
    ensures calls[|calls| - 1].start == (|calls| - 1) * size
  {
    if |calls| > 1 {
      var k := |calls| - 1;
      StartOfLast(calls[..k], size, n, calls[k].start);
      assert k * size == (k - 1) * size + size;
    }
  }

  lemma {:induction false} ChunkBoundsBefore(calls: seq<Call>, size: nat, n: nat, done: nat, c: nat)
    requires Tiled(calls, size, n, done) && c < |calls| - 1
    ensures calls[c].start == c * size && calls[c].end == calls[c].start + size < n
  {
    var init := calls[..|calls| - 1];
    if c == |calls| - 2 {
      StartOfLast(init, size, n, calls[|calls| - 1].start);
    } else {
      ChunkBoundsBefore(init, size, n, calls[|calls| - 1].start, c);
    }
  }

  /** Some call covers target `i`. */
  lemma {:induction false} CallOf(calls: seq<Call>, size: nat, n: nat, done: nat, i: nat) returns (c: nat)
    requires Tiled(calls, size, n, done) && i < done
    ensures c < |calls| && calls[c].start <= i < calls[c].end
  {
    c := |calls| - 1;
    if i < calls[c].start {
      c := CallOf(calls[..|calls| - 1], size, n, calls[c].start, i);
    }
  }

  lemma {:induction false} GroupIsExact(targets: seq<QuoteTarget>, size: nat, providers: seq<Provider>,
                                        setup: seq<RpcFailure>, calls: seq<Call>, results: seq<QuoteResult>,
                                        chain: Chain, i: nat)
    requires i < |targets|
    requires OneRaindex(targets) && AllHonest(providers, chain) && SomeReliable(providers, chain)
    requires GroupServed(targets, size, providers, setup, calls, results)
    ensures results[i] == QuoteOne(chain, targets[i])
  {
    var c := CallOf(calls, size, |targets|, |targets|, i);
    assert CallServed(targets, providers, setup, calls[c], results);
    SlotIsExact(targets, providers, setup, results, chain, calls[c].start, calls[c].end, i);
  }

  lemma {:induction false} PartAt<T>(s: seq<T>, a: nat, b: nat, i: nat)
    requires a <= i < b <= |s|
    ensures s[a..b][i - a] == s[i]
  {
  }

  lemma {:induction false} SlotIsExact(targets: seq<QuoteTarget>, providers: seq<Provider>, setup: seq<RpcFailure>,
                                       results: seq<QuoteResult>, chain: Chain, a: nat, b: nat, i: nat)
    requires a <= i < b <= |targets| == |results|
    requires OneRaindex(targets) && AllHonest(providers, chain) && SomeReliable(providers, chain)
    requires ChunkServed(targets[a..b], providers, setup, results[a..b])
    ensures results[i] == QuoteOne(chain, targets[i])
  {
    PartOfOneRaindex(targets, a, b);
    ChunkIsExact(targets[a..b], providers, setup, results[a..b], chain);
    PartAt(results, a, b, i);
    PartAt(targets, a, b, i);
  }

  lemma {:induction false} RaindexIsExact(targets: seq<QuoteTarget>, size: nat, providers: seq<Provider>,
                                          setup: seq<RpcFailure>, group: GroupCalls, results: seq<QuoteResult>,
                                          chain: Chain, i: nat)
    requires i < |targets| == |results| && targets[i].raindex == group.raindex
    requires AllHonest(providers, chain) && SomeReliable(providers, chain)
    requires RaindexServed(targets, size, providers, setup, group, results)
    ensures results[i] == QuoteOne(chain, targets[i])
  {
    var members := Members(targets, group.raindex);
    assert i in PositionsOf(Raindexes(targets), group.raindex);
    var j :| 0 <= j < |members| && members[j] == i;
    GroupIsExact(Select(targets, members), size, providers, setup, group.calls, Select(results, members), chain, j);
  }

  lemma {:induction false} BatchServedIsExact(targets: seq<QuoteTarget>, size: nat, providers: seq<Provider>,
                                              setup: seq<RpcFailure>, log: seq<GroupCalls>, results: seq<QuoteResult>,
                                              chain: Chain)
    requires AllHonest(providers, chain) && SomeReliable(providers, chain)
    requires BatchServed(targets, size, providers, setup, log, results)
    ensures results == QuoteEach(chain, targets)
  {
    forall i | 0 <= i < |targets| ensures results[i] == QuoteOne(chain, targets[i]) {
      assert HasCalls(log, targets[i].raindex);
      var g :| 0 <= g < |log| && log[g].raindex == targets[i].raindex;
      RaindexIsExact(targets, size, providers, setup, log[g], results, chain, i);
    }
  }

  /** Every RPC that can be connected to reports `chain` whenever it reports at all, and one of them always does. */
  ghost predicate RpcsReport(rpcs: seq<Rpc>, chain: Chain) {
    && (forall i :: 0 <= i < |rpcs| && rpcs[i].connection.Ok? ==> Honest(rpcs[i].connection.value, chain))
    && (exists i :: 0 <= i < |rpcs| && rpcs[i].connection.Ok? && Reliable(rpcs[i].connection.value, chain))
  }

  lemma {:induction false} ProvidersReport(rpcs: seq<Rpc>, chain: Chain)
    requires RpcsReport(rpcs, chain)
    ensures AllHonest(Providers(rpcs), chain) && SomeReliable(Providers(rpcs), chain)
  {
    var places := ProvidersAreUsable(rpcs);
    var i :| 0 <= i < |rpcs| && rpcs[i].connection.Ok? && Reliable(rpcs[i].connection.value, chain);
    assert i in places;
    var j :| 0 <= j < |places| && places[j] == i;
    assert IsProviderOf(Providers(rpcs)[j], rpcs[i]);
    forall p | 0 <= p < |Providers(rpcs)| ensures Honest(Providers(rpcs)[p].endpoint, chain) {
      assert IsProviderOf(Providers(rpcs)[p], rpcs[places[p]]);
    }
  }

  /** Whatever the chunk size, the mix of raindexes and the failures along the way: if every usable RPC that answers
      reports the same chain and one always answers, the batch is the list of the targets' own quotes. */
  lemma {:induction false} BatchIsExact(targets: seq<QuoteTarget>, rpcs: seq<Rpc>, chunkSize: Option<nat>,
                                        results: seq<QuoteResult>, chain: Chain)
    requires RpcsReport(rpcs, chain)
    requires BatchOutcome(targets, rpcs, chunkSize, results)
    ensures |results| == |targets|
    ensures forall i :: 0 <= i < |targets| ==> IsQuoteOf(results[i], chain(targets[i]))
    ensures results == QuoteEach(chain, targets)
  {
    BatchIsEach(targets, rpcs, chunkSize, results, chain);
    forall i | 0 <= i < |targets| ensures IsQuoteOf(results[i], chain(targets[i])) {
      assert results[i] == QuoteOne(chain, targets[i]);
    }
  }

  lemma {:induction false} BatchIsEach(targets: seq<QuoteTarget>, rpcs: seq<Rpc>, chunkSize: Option<nat>,
                                       results: seq<QuoteResult>, chain: Chain)
    requires RpcsReport(rpcs, chain) && BatchOutcome(targets, rpcs, chunkSize, results)
    ensures results == QuoteEach(chain, targets)
  {
    ProvidersReport(rpcs, chain);
    var log: seq<GroupCalls> :| BatchLogged(targets, rpcs, chunkSize, log, results);
    BatchServedIsExact(targets, NormalizeChunkSize(chunkSize), Providers(rpcs), SetupFailures(rpcs), log, results,
                       chain);
  }
}
