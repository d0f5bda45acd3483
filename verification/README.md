# Raindex: quoting, rate limiting and the vault ledger

A Dafny model of the parts of the Raindex repository whose behaviour is hard to see from one function, with proofs about it.
`dafny verify dfyconfig.toml` checks the whole project.

* **Quoting** (`QuoteTypes`, `Bisection`, `BatchQuote`, `QuoteSpecs`). Quote targets are grouped by raindex address, cut into
  chunks, sent as one multicall per chunk, bisected with an explicit work stack when a chunk reverts, and retried over the
  configured RPCs; results go back to the positions of their targets. An endpoint is a function of the *moment* of the request
  and the slice of targets, and the moment is chosen arbitrarily at every request. So an endpoint may answer differently each
  time, and nothing depends on how the requests of different groups interleave. Results come in two layers: what holds for
  every endpoint (`AttemptOutcome`, `BatchOutcome`), and what follows when the usable RPCs that answer report one consistent
  chain and one of them always answers (`RpcsReport`).
* **The pair sweep** (`PairSweep`, `OrderQuotes`). All wanted order/input/output pairs are listed, their oracle requests are
  batched per URL, answers are scattered back, and one batch of quotes fills the holes that are left. Every URL is posted once,
  so a function of URL and body describes any oracle.
* **Bounded collection and request semaphores** (`CollectBounded`, `OracleSemaphores`). Two step machines. The
  first is a pool of futures that complete in any order, at any moment. The second has requests that look up, create, share and
  drop semaphores, where references are dropped at any time, also in the middle of another request's lookup.
* **The rate limiter** (`RateLimiting`). A class with the source's queues, against the reference "count the admissions of the
  last 60 seconds" over the complete history of checks. Time is in nanoseconds.
* **The ledger of the subgraph** (`Ledger`, `LedgerProofs`, `LedgerTotals`, `LedgerRecords`, `LedgerEffects`,
  `LedgerOnChain`). A class with the source's tables and handlers; every handler is proved against postings to vaults, and the
  main results range over every event log, with vaults coinciding in any way. `LedgerEffects` reads off the events themselves
  which vaults move and what is recorded; `LedgerOnChain` adds what the contract's rules exclude. Amounts are exact reals.
  Keccak is an injective constructor over the fixed-width parts that the source concatenates. A token contract always gives the
  same answer for its decimals.
* **Arithmetic and block ranges** (`FixedPoint`, `BlockRange`, with `Arithmetic`). `mul_div` and scaling, for words of any size
  (256 bits in the source); the text form of block ranges and their expansion.

`Common` and `Positions` hold shared helpers: failure types, and where a key occurs in a list.

Three findings are stated as theorems rather than assumed away:

* The comment at `crates/quote/src/rpc.rs:238` bounds the cost of isolating one reverting target by log2 of the chunk size. The
  code asks for the whole chunk twice and for both halves at every level. `Bisection.WithinLogExactly` says when a successful
  attempt on a consistent chain stays within `ceil(log2 n)` requests: exactly if it has several targets and none of them
  reverts, so never when there is something to isolate. With `k > 0` of several targets reverting, the cost lies between
  `2 + 2 floor(log2 n)` (`Bisection.CostAtLeast`) and `2 + 2 k ceil(log2 n)` (`Bisection.HonestCost`);
  `Bisection.SingleRevertCost` has a case where the two meet.
* A range with start `Latest` or end `Genesis` prints like an open end and is read back as the other one;
  `BlockRange.PrintThenParse` says exactly which ranges survive.
* A Clear that follows another one of the same raindex and transaction, with anything but their AfterClear in between, loses
  the first one (`LedgerProofs.NestedClearIsLost`); clears are processed in order exactly when they alternate with their
  AfterClears (`LedgerProofs.OrderlyExactly`). And records overwrite each other when one event trades twice on one vault
  (`LedgerRecords.RecordsKeptApart`). The raindex contract writes no log of either kind: `clear4` cannot be entered twice, logs
  AfterClearV2 in the same call as ClearV3 (`src/concrete/raindex/RaindexV7.sol:586,628,702`), and refuses two orders of one
  owner, orders that do not match, and trades of a token for itself (lines 423 and 594-611). From the rules about owners, tokens
  and bounties `LedgerOnChain.OnChainRecordsKeptApart` derives that no record is ever overwritten, and
  `LedgerOnChain.OnChainConservation` that clears keep every total; the order of the clears stays a condition on the log.

## Model

| member | source | states |
|---|---|---|
| BatchQuote.NormalizeChunkSize | crates/quote/src/rpc.rs:38-40 | the chunk size is the caller's own, but 1 instead of 0, and 16 if the caller has none |
| Bisection.QuoteChunkOnce | crates/quote/src/rpc.rs:69-180 | one multicall: a found element is its own value, a missing order is NonExistent, an undecodable element says so; a revert is the chunk's, decoded or not; any other answer, and a wrong number of elements, is a failure of its own kind |
| Bisection.QuoteChunkWithProbeAndSplit | crates/quote/src/rpc.rs:186-271 | for any endpoint: on success one slot per target, each an answer the endpoint gave for that very target (so the fallback for empty slots is never used); on failure a non-revert error the endpoint gave; and the exact course of requests |
| Bisection.DrainStack | crates/quote/src/rpc.rs:241-265 | the bisection loop ends with every slot settled by a genuine answer, or stops at the first answer that is neither a result list nor a revert |
| Bisection.StackTiles | crates/quote/src/rpc.rs:243-262 | the work stack is always a run of adjacent nonempty ranges starting right after the settled prefix, and requests made plus the sum of 2·len−1 over it never exceed 2n−1 |
| Bisection.StackBound | crates/quote/src/rpc.rs:243-262 | the work stack never holds more than ceil(log2 n) + 1 ranges, whatever the endpoint does |
| Bisection.RequestBound | crates/quote/src/rpc.rs:193-265 | an attempt makes at most 2n requests, and exactly one for a single target or when the first answer is not a revert |
| Bisection.StackIsRecursion | crates/quote/src/rpc.rs:241-265 | on consistent state the work stack makes exactly the requests of the recursive bisection, in the same order |
| Bisection.HonestRequests | crates/quote/src/rpc.rs:193-265 | the requests of an attempt: the whole chunk, and after a revert of several targets the recursive bisection from the top; all of them if the attempt succeeds, and otherwise the ones up to the failure |
| Bisection.BisectCost | crates/quote/src/rpc.rs:231-265 | bisecting n targets of which k revert takes at most 1 + 2k·ceil(log2 n) requests |
| Bisection.HonestCost | crates/quote/src/rpc.rs:193-265 | an attempt costs at most 2 + 2k·ceil(log2 n) requests, whether it succeeds or fails on the way |
| Bisection.CostAtLeast | crates/quote/src/rpc.rs:231-265 | bisecting any n targets of which some revert takes at least 1 + 2·floor(log2 n) requests |
| Bisection.WithinLogExactly | crates/quote/src/rpc.rs:238-265 | a successful attempt stays within ceil(log2 n) requests exactly when n > 1 and no target reverts |
| Bisection.SingleRevertCost | crates/quote/src/rpc.rs:231-265 | one reverting target among 2^m costs exactly 1 + 2m requests of the bisection |
| Bisection.CeilLog2IsLeast | crates/quote/src/rpc.rs:238-239 | the logarithm of the cost bounds is the least power of two that covers n |
| Bisection.AttemptIsExact | crates/quote/src/rpc.rs:182-292 | on an honest endpoint every slot of a successful attempt is what the chain holds for its own target: the value, NonExistent, the revert's text, or that it could not be decoded; and on a reliable endpoint every attempt succeeds |
| BatchQuote.QuoteChunk | crates/quote/src/rpc.rs:412-442 | a chunk is served entirely by the first provider whose attempt succeeds; if all fail, every slot reports every provider's error in order; and the requests made are those of one attempt per provider asked |
| BatchQuote.ChunkCost | crates/quote/src/rpc.rs:412-442 | serving a chunk of n targets takes at most 2n requests per provider, for any endpoints |
| BatchQuote.HonestChunkCost | crates/quote/src/rpc.rs:412-442 | on a consistent chain a chunk takes at most 2 + 2k·ceil(log2 n) requests per provider that was asked, failover included |
| BatchQuote.QuoteGroup | crates/quote/src/rpc.rs:405-446 | the targets of one raindex are tiled by chunks of the given size, each served on its own by the recorded attempts |
| BatchQuote.ChunkBounds | crates/quote/src/rpc.rs:405-411 | chunk c of a group starts at target c·size and has size targets, unless the group ends before |
| BatchQuote.GroupByRaindex | crates/quote/src/rpc.rs:392-403 | the groups partition the targets by raindex, each in input order with its own positions |
| BatchQuote.ScatterGroups | crates/quote/src/rpc.rs:448-455 | every group's results land at the positions of its targets, and no slot is left empty |
| BatchQuote.BatchQuoteWithProviders | crates/quote/src/rpc.rs:382-456 | for any endpoints: always one slot per target, and every chunk of every raindex is served, or fails, on its own, by the recorded attempts of that chunk |
| BatchQuote.BatchCost | crates/quote/src/rpc.rs:382-456 | the recorded attempts of a batch make at most 2·targets·providers requests, for any endpoints |
| BatchQuote.BatchQuote | crates/quote/src/rpc.rs:309-380 | always one slot per target, over the usable RPCs; without any usable one nothing is requested and every slot explains why; and at most 2·targets·providers requests |
| BatchQuote.ProvidersAreUsable | crates/quote/src/rpc.rs:341-357 | the providers are exactly the RPCs that could be connected to, in the configured order, each under its own URL |
| BatchQuote.SetupFailuresAreOthers | crates/quote/src/rpc.rs:341-357 | the setup failures are exactly the other RPCs, in the configured order, each with its own URL and reason |
| BatchQuote.ChunkIsExact | crates/quote/src/rpc.rs:414-439 | on a consistent chain a served chunk holds exactly its targets' own quotes |
| BatchQuote.BatchIsExact | crates/quote/src/rpc.rs:309-456 | if every usable RPC that answers reports one chain and one of them always answers: for every chunk size, every mix of raindexes and all failures along the way, slot i is what the chain holds for target i |
| QuoteSpecs.FindDetail | crates/quote/src/quote.rs:231-237 | the first listed order with the id, and only that one, decides about a specification |
| QuoteSpecs.Expand | crates/quote/src/quote.rs:289-302 | slot i is NonExistent without a target, and otherwise the result of its own target; the queue never runs dry |
| QuoteSpecs.DoQuote | crates/quote/src/quote.rs:260-305 | a subgraph failure is returned as it is; otherwise one slot per specification over one batch of the targets found |
| QuoteSpecs.SpecsAreExact | crates/quote/src/quote.rs:260-305 | on a consistent chain slot i is what the chain holds for the first listed order with specification i's id, its own two indexes and contexts, or NonExistent without such an order, wherever the gaps are |
| CollectBounded.RunAll | crates/quote/src/oracle.rs:360-382 | the futures complete exactly as some run of the pool lets them complete, each with its own output, until none is in flight |
| CollectBounded.PoolInvariant | crates/quote/src/oracle.rs:369-382 | in every run and after every k completions the futures are partitioned into completed, in flight and pending, and exactly min(limit, n − k) are in flight |
| CollectBounded.PoolEnds | crates/quote/src/oracle.rs:369-382 | with a positive limit a run can always go on until all n futures have completed, and ends after n completions |
| CollectBounded.SortIsDetermined | crates/quote/src/oracle.rs:384-385 | an unstable sort of distinct indexes below n leaves no freedom: entry k ends at place k |
| CollectBounded.Collect | crates/quote/src/oracle.rs:360-387 | whatever run the pool takes, output i is the output of future i at the moment the run completed it; futures that do not depend on time always give the same list |
| OracleSemaphores.InvHolds | crates/quote/src/oracle.rs:188-216 | in every reachable state strong counts and permits match the requests that hold them, and every live semaphore is registered under its own origin or about to be |
| OracleSemaphores.OneSemaphorePerOrigin | crates/quote/src/oracle.rs:188-204 | in every reachable state of any interleaving each origin has at most one live semaphore |
| OracleSemaphores.AtMostEightInFlight | crates/quote/src/oracle.rs:188-216 | at most eight requests are in flight to one origin at any time |
| OracleSemaphores.NothingLeaks | crates/quote/src/oracle.rs:206-216 | when no request is under way every semaphore is dead and has all eight permits back |
| OracleSemaphores.LookupCanContinue | crates/quote/src/oracle.rs:188-204 | whoever holds the registry lock can always take its next step |
| OracleSemaphores.LookupEnds | crates/quote/src/oracle.rs:188-204 | every step of a lookup brings it closer to waiting on a semaphore of its origin |
| OracleSemaphores.ScanDropsDead | crates/quote/src/oracle.rs:190-193 | a lookup removes a registry entry exactly if it finds its semaphore dead |
| OracleSemaphores.BeginExactly | crates/quote/src/oracle.rs:188-190 | a lookup can begin exactly when no other one is under way |
| OracleSemaphores.AcquireExactly | crates/quote/src/oracle.rs:206-216 | in every reachable state a waiting request may go exactly while fewer than eight requests are in flight to its origin |
| OracleSemaphores.LeavingIsFree | crates/quote/src/oracle.rs:206-216 | a request in flight can always return its permit, and a waiting or leaving one drop its reference |
| OracleSemaphores.SharedSemaphore | crates/quote/src/oracle.rs:188-216 | all requests to one origin that hold a semaphore hold the same one |
| RateLimiting.RateLimiter.constructor | crates/rest_api/src/fairings.rs:121-128 | a new limiter has an empty history |
| RateLimiting.Prune | crates/rest_api/src/fairings.rs:194-198 | the leading instants before the cutoff are gone, and nothing else |
| RateLimiting.RetainRecent | crates/rest_api/src/fairings.rs:140-143 | the cleanup keeps exactly the queues with a recent admission, pruned |
| RateLimiting.RateLimiter.Refresh | crates/rest_api/src/fairings.rs:135-148 | pruning and the periodic cleanup change nothing that a decision from now on can see, and keep the number of queues bounded |
| RateLimiting.RateLimiter.Check | crates/rest_api/src/fairings.rs:130-191 | the decision is the reference decision on the full history, refusals consume nothing, and limit, remaining and reset are those of the reported window: the reset time is the whole seconds until its oldest admission is 60 seconds old |
| RateLimiting.RecentIsCount | crates/rest_api/src/fairings.rs:146-149 | on a monotone clock the length of a pruned queue is the number of admissions in the last 60 seconds |
| RateLimiting.WindowSafety | crates/rest_api/src/fairings.rs:130-191 | no closed 60-second interval holds more admissions of one IP, or in all, than the enabled limits |
| RateLimiting.LimitFrees | crates/rest_api/src/fairings.rs:146-186 | a reached limit has room again exactly when more than 60 seconds have passed since its oldest admission in the window |
| RateLimiting.RefusalReset | crates/rest_api/src/fairings.rs:158-192 | after a refusal and no other check, the reported limit has no room yet when the reported seconds until reset have passed, and has room one second later |
| RateLimiting.TrackedIpsBound | crates/rest_api/src/fairings.rs:138-169 | with a global limit, or with no limit at all, never more than the global limit + 1024 IPs are tracked, and never more than the global limit of admissions are kept |
| RateLimiting.ActiveIpsAreTracked | crates/rest_api/src/fairings.rs:138-169 | with a limit per IP every IP with an admission in the window is tracked |
| RateLimiting.TrackEachIp | crates/rest_api/src/fairings.rs:138-169 | with a limit per IP alone there is no constant bound: any number of IPs can come to be tracked |
| PairSweep.PreparePairs | crates/quote/src/order_quotes.rs:242-335 | exactly the wanted pairs of the listed orders are prepared, in order of order, input and output, each with its own order, raindex, two indexes, name and oracle URL; or the first undecodable order's error is returned; and there is one oracle batch per URL holding its pairs in order |
| PairSweep.DecodedParts | crates/quote/src/order_quotes.rs:248-251 | either all orders decode to their own parts, or the error is that of the first one that does not, its bytes before its raindex |
| PairSweep.SymbolIs | crates/quote/src/order_quotes.rs:268-297 | a token's symbol is that of the first listed vault with the token, or UNKNOWN |
| PairSweep.AddToBatch | crates/quote/src/order_quotes.rs:316-332 | the URL index always agrees with the batch list |
| PairSweep.PreparedIsEnumeration | crates/quote/src/order_quotes.rs:248-335 | what is prepared is the nested enumeration of the wanted pairs, nothing more and in that order |
| PairSweep.SweepIsUnique | crates/quote/src/order_quotes.rs:248-335 | only one list has exactly the wanted pairs in sweep order |
| OrderQuotes.FetchBatch | crates/quote/src/oracle.rs:323-353 | a batch answer has one item per query, or the whole batch fails |
| OrderQuotes.FetchBatches | crates/quote/src/order_quotes.rs:337-395 | every batch gets the answer to its own URL and queries, in batch order |
| OrderQuotes.QueryAtRank | crates/quote/src/order_quotes.rs:339-359 | a pair's query stands at the pair's own place in the body posted to its URL |
| OrderQuotes.ScatterAnswers | crates/quote/src/order_quotes.rs:396-413 | every pair with an oracle finds that oracle's answer for itself in its slot, so no slot is missing |
| OrderQuotes.BuildTargets | crates/quote/src/order_quotes.rs:429-502 | pairs whose oracle failed get their failure at once; all others leave a hole and go on with contexts [oracle, injected] |
| OrderQuotes.FillHoles | crates/quote/src/order_quotes.rs:534-591 | every hole is filled by its own pair's quote, and no slot stays empty |
| OrderQuotes.GetOrderQuotes | crates/quote/src/order_quotes.rs:188-605 | one response per wanted pair in sweep order, or the first early failure; whatever endpoints and oracles do, each response holds the quote of exactly its pair's order and two indexes with the contexts sent, or its oracle's failure |
| OrderQuotes.ResponseIs | crates/quote/src/order_quotes.rs:337-605 | how a response follows from the listed orders, the body posted to the pair's oracle, the oracle's answer to the pair's own entry in it, and the batch of quotes |
| OrderQuotes.BodyIs | crates/quote/src/order_quotes.rs:339-359 | the body posted to a URL asks about exactly its pairs, in sweep order, each by its order and two indexes |
| OrderQuotes.ResponseTellsChain | crates/quote/src/order_quotes.rs:429-605 | on a consistent chain a response tells what the chain holds for exactly its pair's order, two indexes and contexts |
| OrderQuotes.GetOrderQuotesForPairs | crates/quote/src/order_quotes.rs:161-186 | a selection of the wrong length is refused; otherwise the sweep of the selected pairs |
| OrderQuotes.SweepIsDirect | crates/quote/src/order_quotes.rs:429-605 | on a consistent chain every response is what the pair gets when quoted alone, and it succeeds exactly when its oracle item and its quote do |
| OrderQuotes.SweepEqualsDirect | crates/quote/src/order_quotes.rs:188-605 | on a consistent chain the whole result is the direct list: the wanted pairs in nested order, each quoted alone with its own oracle answer; or the first early failure |
| OrderQuotes.ItemIsOwnAnswer | crates/quote/src/order_quotes.rs:337-413 | from an oracle that answers query by query, a pair gets the answer to its own query, whatever is batched with it |
| OrderQuotes.DirectIsAlone | crates/quote/src/order_quotes.rs:188-605 | with such oracles every response is a function of its own pair alone |
| Ledger.Subgraph.GetVault | subgraph/src/vault.ts:18-47 | a missing vault is created empty under its own id, its token is registered, and nothing else changes |
| Ledger.Subgraph.HandleVaultBalanceChange | subgraph/src/vault.ts:54-72 | the balance moves by the amount; old and new balance are returned |
| Ledger.Subgraph.PostTradeChange | subgraph/src/tradevaultbalancechange.ts:15-40 | updating a vault and then saving a record that recomputes the new balance is one posting: record and vault agree |
| Ledger.Subgraph.HandleDeposit | subgraph/src/deposit.ts:11-66 | a deposit of a token with known decimals is one posting; others leave the vaults alone |
| Ledger.Subgraph.HandleWithdraw | subgraph/src/withdraw.ts:9-46 | a withdrawal is one negative posting, although its record subtracts |
| Ledger.Subgraph.HandleAddOrder | subgraph/src/order.ts:26-61 | an order opens its vaults and posts nothing |
| Ledger.Subgraph.HandleTakeOrder | subgraph/src/takeorder.ts:18-83 | the output vault is debited, then the input vault is credited |
| Ledger.Subgraph.HandleClear | subgraph/src/clear.ts:230-274 | both orders' hashes and owners, their selected inputs and outputs and the bounty vaults wait under raindex and transaction |
| Ledger.Subgraph.CreateTrade | subgraph/src/clear.ts:44-96 | the input is posted first, then the output |
| Ledger.Subgraph.PostBounty | subgraph/src/clear.ts:133-217 | a positive remainder is posted to the sender's bounty vault, any other is not |
| Ledger.Subgraph.HandleAfterClear | subgraph/src/clear.ts:276-313 | alice, bob and the bounties are posted with the waiting data, which is then removed; without data nothing happens |
| Ledger.Index | subgraph/src/handlers.ts:26-72 | handling a log event by event gives the store that the specification gives for the whole log; removed orders and order metadata leave it alone |
| LedgerProofs.AuditTrail | subgraph/src/vault.ts:54-72 | for every vault after every log: records start at 0, each starts where the previous one ended, the last one ends at the stored balance, which is the sum of the recorded amounts |
| LedgerProofs.PendingIsWaiting | subgraph/src/clear.ts:230-307 | the stored temporary data is that of the last Clear of the raindex and transaction, unless an AfterClear has followed it |
| LedgerProofs.AfterClearFindsItsClear | subgraph/src/clear.ts:276-312 | an AfterClear uses the data of the nearest earlier Clear unless another AfterClear came between; the not-found branch is taken in exactly the other cases |
| LedgerProofs.NoDataLeftBehind | subgraph/src/clear.ts:230-307 | no temporary data remains exactly when every Clear is followed by an AfterClear of its raindex and transaction |
| LedgerProofs.NestedClearIsLost | subgraph/src/clear.ts:18-22 | when a Clear follows a Clear of its raindex and transaction, whatever else lies in between, it overwrites the first one's data; the next AfterClear gets the second one's, and then nothing is left |
| LedgerProofs.DataWaitsExactly | subgraph/src/clear.ts:230-312 | for every event of a log: data waits under its raindex and transaction exactly when the nearest earlier Clear or AfterClear of them is a Clear |
| LedgerProofs.OrderlyExactly | subgraph/src/clear.ts:230-312 | every AfterClear finds data and no Clear overwrites any exactly when the two alternate, starting with a Clear |
| LedgerProofs.EveryClearIsPosted | subgraph/src/clear.ts:230-312 | in such a log that leaves nothing behind, the next AfterClear after a Clear is processed with exactly its data |
| LedgerProofs.SameVaultId | subgraph/src/vault.ts:8-16 | a vault id determines raindex, owner, token and vault id |
| LedgerTotals.Conservation | subgraph/src/vault.ts:54-72 | for every log and token of a raindex the vault balances sum to deposits − withdrawals + take outputs − take inputs + what clears moved |
| LedgerTotals.ClearIsNeutral | subgraph/src/clear.ts:154-228 | a clear of matching orders moves nothing in or out exactly when both outputs cover the other side's input, wherever the bounties go and whether or not the tokens differ |
| LedgerTotals.FairConservation | subgraph/src/clear.ts:44-228 | with such clears only deposits, withdrawals and takes count |
| LedgerEffects.DepositMoves | subgraph/src/deposit.ts:11-66 | a deposit moves exactly the depositor's vault for the token, by the amount in whole tokens |
| LedgerEffects.WithdrawMoves | subgraph/src/withdraw.ts:9-21 | a withdrawal takes the amount out of exactly the owner's vault |
| LedgerEffects.TakeMoves | subgraph/src/takeorder.ts:18-80 | a take moves exactly the order owner's two vaults: the selected output loses the taker's input, the selected input gains the taker's output |
| LedgerEffects.ClearMoves | subgraph/src/clear.ts:44-313 | a clear moves exactly Alice's and Bob's selected vaults by what each took and gave, and the sender's bounty vaults by what is left over, with the vaults named by its own Clear event |
| LedgerEffects.LoneAfterClearMovesNothing | subgraph/src/clear.ts:308-312 | an AfterClear that no Clear precedes moves nothing |
| LedgerEffects.OthersMoveNothing | subgraph/src/handlers.ts:44-66 | orders, their removal and metadata, and a Clear by itself move nothing |
| LedgerEffects.DepositRecord | subgraph/src/deposit.ts:46-66 | what a deposit records, and under which id |
| LedgerEffects.WithdrawRecord | subgraph/src/withdraw.ts:23-46 | what a withdrawal records, and under which id |
| LedgerEffects.TakeRecords | subgraph/src/takeorder.ts:18-83 | what a take records: two changes of the order's own trade, output first |
| LedgerEffects.ClearRecords | subgraph/src/clear.ts:44-313 | what a clear records: two changes for each order under that very order's trade, input first, and one for each positive bounty |
| LedgerEffects.AddOrderOpens | subgraph/src/order.ts:31-55 | an order opens exactly the vaults of its inputs and outputs for its sender, and changes no balance |
| LedgerEffects.TokensAreKnown | subgraph/src/vault.ts:18-36 | every vault's token is known by what its contract answers |
| LedgerRecords.TrailIsJournal | subgraph/src/tradevaultbalancechange.ts:15-40 | the records of a log are its postings, one for one and in order |
| LedgerRecords.SameRecordId | subgraph/src/tradevaultbalancechange.ts:7-13 | ids of one table agree only for the same event and, for trade changes and bounties, the same vault |
| LedgerRecords.RecordsKeptApart | subgraph/src/tradevaultbalancechange.ts:7-26 | no record of a log overwrites another exactly when no event trades twice on one vault |
| LedgerOnChain.OnChainConservation | src/concrete/raindex/RaindexV7.sol:594-674 | if every event obeys the contract's rules on clears, only deposits, withdrawals and takes count in the totals |
| LedgerOnChain.OnChainRecordsKeptApart | src/concrete/raindex/RaindexV7.sol:594-611 | if every event obeys the contract's rules on owners and tokens, no record overwrites another |
| FixedPoint.MulDivIsFloor | crates/math/src/lib.rs:67-77 | for every word size: mul_div is the floor of the exact quotient and fails exactly for divisor 0 or a quotient that does not fit a word |
| FixedPoint.DecimalFloor | crates/math/src/lib.rs:79-87 | mul_18 and div_18 are the floors of the exact results at 18 decimals, and fail exactly when those do not fit a word or the divisor is 0 |
| FixedPoint.WordLimit | crates/math/src/lib.rs:67-77 | the source's words end at 2^256 |
| FixedPoint.WideProductFits | crates/math/src/lib.rs:69-71 | the intermediate product never overflows two words |
| FixedPoint.MulThenDiv | crates/math/src/lib.rs:79-87 | div_18 after mul_18 succeeds, never gains, and loses less than (10^18 + b)/b |
| FixedPoint.LargestPower | crates/math/src/lib.rs:43-56 | 10^77 is the largest power of ten that fits 256 bits, so the conditions below mean k ≤ 77 |
| FixedPoint.DownAfterUp | crates/math/src/lib.rs:43-56 | scaling up is exact or an overflow, and scaling down undoes it, whenever 10^k fits a word |
| FixedPoint.UpAfterDown | crates/math/src/lib.rs:43-56 | scaling up after scaling down never gains and loses less than 10^k |
| FixedPoint.DownTwice | crates/math/src/lib.rs:50-56 | two steps of scaling down are one |
| FixedPoint.Scale18Meaning | crates/math/src/lib.rs:58-65 | bringing a value to 18 decimals is exact from below and the floor from above |
| FixedPoint.ScaleUpIsExact | crates/math/src/lib.rs:43-48 | scaling up multiplies by 10^k for every value it accepts exactly when 10^k fits a word |
| FixedPoint.ScaleDownIsExact | crates/math/src/lib.rs:50-56 | scaling down divides every value by 10^k exactly when 10^k fits a word |
| BlockRange.SerializeText | crates/settings/src/blocks.rs:53-74 | appending piece by piece writes the start, two dots and the end |
| BlockRange.RangeTexts | crates/settings/src/blocks.rs:117-131 | a text is a range exactly when it is two block texts around two dots, and then it means those blocks |
| BlockRange.BlockTexts | crates/settings/src/blocks.rs:117-131 | an empty block text is the default; any other one is a number exactly if it is digits after an optional plus sign whose value fits 64 bits, and then it is that value |
| BlockRange.NumberTexts | crates/settings/src/blocks.rs:53-74 | a number is printed as the digits of its value, without leading zeros |
| BlockRange.PrintThenParse | crates/settings/src/blocks.rs:52-131 | a range survives printing and parsing exactly when its start is not Latest and its end is not Genesis |
| BlockRange.ParseThenPrint | crates/settings/src/blocks.rs:117-131 | every range that parsing produces survives |
| BlockRange.Expand | crates/settings/src/blocks.rs:150-173 | the blocks are the progression from start by interval up to end, with Genesis as block 0 and Latest as the latest one, unless the range is invalid, the interval is 0 (the cursor never passes the end), or the step past the last block leaves 64 bits |
| BlockRange.EndlessExactly | crates/settings/src/blocks.rs:159-164 | on a valid range the loop never passes the end exactly when the interval is 0 |
| BlockRange.ProgressionShape | crates/settings/src/blocks.rs:155-164 | the progression has (end − start)/interval + 1 members, the i-th being start + i·interval |

## Left out

- HTTP, JSON-RPC, ABI and CBOR encoding, provider construction and timeouts: an endpoint is what it answers; a timeout is one of
  the answers.
- The wording of error messages: failures keep the data that the messages are built from.
- The wasm variants: `batch_quote` there fails on the first error; the natively unreachable branch for a failed batch in
  `get_order_quotes_inner` is left out with them.
- Resolving the latest block number: the sweep takes the result as a parameter.
- Concurrency between raindex groups: groups run one after the other, with endpoints that may answer anything at any moment.
- Oracle URL validation and the query parameter added to it: part of what an endpoint answers.
- Poisoned locks: the semaphore registry ignores poisoning and the limiter turns it into an internal error.
- The wrap-around of the limiter's check counter after 2^64 checks: it only moves the next cleanup.
- The wall clock: the reset time is relative to a given Unix time, in whole seconds as the source truncates it.
- Decimal float rounding and overflow, and token contracts that change their decimals.
- The subgraph's Trade, TakeOrder, Clear, Order and Transaction entities: they copy fields and take no part in balances.
- Out-of-range IO indexes in events: the chain only logs indexes it has used, so the handlers require them in range.
- The 256-bit power of the arithmetic library: it is taken to wrap around; the library is not part of this model.
- BlockRange.Expand: the outcome for interval 0 stands for a loop that never ends, and the overflow outcome for where the source
  panics in a checked build; neither is a value the source returns.
- Reading block ranges from YAML sequences: the pieces are concatenated and parsed as one text.
- Retry helpers, YAML settings, generated schema classes, bindings, CLI and user interface: nothing above needs them.
