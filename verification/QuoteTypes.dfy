/** Quote targets, quote results, RPC endpoints, and what one multicall answer means. */
module QuoteTypes {
  import opened Common

  type Address = nat

  datatype IO = IO(token: Address, vaultId: nat)

  datatype Order = Order(owner: Address, validInputs: seq<IO>, validOutputs: seq<IO>, evaluable: nat, nonce: nat)

  datatype SignedContext = SignedContext(signer: Address, context: seq<nat>)

  datatype QuoteConfig = QuoteConfig(order: Order, inputIOIndex: nat, outputIOIndex: nat,
                                     signedContext: seq<SignedContext>)

  datatype QuoteTarget = QuoteTarget(raindex: Address, quoteConfig: QuoteConfig)

  /** The two raw float words of a quote. */
  datatype QuoteValue = QuoteValue(maxOutput: nat, ratio: nat)

  /** Failures keep the data their messages are built from; the wording is not modelled. `RevertError` carries the
      decoded error's text, `RevertErrorDecodeFailed` the decoder's complaint. */
  datatype FailedQuote =
    | NonExistent
    | RevertError(text: string)
    | CorruptReturnData(corruption: Corruption)
    | RevertErrorDecodeFailed(reason: string)

  datatype Corruption =
    | ElementUndecodable(reason: string)
    | RevertUndecodable
    | AfterChunkSplit(error: Error)
    | AllRpcsFailed(failures: seq<RpcFailure>)
    | NoRpcsConfigured

  /** One provider's contribution to "all quote RPCs failed". */
  datatype RpcFailure = SetupFailure(url: string, reason: string) | AttemptFailure(url: string, error: Error)

  datatype Error =
    | TransportError(transport: Transport)
    | SolTypesError(reason: SolTypesReason)
    | ChunkReverted(failed: FailedQuote)
    | OrderDetailError(detail: string)
    | FromHexError(detail: string)
    | SubgraphClientError(detail: string)
    | PairSelectionLengthMismatch(expected: nat, actual: nat)

  datatype Transport = NoRevertData(text: string) | ProviderError(text: string) | AttemptTimedOut

  datatype SolTypesReason = MulticallUndecodable(reason: string) | LengthMismatch(expected: nat, actual: nat)

  type QuoteResult = Result<QuoteValue, FailedQuote>

  type ChunkResult = Result<seq<QuoteResult>, Error>

  /** One element of a decoded multicall answer. */
  datatype Element = Quote3(found: bool, value: QuoteValue) | Garbled(reason: string)

  /** What the provider hands back for one `eth_call`. */
  datatype RpcResponse =
    | Returned(elements: seq<Element>)
    | Undecodable(reason: string)
    | RevertData(decoded: Result<string, string>)
    | ErrorWithoutRevert(text: string)
    | Failure(text: string)
    | TimedOut

  /** An endpoint answers a multicall over a slice of targets. The first argument is the moment of the request, so an
      endpoint may answer the same slice differently every time it is asked. */
  type Endpoint = (nat, seq<QuoteTarget>) -> RpcResponse

  datatype Provider = Provider(url: string, endpoint: Endpoint)

  predicate OneRaindex(targets: seq<QuoteTarget>) {
    forall i, j :: 0 <= i < |targets| && 0 <= j < |targets| ==> targets[i].raindex == targets[j].raindex
  }

  function ElementResult(element: Element): QuoteResult {
    match element
    case Quote3(true, value) => Ok(value)
    case Quote3(false, _) => Err(NonExistent)
    case Garbled(reason) => Err(CorruptReturnData(ElementUndecodable(reason)))
  }

  function DecodedRevert(decoded: Result<string, string>): FailedQuote {
    match decoded
    case Ok(text) => RevertError(text)
    case Err(reason) => RevertErrorDecodeFailed(reason)
  }

  /** What an answer to a multicall over `n` targets means to the quoter. */
  function Interpret(response: RpcResponse, n: nat): (r: ChunkResult)
    ensures r.Ok? ==> |r.value| == n
  {
    match response
    case Returned(elements) =>
      if |elements| == n then Ok(seq(n, i requires 0 <= i < n => ElementResult(elements[i])))
      else Err(SolTypesError(LengthMismatch(n, |elements|)))
    case Undecodable(reason) => Err(SolTypesError(MulticallUndecodable(reason)))
    case RevertData(decoded) => Err(ChunkReverted(DecodedRevert(decoded)))
    case ErrorWithoutRevert(text) => Err(TransportError(NoRevertData(text)))
    case Failure(text) => Err(TransportError(ProviderError(text)))
    case TimedOut => Err(TransportError(AttemptTimedOut))
  }

  function SingleQuoteFailure(err: Error): QuoteResult {
    Err(CorruptReturnData(AfterChunkSplit(err)))
  }

  function ChunkErrToQuoteResult(err: Error): QuoteResult {
    match err
    case ChunkReverted(RevertErrorDecodeFailed(_)) => Err(CorruptReturnData(RevertUndecodable))
    case ChunkReverted(failed) => Err(failed)
    case other => SingleQuoteFailure(other)
  }

  // ----- what the quoter owes its callers, answer by answer

  /** An element with the flag set is its own value, one without it a missing order, and a garbled one says so. */
  ghost predicate IsElement(q: QuoteResult, element: Element) {
    match element
    case Quote3(found, value) => q == if found then Ok(value) else Err(NonExistent)
    case Garbled(reason) => q == Err(CorruptReturnData(ElementUndecodable(reason)))
  }

  /** The revert of a single target: its text, or that nobody could decode it. */
  ghost predicate IsRevert(q: QuoteResult, decoded: Result<string, string>) {
    match decoded
    case Ok(text) => q == Err(RevertError(text))
    case Err(_) => q == Err(CorruptReturnData(RevertUndecodable))
  }

  /** Any other answer to a multicall over `n` targets is a failure of the endpoint. */
  ghost predicate IsFailure(error: Error, response: RpcResponse, n: nat) {
    match response
    case Returned(elements) => |elements| != n && error == SolTypesError(LengthMismatch(n, |elements|))
    case Undecodable(reason) => error == SolTypesError(MulticallUndecodable(reason))
    case RevertData(_) => false
    case ErrorWithoutRevert(text) => error == TransportError(NoRevertData(text))
    case Failure(text) => error == TransportError(ProviderError(text))
    case TimedOut => error == TransportError(AttemptTimedOut)
  }

  // ----- consistent chains

  /** What the chain holds for one target: its own multicall element, or its own revert. */
  datatype TargetState = Answers(element: Element) | Reverts(decoded: Result<string, string>)

  type Chain = QuoteTarget -> TargetState

  /** The quote one target gets when it is quoted on its own. */
  function QuoteOne(chain: Chain, target: QuoteTarget): QuoteResult {
    match chain(target)
    case Answers(element) => ElementResult(element)
    case Reverts(decoded) => ChunkErrToQuoteResult(ChunkReverted(DecodedRevert(decoded)))
  }

  /** What a caller is told about a target in this state. */
  ghost predicate IsQuoteOf(q: QuoteResult, state: TargetState) {
    match state
    case Answers(element) => IsElement(q, element)
    case Reverts(decoded) => IsRevert(q, decoded)
  }

  predicate AnyReverts(chain: Chain, targets: seq<QuoteTarget>) {
    exists i :: 0 <= i < |targets| && chain(targets[i]).Reverts?
  }

  /** A multicall over consistent state: the first reverting call's revert bubbles up; otherwise every call answers. */
  function ChainResponse(chain: Chain, targets: seq<QuoteTarget>): RpcResponse {
    if AnyReverts(chain, targets) then RevertData(FirstRevert(chain, targets))
    else Returned(seq(|targets|, i requires 0 <= i < |targets| =>
      if chain(targets[i]).Answers? then chain(targets[i]).element else Garbled([])))
  }

  function FirstRevert(chain: Chain, targets: seq<QuoteTarget>): Result<string, string>
    requires AnyReverts(chain, targets)
  {
    if chain(targets[0]).Reverts? then chain(targets[0]).decoded else FirstRevert(chain, targets[1..])
  }

  /** On consistent state the first reverting target's revert is what bubbles up. */
  lemma {:induction false} FirstRevertIsFirst(chain: Chain, targets: seq<QuoteTarget>) returns (i: nat)
    requires AnyReverts(chain, targets)
    ensures i < |targets| && forall j :: 0 <= j < i ==> chain(targets[j]).Answers?
    ensures chain(targets[i]).Reverts? && ChainResponse(chain, targets) == RevertData(chain(targets[i]).decoded)
  {
    if chain(targets[0]).Reverts? {
      i := 0;
    } else {
      var k :| 0 <= k < |targets| && chain(targets[k]).Reverts?;
      assert targets[1..][k - 1] == targets[k];
      var rest := FirstRevertIsFirst(chain, targets[1..]);
      i := rest + 1;
      assert forall j :: 0 < j < i ==> targets[j] == targets[1..][j - 1];
    }
  }

  /** Without a revert every target answers for itself, in its own place. */
  lemma {:induction false} ChainAnswers(chain: Chain, targets: seq<QuoteTarget>)
    requires forall i :: 0 <= i < |targets| ==> chain(targets[i]).Answers?
    ensures ChainResponse(chain, targets).Returned? && |ChainResponse(chain, targets).elements| == |targets|
    ensures forall i :: 0 <= i < |targets| ==>
      chain(targets[i]) == Answers(ChainResponse(chain, targets).elements[i])
  {
  }

  /** Whenever the endpoint reports on the chain at all, it reports `chain`; it may fail at any time instead. */
  ghost predicate Honest(endpoint: Endpoint, chain: Chain) {
    forall m: nat, s: seq<QuoteTarget> | |s| > 0 && OneRaindex(s) ::
      endpoint(m, s) == ChainResponse(chain, s) || FailsOutright(endpoint(m, s), |s|)
  }

  /** The endpoint always reports `chain`. */
  ghost predicate Reliable(endpoint: Endpoint, chain: Chain) {
    forall m: nat, s: seq<QuoteTarget> | |s| > 0 && OneRaindex(s) :: endpoint(m, s) == ChainResponse(chain, s)
  }

  /** An endpoint that simply answers from the chain is reliable, and so honest. */
  lemma {:induction false} SomeEndpointIsReliable(chain: Chain) returns (endpoint: Endpoint)
    ensures Reliable(endpoint, chain) && Honest(endpoint, chain)
  {
    endpoint := (moment, targets) => ChainResponse(chain, targets);
  }

  predicate FailsOutright(response: RpcResponse, n: nat) {
    var r := Interpret(response, n);
    r.Err? && !r.error.ChunkReverted?
  }
}
