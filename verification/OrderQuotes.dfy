/** Quoting the pairs of an order list: oracle contexts first, then one batch of quotes, then one response per pair. */
module OrderQuotes {
  import opened Common
  import opened Positions
  import opened QuoteTypes
  import opened BatchQuote
  import opened PairSweep
  import CollectBounded
  import OracleSemaphores

  datatype OracleFailure =
    | ClientFailed(reason: string)
    | PostFailed(reason: string)
    | WrongCount(expected: nat, actual: nat)
    | ItemFailed(reason: string)
    | MissingSlot

  datatype OracleQuery = OracleQuery(order: Order, inputIndex: nat, outputIndex: nat)

  /** What an oracle endpoint answers to one POST. */
  datatype OracleReply =
    | RequestFailed(reason: string)
    | Envelope(items: seq<Result<SignedContext, string>>)
    | Legacy(contexts: seq<SignedContext>)

  /** The oracles: whether a client can be built at all, and what each URL answers to a body. */
  datatype Oracles = Oracles(clientError: Option<string>, post: (string, seq<OracleQuery>) -> OracleReply)

  type Item = Result<SignedContext, OracleFailure>

  type BatchAnswer = Result<seq<Item>, OracleFailure>

  datatype QuoteError =
    | OracleFetchFailed(inputIndex: nat, outputIndex: nat, failure: OracleFailure)
    | Failed(failed: FailedQuote)

  datatype Response = Response(pair: Pair, blockNumber: nat, data: Option<QuoteValue>, success: bool,
                               error: Option<QuoteError>, signedContext: seq<SignedContext>)

  /** Extra contexts that the caller contributes for a pair. */
  type Injector = (Order, nat, nat) -> seq<SignedContext>

  // ----- specification

  function ItemOf(item: Result<SignedContext, string>): Item {
    match item
    case Ok(context) => Ok(context)
    case Err(reason) => Err(ItemFailed(reason))
  }

  /** One POST: the reply has to have one item per query. */
  function FetchBatch(oracles: Oracles, url: string, queries: seq<OracleQuery>): (r: BatchAnswer)
    ensures r.Ok? ==> |r.value| == |queries|
  {
    match oracles.post(url, queries)
    case RequestFailed(reason) => Err(PostFailed(reason))
    case Envelope(items) =>
      if |items| == |queries| then Ok(seq(|items|, i requires 0 <= i < |items| => ItemOf(items[i])))
      else Err(WrongCount(|queries|, |items|))
    case Legacy(contexts) =>
      if |contexts| == |queries| then Ok(seq(|contexts|, i requires 0 <= i < |contexts| => Ok(contexts[i])))
      else Err(WrongCount(|queries|, |contexts|))
  }

  function QueryOf(p: Preparation): OracleQuery {
    OracleQuery(p.target.quoteConfig.order, p.pair.inputIndex, p.pair.outputIndex)
  }

  /** The queries of all pairs of a URL, in sweep order. */
  function QueriesTo(preps: seq<Preparation>, url: string): (r: seq<OracleQuery>)
    ensures |r| == |PositionsOf(Urls(preps), Some(url))|
  {
    var ps := PositionsOf(Urls(preps), Some(url));
    assert forall j :: 0 <= j < |ps| ==> ps[j] in ps;
    seq(|ps|, j requires 0 <= j < |ps| => QueryOf(preps[ps[j]]))
  }

  function AnswerFor(oracles: Oracles, preps: seq<Preparation>, url: string): (r: BatchAnswer)
    ensures r.Ok? ==> |r.value| == |PositionsOf(Urls(preps), Some(url))|
  {
    if oracles.clientError.Some? then Err(ClientFailed(oracles.clientError.value))
    else FetchBatch(oracles, url, QueriesTo(preps, url))
  }

  /** What an answer says about its query number `j`; a failed request fails all of them. */
  function ItemAt(answer: BatchAnswer, j: nat): Item
    requires answer.Ok? ==> j < |answer.value|
  {
    match answer
    case Ok(items) => items[j]
    case Err(failure) => Err(failure)
  }

  /** The oracle's answer for one pair: its own place in the answer to its URL. */
  function ItemFor(oracles: Oracles, preps: seq<Preparation>, t: nat): Item
    requires t < |preps| && preps[t].oracleUrl.Some?
  {
    RankIsInverse(Urls(preps), t);
    ItemAt(AnswerFor(oracles, preps, preps[t].oracleUrl.value), RankOf(Urls(preps), t))
  }

  /** The oracle contexts a pair is quoted with, or why it cannot be. */
  function ContextsFor(oracles: Oracles, preps: seq<Preparation>, t: nat): Result<seq<SignedContext>, OracleFailure>
    requires t < |preps|
  {
    if preps[t].oracleUrl.None? then Ok([])
    else
      match ItemFor(oracles, preps, t)
      case Ok(context) => Ok([context])
      case Err(failure) => Err(failure)
  }

  /** The contexts sent with the quote: the oracle's first, then the injected ones. */
  function Composed(contexts: seq<SignedContext>, p: Preparation, injector: Injector): seq<SignedContext> {
    contexts + injector(p.target.quoteConfig.order, p.pair.inputIndex, p.pair.outputIndex)
  }

  function WithContexts(target: QuoteTarget, contexts: seq<SignedContext>): QuoteTarget {
    target.(quoteConfig := target.quoteConfig.(signedContext := contexts))
  }

  /** Which pairs go on to be quoted. */
  function QuotedFlags(oracles: Oracles, preps: seq<Preparation>): (flags: seq<bool>)
    ensures |flags| == |preps|
  {
    seq(|preps|, t requires 0 <= t < |preps| => ContextsFor(oracles, preps, t).Ok?)
  }

  function TargetFor(oracles: Oracles, injector: Injector, preps: seq<Preparation>, t: nat): QuoteTarget
    requires t < |preps| && ContextsFor(oracles, preps, t).Ok?
  {
    WithContexts(preps[t].target, Composed(ContextsFor(oracles, preps, t).value, preps[t], injector))
  }

  function QuotedPositions(oracles: Oracles, preps: seq<Preparation>): (r: seq<nat>)
    ensures forall j :: 0 <= j < |r| ==> r[j] < |preps| && ContextsFor(oracles, preps, r[j]).Ok?
  {
    var r := PositionsOf(QuotedFlags(oracles, preps), true);
    assert forall j :: 0 <= j < |r| ==> r[j] in r;
    r
  }

  /** The targets of the pairs that go on to be quoted, in sweep order. */
  function QuotedTargets(oracles: Oracles, injector: Injector, preps: seq<Preparation>): (r: seq<QuoteTarget>)
    ensures |r| == |QuotedPositions(oracles, preps)|
  {
    var ps := QuotedPositions(oracles, preps);
    seq(|ps|, j requires 0 <= j < |ps| => TargetFor(oracles, injector, preps, ps[j]))
  }

  function ResponseTo(pair: Pair, block: nat, quote: QuoteResult, contexts: seq<SignedContext>): Response {
    match quote
    case Ok(data) => Response(pair, block, Some(data), true, None, contexts)
    case Err(failed) => Response(pair, block, None, false, Some(Failed(failed)), contexts)
  }

  function OracleFailed(pair: Pair, block: nat, failure: OracleFailure): Response {
    Response(pair, block, None, false, Some(OracleFetchFailed(pair.inputIndex, pair.outputIndex, failure)), [])
  }

  /** The response to pair `t`, given the quotes of the batch. */
  ghost predicate Responds(oracles: Oracles, injector: Injector, preps: seq<Preparation>, block: nat,
                           quotes: seq<QuoteResult>, t: nat, response: Response)
    requires t < |preps|
  {
    match ContextsFor(oracles, preps, t)
    case Err(failure) => response == OracleFailed(preps[t].pair, block, failure)
    case Ok(contexts) =>
      var rank := RankOf(QuotedFlags(oracles, preps), t);
      rank < |quotes| &&
      response == ResponseTo(preps[t].pair, block, quotes[rank], Composed(contexts, preps[t], injector))
  }

  /** What the sweep returns: the first failure in the order of the code, or one response per wanted pair, in sweep
      order, each with its own oracle contexts and its own quote out of one batch. */
  ghost predicate SweepOutcome(orders: seq<SgOrder>, selection: Selection, block: Result<nat, Error>, rpcs: seq<Rpc>,
                               chunkSize: Option<nat>, oracles: Oracles, injector: Injector,
                               r: Result<seq<Response>, Error>, coords: seq<Coord>, preps: seq<Preparation>,
                               quotes: seq<QuoteResult>)
  {
    if block.Err? then r == Err(block.error)
    else if DecodeAll(orders).Err? then r == Err(DecodeAll(orders).error)
    else
      && r.Ok? && |r.value| == |coords|
      && Swept(DecodeAll(orders).value, selection, coords, Coord(|orders|, 0, 0))
      && Prepared(DecodeAll(orders).value, coords, preps)
      && |quotes| == |QuotedTargets(oracles, injector, preps)|
      && BatchOutcome(QuotedTargets(oracles, injector, preps), rpcs, chunkSize, quotes)
      && forall t :: 0 <= t < |coords| ==> Responds(oracles, injector, preps, block.value, quotes, t, r.value[t])
  }

  // ----- the responses in terms of the listed orders

  /** `body` asks about the pairs of `url`, in sweep order: each entry is its pair's order and two indexes. */
  ghost predicate IsBody(orders: seq<SgOrder>, coords: seq<Coord>, url: string, body: seq<OracleQuery>,
                         pairs: seq<nat>)
  {
    && |body| == |pairs|
    && (forall i, j :: 0 <= i < j < |pairs| ==> pairs[i] < pairs[j])
    && (forall t: nat :: t in pairs <==>
         t < |coords| && coords[t].order < |orders| && orders[coords[t].order].oracleUrl == Some(url))
    && (forall k :: 0 <= k < |pairs| ==>
         pairs[k] < |coords| && coords[pairs[k]].order < |orders| &&
         IsQueryOf(body[k], orders[coords[pairs[k]].order], coords[pairs[k]]))
  }

  ghost predicate IsQueryOf(query: OracleQuery, o: SgOrder, c: Coord) {
    && o.order == Ok(query.order)
    && query.inputIndex == c.input % 0x1_0000_0000 && query.outputIndex == c.output % 0x1_0000_0000
  }

  /** `item` is what the oracle of the URL answers to entry `k` of the body. */
  ghost predicate OracleAnswers(oracles: Oracles, url: string, body: seq<OracleQuery>, k: nat, item: Item) {
    if oracles.clientError.Some? then item == Err(ClientFailed(oracles.clientError.value))
    else
      match oracles.post(url, body)
      case RequestFailed(reason) => item == Err(PostFailed(reason))
      case Envelope(items) =>
        if |items| != |body| then item == Err(WrongCount(|body|, |items|))
        else k < |items| && item == (if items[k].Ok? then Ok(items[k].value) else Err(ItemFailed(items[k].error)))
      case Legacy(contexts) =>
        if |contexts| != |body| then item == Err(WrongCount(|body|, |contexts|))
        else k < |contexts| && item == Ok(contexts[k])
  }

  /** `item` is the answer to pair `t`'s own entry in the body posted to `url`. */
  ghost predicate Answered(orders: seq<SgOrder>, coords: seq<Coord>, oracles: Oracles, url: string, t: nat, item: Item)
  {
    exists body, pairs, k: nat ::
      && IsBody(orders, coords, url, body, pairs)
      && OracleAnswers(oracles, url, body, k, item)
      && k < |pairs| && pairs[k] == t
  }

  /** The response tells about the quote: its data, or why there is none. */
  ghost predicate Tells(response: Response, quote: QuoteResult) {
    match quote
    case Ok(data) => response.success && response.data == Some(data) && response.error == None
    case Err(failed) => !response.success && response.data == None && response.error == Some(Failed(failed))
  }

  /** What was quoted is that order with exactly these two indexes and contexts; they are sent on with the response. */
  ghost predicate Quotes(target: QuoteTarget, o: SgOrder, c: Coord, contexts: seq<SignedContext>, injector: Injector,
                         response: Response)
  {
    && Decodes(o)
    && target.raindex == o.raindex.value
    && target.quoteConfig.order == o.order.value
    && target.quoteConfig.inputIOIndex == c.input
    && target.quoteConfig.outputIOIndex == c.output
    && target.quoteConfig.signedContext == response.signedContext
    && response.signedContext == contexts + injector(o.order.value, c.input % 0x1_0000_0000, c.output % 0x1_0000_0000)
  }

  ghost predicate QuotedWith(o: SgOrder, c: Coord, contexts: seq<SignedContext>, injector: Injector,
                             batch: seq<QuoteTarget>, quotes: seq<QuoteResult>, j: nat, response: Response)
  {
    && j < |batch| == |quotes|
    && Quotes(batch[j], o, c, contexts, injector, response) && Tells(response, quotes[j])
  }

  ghost predicate OracleRefused(response: Response, c: Coord, failure: OracleFailure) {
    && !response.success && response.data == None && response.signedContext == []
    && response.error == Some(OracleFetchFailed(c.input % 0x1_0000_0000, c.output % 0x1_0000_0000, failure))
  }

  /** Some quote of the batch is the pair's, with these contexts of its oracle. */
  ghost predicate QuotedIn(o: SgOrder, c: Coord, contexts: seq<SignedContext>, injector: Injector,
                           batch: seq<QuoteTarget>, quotes: seq<QuoteResult>, response: Response)
  {
    exists j: nat :: QuotedWith(o, c, contexts, injector, batch, quotes, j, response)
  }

  /** Pair `t` has no oracle, or its oracle gave it a context, or its oracle failed it. */
  datatype Course = NoOracle | Context(context: SignedContext) | NoContext(failure: OracleFailure)

  ghost predicate Takes(orders: seq<SgOrder>, coords: seq<Coord>, oracles: Oracles, injector: Injector,
                        batch: seq<QuoteTarget>, quotes: seq<QuoteResult>, t: nat, response: Response, course: Course)
  {
    && t < |coords| && coords[t].order < |orders|
    && var c, o := coords[t], orders[coords[t].order];
    match course
    case NoOracle => o.oracleUrl.None? && QuotedIn(o, c, [], injector, batch, quotes, response)
    case Context(context) =>
      o.oracleUrl.Some? && Answered(orders, coords, oracles, o.oracleUrl.value, t, Ok(context)) &&
      QuotedIn(o, c, [context], injector, batch, quotes, response)
    case NoContext(failure) =>
      o.oracleUrl.Some? && Answered(orders, coords, oracles, o.oracleUrl.value, t, Err(failure)) &&
      OracleRefused(response, c, failure)
  }

  /** The response is about the pair at `c` of order `o`. */
  ghost predicate IsAbout(response: Response, o: SgOrder, c: Coord, block: nat) {
    && Decodes(o) && c.input < |o.order.value.validInputs| && c.output < |o.order.value.validOutputs|
    && response.blockNumber == block
    && response.pair.inputIndex == c.input % 0x1_0000_0000 && response.pair.outputIndex == c.output % 0x1_0000_0000
    && IsPairName(response.pair.name, o, o.order.value.validInputs[c.input].token,
                  o.order.value.validOutputs[c.output].token)
  }

  /** The response to pair `t`: about that pair, and by one of the three courses. */
  ghost predicate IsResponse(orders: seq<SgOrder>, coords: seq<Coord>, oracles: Oracles, injector: Injector, block: nat,
                             batch: seq<QuoteTarget>, quotes: seq<QuoteResult>, t: nat, response: Response)
  {
    && t < |coords| && coords[t].order < |orders| && IsAbout(response, orders[coords[t].order], coords[t], block)
    && exists course :: Takes(orders, coords, oracles, injector, batch, quotes, t, response, course)
  }

  lemma {:induction false} BodyIs(orders: seq<SgOrder>, selection: Selection, coords: seq<Coord>,
                                  preps: seq<Preparation>, url: string)
    requires IsSweep(orders, selection, coords, preps)
    ensures IsBody(orders, coords, url, QueriesTo(preps, url), PositionsOf(Urls(preps), Some(url)))
  {
    var pairs := PositionsOf(Urls(preps), Some(url));
    assert forall k :: 0 <= k < |pairs| ==> pairs[k] in pairs;
    forall t | 0 <= t < |coords| ensures preps[t].oracleUrl == orders[coords[t].order].oracleUrl {
      assert IsPreparation(preps[t], orders[coords[t].order], coords[t]);
    }
    forall k | 0 <= k < |pairs|
      ensures IsQueryOf(QueriesTo(preps, url)[k], orders[coords[pairs[k]].order], coords[pairs[k]])
    {
      assert IsPreparation(preps[pairs[k]], orders[coords[pairs[k]].order], coords[pairs[k]]);
    }
  }

  lemma {:induction false} AnswerIs(orders: seq<SgOrder>, selection: Selection, coords: seq<Coord>,
                                    preps: seq<Preparation>, oracles: Oracles, t: nat)
    requires IsSweep(orders, selection, coords, preps) && t < |preps| && preps[t].oracleUrl.Some?
    ensures Answered(orders, coords, oracles, preps[t].oracleUrl.value, t, ItemFor(oracles, preps, t))
  {
    var url := preps[t].oracleUrl.value;
    var body, pairs, k := QueriesTo(preps, url), PositionsOf(Urls(preps), Some(url)), RankOf(Urls(preps), t);
    BodyIs(orders, selection, coords, preps, url);
    RankIsInverse(Urls(preps), t);
    assert OracleAnswers(oracles, url, body, k, ItemFor(oracles, preps, t));
  }

  lemma {:induction false} QuotedIs(orders: seq<SgOrder>, selection: Selection, coords: seq<Coord>,
                                    preps: seq<Preparation>, oracles: Oracles, injector: Injector, block: nat,
                                    quotes: seq<QuoteResult>, t: nat, response: Response)
    requires IsSweep(orders, selection, coords, preps) && t < |preps| && ContextsFor(oracles, preps, t).Ok?
    requires |quotes| == |QuotedTargets(oracles, injector, preps)|
    requires Responds(oracles, injector, preps, block, quotes, t, response)
    ensures QuotedIn(orders[coords[t].order], coords[t], ContextsFor(oracles, preps, t).value, injector,
                     QuotedTargets(oracles, injector, preps), quotes, response)
  {
    assert IsPreparation(preps[t], orders[coords[t].order], coords[t]);
    RankIsInverse(QuotedFlags(oracles, preps), t);
    var j := RankOf(QuotedFlags(oracles, preps), t);
    assert QuotedWith(orders[coords[t].order], coords[t], ContextsFor(oracles, preps, t).value, injector,
                      QuotedTargets(oracles, injector, preps), quotes, j, response);
  }

  /** Whatever the endpoints and oracles do, every response is the one to its own pair. */
  lemma {:induction false} ResponseIs(orders: seq<SgOrder>, selection: Selection, coords: seq<Coord>,
                                      preps: seq<Preparation>, oracles: Oracles, injector: Injector, block: nat,
                                      quotes: seq<QuoteResult>, t: nat, response: Response)
    requires IsSweep(orders, selection, coords, preps) && t < |preps|
    requires |quotes| == |QuotedTargets(oracles, injector, preps)|
    requires Responds(oracles, injector, preps, block, quotes, t, response)
    ensures IsResponse(orders, coords, oracles, injector, block, QuotedTargets(oracles, injector, preps), quotes, t,
                       response)
  {
    AboutPair(orders, selection, coords, preps, oracles, injector, block, quotes, t, response);
    var course := CourseOf(orders, selection, coords, preps, oracles, injector, block, quotes, t, response);
  }

  lemma {:induction false} AboutPair(orders: seq<SgOrder>, selection: Selection, coords: seq<Coord>,
                                     preps: seq<Preparation>, oracles: Oracles, injector: Injector, block: nat,
                                     quotes: seq<QuoteResult>, t: nat, response: Response)
    requires IsSweep(orders, selection, coords, preps) && t < |preps|
    requires Responds(oracles, injector, preps, block, quotes, t, response)
    ensures coords[t].order < |orders| && IsAbout(response, orders[coords[t].order], coords[t], block)
  {
    assert IsPreparation(preps[t], orders[coords[t].order], coords[t]);
    assert response.pair == preps[t].pair;
  }

  lemma {:induction false} CourseOf(orders: seq<SgOrder>, selection: Selection, coords: seq<Coord>,
                                    preps: seq<Preparation>, oracles: Oracles, injector: Injector, block: nat,
                                    quotes: seq<QuoteResult>, t: nat, response: Response) returns (course: Course)
    requires IsSweep(orders, selection, coords, preps) && t < |preps|
    requires |quotes| == |QuotedTargets(oracles, injector, preps)|
    requires Responds(oracles, injector, preps, block, quotes, t, response)
    ensures Takes(orders, coords, oracles, injector, QuotedTargets(oracles, injector, preps), quotes, t, response,
                  course)
  {
    assert IsPreparation(preps[t], orders[coords[t].order], coords[t]);
    if preps[t].oracleUrl.None? {
      course := NoOracle;
      QuotedIs(orders, selection, coords, preps, oracles, injector, block, quotes, t, response);
    } else {
      AnswerIs(orders, selection, coords, preps, oracles, t);
      match ItemFor(oracles, preps, t)
      case Ok(context) =>
        course := Context(context);
        QuotedIs(orders, selection, coords, preps, oracles, injector, block, quotes, t, response);
      case Err(failure) =>
        course := NoContext(failure);
    }
  }

  // ----- the code

  /** Fetch all batches, eight at a time; answers come back in batch order. */
  method FetchBatches(oracles: Oracles, preps: seq<Preparation>, batches: seq<OracleBatch>)
    returns (answers: seq<BatchAnswer>)
    requires forall b :: 0 <= b < |batches| ==> batches[b].items == PositionsOf(Urls(preps), Some(batches[b].url))
    ensures |answers| == |batches|
    ensures forall b :: 0 <= b < |batches| ==> answers[b] == AnswerFor(oracles, preps, batches[b].url)
  {
    if |batches| == 0 {
      return [];
    }
    if oracles.clientError.Some? {
      return seq(|batches|, _ => Err(ClientFailed(oracles.clientError.value)));
    }
    var requests := seq(|batches|, b requires 0 <= b < |batches| => QueriesTo(preps, batches[b].url));
    var futures: seq<CollectBounded.Future<BatchAnswer>> :=
      seq(|batches|, b requires 0 <= b < |batches| =>
        (moment: nat) => if b < |requests| then FetchBatch(oracles, batches[b].url, requests[b]) else Ok([]));
    ghost var at, run;
    answers, at, run := CollectBounded.Collect(futures, OracleSemaphores.ORACLE_REQUEST_CONCURRENCY_LIMIT);
  }

  /** Hand one batch's answer out to the slots of its pairs. */
  method ScatterBatch(slots: seq<Option<Item>>, items: seq<nat>, answer: BatchAnswer)
    returns (scattered: seq<Option<Item>>)
    requires forall j :: 0 <= j < |items| ==> items[j] < |slots|
    requires forall i, j :: 0 <= i < j < |items| ==> items[i] != items[j]
    requires answer.Ok? ==> |answer.value| == |items|
    ensures |scattered| == |slots|
    ensures forall j :: 0 <= j < |items| ==>
      scattered[items[j]] == Some(ItemAt(answer, j))
    ensures forall t :: 0 <= t < |slots| && t !in items ==> scattered[t] == slots[t]
  {
    scattered := slots;
    match answer
    case Ok(contexts) =>
      for k := 0 to Min(|items|, |contexts|)
        invariant |scattered| == |slots|
        invariant forall j :: 0 <= j < k ==> scattered[items[j]] == Some(contexts[j])
        invariant forall t :: 0 <= t < |slots| && t !in items ==> scattered[t] == slots[t]
      {
        scattered := scattered[items[k] := Some(contexts[k])];
      }
    case Err(failure) =>
      for k := 0 to |items|
        invariant |scattered| == |slots|
        invariant forall j :: 0 <= j < k ==> scattered[items[j]] == Some(Err(failure))
        invariant forall t :: 0 <= t < |slots| && t !in items ==> scattered[t] == slots[t]
      {
        scattered := scattered[items[k] := Some(Err(failure))];
      }
  }

  /** After scattering, the slot of every pair with an oracle holds the oracle's answer for that very pair. */
  method ScatterAnswers(oracles: Oracles, preps: seq<Preparation>, batches: seq<OracleBatch>,
                        answers: seq<BatchAnswer>, ghost indices: map<string, nat>)
    returns (slots: seq<Option<Item>>)
    requires Batched(preps, batches, indices) && |answers| == |batches|
    requires forall b :: 0 <= b < |batches| ==> answers[b] == AnswerFor(oracles, preps, batches[b].url)
    ensures |slots| == |preps|
    ensures forall t :: 0 <= t < |preps| && preps[t].oracleUrl.Some? ==> slots[t] == Some(ItemFor(oracles, preps, t))
  {
    slots := seq(|preps|, _ => None);
    for b := 0 to |batches|
      invariant |slots| == |preps|
      invariant forall t :: 0 <= t < |preps| && preps[t].oracleUrl.Some? && indices[preps[t].oracleUrl.value] < b ==>
        slots[t] == Some(ItemFor(oracles, preps, t))
    {
      ghost var before := slots;
      ghost var items := batches[b].items;
      assert forall j :: 0 <= j < |items| ==> items[j] in items;
      slots := ScatterBatch(slots, batches[b].items, answers[b]);
      forall t | 0 <= t < |preps| && preps[t].oracleUrl.Some? && indices[preps[t].oracleUrl.value] < b + 1
        ensures slots[t] == Some(ItemFor(oracles, preps, t))
      {
        if indices[preps[t].oracleUrl.value] == b {
          assert batches[b].url == preps[t].oracleUrl.value;
          RankIsInverse(Urls(preps), t);
        } else {
          assert t !in items;
        }
      }
    }
  }

  /** One slot per pair: a failure where the oracle failed, a hole where the pair goes on to be quoted. */
  ghost predicate Holed(oracles: Oracles, preps: seq<Preparation>, block: nat, n: nat,
                        slots: seq<Option<Response>>)
    requires n <= |preps|
  {
    |slots| == n && forall t :: 0 <= t < n ==>
      match ContextsFor(oracles, preps, t)
      case Err(failure) => slots[t] == Some(OracleFailed(preps[t].pair, block, failure))
      case Ok(_) => slots[t] == None
  }

  ghost function QuotedBefore(oracles: Oracles, preps: seq<Preparation>, n: nat): seq<nat>
    requires n <= |preps|
  {
    PositionsOf(QuotedFlags(oracles, preps)[..n], true)
  }

  lemma {:induction false} QuotedNext(oracles: Oracles, preps: seq<Preparation>, t: nat)
    requires t < |preps|
    ensures QuotedBefore(oracles, preps, t + 1) ==
      QuotedBefore(oracles, preps, t) + (if ContextsFor(oracles, preps, t).Ok? then [t] else [])
  {
    var flags := QuotedFlags(oracles, preps);
    assert flags[..t + 1][..t] == flags[..t];
    assert flags[..t + 1][t] == ContextsFor(oracles, preps, t).Ok?;
  }

  /** The contexts of a pair as the code reads them off its slot. */
  function ContextFrom(p: Preparation, slot: Option<Item>): Result<seq<SignedContext>, OracleFailure> {
    if p.oracleUrl.None? then Ok([])
    else
      match (if slot.Some? then slot.value else Err(MissingSlot))
      case Ok(context) => Ok([context])
      case Err(failure) => Err(failure)
  }

  ghost predicate TargetsAt(oracles: Oracles, injector: Injector, preps: seq<Preparation>, positions: seq<nat>,
                            targets: seq<QuoteTarget>)
  {
    |targets| == |positions| && forall j :: 0 <= j < |targets| ==>
      && positions[j] < |preps| && ContextsFor(oracles, preps, positions[j]).Ok?
      && targets[j] == TargetFor(oracles, injector, preps, positions[j])
  }

  lemma {:induction false} HoledNext(oracles: Oracles, preps: seq<Preparation>, block: nat, t: nat,
                                     slots: seq<Option<Response>>, slot: Option<Response>)
    requires t < |preps| && Holed(oracles, preps, block, t, slots)
    requires match ContextsFor(oracles, preps, t)
             case Err(failure) => slot == Some(OracleFailed(preps[t].pair, block, failure))
             case Ok(_) => slot == None
    ensures Holed(oracles, preps, block, t + 1, slots + [slot])
  {
  }

  lemma {:induction false} TargetsNext(oracles: Oracles, injector: Injector, preps: seq<Preparation>,
                                       positions: seq<nat>, targets: seq<QuoteTarget>, t: nat, target: QuoteTarget)
    requires TargetsAt(oracles, injector, preps, positions, targets)
    requires t < |preps| && ContextsFor(oracles, preps, t).Ok?
    requires target == TargetFor(oracles, injector, preps, t)
    ensures TargetsAt(oracles, injector, preps, positions + [t], targets + [target])
  {
  }

  /** Compose the targets to quote, and leave holes for their responses. */
  method BuildTargets(oracles: Oracles, injector: Injector, preps: seq<Preparation>, items: seq<Option<Item>>,
                      block: nat)
    returns (targets: seq<QuoteTarget>, slotIndexes: seq<nat>, responses: seq<Option<Response>>)
    requires |items| == |preps|
    requires forall t :: 0 <= t < |preps| && preps[t].oracleUrl.Some? ==> items[t] == Some(ItemFor(oracles, preps, t))
    ensures slotIndexes == QuotedPositions(oracles, preps) && targets == QuotedTargets(oracles, injector, preps)
    ensures Holed(oracles, preps, block, |preps|, responses)
  {
    responses, targets, slotIndexes := [], [], [];
    for t := 0 to |preps|
      invariant Holed(oracles, preps, block, t, responses)
      invariant slotIndexes == QuotedBefore(oracles, preps, t)
      invariant TargetsAt(oracles, injector, preps, slotIndexes, targets)
    {
      QuotedNext(oracles, preps, t);
      var p := preps[t];
      var context := ContextFrom(p, items[t]);
      assert context == ContextsFor(oracles, preps, t);
      match context
      case Ok(contexts) =>
        var target := WithContexts(p.target, Composed(contexts, p, injector));
        HoledNext(oracles, preps, block, t, responses, None);
        TargetsNext(oracles, injector, preps, slotIndexes, targets, t, target);
        responses := responses + [None];
        slotIndexes := slotIndexes + [t];
        targets := targets + [target];
      case Err(failure) =>
        HoledNext(oracles, preps, block, t, responses, Some(OracleFailed(p.pair, block, failure)));
        responses := responses + [Some(OracleFailed(p.pair, block, failure))];
    }
    assert QuotedFlags(oracles, preps)[..|preps|] == QuotedFlags(oracles, preps);
  }

  /** Put the responses to the quotes into their holes. */
  method FillHoles(oracles: Oracles, injector: Injector, preps: seq<Preparation>, block: nat,
                   targets: seq<QuoteTarget>, slotIndexes: seq<nat>, holed: seq<Option<Response>>,
                   quotes: seq<QuoteResult>)
    returns (responses: seq<Response>)
    requires slotIndexes == QuotedPositions(oracles, preps) && targets == QuotedTargets(oracles, injector, preps)
    requires Holed(oracles, preps, block, |preps|, holed) && |quotes| == |targets|
    ensures |responses| == |preps|
    ensures forall t :: 0 <= t < |preps| ==> Responds(oracles, injector, preps, block, quotes, t, responses[t])
  {
    ghost var flags := QuotedFlags(oracles, preps);
    var all := holed;
    for q := 0 to |quotes|
      invariant |all| == |preps|
      invariant forall t :: 0 <= t < |preps| ==>
        if flags[t] && RankOf(flags, t) < q then
          all[t].Some? && Responds(oracles, injector, preps, block, quotes, t, all[t].value)
        else all[t] == holed[t]
    {
      var slot := slotIndexes[q];
      RankOfPosition(flags, true, q);
      all := all[slot := Some(ResponseTo(preps[slot].pair, block, quotes[q], targets[q].quoteConfig.signedContext))];
      forall t | 0 <= t < |preps| && flags[t] && RankOf(flags, t) == q ensures t == slot {
        RankIsInverse(flags, t);
      }
    }
    forall t | 0 <= t < |preps|
      ensures all[t].Some? && Responds(oracles, injector, preps, block, quotes, t, all[t].value)
    {
      if flags[t] {
        RankIsInverse(flags, t);
      }
    }
    responses := seq(|all|, t requires 0 <= t < |all| => all[t].value);
  }

  lemma {:induction false} AllResponsesAre(orders: seq<SgOrder>, selection: Selection, coords: seq<Coord>,
                                           preps: seq<Preparation>, oracles: Oracles, injector: Injector, block: nat,
                                           quotes: seq<QuoteResult>, responses: seq<Response>)
    requires IsSweep(orders, selection, coords, preps) && |responses| == |preps|
    requires |quotes| == |QuotedTargets(oracles, injector, preps)|
    requires forall t :: 0 <= t < |preps| ==> Responds(oracles, injector, preps, block, quotes, t, responses[t])
    ensures forall t :: 0 <= t < |coords| ==>
      IsResponse(orders, coords, oracles, injector, block, QuotedTargets(oracles, injector, preps), quotes, t,
                 responses[t])
  {
    forall t | 0 <= t < |coords|
      ensures IsResponse(orders, coords, oracles, injector, block, QuotedTargets(oracles, injector, preps), quotes, t,
                         responses[t])
    {
      ResponseIs(orders, selection, coords, preps, oracles, injector, block, quotes, t, responses[t]);
    }
  }

  method GetOrderQuotes(orders: seq<SgOrder>, selection: Selection, block: Result<nat, Error>, rpcs: seq<Rpc>,
                        chunkSize: Option<nat>, oracles: Oracles, injector: Injector)
    returns (r: Result<seq<Response>, Error>, ghost coords: seq<Coord>, ghost preps: seq<Preparation>,
             ghost quotes: seq<QuoteResult>)
    ensures SweepOutcome(orders, selection, block, rpcs, chunkSize, oracles, injector, r, coords, preps, quotes)
    ensures r.Ok? ==> IsSweep(orders, selection, coords, preps) && |r.value| == |coords|
    ensures r.Ok? ==> BatchOutcome(QuotedTargets(oracles, injector, preps), rpcs, chunkSize, quotes)
    ensures r.Ok? ==> forall t :: 0 <= t < |coords| ==>
      IsResponse(orders, coords, oracles, injector, block.value, QuotedTargets(oracles, injector, preps), quotes, t,
                 r.value[t])
    ensures r.Ok? <==> block.Ok? && DecodeAll(orders).Ok?
    ensures r.Err? ==> r == (if block.Err? then Err(block.error) else Err(DecodeAll(orders).error))
  {
    coords, preps, quotes := [], [], [];
    if block.Err? {
      return Err(block.error), coords, preps, quotes;
    }
    var prepared;
    ghost var indices;
    prepared, coords, indices := PreparePairs(orders, selection);
    if prepared.Err? {
      return Err(prepared.error), coords, preps, quotes;
    }
    var (pairs, batches) := prepared.value;
    preps := pairs;
    var answers := FetchBatches(oracles, pairs, batches);
    var items := ScatterAnswers(oracles, pairs, batches, answers, indices);
    var targets, slotIndexes, holed := BuildTargets(oracles, injector, pairs, items, block.value);
    var results;
    ghost var log;
    results, log := BatchQuote.BatchQuote(targets, rpcs, chunkSize);
    quotes := results;
    var responses := FillHoles(oracles, injector, pairs, block.value, targets, slotIndexes, holed, results);
    r := Ok(responses);
    AllResponsesAre(orders, selection, coords, preps, oracles, injector, block.value, quotes, responses);
  }

  method GetOrderQuotesForPairs(orders: seq<SgOrder>, selectedPairs: seq<seq<Pair>>, block: Result<nat, Error>,
                                rpcs: seq<Rpc>, chunkSize: Option<nat>, oracles: Oracles, injector: Injector)
    returns (r: Result<seq<Response>, Error>, ghost coords: seq<Coord>, ghost preps: seq<Preparation>,
             ghost quotes: seq<QuoteResult>)
    ensures |selectedPairs| != |orders| ==> r == Err(PairSelectionLengthMismatch(|orders|, |selectedPairs|))
    ensures |selectedPairs| == |orders| ==>
      SweepOutcome(orders, Some(selectedPairs), block, rpcs, chunkSize, oracles, injector, r, coords, preps, quotes)
    ensures r.Ok? ==> IsSweep(orders, Some(selectedPairs), coords, preps) && |r.value| == |coords|
    ensures r.Ok? ==> BatchOutcome(QuotedTargets(oracles, injector, preps), rpcs, chunkSize, quotes)
    ensures r.Ok? ==> forall t :: 0 <= t < |coords| ==>
      IsResponse(orders, coords, oracles, injector, block.value, QuotedTargets(oracles, injector, preps), quotes, t,
                 r.value[t])
  {
    if |selectedPairs| != |orders| {
      return Err(PairSelectionLengthMismatch(|orders|, |selectedPairs|)), [], [], [];
    }
    r, coords, preps, quotes :=
      GetOrderQuotes(orders, Some(selectedPairs), block, rpcs, chunkSize, oracles, injector);
  }

  /** On a consistent chain a response that is not an oracle's failure tells what the chain holds for exactly its pair's
      order, its two indexes and the contexts sent. */
  lemma {:induction false} ResponseTellsChain(orders: seq<SgOrder>, coords: seq<Coord>, oracles: Oracles,
                                              injector: Injector, block: nat, batch: seq<QuoteTarget>, rpcs: seq<Rpc>,
                                              chunkSize: Option<nat>, quotes: seq<QuoteResult>, t: nat,
                                              response: Response, chain: Chain) returns (quote: QuoteResult)
    requires IsResponse(orders, coords, oracles, injector, block, batch, quotes, t, response)
    requires RpcsReport(rpcs, chain) && BatchOutcome(batch, rpcs, chunkSize, quotes)
    requires forall failure :: !OracleRefused(response, coords[t], failure)
    ensures var c, o := coords[t], orders[coords[t].order];
      IsQuoteOf(quote, chain(QuoteTarget(o.raindex.value,
                                         QuoteConfig(o.order.value, c.input, c.output, response.signedContext))))
    ensures Tells(response, quote)
  {
    var c, o := coords[t], orders[coords[t].order];
    var course :| Takes(orders, coords, oracles, injector, batch, quotes, t, response, course);
    var contexts := if course.Context? then [course.context] else [];
    assert QuotedIn(o, c, contexts, injector, batch, quotes, response);
    var j: nat :| QuotedWith(o, c, contexts, injector, batch, quotes, j, response);
    BatchIsExact(batch, rpcs, chunkSize, quotes, chain);
    quote := quotes[j];
    SameTarget(batch[j], o, c, contexts, injector, response);
  }

  lemma {:induction false} SameTarget(target: QuoteTarget, o: SgOrder, c: Coord, contexts: seq<SignedContext>,
                                      injector: Injector, response: Response)
    requires Quotes(target, o, c, contexts, injector, response)
    ensures target ==
      QuoteTarget(o.raindex.value, QuoteConfig(o.order.value, c.input, c.output, response.signedContext))
  {
  }

  // ----- every pair on its own

  /** What a pair gets when it is quoted alone on a consistent chain. */
  function DirectResponse(oracles: Oracles, injector: Injector, chain: Chain, preps: seq<Preparation>, block: nat,
                          t: nat): Response
    requires t < |preps|
  {
    match ContextsFor(oracles, preps, t)
    case Err(failure) => OracleFailed(preps[t].pair, block, failure)
    case Ok(contexts) =>
      var target := TargetFor(oracles, injector, preps, t);
      ResponseTo(preps[t].pair, block, QuoteOne(chain, target), target.quoteConfig.signedContext)
  }

  /** On a consistent chain the sweep answers every pair as if it were quoted alone: it succeeds exactly when its oracle
      (if it has one) and its own quote succeed, and it carries the contexts that were sent. */
  lemma {:induction false} SweepIsDirect(oracles: Oracles, injector: Injector, chain: Chain, preps: seq<Preparation>,
                                         block: nat, rpcs: seq<Rpc>, chunkSize: Option<nat>,
                                         quotes: seq<QuoteResult>, t: nat, response: Response)
    requires RpcsReport(rpcs, chain) && t < |preps|
    requires |quotes| == |QuotedTargets(oracles, injector, preps)|
    requires BatchOutcome(QuotedTargets(oracles, injector, preps), rpcs, chunkSize, quotes)
    requires Responds(oracles, injector, preps, block, quotes, t, response)
    ensures response == DirectResponse(oracles, injector, chain, preps, block, t)
    ensures response.success <==>
      ContextsFor(oracles, preps, t).Ok? && QuoteOne(chain, TargetFor(oracles, injector, preps, t)).Ok?
    ensures !response.success || response.error.None?
  {
    BatchIsExact(QuotedTargets(oracles, injector, preps), rpcs, chunkSize, quotes, chain);
    var flags := QuotedFlags(oracles, preps);
    if flags[t] {
      RankIsInverse(flags, t);
    }
  }

  /** The sweep on a consistent chain, written directly. */
  function DirectSweep(orders: seq<SgOrder>, selection: Selection, block: Result<nat, Error>, oracles: Oracles,
                       injector: Injector, chain: Chain): Result<seq<Response>, Error>
  {
    match block
    case Err(error) => Err(error)
    case Ok(number) =>
      match DecodeAll(orders)
      case Err(error) => Err(error)
      case Ok(decoded) =>
        var preps := WantedPreps(decoded, selection);
        Ok(seq(|preps|, t requires 0 <= t < |preps| => DirectResponse(oracles, injector, chain, preps, number, t)))
  }

  /** On a consistent chain the whole sweep, with its batching, scattering and hole filling, returns exactly the direct
      list: the nested enumeration of the wanted pairs, each with its own answer. */
  lemma {:induction false} SweepEqualsDirect(orders: seq<SgOrder>, selection: Selection, block: Result<nat, Error>,
                                             rpcs: seq<Rpc>, chunkSize: Option<nat>, oracles: Oracles,
                                             injector: Injector, r: Result<seq<Response>, Error>, coords: seq<Coord>,
                                             preps: seq<Preparation>, quotes: seq<QuoteResult>, chain: Chain)
    requires SweepOutcome(orders, selection, block, rpcs, chunkSize, oracles, injector, r, coords, preps, quotes)
    requires RpcsReport(rpcs, chain)
    ensures r == DirectSweep(orders, selection, block, oracles, injector, chain)
  {
    if block.Ok? && DecodeAll(orders).Ok? {
      PreparedIsEnumeration(DecodeAll(orders).value, selection, coords, preps);
      forall t | 0 <= t < |preps|
        ensures r.value[t] == DirectResponse(oracles, injector, chain, preps, block.value, t)
      {
        SweepIsDirect(oracles, injector, chain, preps, block.value, rpcs, chunkSize, quotes, t, r.value[t]);
      }
      assert r.value == DirectSweep(orders, selection, block, oracles, injector, chain).value;
    }
  }

  // ----- oracles that answer query by query

  /** What the oracle of a URL says about one query. */
  type QueryOracle = (string, OracleQuery) -> Result<SignedContext, string>

  function AnswersTo(answer: QueryOracle, url: string, queries: seq<OracleQuery>): OracleReply {
    Envelope(seq(|queries|, i requires 0 <= i < |queries| => answer(url, queries[i])))
  }

  /** Every URL answers each query of a body as if it were asked alone. */
  ghost predicate Itemwise(oracles: Oracles, answer: QueryOracle) {
    && oracles.clientError.None?
    && forall url: string, queries: seq<OracleQuery> :: oracles.post(url, queries) == AnswersTo(answer, url, queries)
  }

  /** With such oracles a pair's item is the answer to its own query, whatever is batched with it. */
  lemma {:induction false} ItemIsOwnAnswer(oracles: Oracles, answer: QueryOracle, preps: seq<Preparation>, t: nat)
    requires Itemwise(oracles, answer) && t < |preps| && preps[t].oracleUrl.Some?
    ensures ItemFor(oracles, preps, t) == ItemOf(answer(preps[t].oracleUrl.value, QueryOf(preps[t])))
  {
    var url := preps[t].oracleUrl.value;
    QueryAtRank(preps, t);
    assert oracles.post(url, QueriesTo(preps, url)) == AnswersTo(answer, url, QueriesTo(preps, url));
  }

  function ContextsAlone(answer: QueryOracle, p: Preparation): Result<seq<SignedContext>, OracleFailure> {
    if p.oracleUrl.None? then Ok([])
    else
      match ItemOf(answer(p.oracleUrl.value, QueryOf(p)))
      case Ok(context) => Ok([context])
      case Err(failure) => Err(failure)
  }

  /** What one pair gets on its own: its oracle's answer to its query, and its quote with that and the injected
      contexts. */
  function ResponseAlone(answer: QueryOracle, injector: Injector, chain: Chain, p: Preparation, block: nat): Response {
    match ContextsAlone(answer, p)
    case Err(failure) => OracleFailed(p.pair, block, failure)
    case Ok(contexts) =>
      var sent := Composed(contexts, p, injector);
      ResponseTo(p.pair, block, QuoteOne(chain, WithContexts(p.target, sent)), sent)
  }

  /** The direct sweep then quotes every wanted pair without any regard to the others. */
  lemma {:induction false} DirectIsAlone(orders: seq<SgOrder>, selection: Selection, block: nat, oracles: Oracles,
                                         answer: QueryOracle, injector: Injector, chain: Chain)
    requires Itemwise(oracles, answer) && DecodeAll(orders).Ok?
    ensures var preps := WantedPreps(DecodeAll(orders).value, selection);
      DirectSweep(orders, selection, Ok(block), oracles, injector, chain) ==
        Ok(seq(|preps|, t requires 0 <= t < |preps| => ResponseAlone(answer, injector, chain, preps[t], block)))
  {
    var preps := WantedPreps(DecodeAll(orders).value, selection);
    forall t | 0 <= t < |preps|
      ensures DirectResponse(oracles, injector, chain, preps, block, t) ==
        ResponseAlone(answer, injector, chain, preps[t], block)
    {
      if preps[t].oracleUrl.Some? {
        ItemIsOwnAnswer(oracles, answer, preps, t);
      }
    }
    assert DirectSweep(orders, selection, Ok(block), oracles, injector, chain).value ==
           seq(|preps|, t requires 0 <= t < |preps| => ResponseAlone(answer, injector, chain, preps[t], block));
  }

  /** Each pair's answer is at its own place of the one batch posted to its URL. */
  lemma {:induction false} QueryAtRank(preps: seq<Preparation>, t: nat)
    requires t < |preps| && preps[t].oracleUrl.Some?
    ensures RankOf(Urls(preps), t) < |QueriesTo(preps, preps[t].oracleUrl.value)|
    ensures QueriesTo(preps, preps[t].oracleUrl.value)[RankOf(Urls(preps), t)] == QueryOf(preps[t])
  {
    RankIsInverse(Urls(preps), t);
  }
}
