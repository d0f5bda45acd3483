/** Quoting orders by specification: look the orders up, quote the ones that were found, and put the results back. */
module QuoteSpecs {
  import opened Common
  import opened Positions
  import opened QuoteTypes
  import opened BatchQuote

  datatype QuoteSpec = QuoteSpec(raindex: Address, orderHash: nat, inputIOIndex: nat, outputIOIndex: nat,
                                 signedContext: seq<SignedContext>)

  /** An order as the subgraph lists it; `order` is `None` when its bytes do not decode. */
  datatype OrderDetail = OrderDetail(id: nat, order: Option<Order>)

  /** The subgraph id of an order: a hash of its raindex and its order hash. */
  type OrderId = (Address, nat) -> nat

  /** The position of the first listed order with this id, or the length of the list. */
  function FindDetail(details: seq<OrderDetail>, id: nat): (d: nat)
    ensures d <= |details|
    ensures d < |details| ==> details[d].id == id
    ensures forall e :: 0 <= e < d ==> details[e].id != id
  {
    if |details| == 0 || details[0].id == id then 0 else 1 + FindDetail(details[1..], id)
  }

  /** A specification has a target exactly when the first listed order with its id decodes. */
  function TargetOf(spec: QuoteSpec, details: seq<OrderDetail>, orderId: OrderId): Option<QuoteTarget> {
    var d := FindDetail(details, orderId(spec.raindex, spec.orderHash));
    if d == |details| || details[d].order.None? then None
    else Some(QuoteTarget(spec.raindex, QuoteConfig(details[d].order.value, spec.inputIOIndex, spec.outputIOIndex,
                                                    spec.signedContext)))
  }

  function TargetsOf(specs: seq<QuoteSpec>, details: seq<OrderDetail>, orderId: OrderId)
    : (opts: seq<Option<QuoteTarget>>)
    ensures |opts| == |specs|
  {
    seq(|specs|, i requires 0 <= i < |specs| => TargetOf(specs[i], details, orderId))
  }

  function Found(opts: seq<Option<QuoteTarget>>): (flags: seq<bool>)
    ensures |flags| == |opts|
  {
    seq(|opts|, i requires 0 <= i < |opts| => opts[i].Some?)
  }

  function FoundPositions(opts: seq<Option<QuoteTarget>>): (r: seq<nat>)
    ensures forall j :: 0 <= j < |r| ==> r[j] < |opts| && opts[r[j]].Some?
  {
    var r := PositionsOf(Found(opts), true);
    assert forall j :: 0 <= j < |r| ==> r[j] in r;
    r
  }

  /** The targets that were found, without the gaps. */
  function Compress(opts: seq<Option<QuoteTarget>>): (r: seq<QuoteTarget>)
    ensures |r| == |FoundPositions(opts)|
  {
    var ps := FoundPositions(opts);
    seq(|ps|, j requires 0 <= j < |ps| => opts[ps[j]].value)
  }

  lemma {:induction false} CompressNext(opts: seq<Option<QuoteTarget>>, i: nat)
    requires i < |opts|
    ensures Compress(opts[..i + 1]) == Compress(opts[..i]) + (if opts[i].Some? then [opts[i].value] else [])
    ensures opts[i].Some? ==> RankOf(Found(opts), i) == |Compress(opts[..i])| < |Compress(opts)|
    ensures opts[i].Some? ==> Compress(opts)[RankOf(Found(opts), i)] == opts[i].value
  {
    var flags := Found(opts);
    assert Found(opts[..i + 1])[..i] == Found(opts[..i]) == flags[..i];
    assert Found(opts[..i + 1])[i] == flags[i];
    if opts[i].Some? {
      RankIsInverse(flags, i);
    }
  }

  ghost predicate SlotIs(opts: seq<Option<QuoteTarget>>, quotes: seq<QuoteResult>, i: nat, r: QuoteResult)
    requires i < |opts|
  {
    if opts[i].None? then r == Err(NonExistent)
    else RankOf(Found(opts), i) < |quotes| && r == quotes[RankOf(Found(opts), i)]
  }

  /** What quoting the specifications returns: `NonExistent` for a specification without an order, and otherwise the
      result of its own target in the batch of the targets that were found. */
  ghost predicate Expanded(opts: seq<Option<QuoteTarget>>, quotes: seq<QuoteResult>, results: seq<QuoteResult>) {
    && |quotes| == |Compress(opts)| && |results| == |opts|
    && forall i :: 0 <= i < |opts| ==> SlotIs(opts, quotes, i, results[i])
  }

  /** How many quotes have been handed out when the first `i` slots are filled. */
  ghost function Used(opts: seq<Option<QuoteTarget>>, i: nat): nat
    requires i <= |opts|
  {
    |Compress(opts[..i])|
  }

  lemma {:induction false} UsedNext(opts: seq<Option<QuoteTarget>>, i: nat)
    requires i < |opts|
    ensures Used(opts, i + 1) == Used(opts, i) + (if opts[i].Some? then 1 else 0)
    ensures opts[i].Some? ==> RankOf(Found(opts), i) == Used(opts, i) < |Compress(opts)|
  {
    CompressNext(opts, i);
  }

  /** The first slots are filled, and the queue holds exactly the quotes that are still to be handed out. */
  ghost predicate Handed(opts: seq<Option<QuoteTarget>>, quotes: seq<QuoteResult>, results: seq<QuoteResult>,
                         queue: seq<QuoteResult>)
  {
    && |results| <= |opts| && Used(opts, |results|) <= |quotes|
    && queue == quotes[Used(opts, |results|)..]
    && forall j :: 0 <= j < |results| ==> SlotIs(opts, quotes, j, results[j])
  }

  /** The next specification with a target finds its own quote at the head of the queue. */
  lemma {:induction false} HandNext(opts: seq<Option<QuoteTarget>>, quotes: seq<QuoteResult>,
                                    results: seq<QuoteResult>, queue: seq<QuoteResult>)
    requires |quotes| == |Compress(opts)| && |results| < |opts| && Handed(opts, quotes, results, queue)
    ensures opts[|results|].Some? ==> |queue| > 0 && Handed(opts, quotes, results + [queue[0]], queue[1..])
    ensures opts[|results|].None? ==> Handed(opts, quotes, results + [Err(NonExistent)], queue)
  {
    UsedNext(opts, |results|);
  }

  /** Handing the quotes out to the specifications in turn: the results, and the quotes that are left. */
  function HandOut(opts: seq<Option<QuoteTarget>>, quotes: seq<QuoteResult>): (seq<QuoteResult>, seq<QuoteResult>) {
    if |opts| == 0 then ([], quotes)
    else
      var (results, queue) := HandOut(opts[..|opts| - 1], quotes);
      if opts[|opts| - 1].Some? && |queue| > 0 then (results + [queue[0]], queue[1..])
      else (results + [Err(NonExistent)], queue)
  }

  lemma {:induction false} HandedOut(opts: seq<Option<QuoteTarget>>, quotes: seq<QuoteResult>, i: nat)
    requires |quotes| == |Compress(opts)| && i <= |opts|
    ensures var (results, queue) := HandOut(opts[..i], quotes);
      |results| == i && Handed(opts, quotes, results, queue)
  {
    if i > 0 {
      assert opts[..i][..i - 1] == opts[..i - 1];
      var (results, queue) := HandOut(opts[..i - 1], quotes);
      HandedOut(opts, quotes, i - 1);
      HandNext(opts, quotes, results, queue);
    } else {
      assert quotes[0..] == quotes;
    }
  }

  lemma {:induction false} HandedOutAll(opts: seq<Option<QuoteTarget>>, quotes: seq<QuoteResult>)
    requires |quotes| == |Compress(opts)|
    ensures Expanded(opts, quotes, HandOut(opts, quotes).0)
  {
    HandedOut(opts, quotes, |opts|);
    assert opts[..|opts|] == opts;
  }

  method HandOutInTurn(opts: seq<Option<QuoteTarget>>, quotes: seq<QuoteResult>) returns (results: seq<QuoteResult>)
    ensures results == HandOut(opts, quotes).0
  {
    var queue := quotes;
    results := [];
    for i := 0 to |opts|
      invariant (results, queue) == HandOut(opts[..i], quotes)
    {
      assert opts[..i + 1][..i] == opts[..i];
      if opts[i].Some? {
        if |queue| > 0 {
          results := results + [queue[0]];
          queue := queue[1..];
        } else {
          results := results + [Err(NonExistent)];
        }
      } else {
        results := results + [Err(NonExistent)];
      }
    }
    assert opts[..|opts|] == opts;
  }

  /** Hand the quotes out in order to the specifications that have a target; they never run out. */
  method Expand(opts: seq<Option<QuoteTarget>>, quotes: seq<QuoteResult>) returns (results: seq<QuoteResult>)
    requires |quotes| == |Compress(opts)|
    ensures Expanded(opts, quotes, results)
  {
    HandedOutAll(opts, quotes);
    results := HandOutInTurn(opts, quotes);
  }

  method DoQuote(specs: seq<QuoteSpec>, subgraph: Result<seq<OrderDetail>, Error>, orderId: OrderId, rpcs: seq<Rpc>,
                 chunkSize: Option<nat>)
    returns (r: Result<seq<QuoteResult>, Error>, ghost quotes: seq<QuoteResult>)
    ensures subgraph.Err? ==> r == Err(subgraph.error)
    ensures subgraph.Ok? ==> r.Ok?
    ensures subgraph.Ok? ==> var opts := TargetsOf(specs, subgraph.value, orderId);
      BatchOutcome(Compress(opts), rpcs, chunkSize, quotes) && Expanded(opts, quotes, r.value)
  {
    quotes := [];
    if subgraph.Err? {
      return Err(subgraph.error), quotes;
    }
    var opts := TargetsOf(specs, subgraph.value, orderId);

    var targets: seq<QuoteTarget> := [];
    for i := 0 to |opts|
      invariant targets == Compress(opts[..i])
    {
      CompressNext(opts, i);
      if opts[i].Some? {
        targets := targets + [opts[i].value];
      }
    }
    assert opts[..|opts|] == opts;

    var batch;
    ghost var log;
    batch, log := BatchQuote.BatchQuote(targets, rpcs, chunkSize);
    quotes := batch;
    var results := Expand(opts, batch);
    r := Ok(results);
  }

  /** The order that the subgraph has for a specification: the first one listed under its id, if it decodes. */
  ghost predicate ListedOrder(spec: QuoteSpec, details: seq<OrderDetail>, orderId: OrderId, order: Order) {
    exists d :: 0 <= d < |details| && details[d].order == Some(order) &&
      details[d].id == orderId(spec.raindex, spec.orderHash) &&
      forall e :: 0 <= e < d ==> details[e].id != orderId(spec.raindex, spec.orderHash)
  }

  lemma {:induction false} TargetIsListed(spec: QuoteSpec, details: seq<OrderDetail>, orderId: OrderId)
    ensures forall order :: ListedOrder(spec, details, orderId, order) ==>
      TargetOf(spec, details, orderId) == Some(QuoteTarget(spec.raindex,
        QuoteConfig(order, spec.inputIOIndex, spec.outputIOIndex, spec.signedContext)))
    ensures TargetOf(spec, details, orderId).Some? ==> exists order :: ListedOrder(spec, details, orderId, order)
  {
    var d := FindDetail(details, orderId(spec.raindex, spec.orderHash));
    forall order | ListedOrder(spec, details, orderId, order) ensures d < |details| && details[d].order == Some(order) {
      var k :| 0 <= k < |details| && details[k].order == Some(order) &&
               details[k].id == orderId(spec.raindex, spec.orderHash) &&
               forall e :: 0 <= e < k ==> details[e].id != orderId(spec.raindex, spec.orderHash);
      assert k == d;
    }
    if d < |details| && details[d].order.Some? {
      assert ListedOrder(spec, details, orderId, details[d].order.value);
    }
  }

  /** On a consistent chain every specification gets the quote of its own order, IO indexes and contexts, wherever the
      gaps are; and one whose order the subgraph does not have gets `NonExistent`. */
  lemma {:induction false} SpecsAreExact(specs: seq<QuoteSpec>, details: seq<OrderDetail>, orderId: OrderId,
                                         rpcs: seq<Rpc>, chunkSize: Option<nat>, quotes: seq<QuoteResult>,
                                         results: seq<QuoteResult>, chain: Chain, i: nat)
    requires RpcsReport(rpcs, chain) && i < |specs|
    requires var opts := TargetsOf(specs, details, orderId);
      BatchOutcome(Compress(opts), rpcs, chunkSize, quotes) && Expanded(opts, quotes, results)
    ensures |results| == |specs|
    ensures forall order :: ListedOrder(specs[i], details, orderId, order) ==>
      IsQuoteOf(results[i], chain(QuoteTarget(specs[i].raindex,
        QuoteConfig(order, specs[i].inputIOIndex, specs[i].outputIOIndex, specs[i].signedContext))))
    ensures (forall order :: !ListedOrder(specs[i], details, orderId, order)) ==> results[i] == Err(NonExistent)
  {
    var opts := TargetsOf(specs, details, orderId);
    BatchIsExact(Compress(opts), rpcs, chunkSize, quotes, chain);
    CompressNext(opts, i);
    TargetIsListed(specs[i], details, orderId);
  }
}
