/** One provider's attempt at a chunk: a multicall, and on a revert a bisection driven by an explicit work stack. */
module Bisection {
  import opened Common
  import opened QuoteTypes

  // ----- what an attempt may return, for any endpoint

  /** At moment `m`, `endpoint`'s answer to `targets[a..b]` settles target `i` as `q`: either the call came back and `q`
      is the target's own slot in it, or the slice was the target alone and `q` is the revert it got. */
  ghost predicate SettledAt(endpoint: Endpoint, targets: seq<QuoteTarget>, i: nat, q: QuoteResult,
                            m: nat, a: nat, b: nat)
  {
    a <= i < b <= |targets| &&
    match endpoint(m, targets[a..b])
    case Returned(elements) => |elements| == b - a && IsElement(q, elements[i - a])
    case RevertData(decoded) => b - a == 1 && IsRevert(q, decoded)
    case _ => false
  }

  ghost predicate Attributed(endpoint: Endpoint, targets: seq<QuoteTarget>, i: nat, q: QuoteResult) {
    exists m: nat, a: nat, b: nat :: SettledAt(endpoint, targets, i, q, m, a, b)
  }

  ghost predicate RefusedAt(endpoint: Endpoint, targets: seq<QuoteTarget>, error: Error, m: nat, a: nat, b: nat) {
    a < b <= |targets| && IsFailure(error, endpoint(m, targets[a..b]), b - a)
  }

  /** Some part of `targets` was answered with `error`, which is not a revert. */
  ghost predicate Refused(endpoint: Endpoint, targets: seq<QuoteTarget>, error: Error) {
    !error.ChunkReverted? && exists m: nat, a: nat, b: nat :: RefusedAt(endpoint, targets, error, m, a, b)
  }

  /** What an attempt on `targets` may return, whatever the endpoint does: every slot is an answer the endpoint gave for
      that very target, or the whole attempt fails with a non-revert error the endpoint gave. */
  ghost predicate AttemptOutcome(endpoint: Endpoint, targets: seq<QuoteTarget>, r: ChunkResult) {
    match r
    case Ok(results) =>
      |results| == |targets| && forall i :: 0 <= i < |targets| ==> Attributed(endpoint, targets, i, results[i])
    case Err(error) => Refused(endpoint, targets, error)
  }

  // ----- the recursive bisection that the work stack carries out

  datatype Span = Span(start: nat, end: nat)

  ghost predicate InBounds(span: Span, n: nat) { span.start < span.end <= n }

  function Mid(span: Span): nat
    requires span.start < span.end
  {
    span.start + (span.end - span.start) / 2
  }

  ghost predicate RevertsIn(chain: Chain, targets: seq<QuoteTarget>, start: nat, end: nat) {
    exists i :: start <= i < end <= |targets| && chain(targets[i]).Reverts?
  }

  /** The requests of the recursive bisection of `span`, in the order it makes them. */
  ghost function Bisect(chain: Chain, targets: seq<QuoteTarget>, span: Span): seq<Span>
    requires InBounds(span, |targets|)
    decreases span.end - span.start
  {
    if span.end - span.start == 1 || !RevertsIn(chain, targets, span.start, span.end) then [span]
    else
      [span] + Bisect(chain, targets, Span(span.start, Mid(span))) + Bisect(chain, targets, Span(Mid(span), span.end))
  }

  /** How many of the targets `start..end` revert. */
  ghost function RevertCount(chain: Chain, targets: seq<QuoteTarget>, start: nat, end: nat): nat
    requires end <= |targets|
  {
    if start >= end then 0
    else RevertCount(chain, targets, start, end - 1) + (if chain(targets[end - 1]).Reverts? then 1 else 0)
  }

  /** The ceiling of the binary logarithm. */
  ghost function CeilLog2(n: nat): nat
    requires n >= 1
  {
    if n == 1 then 0 else 1 + CeilLog2((n + 1) / 2)
  }

  ghost function Pow2(k: nat): nat { if k == 0 then 1 else 2 * Pow2(k - 1) }

  lemma {:induction false} CeilLog2IsLeast(n: nat)
    requires n >= 1
    ensures n <= Pow2(CeilLog2(n))
    ensures n >= 2 ==> Pow2(CeilLog2(n) - 1) < n
  {
    if n > 1 {
      CeilLog2IsLeast((n + 1) / 2);
    }
  }

  lemma {:induction false} CeilLog2Monotone(m: nat, n: nat)
    requires 1 <= m <= n
    ensures CeilLog2(m) <= CeilLog2(n)
  {
    if m > 1 {
      CeilLog2Monotone((m + 1) / 2, (n + 1) / 2);
    }
  }

  lemma {:induction false} RevertCountSplits(chain: Chain, targets: seq<QuoteTarget>, start: nat, mid: nat, end: nat)
    requires start <= mid <= end <= |targets|
    ensures RevertCount(chain, targets, start, end) ==
      RevertCount(chain, targets, start, mid) + RevertCount(chain, targets, mid, end)
  {
    if mid < end {
      RevertCountSplits(chain, targets, start, mid, end - 1);
    }
  }

  lemma {:induction false} RevertCountPositive(chain: Chain, targets: seq<QuoteTarget>, start: nat, end: nat)
    requires end <= |targets|
    ensures RevertCount(chain, targets, start, end) > 0 <==> RevertsIn(chain, targets, start, end)
  {
    if start < end {
      RevertCountPositive(chain, targets, start, end - 1);
    }
  }

  /** `1 + 2 k l`, as a sum. */
  ghost function Cap(k: nat, l: nat): nat {
    if l == 0 then 1 else Cap(k, l - 1) + 2 * k
  }

  lemma {:induction false} CapIsProduct(k: nat, l: nat)
    ensures Cap(k, l) == 1 + 2 * k * l
  {
    if l > 0 {
      CapIsProduct(k, l - 1);
    }
  }

  lemma {:induction false} CapSplits(i: nat, j: nat, l: nat)
    ensures Cap(i, l) + Cap(j, l) == Cap(i + j, l) + 1
  {
    if l > 0 {
      CapSplits(i, j, l - 1);
    }
  }

  lemma {:induction false} CapMonotone(k: nat, a: nat, l: nat)
    requires a <= l
    ensures 1 <= Cap(k, a) <= Cap(k, l)
    decreases l
  {
    if a < l {
      CapMonotone(k, a, l - 1);
    } else if a > 0 {
      CapMonotone(k, a - 1, l - 1);
    }
  }

  lemma {:induction false} CapStep(i: nat, j: nat, a: nat, b: nat, l: nat)
    requires a <= l && b <= l && i + j > 0
    ensures 1 + Cap(i, a) + Cap(j, b) <= Cap(i + j, l + 1)
  {
    CapMonotone(i, a, l);
    CapMonotone(j, b, l);
    CapSplits(i, j, l);
  }

  /** Halving `n` targets: the halves' logarithms are at most one less than that of the whole. */
  lemma {:induction false} Halves(n: nat) returns (l: nat)
    requires n > 1
    ensures CeilLog2(n) == l + 1 && CeilLog2(n / 2) <= l && CeilLog2(n - n / 2) <= l
  {
    l := CeilLog2((n + 1) / 2);
    CeilLog2Monotone(n / 2, (n + 1) / 2);
    assert n - n / 2 == (n + 1) / 2;
  }

  /** Isolating `k` reverting targets among `n` takes at most `1 + 2 k ceil(log2 n)` requests. */
  lemma {:induction false} BisectCost(chain: Chain, targets: seq<QuoteTarget>, span: Span)
    requires InBounds(span, |targets|)
    ensures |Bisect(chain, targets, span)| <=
      Cap(RevertCount(chain, targets, span.start, span.end), CeilLog2(span.end - span.start))
    decreases span.end - span.start
  {
    var n := span.end - span.start;
    if n > 1 && RevertsIn(chain, targets, span.start, span.end) {
      var mid := Mid(span);
      BisectCost(chain, targets, Span(span.start, mid));
      BisectCost(chain, targets, Span(mid, span.end));
      RevertCountSplits(chain, targets, span.start, mid, span.end);
      RevertCountPositive(chain, targets, span.start, span.end);
      var l := Halves(n);
      CapStep(RevertCount(chain, targets, span.start, mid), RevertCount(chain, targets, mid, span.end),
              CeilLog2(n / 2), CeilLog2(n - n / 2), l);
    } else {
      CapMonotone(RevertCount(chain, targets, span.start, span.end), CeilLog2(n), CeilLog2(n));
    }
  }

  /** The bound is met: isolating one reverting target among `2^m` takes exactly `1 + 2 m` requests. */
  lemma {:induction false} SingleRevertCost(chain: Chain, targets: seq<QuoteTarget>, span: Span, m: nat)
    requires InBounds(span, |targets|) && span.end - span.start == Pow2(m)
    requires RevertCount(chain, targets, span.start, span.end) == 1
    ensures |Bisect(chain, targets, span)| == 1 + 2 * m
    decreases m
  {
    if m > 0 {
      var mid := Mid(span);
      RevertCountSplits(chain, targets, span.start, mid, span.end);
      RevertCountPositive(chain, targets, span.start, span.end);
      RevertCountPositive(chain, targets, span.start, mid);
      RevertCountPositive(chain, targets, mid, span.end);
      if RevertCount(chain, targets, span.start, mid) == 1 {
        SingleRevertCost(chain, targets, Span(span.start, mid), m - 1);
      } else {
        SingleRevertCost(chain, targets, Span(mid, span.end), m - 1);
      }
    }
  }

  /** The floor of the binary logarithm. */
  ghost function FloorLog2(n: nat): nat
    requires n >= 1
  {
    if n == 1 then 0 else 1 + FloorLog2(n / 2)
  }

  lemma {:induction false} FloorLog2Monotone(m: nat, n: nat)
    requires 1 <= m <= n
    ensures FloorLog2(m) <= FloorLog2(n)
  {
    if m > 1 {
      FloorLog2Monotone(m / 2, n / 2);
    }
  }

  lemma {:induction false} LogsAreClose(n: nat)
    requires n >= 1
    ensures FloorLog2(n) <= CeilLog2(n) <= FloorLog2(n) + 1
    ensures n < Pow2(FloorLog2(n) + 1)
  {
    if n > 1 {
      LogsAreClose(n / 2);
      CeilLog2Monotone(n / 2, (n + 1) / 2);
      if (n + 1) / 2 > n / 2 {
        CeilLog2OfNext(n / 2);
      }
    }
  }

  /** One more than `n` needs at most the power of two above the floor. */
  lemma {:induction false} CeilLog2OfNext(n: nat)
    requires n >= 1
    ensures CeilLog2(n + 1) <= FloorLog2(n) + 1
  {
    if n > 1 {
      CeilLog2OfNext(n / 2);
      CeilLog2Monotone((n + 2) / 2, n / 2 + 1);
    }
  }

  lemma {:induction false} RevertsInHalf(chain: Chain, targets: seq<QuoteTarget>, start: nat, mid: nat, end: nat)
    requires start <= mid <= end <= |targets| && RevertsIn(chain, targets, start, end)
    ensures RevertsIn(chain, targets, start, mid) || RevertsIn(chain, targets, mid, end)
  {
    var i :| start <= i < end && chain(targets[i]).Reverts?;
    assert i < mid ==> RevertsIn(chain, targets, start, mid);
  }

  lemma {:induction false} AtLeastOne(chain: Chain, targets: seq<QuoteTarget>, span: Span)
    requires InBounds(span, |targets|)
    ensures |Bisect(chain, targets, span)| >= 1
  {
  }

  /** Isolating any number of reverting targets among `n` takes at least `1 + 2 floor(log2 n)` requests. */
  lemma {:induction false} CostAtLeast(chain: Chain, targets: seq<QuoteTarget>, span: Span)
    requires InBounds(span, |targets|) && RevertsIn(chain, targets, span.start, span.end)
    ensures |Bisect(chain, targets, span)| >= 1 + 2 * FloorLog2(span.end - span.start)
    decreases span.end - span.start
  {
    var n := span.end - span.start;
    if n > 1 {
      var left, right := Span(span.start, Mid(span)), Span(Mid(span), span.end);
      FloorLog2Monotone(n / 2, n - n / 2);
      RevertsInHalf(chain, targets, span.start, Mid(span), span.end);
      if RevertsIn(chain, targets, left.start, left.end) {
        CostAtLeast(chain, targets, left);
      } else {
        CostAtLeast(chain, targets, right);
      }
      AtLeastOne(chain, targets, left);
      AtLeastOne(chain, targets, right);
    }
  }

  // ----- honest endpoints

  lemma {:induction false} ElementsSettle(chain: Chain, s: seq<QuoteTarget>, i: nat)
    requires i < |s| && !AnyReverts(chain, s)
    ensures Interpret(ChainResponse(chain, s), |s|).Ok?
    ensures Interpret(ChainResponse(chain, s), |s|).value[i] == QuoteOne(chain, s[i])
  {
    assert chain(s[i]).Answers?;
  }

  /** What an honest endpoint's answer says: a result list holds every target's own quote, a revert means that some
      target of the slice reverts, and the revert of a single target is that target's own. */
  lemma {:induction false} HonestReply(endpoint: Endpoint, chain: Chain, s: seq<QuoteTarget>, m: nat)
    requires |s| > 0 && OneRaindex(s) && Honest(endpoint, chain)
    ensures var r := Interpret(endpoint(m, s), |s|);
      && (r.Ok? ==> !AnyReverts(chain, s) && forall i :: 0 <= i < |s| ==> r.value[i] == QuoteOne(chain, s[i]))
      && (r.Err? && r.error.ChunkReverted? ==> AnyReverts(chain, s))
      && (r.Err? && r.error.ChunkReverted? && |s| == 1 ==> ChunkErrToQuoteResult(r.error) == QuoteOne(chain, s[0]))
  {
    assert endpoint(m, s) == ChainResponse(chain, s) || FailsOutright(endpoint(m, s), |s|);
    if !AnyReverts(chain, s) {
      forall i | 0 <= i < |s| ensures Interpret(ChainResponse(chain, s), |s|).Ok? &&
          Interpret(ChainResponse(chain, s), |s|).value[i] == QuoteOne(chain, s[i]) {
        ElementsSettle(chain, s, i);
      }
    }
  }

  /** An answer that an honest endpoint settles a target with is the quote of that target on its own. */
  lemma {:induction false} HonestAttribution(endpoint: Endpoint, chain: Chain, targets: seq<QuoteTarget>, i: nat,
                                             q: QuoteResult)
    requires Honest(endpoint, chain) && OneRaindex(targets)
    requires Attributed(endpoint, targets, i, q)
    ensures i < |targets| && q == QuoteOne(chain, targets[i])
  {
    var m: nat, a: nat, b: nat :| SettledAt(endpoint, targets, i, q, m, a, b);
    var s := targets[a..b];
    assert s[i - a] == targets[i];
    HonestReply(endpoint, chain, s, m);
  }

  lemma {:induction false} ReliableNeverRefuses(endpoint: Endpoint, chain: Chain, targets: seq<QuoteTarget>,
                                                error: Error)
    requires Reliable(endpoint, chain) && OneRaindex(targets)
    ensures !Refused(endpoint, targets, error)
  {
    forall m: nat, a: nat, b: nat | !error.ChunkReverted? ensures !RefusedAt(endpoint, targets, error, m, a, b) {
      if a < b <= |targets| {
        var s := targets[a..b];
        assert endpoint(m, s) == ChainResponse(chain, s);
        if !AnyReverts(chain, s) {
          ElementsSettle(chain, s, 0);
        }
      }
    }
  }

  /** Bisection attributes every outcome to its own target: on one honest endpoint a successful attempt is the
      list of the targets' own quotes, and on a reliable one every attempt succeeds. */
  lemma {:induction false} AttemptIsExact(endpoint: Endpoint, chain: Chain, targets: seq<QuoteTarget>, r: ChunkResult)
    requires Honest(endpoint, chain) && OneRaindex(targets) && AttemptOutcome(endpoint, targets, r)
    ensures r.Ok? ==> |r.value| == |targets|
    ensures r.Ok? ==> forall i :: 0 <= i < |targets| ==> IsQuoteOf(r.value[i], chain(targets[i]))
    ensures r.Ok? ==> r.value == seq(|targets|, i requires 0 <= i < |targets| => QuoteOne(chain, targets[i]))
    ensures Reliable(endpoint, chain) ==> r.Ok?
  {
    if r.Ok? {
      forall i | 0 <= i < |targets| ensures r.value[i] == QuoteOne(chain, targets[i]) {
        HonestAttribution(endpoint, chain, targets, i, r.value[i]);
      }
    } else if Reliable(endpoint, chain) {
      ReliableNeverRefuses(endpoint, chain, targets, r.error);
    }
  }

  // ----- the requests of an attempt

  /** A request, when it was made, and how it went. */
  datatype Exchange = Exchange(span: Span, moment: nat, outcome: ChunkResult) {
    predicate Reverted() { outcome.Err? && outcome.error.ChunkReverted? }
  }

  ghost function Spans(trace: seq<Exchange>): seq<Span> {
    seq(|trace|, i requires 0 <= i < |trace| => trace[i].span)
  }

  /** Every outcome in the trace is the endpoint's answer to that part of the targets at that moment. */
  ghost predicate Genuine(endpoint: Endpoint, targets: seq<QuoteTarget>, trace: seq<Exchange>) {
    forall k :: 0 <= k < |trace| ==> InBounds(trace[k].span, |targets|) && GenuineExchange(endpoint, targets, trace[k])
  }

  ghost predicate GenuineExchange(endpoint: Endpoint, targets: seq<QuoteTarget>, x: Exchange)
    requires InBounds(x.span, |targets|)
  {
    x.outcome == Interpret(endpoint(x.moment, targets[x.span.start..x.span.end]), x.span.end - x.span.start)
  }

  /** Every request came back with results or with a revert. */
  ghost predicate NoFailure(trace: seq<Exchange>) {
    forall k :: 0 <= k < |trace| ==> trace[k].outcome.Ok? || trace[k].Reverted()
  }

  /** `q` is what the exchange says about target `i`. */
  ghost predicate Settles(x: Exchange, i: nat, q: QuoteResult) {
    x.span.start <= i < x.span.end &&
    match x.outcome
    case Ok(results) => i - x.span.start < |results| && q == results[i - x.span.start]
    case Err(error) => error.ChunkReverted? && x.span.end - x.span.start == 1 && q == ChunkErrToQuoteResult(error)
  }

  /** The first `done` slots are filled, slot `i` by exchange `source[i]`. */
  ghost predicate Filled(trace: seq<Exchange>, slots: seq<Option<QuoteResult>>, source: seq<nat>) {
    |source| <= |slots| &&
    forall i :: 0 <= i < |source| ==>
      slots[i].Some? && source[i] < |trace| && Settles(trace[source[i]], i, slots[i].value)
  }

  lemma {:induction false} SettlesAttributes(endpoint: Endpoint, targets: seq<QuoteTarget>, x: Exchange, i: nat,
                                             q: QuoteResult)
    requires InBounds(x.span, |targets|) && GenuineExchange(endpoint, targets, x) && Settles(x, i, q)
    ensures Attributed(endpoint, targets, i, q)
  {
    assert SettledAt(endpoint, targets, i, q, x.moment, x.span.start, x.span.end);
  }

  lemma {:induction false} FailureRefuses(endpoint: Endpoint, targets: seq<QuoteTarget>, x: Exchange)
    requires InBounds(x.span, |targets|) && GenuineExchange(endpoint, targets, x)
    requires x.outcome.Err? && !x.outcome.error.ChunkReverted?
    ensures Refused(endpoint, targets, x.outcome.error)
  {
    assert RefusedAt(endpoint, targets, x.outcome.error, x.moment, x.span.start, x.span.end);
  }

  lemma {:induction false} FilledAttributes(endpoint: Endpoint, targets: seq<QuoteTarget>, trace: seq<Exchange>,
                         slots: seq<Option<QuoteResult>>, source: seq<nat>)
    requires Genuine(endpoint, targets, trace) && Filled(trace, slots, source)
    ensures forall i :: 0 <= i < |source| ==> Attributed(endpoint, targets, i, slots[i].value)
  {
    forall i | 0 <= i < |source| ensures Attributed(endpoint, targets, i, slots[i].value) {
      SettlesAttributes(endpoint, targets, trace[source[i]], i, slots[i].value);
    }
  }

  /** The pending stack after its top was requested: a reverted span of several targets is replaced by its halves, the
      left half on top; any other span is just taken off. */
  ghost function AfterRequest(pending: seq<Span>, x: Exchange): seq<Span>
    requires |pending| > 0
  {
    var rest := pending[..|pending| - 1];
    if x.Reverted() && x.span.end - x.span.start > 1 then
      rest + [Span(Mid(x.span), x.span.end), Span(x.span.start, Mid(x.span))]
    else rest
  }

  /** The pending stack after the given requests, starting with all `n` targets pending. */
  ghost function StackAfter(n: nat, steps: seq<Exchange>): seq<Span> {
    if |steps| == 0 then [Span(0, n)]
    else
      var pending := StackAfter(n, steps[..|steps| - 1]);
      if |pending| == 0 then [] else AfterRequest(pending, steps[|steps| - 1])
  }

  /** Every request is for the span on top of the stack at that time. */
  ghost predicate StackRun(n: nat, steps: seq<Exchange>) {
    |steps| == 0 ||
    (var before := steps[..|steps| - 1];
     var pending := StackAfter(n, before);
     StackRun(n, before) && |pending| > 0 && steps[|steps| - 1].span == pending[|pending| - 1])
  }

  /** How many targets, from the left, are settled after the given requests. */
  ghost function SettledAfter(steps: seq<Exchange>): nat {
    if |steps| == 0 then 0
    else
      var x := steps[|steps| - 1];
      if x.Reverted() && x.span.end - x.span.start > 1 then SettledAfter(steps[..|steps| - 1]) else x.span.end
  }

  /** The pending stack, read from its top, is a run of adjacent nonempty spans from `from` to `n`. */
  ghost predicate Tiles(pending: seq<Span>, from: nat, n: nat) {
    if |pending| == 0 then from == n
    else
      var top := pending[|pending| - 1];
      top.start == from && InBounds(top, n) && Tiles(pending[..|pending| - 1], top.end, n)
  }

  /** An upper bound on the requests the pending stack can still cause. */
  ghost function Weight(pending: seq<Span>): nat {
    if |pending| == 0 then 0
    else
      var top := pending[|pending| - 1];
      Weight(pending[..|pending| - 1]) + (if top.start < top.end then 2 * (top.end - top.start) - 1 else 0)
  }

  /** Spans deeper in the stack are the larger ones. */
  ghost predicate DepthBound(pending: seq<Span>, levels: nat) {
    forall j :: 0 <= j < |pending| ==>
      && pending[j].start < pending[j].end
      && CeilLog2(pending[j].end - pending[j].start) + j + (if j == |pending| - 1 then 0 else 1) <= levels
  }

  lemma {:induction false} RequestTiles(pending: seq<Span>, x: Exchange, from: nat, n: nat)
    requires |pending| > 0 && Tiles(pending, from, n) && x.span == pending[|pending| - 1]
    ensures var split := x.Reverted() && x.span.end - x.span.start > 1;
      Tiles(AfterRequest(pending, x), if split then from else x.span.end, n) &&
      Weight(AfterRequest(pending, x)) < Weight(pending)
  {
    var rest := pending[..|pending| - 1];
    var deeper := rest + [Span(Mid(x.span), x.span.end)];
    var halves := rest + [Span(Mid(x.span), x.span.end), Span(x.span.start, Mid(x.span))];
    assert halves[..|halves| - 1] == deeper && deeper[..|deeper| - 1] == rest;
  }

  /** The stack is always an adjacent run of nonempty spans right after the settled prefix, and what it can still cause
      shrinks with every request. */
  lemma {:induction false} StackTiles(n: nat, steps: seq<Exchange>)
    requires n > 0 && StackRun(n, steps)
    ensures Tiles(StackAfter(n, steps), SettledAfter(steps), n)
    ensures |steps| + Weight(StackAfter(n, steps)) <= 2 * n - 1
  {
    if |steps| == 0 {
      assert [Span(0, n)][..0] == [];
    } else {
      StackTiles(n, steps[..|steps| - 1]);
      RequestTiles(StackAfter(n, steps[..|steps| - 1]), steps[|steps| - 1], SettledAfter(steps[..|steps| - 1]), n);
    }
  }

  lemma {:induction false} StackTop(n: nat, steps: seq<Exchange>)
    requires n > 0 && StackRun(n, steps)
    ensures var pending := StackAfter(n, steps);
      if |pending| == 0 then SettledAfter(steps) == n
      else InBounds(pending[|pending| - 1], n) && pending[|pending| - 1].start == SettledAfter(steps) &&
           |steps| < 2 * n - 1
  {
    StackTiles(n, steps);
  }

  lemma {:induction false} RequestDepth(pending: seq<Span>, x: Exchange, levels: nat)
    requires |pending| > 0 && x.span == pending[|pending| - 1] && DepthBound(pending, levels)
    ensures DepthBound(AfterRequest(pending, x), levels)
  {
    var after := AfterRequest(pending, x);
    forall j | 0 <= j < |pending| - 1 ensures after[j] == pending[j] {
    }
    var len := x.span.end - x.span.start;
    if x.Reverted() && len > 1 {
      CeilLog2Monotone(len / 2, (len + 1) / 2);
    }
  }

  lemma {:induction false} StackDepth(n: nat, steps: seq<Exchange>)
    requires n > 0 && StackRun(n, steps)
    ensures DepthBound(StackAfter(n, steps), CeilLog2(n))
    ensures |StackAfter(n, steps)| <= CeilLog2(n) + 1
  {
    if |steps| > 0 {
      StackDepth(n, steps[..|steps| - 1]);
      RequestDepth(StackAfter(n, steps[..|steps| - 1]), steps[|steps| - 1], CeilLog2(n));
    }
  }

  /** The outcome is what the chain says about the span: a revert if some target of it reverts, a list otherwise. */
  ghost predicate Reports(chain: Chain, targets: seq<QuoteTarget>, x: Exchange) {
    InBounds(x.span, |targets|) &&
    (x.outcome.Ok? || x.Reverted()) &&
    (x.Reverted() <==> RevertsIn(chain, targets, x.span.start, x.span.end))
  }

  /** The requests the recursive bisection makes for the pending stack, top first. */
  ghost function Outstanding(chain: Chain, targets: seq<QuoteTarget>, pending: seq<Span>): seq<Span> {
    if |pending| == 0 then []
    else
      var top := pending[|pending| - 1];
      (if InBounds(top, |targets|) then Bisect(chain, targets, top) else []) +
      Outstanding(chain, targets, pending[..|pending| - 1])
  }

  lemma {:induction false} OutstandingPush(chain: Chain, targets: seq<QuoteTarget>, rest: seq<Span>, top: Span)
    requires InBounds(top, |targets|)
    ensures Outstanding(chain, targets, rest + [top]) == Bisect(chain, targets, top) + Outstanding(chain, targets, rest)
  {
    assert (rest + [top])[..|rest|] == rest;
  }

  lemma {:induction false} RequestOutstanding(chain: Chain, targets: seq<QuoteTarget>, pending: seq<Span>, x: Exchange)
    requires |pending| > 0 && x.span == pending[|pending| - 1] && Reports(chain, targets, x)
    ensures Outstanding(chain, targets, pending) == [x.span] + Outstanding(chain, targets, AfterRequest(pending, x))
  {
    var rest := pending[..|pending| - 1];
    var left, right := Span(x.span.start, Mid(x.span)), Span(Mid(x.span), x.span.end);
    assert pending == rest + [x.span];
    OutstandingPush(chain, targets, rest, x.span);
    if x.Reverted() && x.span.end - x.span.start > 1 {
      OutstandingPush(chain, targets, rest, right);
      OutstandingPush(chain, targets, rest + [right], left);
      assert AfterRequest(pending, x) == rest + [right] + [left];
    }
  }

  /** On consistent state the stack machine makes the requests of the recursive bisection, in the same order. */
  lemma {:induction false} StackIsRecursion(chain: Chain, targets: seq<QuoteTarget>, steps: seq<Exchange>)
    requires |targets| > 0 && StackRun(|targets|, steps)
    requires forall k :: 0 <= k < |steps| ==> Reports(chain, targets, steps[k])
    ensures Bisect(chain, targets, Span(0, |targets|)) ==
      Spans(steps) + Outstanding(chain, targets, StackAfter(|targets|, steps))
  {
    StackFollows(chain, targets, steps);
    OutstandingPush(chain, targets, [], Span(0, |targets|));
    assert [] + [Span(0, |targets|)] == [Span(0, |targets|)];
  }

  lemma {:induction false} StackFollows(chain: Chain, targets: seq<QuoteTarget>, steps: seq<Exchange>)
    requires StackRun(|targets|, steps)
    requires forall k :: 0 <= k < |steps| ==> Reports(chain, targets, steps[k])
    ensures Outstanding(chain, targets, [Span(0, |targets|)]) ==
      Spans(steps) + Outstanding(chain, targets, StackAfter(|targets|, steps))
  {
    var n := |targets|;
    if |steps| > 0 {
      var before, x := steps[..|steps| - 1], steps[|steps| - 1];
      StackFollows(chain, targets, before);
      var pending := StackAfter(n, before);
      assert Outstanding(chain, targets, pending) ==
             [x.span] + Outstanding(chain, targets, AfterRequest(pending, x)) by {
        RequestOutstanding(chain, targets, pending, x);
      }
      assert Spans(steps) == Spans(before) + [x.span];
      Regroup(Spans(before), x.span, Outstanding(chain, targets, AfterRequest(pending, x)));
    }
  }

  lemma {:induction false} Regroup(a: seq<Span>, x: Span, b: seq<Span>)
    ensures a + ([x] + b) == a + [x] + b
  {
  }

  // ----- the code

  method QuoteChunkOnce(targets: seq<QuoteTarget>, endpoint: Endpoint) returns (outcome: ChunkResult, ghost moment: nat)
    requires |targets| > 0 && OneRaindex(targets)
    ensures outcome == Interpret(endpoint(moment, targets), |targets|)
    ensures outcome.Ok? ==> |outcome.value| == |targets|
    ensures match endpoint(moment, targets)
            case Returned(elements) =>
              if |elements| != |targets| then outcome == Err(SolTypesError(LengthMismatch(|targets|, |elements|)))
              else outcome.Ok? && forall i :: 0 <= i < |targets| ==> IsElement(outcome.value[i], elements[i])
            case RevertData(Ok(text)) => outcome == Err(ChunkReverted(RevertError(text)))
            case RevertData(Err(reason)) => outcome == Err(ChunkReverted(RevertErrorDecodeFailed(reason)))
            case _ => outcome.Err? && IsFailure(outcome.error, endpoint(moment, targets), |targets|)
  {
    var now: nat := *;
    moment := now;
    match endpoint(now, targets)
    case Returned(decoded) =>
      if |decoded| != |targets| {
        return Err(SolTypesError(LengthMismatch(|targets|, |decoded|))), now;
      }
      var results: seq<QuoteResult> := [];
      for i := 0 to |decoded|
        invariant |results| == i
        invariant forall j :: 0 <= j < i ==> results[j] == ElementResult(decoded[j])
      {
        match decoded[i]
        case Quote3(found, value) =>
          if found {
            results := results + [Ok(value)];
          } else {
            results := results + [Err(NonExistent)];
          }
        case Garbled(reason) =>
          results := results + [Err(CorruptReturnData(ElementUndecodable(reason)))];
      }
      assert results == seq(|targets|, i requires 0 <= i < |targets| => ElementResult(decoded[i]));
      outcome := Ok(results);
    case Undecodable(reason) => outcome := Err(SolTypesError(MulticallUndecodable(reason)));
    case RevertData(decoded) =>
      var failed := match decoded
                    case Ok(text) => RevertError(text)
                    case Err(reason) => RevertErrorDecodeFailed(reason);
      outcome := Err(ChunkReverted(failed));
    case ErrorWithoutRevert(text) => outcome := Err(TransportError(NoRevertData(text)));
    case Failure(text) => outcome := Err(TransportError(ProviderError(text)));
    case TimedOut => outcome := Err(TransportError(AttemptTimedOut));
  }

  method StoreAll(slots: seq<Option<QuoteResult>>, start: nat, results: seq<QuoteResult>)
    returns (stored: seq<Option<QuoteResult>>)
    requires start + |results| <= |slots|
    ensures |stored| == |slots|
    ensures forall i :: 0 <= i < |slots| ==>
      stored[i] == if start <= i < start + |results| then Some(results[i - start]) else slots[i]
  {
    stored := slots;
    for offset := 0 to |results|
      invariant |stored| == |slots|
      invariant forall i :: 0 <= i < |slots| ==>
        stored[i] == if start <= i < start + offset then Some(results[i - start]) else slots[i]
    {
      stored := stored[start + offset := Some(results[offset])];
    }
  }

  /** What an attempt did: the whole chunk is asked first; only a revert of several targets goes on to the work stack,
      which starts with the whole chunk again and ends empty unless an answer is a failure other than a revert. */
  ghost predicate AttemptTrace(endpoint: Endpoint, targets: seq<QuoteTarget>, r: ChunkResult, trace: seq<Exchange>) {
    && |trace| > 0 && trace[0].span == Span(0, |targets|) && Genuine(endpoint, targets, trace)
    && (|trace| > 1 <==> |targets| > 1 && trace[0].Reverted())
    && (|trace| > 1 ==> StackRun(|targets|, trace[1..]))
    && (|trace| > 1 && r.Ok? ==> |StackAfter(|targets|, trace[1..])| == 0)
    && NoFailure(trace[..|trace| - 1])
    && (r.Ok? <==> trace[|trace| - 1].outcome.Ok? || trace[|trace| - 1].Reverted())
    && (r.Err? ==> trace[|trace| - 1].outcome == r)
  }

  lemma {:induction false} StepRun(n: nat, before: seq<Exchange>, y: Exchange)
    requires StackRun(n, before) && |StackAfter(n, before)| > 0
    requires y.span == StackAfter(n, before)[|StackAfter(n, before)| - 1]
    ensures StackRun(n, before + [y])
    ensures StackAfter(n, before + [y]) == AfterRequest(StackAfter(n, before), y)
    ensures SettledAfter(before + [y]) ==
      if y.Reverted() && y.span.end - y.span.start > 1 then SettledAfter(before) else y.span.end
  {
    assert (before + [y])[..|before|] == before;
  }

  lemma {:induction false} GenuineNext(endpoint: Endpoint, targets: seq<QuoteTarget>, before: seq<Exchange>,
                                       y: Exchange)
    requires Genuine(endpoint, targets, before)
    requires InBounds(y.span, |targets|) && GenuineExchange(endpoint, targets, y)
    ensures Genuine(endpoint, targets, before + [y])
  {
  }

  /** The state of the bisection loop: a genuine stack run without failures, whose settled prefix is stored. */
  ghost predicate Progress(endpoint: Endpoint, targets: seq<QuoteTarget>, steps: seq<Exchange>,
                           slots: seq<Option<QuoteResult>>, source: seq<nat>)
  {
    && StackRun(|targets|, steps) && Genuine(endpoint, targets, steps) && NoFailure(steps)
    && |slots| == |targets| && |source| == SettledAfter(steps) && Filled(steps, slots, source)
  }

  lemma {:induction false} Advance(endpoint: Endpoint, targets: seq<QuoteTarget>, before: seq<Exchange>, y: Exchange,
                                   slots: seq<Option<QuoteResult>>, source: seq<nat>,
                                   slots': seq<Option<QuoteResult>>)
    returns (source': seq<nat>)
    requires Progress(endpoint, targets, before, slots, source) && |StackAfter(|targets|, before)| > 0
    requires y.span == StackAfter(|targets|, before)[|StackAfter(|targets|, before)| - 1]
    requires InBounds(y.span, |targets|) && GenuineExchange(endpoint, targets, y) && y.span.start == |source|
    requires y.outcome.Ok? || y.Reverted()
    requires |slots'| == |slots| && forall i :: 0 <= i < |source| ==> slots'[i] == slots[i]
    requires y.outcome.Ok? || y.span.end - y.span.start == 1 ==>
      forall i :: y.span.start <= i < y.span.end ==> slots'[i].Some? && Settles(y, i, slots'[i].value)
    ensures Progress(endpoint, targets, before + [y], slots', source')
    ensures StackAfter(|targets|, before + [y]) == AfterRequest(StackAfter(|targets|, before), y)
  {
    StepRun(|targets|, before, y);
    GenuineNext(endpoint, targets, before, y);
    if y.Reverted() && y.span.end - y.span.start > 1 {
      source' := source;
    } else {
      source' := source + seq(y.span.end - y.span.start, _ => |before|);
    }
  }

  lemma {:induction false} Stop(endpoint: Endpoint, targets: seq<QuoteTarget>, before: seq<Exchange>, y: Exchange)
    requires StackRun(|targets|, before) && Genuine(endpoint, targets, before) && NoFailure(before)
    requires |StackAfter(|targets|, before)| > 0
    requires y.span == StackAfter(|targets|, before)[|StackAfter(|targets|, before)| - 1]
    requires InBounds(y.span, |targets|) && GenuineExchange(endpoint, targets, y)
    requires y.outcome.Err? && !y.outcome.error.ChunkReverted?
    ensures StackRun(|targets|, before + [y]) && Genuine(endpoint, targets, before + [y])
    ensures NoFailure((before + [y])[..|before|])
    ensures Refused(endpoint, targets, y.outcome.error)
  {
    assert StackRun(|targets|, before + [y]) by {
      StepRun(|targets|, before, y);
    }
    GenuineNext(endpoint, targets, before, y);
    FailureRefuses(endpoint, targets, y);
    assert (before + [y])[..|before|] == before;
  }

  /** Request one span and store what settles its targets: its results, or the revert of a single target. */
  method RequestSpan(targets: seq<QuoteTarget>, endpoint: Endpoint, span: Span, slots: seq<Option<QuoteResult>>)
    returns (outcome: ChunkResult, stored: seq<Option<QuoteResult>>, ghost x: Exchange)
    requires OneRaindex(targets) && InBounds(span, |targets|) && |slots| == |targets|
    ensures x.span == span && x.outcome == outcome && GenuineExchange(endpoint, targets, x)
    ensures |stored| == |slots|
    ensures forall i :: 0 <= i < span.start ==> stored[i] == slots[i]
    ensures outcome.Ok? || (x.Reverted() && span.end - span.start == 1) ==>
      forall i :: span.start <= i < span.end ==> stored[i].Some? && Settles(x, i, stored[i].value)
    ensures outcome.Err? && !(x.Reverted() && span.end - span.start == 1) ==> stored == slots
  {
    stored := slots;
    var chunk := targets[span.start..span.end];
    ghost var moment;
    outcome, moment := QuoteChunkOnce(chunk, endpoint);
    x := Exchange(span, moment, outcome);
    match outcome
    case Ok(results) => stored := StoreAll(slots, span.start, results);
    case Err(err) =>
      if err.ChunkReverted? && |chunk| == 1 {
        stored := slots[span.start := Some(ChunkErrToQuoteResult(err))];
      }
  }

  lemma {:induction false} PushHalves(stack: seq<Span>, x: Exchange)
    requires |stack| > 0
    ensures AfterRequest(stack, x) ==
      if x.outcome.Err? && x.outcome.error.ChunkReverted? && x.span.end - x.span.start > 1 then
        stack[..|stack| - 1] + [Span(Mid(x.span), x.span.end)] + [Span(x.span.start, Mid(x.span))]
      else stack[..|stack| - 1]
  {
  }

  /** The bisection has come to a failure other than a revert, with its last request. */
  ghost predicate Stopped(endpoint: Endpoint, targets: seq<QuoteTarget>, steps: seq<Exchange>, error: Error) {
    && |steps| > 0 && Genuine(endpoint, targets, steps) && StackRun(|targets|, steps)
    && NoFailure(steps[..|steps| - 1]) && steps[|steps| - 1].outcome == Err(error)
    && !error.ChunkReverted? && Refused(endpoint, targets, error)
  }

  /** Take the top span off; if it reverted and has several targets, push its halves, the left one last. */
  method PopOrSplit(pending: seq<Span>, outcome: ChunkResult, ghost x: Exchange) returns (pending': seq<Span>)
    requires |pending| > 0 && x.span == pending[|pending| - 1] && x.outcome == outcome
    requires outcome.Ok? || x.Reverted()
    ensures pending' == AfterRequest(pending, x)
  {
    PushHalves(pending, x);
    var top := pending[|pending| - 1];
    pending' := pending[..|pending| - 1];
    if outcome.Err? && top.end - top.start > 1 {
      var mid := top.start + (top.end - top.start) / 2;
      pending' := pending' + [Span(mid, top.end)];
      pending' := pending' + [Span(top.start, mid)];
    }
  }

  lemma {:induction false} Round(endpoint: Endpoint, targets: seq<QuoteTarget>, before: seq<Exchange>, y: Exchange,
                                 slots: seq<Option<QuoteResult>>, source: seq<nat>, slots': seq<Option<QuoteResult>>)
    returns (source': seq<nat>)
    requires Progress(endpoint, targets, before, slots, source) && |StackAfter(|targets|, before)| > 0
    requires y.span == StackAfter(|targets|, before)[|StackAfter(|targets|, before)| - 1]
    requires InBounds(y.span, |targets|) && GenuineExchange(endpoint, targets, y) && y.span.start == |source|
    requires |slots'| == |slots| && forall i :: 0 <= i < |source| ==> slots'[i] == slots[i]
    requires y.outcome.Ok? || (y.Reverted() && y.span.end - y.span.start == 1) ==>
      forall i :: y.span.start <= i < y.span.end ==> slots'[i].Some? && Settles(y, i, slots'[i].value)
    ensures y.outcome.Ok? || y.Reverted() ==>
      Progress(endpoint, targets, before + [y], slots', source') &&
      StackAfter(|targets|, before + [y]) == AfterRequest(StackAfter(|targets|, before), y)
    ensures y.outcome.Err? && !y.Reverted() ==> Stopped(endpoint, targets, before + [y], y.outcome.error)
  {
    source' := source;
    if y.outcome.Ok? || y.Reverted() {
      source' := Advance(endpoint, targets, before, y, slots, source, slots');
    } else {
      Stop(endpoint, targets, before, y);
    }
  }

  /** One round of the bisection: pop a span, request it, and store its results, split it, or give up. */
  method PopAndRequest(targets: seq<QuoteTarget>, endpoint: Endpoint, pending: seq<Span>,
                       slots: seq<Option<QuoteResult>>, ghost steps: seq<Exchange>, ghost source: seq<nat>)
    returns (failure: Option<Error>, pending': seq<Span>, slots': seq<Option<QuoteResult>>, ghost steps': seq<Exchange>,
             ghost source': seq<nat>)
    requires OneRaindex(targets) && Progress(endpoint, targets, steps, slots, source)
    requires |targets| > 0 && |pending| > 0 && pending == StackAfter(|targets|, steps)
    ensures |steps'| == |steps| + 1 < 2 * |targets|
    ensures failure.None? ==>
      Progress(endpoint, targets, steps', slots', source') && pending' == StackAfter(|targets|, steps')
    ensures failure.Some? ==> Stopped(endpoint, targets, steps', failure.value)
  {
    StackTop(|targets|, steps);
    var outcome;
    ghost var y;
    outcome, slots', y := RequestSpan(targets, endpoint, pending[|pending| - 1], slots);
    steps' := steps + [y];
    source' := Round(endpoint, targets, steps, y, slots, source, slots');
    if outcome.Err? && !outcome.error.ChunkReverted? {
      failure, pending' := Some(outcome.error), pending;
    } else {
      failure := None;
      pending' := PopOrSplit(pending, outcome, y);
    }
  }

  lemma {:induction false} NothingRequested(endpoint: Endpoint, targets: seq<QuoteTarget>,
                                            slots: seq<Option<QuoteResult>>)
    requires |slots| == |targets|
    ensures Progress(endpoint, targets, [], slots, []) && StackAfter(|targets|, []) == [Span(0, |targets|)]
  {
  }

  /** When the stack is empty every slot is filled with a genuine answer. */
  lemma {:induction false} AllSettled(endpoint: Endpoint, targets: seq<QuoteTarget>, steps: seq<Exchange>,
                                      slots: seq<Option<QuoteResult>>, source: seq<nat>)
    requires |targets| > 0 && Progress(endpoint, targets, steps, slots, source) && |StackAfter(|targets|, steps)| == 0
    ensures |steps| > 0 && Genuine(endpoint, targets, steps) && StackRun(|targets|, steps) && NoFailure(steps)
    ensures forall i :: 0 <= i < |targets| ==> slots[i].Some? && Attributed(endpoint, targets, i, slots[i].value)
  {
    StackTop(|targets|, steps);
    FilledAttributes(endpoint, targets, steps, slots, source);
  }

  /** The bisection loop runs until nothing is pending, or stops at the first failure that is not a revert. */
  method DrainStack(targets: seq<QuoteTarget>, endpoint: Endpoint)
    returns (failure: Option<Error>, resolved: seq<Option<QuoteResult>>, ghost steps: seq<Exchange>)
    requires |targets| > 1 && OneRaindex(targets)
    ensures Genuine(endpoint, targets, steps) && StackRun(|targets|, steps) && |steps| > 0
    ensures failure.None? ==> |StackAfter(|targets|, steps)| == 0 && NoFailure(steps)
    ensures failure.None? ==> |resolved| == |targets|
    ensures failure.None? ==>
      forall i :: 0 <= i < |targets| ==> resolved[i].Some? && Attributed(endpoint, targets, i, resolved[i].value)
    ensures failure.Some? ==> steps[|steps| - 1].outcome == Err(failure.value) && NoFailure(steps[..|steps| - 1])
    ensures failure.Some? ==> !failure.value.ChunkReverted? && Refused(endpoint, targets, failure.value)
  {
    resolved := seq(|targets|, _ => None);
    var pending := [Span(0, |targets|)];
    steps := [];
    ghost var source: seq<nat> := [];
    NothingRequested(endpoint, targets, resolved);
    while |pending| > 0
      invariant Progress(endpoint, targets, steps, resolved, source)
      invariant pending == StackAfter(|targets|, steps)
      decreases 2 * |targets| - |steps|
    {
      failure, pending, resolved, steps, source :=
        PopAndRequest(targets, endpoint, pending, resolved, steps, source);
      if failure.Some? {
        return;
      }
    }
    AllSettled(endpoint, targets, steps, resolved, source);
    failure := None;
  }

  method QuoteChunkWithProbeAndSplit(targets: seq<QuoteTarget>, endpoint: Endpoint)
    returns (r: ChunkResult, ghost trace: seq<Exchange>)
    requires |targets| > 0 && OneRaindex(targets)
    ensures AttemptOutcome(endpoint, targets, r)
    ensures AttemptTrace(endpoint, targets, r, trace)
  {
    var n := |targets|;
    ghost var moment;
    var first;
    first, moment := QuoteChunkOnce(targets, endpoint);
    ghost var x := Exchange(Span(0, n), moment, first);
    trace := [x];
    assert targets[0..n] == targets;
    assert GenuineExchange(endpoint, targets, x);
    if first.Ok? {
      forall i | 0 <= i < n ensures Attributed(endpoint, targets, i, first.value[i]) {
        SettlesAttributes(endpoint, targets, x, i, first.value[i]);
      }
      return first, trace;
    }
    var initialErr := first.error;
    if !initialErr.ChunkReverted? {
      FailureRefuses(endpoint, targets, x);
    }
    if initialErr.TransportError? {
      return Err(initialErr), trace;
    }
    if n <= 1 {
      if initialErr.ChunkReverted? {
        SettlesAttributes(endpoint, targets, x, 0, ChunkErrToQuoteResult(initialErr));
        return Ok([ChunkErrToQuoteResult(initialErr)]), trace;
      } else {
        return Err(initialErr), trace;
      }
    }
    if !initialErr.ChunkReverted? {
      return Err(initialErr), trace;
    }

    var failure, resolved;
    ghost var steps: seq<Exchange>;
    failure, resolved, steps := DrainStack(targets, endpoint);
    trace := [x] + steps;
    assert trace[1..] == steps && trace[..|trace| - 1] == [x] + steps[..|steps| - 1];
    if failure.Some? {
      return Err(failure.value), trace;
    }
    r := Ok(seq(n, i requires 0 <= i < n =>
      if i < |resolved| && resolved[i].Some? then resolved[i].value else SingleQuoteFailure(initialErr)));
  }

  // ----- what an attempt costs

  /** At most `2n` requests for `n > 1` targets, whatever the endpoint does; and exactly one unless the first answer is
      the revert of several targets. */
  lemma {:induction false} RequestBound(endpoint: Endpoint, targets: seq<QuoteTarget>, r: ChunkResult,
                                        trace: seq<Exchange>)
    requires |targets| > 0 && AttemptTrace(endpoint, targets, r, trace)
    ensures |trace| <= 2 * |targets|
    ensures |targets| == 1 || !trace[0].Reverted() ==> |trace| == 1
  {
    if |trace| > 1 {
      StackTiles(|targets|, trace[1..]);
    }
  }

  lemma {:induction false} RunPrefix(n: nat, steps: seq<Exchange>, k: nat)
    requires StackRun(n, steps) && k <= |steps|
    ensures StackRun(n, steps[..k])
  {
    if k == |steps| {
      assert steps[..k] == steps;
    } else {
      RunPrefix(n, steps[..|steps| - 1], k);
      assert steps[..|steps| - 1][..k] == steps[..k];
    }
  }

  /** Whatever the endpoint does, the work stack never holds more than `ceil(log2 n) + 1` spans. */
  lemma {:induction false} StackBound(endpoint: Endpoint, targets: seq<QuoteTarget>, r: ChunkResult,
                                      trace: seq<Exchange>, k: nat)
    requires |targets| > 0 && AttemptTrace(endpoint, targets, r, trace) && 1 <= k <= |trace| && |trace| > 1
    ensures |StackAfter(|targets|, trace[1..k])| <= CeilLog2(|targets|) + 1
  {
    RunPrefix(|targets|, trace[1..], k - 1);
    assert trace[1..][..k - 1] == trace[1..k];
    StackDepth(|targets|, trace[1..k]);
  }

  lemma {:induction false} HonestReports(endpoint: Endpoint, chain: Chain, targets: seq<QuoteTarget>, x: Exchange)
    requires Honest(endpoint, chain) && OneRaindex(targets)
    requires InBounds(x.span, |targets|) && GenuineExchange(endpoint, targets, x)
    requires x.outcome.Ok? || x.Reverted()
    ensures Reports(chain, targets, x)
  {
    var s := targets[x.span.start..x.span.end];
    HonestReply(endpoint, chain, s, x.moment);
    if RevertsIn(chain, targets, x.span.start, x.span.end) {
      var i :| x.span.start <= i < x.span.end && chain(targets[i]).Reverts?;
      assert s[i - x.span.start] == targets[i];
    }
  }

  /** All but the last exchange of an attempt's bisection came back with results or a revert, and so did the last one if
      the attempt succeeded. */
  lemma {:induction false} TailOfTrace(endpoint: Endpoint, targets: seq<QuoteTarget>, r: ChunkResult,
                                       trace: seq<Exchange>)
    requires AttemptTrace(endpoint, targets, r, trace) && |trace| > 1
    ensures Genuine(endpoint, targets, trace[1..]) && NoFailure(trace[1..][..|trace| - 2])
    ensures r.Ok? ==> NoFailure(trace[1..])
  {
    forall k | 0 <= k < |trace[1..]|
      ensures InBounds(trace[1..][k].span, |targets|) && GenuineExchange(endpoint, targets, trace[1..][k])
      ensures k + 1 < |trace| - 1 || r.Ok? ==> trace[1..][k].outcome.Ok? || trace[1..][k].Reverted()
    {
      assert trace[1..][k] == trace[k + 1];
      assert k + 1 < |trace| - 1 ==> trace[..|trace| - 1][k + 1] == trace[k + 1];
    }
  }

  lemma {:induction false} SpansSplit(trace: seq<Exchange>)
    requires |trace| > 0
    ensures Spans(trace) == [trace[0].span] + Spans(trace[1..])
  {
  }

  /** What an honest endpoint is asked about a chunk when nothing fails: the whole chunk, and after a revert of several
      targets the recursive bisection, which starts with the whole chunk again. */
  ghost function FullRequests(chain: Chain, targets: seq<QuoteTarget>): seq<Span>
    requires |targets| > 0
  {
    [Span(0, |targets|)] +
    (if |targets| > 1 && RevertsIn(chain, targets, 0, |targets|) then Bisect(chain, targets, Span(0, |targets|))
     else [])
  }

  /** The requests of an attempt on an honest endpoint: all of them if it succeeds, and otherwise those up to the
      failure. */
  lemma {:induction false} HonestRequests(endpoint: Endpoint, chain: Chain, targets: seq<QuoteTarget>, r: ChunkResult,
                                          trace: seq<Exchange>)
    requires |targets| > 0 && OneRaindex(targets) && Honest(endpoint, chain)
    requires AttemptTrace(endpoint, targets, r, trace)
    ensures Spans(trace) <= FullRequests(chain, targets)
    ensures r.Ok? ==> Spans(trace) == FullRequests(chain, targets)
  {
    SpansSplit(trace);
    if |trace| > 1 {
      HonestReports(endpoint, chain, targets, trace[0]);
      TailOfTrace(endpoint, targets, r, trace);
      if r.Ok? {
        HonestSteps(endpoint, chain, targets, trace[1..]);
      } else {
        HonestStepsSoFar(endpoint, chain, targets, trace[1..]);
      }
    } else if r.Ok? {
      HonestReports(endpoint, chain, targets, trace[0]);
    }
  }

  lemma {:induction false} HonestSteps(endpoint: Endpoint, chain: Chain, targets: seq<QuoteTarget>,
                                       steps: seq<Exchange>)
    requires |targets| > 0 && OneRaindex(targets) && Honest(endpoint, chain)
    requires StackRun(|targets|, steps) && Genuine(endpoint, targets, steps) && NoFailure(steps)
    ensures Bisect(chain, targets, Span(0, |targets|)) ==
      Spans(steps) + Outstanding(chain, targets, StackAfter(|targets|, steps))
    ensures |StackAfter(|targets|, steps)| == 0 ==> Spans(steps) == Bisect(chain, targets, Span(0, |targets|))
  {
    forall k | 0 <= k < |steps| ensures Reports(chain, targets, steps[k]) {
      HonestReports(endpoint, chain, targets, steps[k]);
    }
    StackIsRecursion(chain, targets, steps);
    assert Spans(steps) + [] == Spans(steps);
  }

  lemma {:induction false} SpansLast(steps: seq<Exchange>)
    requires |steps| > 0
    ensures Spans(steps) == Spans(steps[..|steps| - 1]) + [steps[|steps| - 1].span]
  {
  }

  lemma {:induction false} NextIsPrefix(whole: seq<Span>, before: seq<Span>, rest: seq<Span>, next: Span)
    requires whole == before + rest && |rest| > 0 && rest[0] == next
    ensures before + [next] <= whole
  {
  }

  /** Even if the last request failed, it was one that the recursive bisection makes at that point. */
  lemma {:induction false} HonestStepsSoFar(endpoint: Endpoint, chain: Chain, targets: seq<QuoteTarget>,
                                            steps: seq<Exchange>)
    requires |targets| > 0 && OneRaindex(targets) && Honest(endpoint, chain) && |steps| > 0
    requires StackRun(|targets|, steps) && Genuine(endpoint, targets, steps) && NoFailure(steps[..|steps| - 1])
    ensures Spans(steps) <= Bisect(chain, targets, Span(0, |targets|))
  {
    var before, last := steps[..|steps| - 1], steps[|steps| - 1];
    var pending := StackAfter(|targets|, before);
    HonestSteps(endpoint, chain, targets, before);
    OutstandingStarts(chain, targets, pending);
    NextIsPrefix(Bisect(chain, targets, Span(0, |targets|)), Spans(before), Outstanding(chain, targets, pending),
                 last.span);
    SpansLast(steps);
  }

  /** The next request of a nonempty stack is its top. */
  lemma {:induction false} OutstandingStarts(chain: Chain, targets: seq<QuoteTarget>, pending: seq<Span>)
    requires |pending| > 0 && InBounds(pending[|pending| - 1], |targets|)
    ensures |Outstanding(chain, targets, pending)| > 0
    ensures Outstanding(chain, targets, pending)[0] == pending[|pending| - 1]
  {
    var top := pending[|pending| - 1];
    assert Bisect(chain, targets, top)[0] == top;
  }

  /** With `k` reverting targets among `n`, that is at most `2 + 2 k ceil(log2 n)` requests, whether the attempt
      succeeds or fails on the way. */
  lemma {:induction false} HonestCost(endpoint: Endpoint, chain: Chain, targets: seq<QuoteTarget>, r: ChunkResult,
                                      trace: seq<Exchange>)
    requires |targets| > 0 && OneRaindex(targets) && Honest(endpoint, chain)
    requires AttemptTrace(endpoint, targets, r, trace)
    ensures |trace| <= 2 + 2 * RevertCount(chain, targets, 0, |targets|) * CeilLog2(|targets|)
  {
    HonestRequests(endpoint, chain, targets, r, trace);
    assert |trace| == |Spans(trace)|;
    FullCost(chain, targets);
  }

  lemma {:induction false} FullCost(chain: Chain, targets: seq<QuoteTarget>)
    requires |targets| > 0
    ensures |FullRequests(chain, targets)| <=
      2 + 2 * RevertCount(chain, targets, 0, |targets|) * CeilLog2(|targets|)
  {
    BisectCost(chain, targets, Span(0, |targets|));
    CapIsProduct(RevertCount(chain, targets, 0, |targets|), CeilLog2(|targets|));
  }

  /** A successful attempt stays within `ceil(log2 n)` requests exactly when it has several targets and none of them
      reverts: isolating reverting targets always costs more. */
  lemma {:induction false} WithinLogExactly(endpoint: Endpoint, chain: Chain, targets: seq<QuoteTarget>, r: ChunkResult,
                                            trace: seq<Exchange>)
    requires |targets| > 0 && OneRaindex(targets) && Honest(endpoint, chain)
    requires AttemptTrace(endpoint, targets, r, trace) && r.Ok?
    ensures |trace| <= CeilLog2(|targets|) <==> |targets| > 1 && !RevertsIn(chain, targets, 0, |targets|)
  {
    HonestRequests(endpoint, chain, targets, r, trace);
    assert |trace| == |Spans(trace)|;
    FullWithinLog(chain, targets);
  }

  lemma {:induction false} FullWithinLog(chain: Chain, targets: seq<QuoteTarget>)
    requires |targets| > 0
    ensures |FullRequests(chain, targets)| <= CeilLog2(|targets|) <==>
      |targets| > 1 && !RevertsIn(chain, targets, 0, |targets|)
  {
    LogsAreClose(|targets|);
    if RevertsIn(chain, targets, 0, |targets|) {
      CostAtLeast(chain, targets, Span(0, |targets|));
    }
  }
}
