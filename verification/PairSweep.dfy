/** Which pairs of an order list are quoted, what is asked of the oracles for them, and what each of them is told. */
module PairSweep {
  import opened Common
  import opened Positions
  import opened QuoteTypes

  datatype SgVault = SgVault(token: Option<Address>, symbol: Option<string>)

  /** An order as the subgraph lists it: its bytes and its raindex may fail to decode. */
  datatype SgOrder = SgOrder(order: Result<Order, Error>, raindex: Result<Address, Error>, oracleUrl: Option<string>,
                             inputs: seq<SgVault>, outputs: seq<SgVault>)

  datatype DecodedOrder = DecodedOrder(order: Order, raindex: Address, oracleUrl: Option<string>,
                                       inputs: seq<SgVault>, outputs: seq<SgVault>)

  datatype Pair = Pair(name: string, inputIndex: nat, outputIndex: nat)

  /** The pair selection: for every order the pairs to quote, or no selection at all. */
  type Selection = Option<seq<seq<Pair>>>

  datatype Preparation = Preparation(pair: Pair, target: QuoteTarget, oracleUrl: Option<string>)

  datatype Coord = Coord(order: nat, input: nat, output: nat) {
    /** The order in which the pairs are swept. */
    predicate Before(other: Coord) {
      || order < other.order
      || (order == other.order && (input < other.input || (input == other.input && output < other.output)))
    }
  }

  // ----- the sweep

  /** `as u32`. */
  function AsU32(n: nat): nat { n % 0x1_0000_0000 }

  predicate PairIsSelected(selection: Selection, order: nat, inputIndex: nat, outputIndex: nat) {
    selection.Some? && order < |selection.value| ==>
      exists p :: 0 <= p < |selection.value[order]| &&
        selection.value[order][p].inputIndex == inputIndex && selection.value[order][p].outputIndex == outputIndex
  }

  /** A pair is quoted when it exists, trades two different tokens and is selected. */
  predicate Wanted(orders: seq<DecodedOrder>, selection: Selection, c: Coord) {
    && c.order < |orders|
    && c.input < |orders[c.order].order.validInputs| && c.output < |orders[c.order].order.validOutputs|
    && orders[c.order].order.validInputs[c.input].token != orders[c.order].order.validOutputs[c.output].token
    && PairIsSelected(selection, c.order, AsU32(c.input), AsU32(c.output))
  }

  function SymbolOf(vaults: seq<SgVault>, token: Address): string {
    if |vaults| == 0 then "UNKNOWN"
    else if vaults[0].token == Some(token) then
      if vaults[0].symbol.Some? then vaults[0].symbol.value else "UNKNOWN"
    else SymbolOf(vaults[1..], token)
  }

  function Prepare(orders: seq<DecodedOrder>, c: Coord): Preparation
    requires c.order < |orders|
    requires c.input < |orders[c.order].order.validInputs| && c.output < |orders[c.order].order.validOutputs|
  {
    var o := orders[c.order];
    var name := SymbolOf(o.inputs, o.order.validInputs[c.input].token) + "/" +
                SymbolOf(o.outputs, o.order.validOutputs[c.output].token);
    Preparation(Pair(name, AsU32(c.input), AsU32(c.output)),
                QuoteTarget(o.raindex, QuoteConfig(o.order, c.input, c.output, [])), o.oracleUrl)
  }

  /** The coordinates list exactly the wanted pairs before `limit`, in sweep order. */
  ghost predicate Swept(orders: seq<DecodedOrder>, selection: Selection, coords: seq<Coord>, limit: Coord) {
    && (forall s, t :: 0 <= s < t < |coords| ==> coords[s].Before(coords[t]))
    && (forall c :: c in coords <==> Wanted(orders, selection, c) && c.Before(limit))
  }

  ghost predicate Prepared(orders: seq<DecodedOrder>, coords: seq<Coord>, preps: seq<Preparation>) {
    |preps| == |coords| && forall t :: 0 <= t < |coords| ==>
      && coords[t].order < |orders|
      && coords[t].input < |orders[coords[t].order].order.validInputs|
      && coords[t].output < |orders[coords[t].order].order.validOutputs|
      && preps[t] == Prepare(orders, coords[t])
  }

  /** The sweep is determined: two lists of exactly the wanted pairs in sweep order are the same list. */
  lemma {:induction false} SweepIsUnique(orders: seq<DecodedOrder>, selection: Selection, a: seq<Coord>, b: seq<Coord>,
                                         limit: Coord)
    requires Swept(orders, selection, a, limit) && Swept(orders, selection, b, limit)
    ensures a == b
  {
    SamePrefix(a, b, |a|);
    SamePrefix(b, a, |b|);
  }

  lemma {:induction false} SamePrefix(a: seq<Coord>, b: seq<Coord>, n: nat)
    requires n <= |a|
    requires forall s, t :: 0 <= s < t < |a| ==> a[s].Before(a[t])
    requires forall s, t :: 0 <= s < t < |b| ==> b[s].Before(b[t])
    requires forall c :: c in a <==> c in b
    ensures n <= |b| && a[..n] == b[..n]
  {
    if n > 0 {
      SamePrefix(a, b, n - 1);
      assert forall k :: 0 <= k < n - 1 ==> a[k] == a[..n - 1][k] == b[..n - 1][k] == b[k];
      var c := a[n - 1];
      assert c in a;
      var j :| 0 <= j < |b| && b[j] == c;
      assert j >= n - 1;
      var d := b[n - 1];
      assert d in b;
      var i :| 0 <= i < |a| && a[i] == d;
      assert i >= n - 1;
    }
  }

  lemma {:induction false} SweepNext(orders: seq<DecodedOrder>, selection: Selection, coords: seq<Coord>, c: Coord)
    requires Swept(orders, selection, coords, c)
    ensures Swept(orders, selection, if Wanted(orders, selection, c) then coords + [c] else coords,
                  c.(output := c.output + 1))
  {
    forall d: Coord ensures d.Before(c.(output := c.output + 1)) <==> d.Before(c) || d == c {
    }
    forall s | 0 <= s < |coords| ensures coords[s].Before(c) {
      assert coords[s] in coords;
    }
  }

  lemma {:induction false} SweepEndsRow(orders: seq<DecodedOrder>, selection: Selection, coords: seq<Coord>, c: Coord)
    requires c.order < |orders| && c.output == |orders[c.order].order.validOutputs|
    requires Swept(orders, selection, coords, c)
    ensures Swept(orders, selection, coords, Coord(c.order, c.input + 1, 0))
  {
    forall d: Coord | Wanted(orders, selection, d)
      ensures d.Before(Coord(c.order, c.input + 1, 0)) <==> d.Before(c)
    {
    }
  }

  lemma {:induction false} SweepEndsOrder(orders: seq<DecodedOrder>, selection: Selection, coords: seq<Coord>, c: Coord)
    requires c.order < |orders| && c.input == |orders[c.order].order.validInputs| && c.output == 0
    requires Swept(orders, selection, coords, c)
    ensures Swept(orders, selection, coords, Coord(c.order + 1, 0, 0))
  {
    forall d: Coord | Wanted(orders, selection, d)
      ensures d.Before(Coord(c.order + 1, 0, 0)) <==> d.Before(c)
    {
    }
  }

  lemma {:induction false} SweepGrows(orders: seq<DecodedOrder>, selection: Selection, coords: seq<Coord>,
                                      preps: seq<Preparation>, next: DecodedOrder)
    requires Swept(orders, selection, coords, Coord(|orders|, 0, 0)) && Prepared(orders, coords, preps)
    ensures Swept(orders + [next], selection, coords, Coord(|orders|, 0, 0))
    ensures Prepared(orders + [next], coords, preps)
  {
    forall c: Coord | c.Before(Coord(|orders|, 0, 0))
      ensures Wanted(orders + [next], selection, c) <==> Wanted(orders, selection, c)
    {
    }
  }

  // ----- the sweep written as a list

  function RowCoords(orders: seq<DecodedOrder>, selection: Selection, o: nat, i: nat, outputs: nat): seq<Coord> {
    if outputs == 0 then []
    else
      RowCoords(orders, selection, o, i, outputs - 1) +
      (if Wanted(orders, selection, Coord(o, i, outputs - 1)) then [Coord(o, i, outputs - 1)] else [])
  }

  function OrderCoords(orders: seq<DecodedOrder>, selection: Selection, o: nat, inputs: nat): seq<Coord>
    requires o < |orders|
  {
    if inputs == 0 then []
    else
      OrderCoords(orders, selection, o, inputs - 1) +
      RowCoords(orders, selection, o, inputs - 1, |orders[o].order.validOutputs|)
  }

  /** The wanted pairs of the first `n` orders: order by order, input by input, output by output. */
  function WantedCoords(orders: seq<DecodedOrder>, selection: Selection, n: nat): seq<Coord>
    requires n <= |orders|
  {
    if n == 0 then []
    else
      WantedCoords(orders, selection, n - 1) +
      OrderCoords(orders, selection, n - 1, |orders[n - 1].order.validInputs|)
  }

  lemma {:induction false} Regroup(a: seq<Coord>, b: seq<Coord>, c: seq<Coord>)
    ensures a + (b + c) == a + b + c
  {
  }

  lemma {:induction false} RowIsSwept(orders: seq<DecodedOrder>, selection: Selection, before: seq<Coord>, o: nat,
                                      i: nat, outputs: nat)
    requires Swept(orders, selection, before, Coord(o, i, 0))
    ensures Swept(orders, selection, before + RowCoords(orders, selection, o, i, outputs), Coord(o, i, outputs))
  {
    if outputs == 0 {
      assert before + [] == before;
    } else {
      var row := RowCoords(orders, selection, o, i, outputs - 1);
      var c := Coord(o, i, outputs - 1);
      RowIsSwept(orders, selection, before, o, i, outputs - 1);
      SweepNext(orders, selection, before + row, c);
      Regroup(before, row, [c]);
      assert row + [] == row;
    }
  }

  lemma {:induction false} OrderIsSwept(orders: seq<DecodedOrder>, selection: Selection, before: seq<Coord>, o: nat,
                                        inputs: nat)
    requires o < |orders| && Swept(orders, selection, before, Coord(o, 0, 0))
    ensures Swept(orders, selection, before + OrderCoords(orders, selection, o, inputs), Coord(o, inputs, 0))
  {
    if inputs == 0 {
      assert before + [] == before;
    } else {
      var n := |orders[o].order.validOutputs|;
      var rows := OrderCoords(orders, selection, o, inputs - 1);
      var row := RowCoords(orders, selection, o, inputs - 1, n);
      OrderIsSwept(orders, selection, before, o, inputs - 1);
      RowIsSwept(orders, selection, before + rows, o, inputs - 1, n);
      SweepEndsRow(orders, selection, before + rows + row, Coord(o, inputs - 1, n));
      Regroup(before, rows, row);
    }
  }

  lemma {:induction false} WantedIsSwept(orders: seq<DecodedOrder>, selection: Selection, n: nat)
    requires n <= |orders|
    ensures Swept(orders, selection, WantedCoords(orders, selection, n), Coord(n, 0, 0))
  {
    if n == 0 {
      forall c: Coord ensures !c.Before(Coord(0, 0, 0)) {
      }
    } else {
      var inputs := |orders[n - 1].order.validInputs|;
      WantedIsSwept(orders, selection, n - 1);
      OrderIsSwept(orders, selection, WantedCoords(orders, selection, n - 1), n - 1, inputs);
      SweepEndsOrder(orders, selection, WantedCoords(orders, selection, n), Coord(n - 1, inputs, 0));
    }
  }

  lemma {:induction false} SweptAreWanted(orders: seq<DecodedOrder>, selection: Selection, coords: seq<Coord>,
                                          limit: Coord)
    requires Swept(orders, selection, coords, limit)
    ensures forall t :: 0 <= t < |coords| ==> Wanted(orders, selection, coords[t])
  {
    forall t | 0 <= t < |coords| ensures Wanted(orders, selection, coords[t]) {
      assert coords[t] in coords;
    }
  }

  /** What the triple loop prepares, as a list. */
  function WantedPreps(orders: seq<DecodedOrder>, selection: Selection): seq<Preparation> {
    var coords := WantedCoords(orders, selection, |orders|);
    WantedIsSwept(orders, selection, |orders|);
    SweptAreWanted(orders, selection, coords, Coord(|orders|, 0, 0));
    seq(|coords|, t requires 0 <= t < |coords| => Prepare(orders, coords[t]))
  }

  /** The triple loop prepares exactly the nested enumeration of the wanted pairs. */
  lemma {:induction false} PreparedIsEnumeration(orders: seq<DecodedOrder>, selection: Selection, coords: seq<Coord>,
                                                 preps: seq<Preparation>)
    requires Swept(orders, selection, coords, Coord(|orders|, 0, 0)) && Prepared(orders, coords, preps)
    ensures preps == WantedPreps(orders, selection)
  {
    WantedIsSwept(orders, selection, |orders|);
    SweepIsUnique(orders, selection, coords, WantedCoords(orders, selection, |orders|), Coord(|orders|, 0, 0));
  }

  // ----- oracle batches

  function Urls(preps: seq<Preparation>): (r: seq<Option<string>>)
    ensures |r| == |preps|
  {
    seq(|preps|, t requires 0 <= t < |preps| => preps[t].oracleUrl)
  }

  datatype OracleBatch = OracleBatch(url: string, items: seq<nat>)

  /** One batch per URL, holding the positions of all its pairs in sweep order; the index finds the batch of a URL. */
  ghost predicate Batched(preps: seq<Preparation>, batches: seq<OracleBatch>, indices: map<string, nat>) {
    && (forall b :: 0 <= b < |batches| ==>
         && batches[b].url in indices && indices[batches[b].url] == b
         && batches[b].items == PositionsOf(Urls(preps), Some(batches[b].url)))
    && (forall u :: u in indices ==> indices[u] < |batches| && batches[indices[u]].url == u)
    && (forall t :: 0 <= t < |preps| && preps[t].oracleUrl.Some? ==> preps[t].oracleUrl.value in indices)
  }

  lemma {:induction false} UrlPositionsGrow(preps: seq<Preparation>, p: Preparation, url: Option<string>)
    ensures PositionsOf(Urls(preps + [p]), url) ==
      PositionsOf(Urls(preps), url) + (if p.oracleUrl == url then [|preps|] else [])
  {
    assert Urls(preps + [p])[..|preps|] == Urls(preps);
    assert Urls(preps + [p])[|preps|] == p.oracleUrl;
  }

  /** Put the position of a new pair into the batch of its URL, opening the batch if needed. */
  method AddToBatch(preps: seq<Preparation>, p: Preparation, batches: seq<OracleBatch>, indices: map<string, nat>)
    returns (batches': seq<OracleBatch>, indices': map<string, nat>)
    requires Batched(preps, batches, indices)
    ensures Batched(preps + [p], batches', indices')
  {
    batches', indices' := batches, indices;
    if p.oracleUrl.Some? {
      var url := p.oracleUrl.value;
      var batchIndex;
      if url in indices {
        batchIndex := indices[url];
      } else {
        batchIndex := |batches'|;
        batches' := batches' + [OracleBatch(url, [])];
        indices' := indices'[url := batchIndex];
        NoPositions(Urls(preps), Some(url));
      }
      batches' := batches'[batchIndex := batches'[batchIndex].(items := batches'[batchIndex].items + [|preps|])];
    }
    forall b | 0 <= b < |batches'|
      ensures batches'[b].items == PositionsOf(Urls(preps + [p]), Some(batches'[b].url))
    {
      UrlPositionsGrow(preps, p, Some(batches'[b].url));
    }
  }

  function Decode(o: SgOrder): Result<DecodedOrder, Error> {
    match (o.order, o.raindex)
    case (Err(error), _) => Err(error)
    case (Ok(_), Err(error)) => Err(error)
    case (Ok(order), Ok(raindex)) => Ok(DecodedOrder(order, raindex, o.oracleUrl, o.inputs, o.outputs))
  }

  /** All orders decoded, or the error of the first one that does not decode. */
  function DecodeAll(orders: seq<SgOrder>): (r: Result<seq<DecodedOrder>, Error>)
    ensures r.Ok? ==> |r.value| == |orders|
  {
    if |orders| == 0 then Ok([])
    else
      match DecodeAll(orders[..|orders| - 1])
      case Err(error) => Err(error)
      case Ok(before) =>
        match Decode(orders[|orders| - 1])
        case Err(error) => Err(error)
        case Ok(order) => Ok(before + [order])
  }

  lemma {:induction false} DecodeNext(orders: seq<SgOrder>, o: nat, decoded: seq<DecodedOrder>)
    requires o < |orders| && DecodeAll(orders[..o]) == Ok(decoded)
    ensures DecodeAll(orders[..o + 1]) ==
      match Decode(orders[o])
      case Err(error) => Err(error)
      case Ok(order) => Ok(decoded + [order])
  {
    assert orders[..o + 1][..o] == orders[..o];
  }

  lemma {:induction false} DecodeStops(orders: seq<SgOrder>, n: nat)
    requires n <= |orders| && DecodeAll(orders[..n]).Err?
    ensures DecodeAll(orders) == DecodeAll(orders[..n])
  {
    if n == |orders| {
      assert orders[..n] == orders;
    } else {
      assert orders[..|orders| - 1][..n] == orders[..n];
      DecodeStops(orders[..|orders| - 1], n);
    }
  }

  // ----- the sweep in terms of the orders as they are listed

  ghost predicate Decodes(o: SgOrder) { o.order.Ok? && o.raindex.Ok? }

  ghost predicate IsDecoded(d: DecodedOrder, o: SgOrder) {
    && o.order == Ok(d.order) && o.raindex == Ok(d.raindex)
    && d.oracleUrl == o.oracleUrl && d.inputs == o.inputs && d.outputs == o.outputs
  }

  /** Either all orders decode, each to its own parts; or the error is that of the first one that does not, where the
      order's bytes are decoded before its raindex. */
  lemma {:induction false} DecodedParts(orders: seq<SgOrder>) returns (bad: nat)
    ensures bad <= |orders| && forall o :: 0 <= o < bad ==> Decodes(orders[o])
    ensures DecodeAll(orders).Ok? <==> bad == |orders|
    ensures bad < |orders| ==> !Decodes(orders[bad])
    ensures bad < |orders| ==>
      DecodeAll(orders) == Err(if orders[bad].order.Err? then orders[bad].order.error else orders[bad].raindex.error)
    ensures DecodeAll(orders).Ok? ==>
      forall o :: 0 <= o < |orders| ==> IsDecoded(DecodeAll(orders).value[o], orders[o])
  {
    bad := 0;
    if |orders| > 0 {
      var n := |orders| - 1;
      assert forall o :: 0 <= o < n ==> orders[..n][o] == orders[o];
      bad := DecodedParts(orders[..n]);
      if bad == n && Decodes(orders[n]) {
        bad := n + 1;
      }
    }
  }

  /** A pair of two different tokens, selected by its two indexes, or without any selection for its order. */
  ghost predicate IsWanted(orders: seq<SgOrder>, selection: Selection, c: Coord) {
    && c.order < |orders| && orders[c.order].order.Ok?
    && var order := orders[c.order].order.value;
    && c.input < |order.validInputs| && c.output < |order.validOutputs|
    && order.validInputs[c.input].token != order.validOutputs[c.output].token
    && (selection.None? || c.order >= |selection.value| ||
        exists p :: 0 <= p < |selection.value[c.order]| &&
          selection.value[c.order][p].inputIndex == c.input % 0x1_0000_0000 &&
          selection.value[c.order][p].outputIndex == c.output % 0x1_0000_0000)
  }

  ghost predicate FirstWith(vaults: seq<SgVault>, token: Address, v: nat) {
    v < |vaults| && vaults[v].token == Some(token) && forall u :: 0 <= u < v ==> vaults[u].token != Some(token)
  }

  /** The symbol of the first listed vault with the token; "UNKNOWN" if it has none, or if there is no such vault. */
  ghost predicate IsSymbol(s: string, vaults: seq<SgVault>, token: Address) {
    && (forall v: nat :: FirstWith(vaults, token, v) ==>
         s == if vaults[v].symbol.Some? then vaults[v].symbol.value else "UNKNOWN")
    && ((forall v :: 0 <= v < |vaults| ==> vaults[v].token != Some(token)) ==> s == "UNKNOWN")
  }

  lemma {:induction false} SymbolIs(vaults: seq<SgVault>, token: Address)
    ensures IsSymbol(SymbolOf(vaults, token), vaults, token)
  {
    if |vaults| > 0 && vaults[0].token != Some(token) {
      SymbolIs(vaults[1..], token);
      forall v: nat | FirstWith(vaults, token, v) ensures FirstWith(vaults[1..], token, v - 1) {
        assert forall u :: 0 <= u < v - 1 ==> vaults[1..][u] == vaults[u + 1];
      }
      if forall v :: 0 <= v < |vaults| ==> vaults[v].token != Some(token) {
        assert forall v :: 0 <= v < |vaults| - 1 ==> vaults[1..][v] == vaults[v + 1];
      }
    }
  }

  ghost predicate IsPairName(name: string, o: SgOrder, inputToken: Address, outputToken: Address) {
    exists a, b :: name == a + "/" + b && IsSymbol(a, o.inputs, inputToken) && IsSymbol(b, o.outputs, outputToken)
  }

  /** The preparation of the pair at `c` of order `o`: what is quoted is that order with exactly these two indexes. */
  ghost predicate IsPreparation(p: Preparation, o: SgOrder, c: Coord) {
    && Decodes(o) && c.input < |o.order.value.validInputs| && c.output < |o.order.value.validOutputs|
    && p.target.raindex == o.raindex.value
    && p.target.quoteConfig.order == o.order.value
    && p.target.quoteConfig.inputIOIndex == c.input
    && p.target.quoteConfig.outputIOIndex == c.output
    && p.target.quoteConfig.signedContext == []
    && p.pair.inputIndex == c.input % 0x1_0000_0000
    && p.pair.outputIndex == c.output % 0x1_0000_0000
    && IsPairName(p.pair.name, o, o.order.value.validInputs[c.input].token, o.order.value.validOutputs[c.output].token)
    && p.oracleUrl == o.oracleUrl
  }

  /** Exactly the wanted pairs of the listed orders, in order of order, input and output, each prepared as itself. */
  ghost predicate IsSweep(orders: seq<SgOrder>, selection: Selection, coords: seq<Coord>, preps: seq<Preparation>) {
    && (forall o :: 0 <= o < |orders| ==> Decodes(orders[o]))
    && (forall s, t :: 0 <= s < t < |coords| ==> coords[s].Before(coords[t]))
    && (forall c :: c in coords <==> IsWanted(orders, selection, c))
    && |preps| == |coords|
    && (forall t :: 0 <= t < |coords| ==>
         coords[t].order < |orders| && IsPreparation(preps[t], orders[coords[t].order], coords[t]))
  }

  lemma {:induction false} PrepareIs(orders: seq<DecodedOrder>, o: SgOrder, c: Coord)
    requires c.order < |orders| && IsDecoded(orders[c.order], o)
    requires c.input < |orders[c.order].order.validInputs| && c.output < |orders[c.order].order.validOutputs|
    ensures IsPreparation(Prepare(orders, c), o, c)
  {
    var order := o.order.value;
    SymbolIs(o.inputs, order.validInputs[c.input].token);
    SymbolIs(o.outputs, order.validOutputs[c.output].token);
  }

  lemma {:induction false} SweptIsSweep(orders: seq<SgOrder>, selection: Selection, coords: seq<Coord>,
                                        preps: seq<Preparation>)
    requires DecodeAll(orders).Ok? && Swept(DecodeAll(orders).value, selection, coords, Coord(|orders|, 0, 0))
    requires Prepared(DecodeAll(orders).value, coords, preps)
    ensures IsSweep(orders, selection, coords, preps)
  {
    var decoded := DecodeAll(orders).value;
    var bad := DecodedParts(orders);
    forall c ensures c in coords <==> IsWanted(orders, selection, c) {
      WantedIs(orders, selection, c);
    }
    forall t | 0 <= t < |coords| ensures IsPreparation(preps[t], orders[coords[t].order], coords[t]) {
      PrepareIs(decoded, orders[coords[t].order], coords[t]);
    }
  }

  lemma {:induction false} WantedIs(orders: seq<SgOrder>, selection: Selection, c: Coord)
    requires DecodeAll(orders).Ok?
    ensures Wanted(DecodeAll(orders).value, selection, c) <==> IsWanted(orders, selection, c)
    ensures IsWanted(orders, selection, c) ==> c.Before(Coord(|orders|, 0, 0))
  {
    var bad := DecodedParts(orders);
    if c.order < |orders| {
      assert IsDecoded(DecodeAll(orders).value[c.order], orders[c.order]);
    }
  }

  /** What the sweep has prepared is right for the pairs up to `limit`. */
  ghost predicate SweptTo(orders: seq<DecodedOrder>, selection: Selection, limit: Coord, coords: seq<Coord>,
                          preps: seq<Preparation>, batches: seq<OracleBatch>, indices: map<string, nat>)
  {
    Swept(orders, selection, coords, limit) && Prepared(orders, coords, preps) && Batched(preps, batches, indices)
  }

  lemma {:induction false} NothingSwept(selection: Selection)
    ensures SweptTo([], selection, Coord(0, 0, 0), [], [], [], map[])
  {
    forall c: Coord ensures !c.Before(Coord(0, 0, 0)) {
    }
    assert Swept([], selection, [], Coord(0, 0, 0));
    assert Batched([], [], map[]);
  }

  lemma {:induction false} SweepDone(orders: seq<SgOrder>, selection: Selection, decoded: seq<DecodedOrder>,
                                     coords: seq<Coord>, preps: seq<Preparation>, batches: seq<OracleBatch>,
                                     indices: map<string, nat>)
    requires DecodeAll(orders) == Ok(decoded)
    requires SweptTo(decoded, selection, Coord(|orders|, 0, 0), coords, preps, batches, indices)
    ensures preps == WantedPreps(decoded, selection) && IsSweep(orders, selection, coords, preps)
  {
    PreparedIsEnumeration(decoded, selection, coords, preps);
    SweptIsSweep(orders, selection, coords, preps);
  }

  /** The triple loop over orders, inputs and outputs. */
  method PreparePairs(orders: seq<SgOrder>, selection: Selection)
    returns (r: Result<(seq<Preparation>, seq<OracleBatch>), Error>, ghost coords: seq<Coord>,
             ghost indices: map<string, nat>)
    ensures DecodeAll(orders).Err? ==> r == Err(DecodeAll(orders).error)
    ensures DecodeAll(orders).Ok? ==> r.Ok? && r.value.0 == WantedPreps(DecodeAll(orders).value, selection)
    ensures r.Ok? ==> IsSweep(orders, selection, coords, r.value.0)
    ensures DecodeAll(orders).Ok? ==>
      SweptTo(DecodeAll(orders).value, selection, Coord(|orders|, 0, 0), coords, r.value.0, r.value.1, indices)
  {
    var preps: seq<Preparation>, batches: seq<OracleBatch>, index: map<string, nat> := [], [], map[];
    var decoded: seq<DecodedOrder> := [];
    coords, indices := [], map[];
    NothingSwept(selection);
    for o := 0 to |orders|
      invariant DecodeAll(orders[..o]) == Ok(decoded) && |decoded| == o
      invariant SweptTo(decoded, selection, Coord(o, 0, 0), coords, preps, batches, index)
    {
      DecodeNext(orders, o, decoded);
      var next := Decode(orders[o]);
      if next.Err? {
        DecodeStops(orders, o + 1);
        assert DecodeAll(orders) == Err(next.error);
        return Err(next.error), coords, indices;
      }
      preps, batches, index, coords := PrepareOrder(decoded, next.value, selection, preps, batches, index, coords);
      decoded := decoded + [next.value];
    }
    assert orders[..|orders|] == orders;
    SweepDone(orders, selection, decoded, coords, preps, batches, index);
    r := Ok((preps, batches));
    indices := index;
  }

  /** The pairs of the next order. */
  method PrepareOrder(before: seq<DecodedOrder>, next: DecodedOrder, selection: Selection, preps0: seq<Preparation>,
                      batches0: seq<OracleBatch>, indices0: map<string, nat>, ghost coords0: seq<Coord>)
    returns (preps: seq<Preparation>, batches: seq<OracleBatch>, indices: map<string, nat>, ghost coords: seq<Coord>)
    requires SweptTo(before, selection, Coord(|before|, 0, 0), coords0, preps0, batches0, indices0)
    ensures SweptTo(before + [next], selection, Coord(|before| + 1, 0, 0), coords, preps, batches, indices)
  {
    preps, batches, indices, coords := preps0, batches0, indices0, coords0;
    SweepGrows(before, selection, coords, preps, next);
    var orders, o, order := before + [next], |before|, next.order;
    for i := 0 to |order.validInputs|
      invariant Swept(orders, selection, coords, Coord(o, i, 0)) && Prepared(orders, coords, preps)
      invariant Batched(preps, batches, indices)
    {
      for k := 0 to |order.validOutputs|
        invariant Swept(orders, selection, coords, Coord(o, i, k)) && Prepared(orders, coords, preps)
        invariant Batched(preps, batches, indices)
      {
        SweepNext(orders, selection, coords, Coord(o, i, k));
        if order.validInputs[i].token == order.validOutputs[k].token {
          continue;
        }
        if !PairIsSelected(selection, o, AsU32(i), AsU32(k)) {
          continue;
        }
        var p := Prepare(orders, Coord(o, i, k));
        batches, indices := AddToBatch(preps, p, batches, indices);
        preps := preps + [p];
        coords := coords + [Coord(o, i, k)];
      }
      SweepEndsRow(orders, selection, coords, Coord(o, i, |order.validOutputs|));
    }
    SweepEndsOrder(orders, selection, coords, Coord(o, |order.validInputs|, 0));
  }
}
