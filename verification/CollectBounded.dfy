/** Running futures with a bound on how many are in flight, collecting their outputs in submission order. */
module CollectBounded {
  import opened Common

  /** A future is known by what it resolves to at the moment it completes. */
  type Future<!T> = nat -> T

  datatype Indexed<T> = Indexed(index: nat, output: T)

  ghost function Indexes<T>(s: seq<Indexed<T>>): seq<nat> {
    seq(|s|, i requires 0 <= i < |s| => s[i].index)
  }

  ghost predicate SortedByIndex<T>(s: seq<Indexed<T>>) {
    forall i, j :: 0 <= i < j < |s| ==> s[i].index <= s[j].index
  }

  ghost predicate DistinctIndexes<T>(s: seq<Indexed<T>>) {
    forall i, j :: 0 <= i < j < |s| ==> s[i].index != s[j].index
  }

  function InsertByIndex<T>(s: seq<Indexed<T>>, x: Indexed<T>): (r: seq<Indexed<T>>) {
    if |s| == 0 || s[|s| - 1].index <= x.index then s + [x]
    else InsertByIndex(s[..|s| - 1], x) + [s[|s| - 1]]
  }

  lemma {:induction false} InsertSorts<T>(s: seq<Indexed<T>>, x: Indexed<T>)
    requires SortedByIndex(s)
    ensures SortedByIndex(InsertByIndex(s, x)) && |InsertByIndex(s, x)| == |s| + 1
    ensures InsertByIndex(s, x)[|s|].index ==
      if |s| > 0 && x.index < s[|s| - 1].index then s[|s| - 1].index else x.index
  {
    if |s| > 0 && x.index < s[|s| - 1].index {
      InsertSorts(s[..|s| - 1], x);
    }
  }

  lemma {:induction false} InsertPermutes<T>(s: seq<Indexed<T>>, x: Indexed<T>)
    ensures multiset(InsertByIndex(s, x)) == multiset(s) + multiset{x}
  {
    if |s| > 0 {
      InsertPermutes(s[..|s| - 1], x);
      assert s == s[..|s| - 1] + [s[|s| - 1]];
    }
  }

  /** The sort of the source is unstable: nothing is known of the order of equal keys. */
  method SortUnstableByIndex<T>(s: seq<Indexed<T>>) returns (sorted: seq<Indexed<T>>)
    ensures SortedByIndex(sorted) && multiset(sorted) == multiset(s)
  {
    sorted := [];
    for i := 0 to |s|
      invariant SortedByIndex(sorted) && multiset(sorted) == multiset(s[..i])
    {
      InsertSorts(sorted, s[i]);
      InsertPermutes(sorted, s[i]);
      sorted := InsertByIndex(sorted, s[i]);
      assert s[..i + 1] == s[..i] + [s[i]];
    }
    assert s[..|s|] == s;
  }

  /** Sorting a permutation of distinct indexes `0..n` leaves no freedom: every entry ends at its own index. */
  lemma {:induction false} SortIsDetermined<T>(s: seq<Indexed<T>>, sorted: seq<Indexed<T>>)
    requires DistinctIndexes(s) && forall k :: 0 <= k < |s| ==> s[k].index < |s|
    requires SortedByIndex(sorted) && multiset(sorted) == multiset(s)
    ensures |sorted| == |s|
    ensures forall k :: 0 <= k < |sorted| ==> sorted[k].index == k && sorted[k] in s
  {
    assert |sorted| == |multiset(sorted)| == |multiset(s)| == |s|;
    forall k | 0 <= k < |sorted| ensures sorted[k] in s && sorted[k].index < |s| {
      assert sorted[k] in multiset(sorted);
    }
    forall i, j | 0 <= i < j < |sorted| ensures sorted[i].index < sorted[j].index {
      if sorted[i].index == sorted[j].index {
        SameIndexSameEntry(s, sorted[i], sorted[j]);
        TwiceInSequence(sorted, i, j);
        TwiceMeansTwoPositions(s, sorted[i]);
      }
    }
    Squeeze(Indexes(sorted), |sorted|);
    assert forall k :: 0 <= k < |sorted| ==> Indexes(sorted)[k] == sorted[k].index;
  }

  lemma {:induction false} SameIndexSameEntry<T>(s: seq<Indexed<T>>, x: Indexed<T>, y: Indexed<T>)
    requires DistinctIndexes(s) && x in s && y in s && x.index == y.index
    ensures x == y
  {
    var i :| 0 <= i < |s| && s[i] == x;
    var j :| 0 <= j < |s| && s[j] == y;
  }

  lemma {:induction false} TwiceInSequence<T>(s: seq<T>, i: nat, j: nat)
    requires i < j < |s| && s[i] == s[j]
    ensures multiset(s)[s[i]] >= 2
  {
    assert s == s[..j] + s[j..];
    assert s[i] in s[..j] && s[j..][0] == s[i];
    assert s[i] in multiset(s[..j]) && s[i] in multiset(s[j..]);
  }

  lemma {:induction false} TwiceMeansTwoPositions<T>(s: seq<Indexed<T>>, x: Indexed<T>)
    requires DistinctIndexes(s)
    ensures multiset(s)[x] <= 1
  {
    if |s| > 0 {
      var init, last := s[..|s| - 1], s[|s| - 1];
      assert s == init + [last];
      TwiceMeansTwoPositions(init, x);
    }
  }

  /** A strictly increasing list of `n` naturals below `n` is `0, 1, ..`. */
  lemma {:induction false} Squeeze(s: seq<nat>, n: nat)
    requires |s| == n && (forall i, j :: 0 <= i < j < n ==> s[i] < s[j]) && forall i :: 0 <= i < n ==> s[i] < n
    ensures forall i :: 0 <= i < n ==> s[i] == i
  {
    if n > 0 {
      var init := s[..n - 1];
      forall i | 0 <= i < n - 1 ensures init[i] < n - 1 {
        assert s[i] < s[n - 1];
      }
      Squeeze(init, n - 1);
      assert n == 1 || s[n - 2] == init[n - 2];
    }
  }

  /** Which futures are where, `done` ones having completed in that order. */
  ghost predicate Partitioned(n: nat, next: nat, inFlight: set<nat>, done: seq<nat>) {
    && next <= n
    && (forall i, j :: 0 <= i < j < |done| ==> done[i] != done[j])
    && (forall i :: 0 <= i < |done| ==> done[i] < next && done[i] !in inFlight)
    && (forall i :: 0 <= i < next ==> i in inFlight || i in done)
    && (forall i :: i in inFlight ==> i < next)
  }

  lemma {:induction false} CompleteNext(n: nat, next: nat, inFlight: set<nat>, done: seq<nat>, index: nat)
    requires Partitioned(n, next, inFlight, done) && index in inFlight && next == |done| + |inFlight|
    ensures var rest := inFlight - {index};
      if next < n then
        Partitioned(n, next + 1, rest + {next}, done + [index]) && |rest + {next}| == |inFlight|
      else Partitioned(n, next, rest, done + [index]) && |rest| == |inFlight| - 1
  {
    var done' := done + [index];
    forall i | 0 <= i < next ensures i in inFlight - {index} || i in done' {
      if i in done {
        var k :| 0 <= k < |done| && done[k] == i;
        assert done'[k] == i;
      } else if i == index {
        assert done'[|done|] == i;
      }
    }
    assert next !in inFlight;
    assert next < n ==> next !in done';
    assert done'[|done|] == index;
  }

  /** The futures that `results` came from, in completion order, and the moments at which they completed. */
  ghost predicate Completed<T>(futures: seq<Future<T>>, results: seq<Indexed<T>>, completions: seq<nat>, at: seq<nat>) {
    && |results| == |completions| == |at|
    && forall k :: 0 <= k < |results| ==>
         && results[k].index == completions[k] < |futures|
         && results[k].output == futures[completions[k]](at[k])
  }

  lemma {:induction false} RecordNext<T>(futures: seq<Future<T>>, results: seq<Indexed<T>>, completions: seq<nat>,
                                         at: seq<nat>, index: nat, now: nat)
    requires Completed(futures, results, completions, at) && index < |futures|
    ensures Completed(futures, results + [Indexed(index, futures[index](now))], completions + [index], at + [now])
  {
  }

  // ----- the pool as a step machine

  /** `next` is the first future not yet started. */
  datatype Pool = Pool(next: nat, inFlight: set<nat>, done: seq<nat>)

  /** The first `limit` futures are started. */
  ghost predicate Start(n: nat, limit: nat, p: Pool) {
    p.next == Min(limit, n) && p.done == [] && forall i :: i in p.inFlight <==> 0 <= i < p.next
  }

  /** Future `index` completes, and the next pending one takes its place. */
  ghost predicate Completes(n: nat, p: Pool, index: nat, p': Pool) {
    && index in p.inFlight
    && p' == if p.next < n then Pool(p.next + 1, p.inFlight - {index} + {p.next}, p.done + [index])
             else Pool(p.next, p.inFlight - {index}, p.done + [index])
  }

  /** Any future in flight may be the next to complete. */
  ghost predicate Steps(n: nat, p: Pool, p': Pool) { exists index :: Completes(n, p, index, p') }

  ghost predicate CanStep(n: nat, p: Pool) { exists index, p' :: Completes(n, p, index, p') }

  ghost predicate PoolRun(n: nat, limit: nat, run: seq<Pool>) {
    && |run| > 0 && Start(n, limit, run[0])
    && forall k :: 0 <= k < |run| - 1 ==> Steps(n, run[k], run[k + 1])
  }

  ghost predicate Saturated(n: nat, limit: nat, k: nat, p: Pool) {
    && Partitioned(n, p.next, p.inFlight, p.done)
    && |p.done| == k <= n && p.next == k + |p.inFlight| && |p.inFlight| == Min(limit, n - k)
  }

  lemma {:induction false} FirstNaturals(s: set<nat>, m: nat)
    requires forall i :: i in s <==> 0 <= i < m
    ensures |s| == m
  {
    if m > 0 {
      FirstNaturals(s - {m - 1}, m - 1);
    } else {
      assert s == {};
    }
  }

  /** In every run, after `k` completions the futures are partitioned into completed, in flight and pending, and exactly
      `min(limit, n - k)` are in flight. */
  lemma {:induction false} PoolInvariant(n: nat, limit: nat, run: seq<Pool>, k: nat)
    requires PoolRun(n, limit, run) && k < |run|
    ensures Saturated(n, limit, k, run[k])
  {
    if k == 0 {
      FirstNaturals(run[0].inFlight, run[0].next);
    } else {
      PoolInvariant(n, limit, run, k - 1);
      var p := run[k - 1];
      assert Steps(n, p, run[k - 1 + 1]);
      var index :| Completes(n, p, index, run[k]);
      CompleteNext(n, p.next, p.inFlight, p.done, index);
    }
  }

  /** With a positive limit a run can go on until all futures have completed, and no further. */
  lemma {:induction false} PoolEnds(n: nat, limit: nat, run: seq<Pool>)
    requires PoolRun(n, limit, run) && limit > 0
    ensures |run| <= n + 1
    ensures CanStep(n, run[|run| - 1]) <==> |run| <= n
  {
    var k := |run| - 1;
    var p := run[k];
    PoolInvariant(n, limit, run, k);
    if k < n {
      assert |p.inFlight| > 0;
      var index :| index in p.inFlight;
      var next := if p.next < n then Pool(p.next + 1, p.inFlight - {index} + {p.next}, p.done + [index])
                  else Pool(p.next, p.inFlight - {index}, p.done + [index]);
      assert Completes(n, p, index, next);
    } else {
      assert p.inFlight == {};
    }
  }

  lemma {:induction false} RunGrows(n: nat, limit: nat, run: seq<Pool>, index: nat, p: Pool)
    requires PoolRun(n, limit, run) && Completes(n, run[|run| - 1], index, p)
    ensures PoolRun(n, limit, run + [p])
  {
    var next := run + [p];
    forall k | 0 <= k < |next| - 1 ensures Steps(n, next[k], next[k + 1]) {
      if k < |run| - 1 {
        assert next[k] == run[k] && next[k + 1] == run[k + 1];
      } else {
        assert Completes(n, next[k], index, next[k + 1]);
      }
    }
  }

  lemma {:induction false} CompletedIsDistinct<T>(futures: seq<Future<T>>, results: seq<Indexed<T>>,
                                                  completions: seq<nat>, at: seq<nat>)
    requires Completed(futures, results, completions, at)
    requires forall i, j :: 0 <= i < j < |completions| ==> completions[i] != completions[j]
    ensures DistinctIndexes(results)
  {
  }

  /** Some future in flight completes, and the next pending one takes its place. */
  method CompleteOne<T>(futures: seq<Future<T>>, next: nat, inFlight: set<nat>, ghost done: seq<nat>)
    returns (entry: Indexed<T>, ghost moment: nat, next': nat, inFlight': set<nat>)
    requires inFlight != {} && forall i :: i in inFlight ==> i < |futures|
    ensures entry.index < |futures| && entry == Indexed(entry.index, futures[entry.index](moment))
    ensures Completes(|futures|, Pool(next, inFlight, done), entry.index, Pool(next', inFlight', done + [entry.index]))
  {
    var index :| index in inFlight;
    var now: nat := *;
    moment := now;
    entry := Indexed(index, futures[index](now));
    next', inFlight' := next, inFlight - {index};
    if next < |futures| {
      inFlight' := inFlight' + {next};
      next' := next + 1;
    }
  }

  /** The results are those of the futures that the run completed, in the order in which it completed them. */
  ghost predicate Underway<T>(futures: seq<Future<T>>, limit: nat, run: seq<Pool>, p: Pool, results: seq<Indexed<T>>,
                              at: seq<nat>)
  {
    PoolRun(|futures|, limit, run) && run[|run| - 1] == p && Completed(futures, results, p.done, at)
  }

  lemma {:induction false} Finished<T>(futures: seq<Future<T>>, limit: nat, run: seq<Pool>, p: Pool,
                                       results: seq<Indexed<T>>, at: seq<nat>)
    requires limit > 0 && Underway(futures, limit, run, p, results, at)
    ensures |run| <= |futures| + 1 && forall i :: i in p.inFlight ==> i < |futures|
    ensures p.inFlight == {} ==> |run| == |futures| + 1 && |results| == |futures| && DistinctIndexes(results)
  {
    PoolEnds(|futures|, limit, run);
    PoolInvariant(|futures|, limit, run, |run| - 1);
    CompletedIsDistinct(futures, results, p.done, at);
  }

  /** Start `limit` futures; whichever completes next is replaced by the next pending one. `run` is the course of the
      pool, and `at` holds the moments of the completions. */
  method RunAll<T>(futures: seq<Future<T>>, limit: nat)
    returns (results: seq<Indexed<T>>, ghost at: seq<nat>, ghost run: seq<Pool>)
    requires limit > 0
    ensures |results| == |futures| && DistinctIndexes(results)
    ensures forall k :: 0 <= k < |results| ==> results[k].index < |futures|
    ensures PoolRun(|futures|, limit, run) && |run| == |futures| + 1 && run[|futures|].inFlight == {}
    ensures Completed(futures, results, run[|futures|].done, at)
  {
    var n := |futures|;
    var next: nat, inFlight: set<nat> := 0, {};
    while next < n && next < limit
      invariant next <= n && next <= limit
      invariant forall i :: i in inFlight <==> 0 <= i < next
    {
      inFlight := inFlight + {next};
      next := next + 1;
    }

    results := [];
    at := [];
    ghost var done: seq<nat> := [];
    run := [Pool(next, inFlight, done)];
    while inFlight != {}
      invariant Underway(futures, limit, run, Pool(next, inFlight, done), results, at)
      decreases n + 1 - |run|
    {
      var entry;
      ghost var now;
      Finished(futures, limit, run, Pool(next, inFlight, done), results, at);
      entry, now, next, inFlight := CompleteOne(futures, next, inFlight, done);
      RecordNext(futures, results, done, at, entry.index, now);
      RunGrows(n, limit, run, entry.index, Pool(next, inFlight, done + [entry.index]));
      results := results + [entry];
      done := done + [entry.index];
      at := at + [now];
      run := run + [Pool(next, inFlight, done)];
      Finished(futures, limit, run, Pool(next, inFlight, done), results, at);
    }
    Finished(futures, limit, run, Pool(next, inFlight, done), results, at);
  }

  /** The future resolves to the same output whenever it completes. */
  ghost predicate Timeless<T(!new)>(future: Future<T>) {
    forall a, b :: future(a) == future(b)
  }

  ghost predicate ResolvesTo<T>(future: Future<T>, output: T) { exists moment: nat :: output == future(moment) }

  /** Whatever the completion order, the outputs come back in submission order, each from its own future at the moment
      at which the run completed it. */
  method Collect<T(==,!new)>(futures: seq<Future<T>>, limit: nat)
    returns (outputs: seq<T>, ghost at: seq<nat>, ghost run: seq<Pool>)
    requires limit > 0
    ensures |outputs| == |futures|
    ensures forall i :: 0 <= i < |futures| ==> ResolvesTo(futures[i], outputs[i])
    ensures forall i :: 0 <= i < |futures| && Timeless(futures[i]) ==> outputs[i] == futures[i](0)
    ensures PoolRun(|futures|, limit, run) && |run| == |futures| + 1 && run[|futures|].inFlight == {}
    ensures |at| == |futures| == |run[|futures|].done|
    ensures forall k :: 0 <= k < |futures| ==>
      run[|futures|].done[k] < |futures| && outputs[run[|futures|].done[k]] == futures[run[|futures|].done[k]](at[k])
  {
    var results;
    results, at, run := RunAll(futures, limit);
    var sorted := SortUnstableByIndex(results);
    SortIsDetermined(results, sorted);
    outputs := seq(|sorted|, i requires 0 <= i < |sorted| => sorted[i].output);
    SortedOutputs(futures, results, run[|futures|].done, at, sorted, outputs);
  }

  lemma {:induction false} SortedOutputs<T>(futures: seq<Future<T>>, results: seq<Indexed<T>>, completions: seq<nat>,
                                            at: seq<nat>, sorted: seq<Indexed<T>>, outputs: seq<T>)
    requires Completed(futures, results, completions, at) && DistinctIndexes(results)
    requires |sorted| == |results| == |futures| == |outputs|
    requires forall k :: 0 <= k < |sorted| ==> sorted[k].index == k && sorted[k] in results
    requires forall k :: 0 <= k < |sorted| ==> outputs[k] == sorted[k].output
    ensures forall i :: 0 <= i < |futures| ==> ResolvesTo(futures[i], outputs[i])
    ensures forall k :: 0 <= k < |completions| ==> outputs[completions[k]] == futures[completions[k]](at[k])
  {
    forall i | 0 <= i < |futures| ensures ResolvesTo(futures[i], outputs[i]) {
      var k :| 0 <= k < |results| && results[k] == sorted[i];
      assert outputs[i] == futures[i](at[k]);
    }
    forall k | 0 <= k < |completions| ensures outputs[completions[k]] == futures[completions[k]](at[k]) {
      SameIndexSameEntry(results, results[k], sorted[completions[k]]);
    }
  }
}
