/**
 * `generate_queries_for_tuple` and `generate_queries_parallel`. The tasks run
 * in a thread pool and are read back in completion order; here that order is
 * an input (`completion`, the tuple index of each future as `as_completed`
 * yields it) and each task's outcome is an input (`results`, by tuple index).
 * The pipeline's own tasks are `Tasks(calls)`, one `generate_queries_for_tuple`
 * per tuple over the outcome of its model call.
 * The counter and the list of records are then updated by one thread, as in
 * the source.
 */
module QueryGeneration {
  import opened Wrappers
  import opened Records
  import opened SeqFacts
  import opened QueryIds
  import QueryIdFacts

  /** What `future.result()` gives for one tuple's task. */
  datatype TaskResult<+E> = Returned(queries: seq<string>) | Raised(error: E)

  /**
   * `generate_queries_for_tuple`, as the task the pool runs for one tuple. It
   * catches the error of its own call, so the task always returns: the
   * queries of a successful call, none when the call raised.
   */
  function QueriesForTuple<E>(call: Result<seq<string>, E>): (task: TaskResult<E>)
    ensures task.Returned?
  {
    Returned(match call case Ok(queries) => queries case Err(_) => [])
  }

  /** The tasks submitted to the pool, one per tuple, in tuple order. */
  function Tasks<E>(calls: seq<Result<seq<string>, E>>): (results: seq<TaskResult<E>>)
    ensures |results| == |calls|
    ensures forall i :: 0 <= i < |calls| ==> results[i] == QueriesForTuple(calls[i])
  {
    seq(|calls|, i requires 0 <= i < |calls| => QueriesForTuple(calls[i]))
  }

  /** The queries the loop over completed futures takes from a task: none when it raised. */
  function Contribution<E>(r: TaskResult<E>): seq<string> {
    match r
    case Returned(qs) => qs
    case Raised(_) => []
  }

  /** One emitted query and the index of the tuple it was generated for. */
  datatype Emission = Emission(query: string, tupleIndex: nat)

  function Tag(qs: seq<string>, i: nat): (es: seq<Emission>)
    ensures |es| == |qs| && forall k :: 0 <= k < |qs| ==> es[k] == Emission(qs[k], i)
  {
    seq(|qs|, k requires 0 <= k < |qs| => Emission(qs[k], i))
  }

  predicate Indices<E>(completion: seq<nat>, results: seq<TaskResult<E>>) {
    forall k :: 0 <= k < |completion| ==> completion[k] < |results|
  }

  /** The reference definition: every task's queries, tagged, in completion order. */
  function Emissions<E>(completion: seq<nat>, results: seq<TaskResult<E>>): (es: seq<Emission>)
    requires Indices(completion, results)
    ensures forall k :: 0 <= k < |es| ==> es[k].tupleIndex < |results|
  {
    if completion == [] then []
    else
      var i := completion[|completion| - 1];
      Emissions(completion[..|completion| - 1], results) + Tag(Contribution(results[i]), i)
  }

  /**
   * The records made for a sequence of emissions: the j-th emission (from 0)
   * gets the id of counter value j + 1, its query and tuple, and the two
   * default filtering fields.
   */
  function RecordsFor(tuples: seq<DimensionTuple>, es: seq<Emission>): (qs: seq<QueryWithDimensions>)
    requires forall k :: 0 <= k < |es| ==> es[k].tupleIndex < |tuples|
    ensures |qs| == |es|
  {
    if es == [] then []
    else
      var e := es[|es| - 1];
      RecordsFor(tuples, es[..|es| - 1]) + [NewQuery(FormatId(|es|), e.query, tuples[e.tupleIndex])]
  }

  /** One more query of the same tuple extends the emissions by one entry. */
  lemma TagSnoc(done: seq<Emission>, qs: seq<string>, j: nat, i: nat)
    requires j < |qs|
    ensures done + Tag(qs[..j + 1], i) == done + Tag(qs[..j], i) + [Emission(qs[j], i)]
  {
    assert Tag(qs[..j + 1], i) == Tag(qs[..j], i) + [Emission(qs[j], i)];
  }

  lemma RecordsForSnoc(tuples: seq<DimensionTuple>, es: seq<Emission>, e: Emission)
    requires forall k :: 0 <= k < |es| ==> es[k].tupleIndex < |tuples|
    requires e.tupleIndex < |tuples|
    ensures RecordsFor(tuples, es + [e])
      == RecordsFor(tuples, es) + [NewQuery(FormatId(|es| + 1), e.query, tuples[e.tupleIndex])]
  {
    assert (es + [e])[..|es|] == es;
  }

  /**
   * Record k (from 0) has the id of counter value k + 1, the query and the
   * tuple of emission k, and the two default filtering fields.
   */
  lemma {:induction false} RecordsForShape(tuples: seq<DimensionTuple>, es: seq<Emission>)
    requires forall k :: 0 <= k < |es| ==> es[k].tupleIndex < |tuples|
    ensures var qs := RecordsFor(tuples, es);
      forall k :: 0 <= k < |qs| ==>
        && qs[k].id == FormatId(k + 1)
        && qs[k].query == es[k].query
        && qs[k].dimensionTuple == tuples[es[k].tupleIndex]
        && qs[k].isRealisticAndKept == 1
        && qs[k].notesForFiltering == ""
  {
    if es != [] {
      RecordsForShape(tuples, es[..|es| - 1]);
    }
  }

  /** The loop over completed futures, with the shared counter `query_id`. */
  method GenerateQueriesParallel<E>(
    tuples: seq<DimensionTuple>, completion: seq<nat>, results: seq<TaskResult<E>>)
    returns (allQueries: seq<QueryWithDimensions>)
    requires |results| == |tuples|
    requires Indices(completion, results)
    ensures allQueries == RecordsFor(tuples, Emissions(completion, results))
  {
    allQueries := [];
    var queryId: nat := 1;
    for c := 0 to |completion|
      invariant queryId == |allQueries| + 1
      invariant allQueries == RecordsFor(tuples, Emissions(completion[..c], results))
    {
      var tupleIdx := completion[c];
      ghost var done := Emissions(completion[..c], results);
      assert completion[..c + 1][..c] == completion[..c];
      assert Emissions(completion[..c + 1], results)
        == done + Tag(Contribution(results[tupleIdx]), tupleIdx);
      match results[tupleIdx]
      case Raised(_) =>
        // The exception is reported and the tuple contributes nothing.
        assert done + Tag([], tupleIdx) == done;
      case Returned(queries) =>
        if |queries| > 0 {
          allQueries, queryId := AppendTupleQueries(tuples, done, tupleIdx, queries, allQueries, queryId);
        } else {
          assert done + Tag(queries, tupleIdx) == done;
        }
    }
    assert completion[..|completion|] == completion;
  }

  /** The inner loop: one record per query of the tuple at `tupleIdx`, each taking the next id. */
  method AppendTupleQueries(
    tuples: seq<DimensionTuple>, ghost done: seq<Emission>, tupleIdx: nat, queries: seq<string>,
    queriesSoFar: seq<QueryWithDimensions>, nextId: nat)
    returns (allQueries: seq<QueryWithDimensions>, queryId: nat)
    requires tupleIdx < |tuples| && forall k :: 0 <= k < |done| ==> done[k].tupleIndex < |tuples|
    requires queriesSoFar == RecordsFor(tuples, done) && nextId == |queriesSoFar| + 1
    ensures allQueries == RecordsFor(tuples, done + Tag(queries, tupleIdx))
    ensures queryId == |allQueries| + 1
  {
    allQueries, queryId := queriesSoFar, nextId;
    assert done + Tag(queries[..0], tupleIdx) == done;
    for j := 0 to |queries|
      invariant queryId == |allQueries| + 1
      invariant allQueries == RecordsFor(tuples, done + Tag(queries[..j], tupleIdx))
    {
      ghost var before := done + Tag(queries[..j], tupleIdx);
      TagSnoc(done, queries, j, tupleIdx);
      RecordsForSnoc(tuples, before, Emission(queries[j], tupleIdx));
      allQueries := allQueries + [NewQuery(FormatId(queryId), queries[j], tuples[tupleIdx])];
      queryId := queryId + 1;
    }
    assert queries[..|queries|] == queries;
  }

  // ------------------------------------------------------------------
  // Properties, for every completion order.
  // ------------------------------------------------------------------

  /** `as_completed` yields every one of the n futures exactly once. */
  predicate CompletionOrder(completion: seq<nat>, n: nat) {
    && multiset(completion) == multiset(Range(n))
    && forall k :: 0 <= k < |completion| ==> completion[k] < n
  }

  /** The number of queries of all tasks, in tuple order. */
  function TotalQueries<E>(results: seq<TaskResult<E>>): nat {
    if results == [] then 0
    else TotalQueries(results[..|results| - 1]) + |Contribution(results[|results| - 1])|
  }

  function Weight<E>(results: seq<TaskResult<E>>): nat -> nat {
    (i: nat) => if i < |results| then |Contribution(results[i])| else 0
  }

  lemma {:induction false} EmissionsLength<E>(completion: seq<nat>, results: seq<TaskResult<E>>)
    requires Indices(completion, results)
    ensures |Emissions(completion, results)| == SumOf(completion, Weight(results))
  {
    if completion != [] {
      EmissionsLength(completion[..|completion| - 1], results);
    }
  }

  lemma {:induction false} SumOfRange<E>(m: nat, results: seq<TaskResult<E>>)
    requires m <= |results|
    ensures SumOf(Range(m), Weight(results)) == TotalQueries(results[..m])
  {
    if m > 0 {
      SumOfRange(m - 1, results);
      assert Range(m)[..m - 1] == Range(m - 1);
      assert results[..m][..m - 1] == results[..m - 1];
    }
  }

  /**
   * Whatever the completion order, the number of records is the total
   * number of queries the tasks returned; a task that raised counts zero.
   */
  lemma RecordCount<E>(completion: seq<nat>, results: seq<TaskResult<E>>)
    requires CompletionOrder(completion, |results|)
    ensures |Emissions(completion, results)| == TotalQueries(results)
  {
    EmissionsLength(completion, results);
    SumOfPermutation(completion, Range(|results|), Weight(results));
    SumOfRange(|results|, results);
    assert results[..|results|] == results;
  }

  /** The queries emitted for tuple `i`, in emission order. */
  function QueriesOf(es: seq<Emission>, i: nat): seq<string> {
    if es == [] then []
    else
      var e := es[|es| - 1];
      QueriesOf(es[..|es| - 1], i) + (if e.tupleIndex == i then [e.query] else [])
  }

  lemma {:induction false} QueriesOfAppend(a: seq<Emission>, b: seq<Emission>, i: nat)
    ensures QueriesOf(a + b, i) == QueriesOf(a, i) + QueriesOf(b, i)
  {
    if b == [] {
      assert a + b == a;
    } else {
      var b' := b[..|b| - 1];
      assert (a + b)[..|a + b| - 1] == a + b';
      QueriesOfAppend(a, b', i);
    }
  }

  lemma {:induction false} QueriesOfTag(qs: seq<string>, j: nat, i: nat)
    ensures QueriesOf(Tag(qs, j), i) == if j == i then qs else []
  {
    if qs != [] {
      var qs' := qs[..|qs| - 1];
      assert Tag(qs, j)[..|qs| - 1] == Tag(qs', j);
      QueriesOfTag(qs', j, i);
    }
  }

  function Repeat(qs: seq<string>, m: nat): seq<string> {
    if m == 0 then [] else Repeat(qs, m - 1) + qs
  }

  lemma {:induction false} QueriesOfEmissions<E>(
    completion: seq<nat>, results: seq<TaskResult<E>>, i: nat)
    requires Indices(completion, results) && i < |results|
    ensures QueriesOf(Emissions(completion, results), i)
      == Repeat(Contribution(results[i]), multiset(completion)[i])
  {
    if completion != [] {
      var init, j := completion[..|completion| - 1], completion[|completion| - 1];
      assert completion == init + [j];
      QueriesOfEmissions(init, results, i);
      QueriesOfAppend(Emissions(init, results), Tag(Contribution(results[j]), j), i);
      QueriesOfTag(Contribution(results[j]), j, i);
      var whole: multiset<nat>, before: multiset<nat> := multiset(completion), multiset(init);
      assert whole == before + multiset{j};
      assert whole[i] == before[i] + (if j == i then 1 else 0);
      if j != i {
        assert QueriesOf(Emissions(init, results), i) + [] == QueriesOf(Emissions(init, results), i);
      }
    }
  }

  /**
   * Whatever the completion order, the records made for tuple `i` carry
   * exactly the queries its task returned, in their order: a task that
   * raised or returned nothing contributes no record, and does not stop
   * the records of the other tuples.
   */
  lemma PerTupleQueries<E>(completion: seq<nat>, results: seq<TaskResult<E>>, i: nat)
    requires CompletionOrder(completion, |results|) && i < |results|
    ensures QueriesOf(Emissions(completion, results), i) == Contribution(results[i])
  {
    QueriesOfEmissions(completion, results, i);
    RangeMultiplicity(|results|, i);
    assert Repeat(Contribution(results[i]), 1) == [] + Contribution(results[i]);
  }

  /**
   * Ids numbered from 1 in emission order read back as their positions, so
   * they are consecutive without gaps and pairwise different.
   */
  lemma IdsConsecutive(qs: seq<QueryWithDimensions>)
    requires forall k :: 0 <= k < |qs| ==> qs[k].id == FormatId(k + 1)
    ensures forall k :: 0 <= k < |qs| ==> ParseId(qs[k].id) == Some(k + 1)
    ensures forall i, j :: 0 <= i < j < |qs| ==> qs[i].id != qs[j].id
  {
    forall k | 0 <= k < |qs| ensures ParseId(qs[k].id) == Some(k + 1) {
      QueryIdFacts.ParseFormatId(k + 1);
    }
  }

  // ------------------------------------------------------------------
  // The pipeline's tasks, driven by the outcome of each tuple's call.
  // ------------------------------------------------------------------

  /** The number of queries of the calls that succeeded, in tuple order. */
  function SucceededQueries<E>(calls: seq<Result<seq<string>, E>>): nat {
    if calls == [] then 0
    else
      var c := calls[|calls| - 1];
      SucceededQueries(calls[..|calls| - 1]) + (if c.Ok? then |c.value| else 0)
  }

  lemma {:induction false} TotalQueriesOfTasks<E>(calls: seq<Result<seq<string>, E>>)
    ensures TotalQueries(Tasks(calls)) == SucceededQueries(calls)
  {
    if calls != [] {
      var init := calls[..|calls| - 1];
      assert Tasks(calls)[..|calls| - 1] == Tasks(init);
      TotalQueriesOfTasks(init);
    }
  }

  /**
   * Whatever the completion order, the records of tuple `i` carry the queries
   * of its call when the call succeeded, and there are none when it raised.
   */
  lemma CallQueriesPerTuple<E>(completion: seq<nat>, calls: seq<Result<seq<string>, E>>, i: nat)
    requires CompletionOrder(completion, |calls|) && i < |calls|
    ensures calls[i].Ok? ==> QueriesOf(Emissions(completion, Tasks(calls)), i) == calls[i].value
    ensures calls[i].Err? ==> QueriesOf(Emissions(completion, Tasks(calls)), i) == []
  {
    PerTupleQueries(completion, Tasks(calls), i);
  }

  /**
   * Whatever the completion order, the step makes one record per query of
   * every call that succeeded, and none for the calls that raised.
   */
  lemma CallRecordCount<E>(
    tuples: seq<DimensionTuple>, completion: seq<nat>, calls: seq<Result<seq<string>, E>>)
    requires |tuples| == |calls| && CompletionOrder(completion, |calls|)
    ensures |RecordsFor(tuples, Emissions(completion, Tasks(calls)))| == SucceededQueries(calls)
  {
    RecordCount(completion, Tasks(calls));
    TotalQueriesOfTasks(calls);
  }
}
