/**
 * `generate_dimension_tuples`: the sub-request results, read in submission
 * order, are merged by concatenation and deduplicated by canonical JSON,
 * keeping the first occurrence of each tuple. Any failed sub-request makes
 * the whole step return the empty list.
 */
module DimensionTuples {
  import opened Wrappers
  import opened Records
  import opened SeqFacts
  import CanonicalJson
  import CanonicalJsonFacts

  /** The reference definition: keep each tuple the first time it appears. */
  function Dedup(s: seq<DimensionTuple>): seq<DimensionTuple> {
    if s == [] then []
    else
      var init, x := s[..|s| - 1], s[|s| - 1];
      if x in init then Dedup(init) else Dedup(init) + [x]
  }

  predicate AllOk<E>(rs: seq<Result<seq<DimensionTuple>, E>>) {
    forall i :: 0 <= i < |rs| ==> rs[i].Ok?
  }

  /** The tuple batches of sub-requests that all succeeded. */
  function Batches<E>(rs: seq<Result<seq<DimensionTuple>, E>>): (bs: seq<seq<DimensionTuple>>)
    requires AllOk(rs)
    ensures |bs| == |rs| && forall i :: 0 <= i < |rs| ==> bs[i] == rs[i].value
  {
    if rs == [] then [] else Batches(rs[..|rs| - 1]) + [rs[|rs| - 1].value]
  }

  /** The `extend` loop: concatenates the batches in order. */
  method MergeBatches(batches: seq<seq<DimensionTuple>>) returns (all: seq<DimensionTuple>)
    ensures all == Flatten(batches)
  {
    all := [];
    for i := 0 to |batches|
      invariant all == Flatten(batches[..i])
    {
      assert batches[..i + 1][..i] == batches[..i];
      all := all + batches[i];
    }
    assert batches[..|batches|] == batches;
  }

  /** The `seen`-set loop, comparing tuples by their canonical JSON string. */
  method DedupTuples(all: seq<DimensionTuple>) returns (unique: seq<DimensionTuple>)
    ensures unique == Dedup(all)
  {
    unique := [];
    var seen: set<string> := {};
    for i := 0 to |all|
      invariant unique == Dedup(all[..i])
      invariant seen == set u | u in unique :: CanonicalJson.Encode(u)
    {
      var tup := all[i];
      var tupleStr := CanonicalJson.Encode(tup);
      assert all[..i + 1][..i] == all[..i] && all[..i + 1][i] == tup;
      DedupElems(all[..i]);
      forall u | u in unique
        ensures CanonicalJson.Encode(u) == tupleStr <==> u == tup
      {
        CanonicalJsonFacts.EncodeInjective(u, tup);
      }
      if tupleStr !in seen {
        seen := seen + {tupleStr};
        unique := unique + [tup];
      }
    }
    assert all[..|all|] == all;
  }

  /**
   * The whole step over the results of the sub-requests, in submission
   * order: the empty list as soon as one of them raised, otherwise the
   * deduplicated concatenation of their batches.
   */
  method GenerateDimensionTuples<E>(responses: seq<Result<seq<DimensionTuple>, E>>)
    returns (unique: seq<DimensionTuple>)
    ensures (exists i :: 0 <= i < |responses| && responses[i].Err?) ==> unique == []
    ensures AllOk(responses) ==> unique == Dedup(Flatten(Batches(responses)))
  {
    var batches: seq<seq<DimensionTuple>> := [];
    for i := 0 to |responses|
      invariant AllOk(responses[..i])
      invariant batches == Batches(responses[..i])
    {
      assert responses[..i + 1][..i] == responses[..i];
      match responses[i]
      case Err(_) =>
        return [];
      case Ok(b) =>
        batches := batches + [b];
    }
    assert responses[..|responses|] == responses;
    var all := MergeBatches(batches);
    unique := DedupTuples(all);
  }

  // ------------------------------------------------------------------
  // Properties of the reference definition.
  // ------------------------------------------------------------------

  /** Deduplication keeps exactly the elements of its input. */
  lemma {:induction false} DedupElems(s: seq<DimensionTuple>)
    ensures forall x :: x in Dedup(s) <==> x in s
  {
    if s != [] {
      var init := s[..|s| - 1];
      DedupElems(init);
      assert s == init + [s[|s| - 1]];
    }
  }

  /** No two entries of the result are equal. */
  lemma {:induction false} DedupNoDuplicates(s: seq<DimensionTuple>)
    ensures NoDuplicates(Dedup(s))
  {
    if s != [] {
      var init := s[..|s| - 1];
      DedupNoDuplicates(init);
      DedupElems(init);
    }
  }

  /** Each entry of `d` occurs in `s`, and their first occurrences in `s` come in the order of `d`. */
  predicate InFirstOccurrenceOrder(d: seq<DimensionTuple>, s: seq<DimensionTuple>) {
    && (forall k :: 0 <= k < |d| ==> d[k] in s)
    && (forall i, j :: 0 <= i < j < |d| ==> IndexOf(s, d[i]) < IndexOf(s, d[j]))
  }

  /**
   * The result lists the distinct tuples in the order of their first
   * occurrence in the input. This is an order-preserving embedding of the
   * result into the input, so the result is a subsequence of it.
   */
  lemma {:induction false} DedupFirstOccurrenceOrder(s: seq<DimensionTuple>)
    ensures InFirstOccurrenceOrder(Dedup(s), s)
  {
    if s != [] {
      var init, x := s[..|s| - 1], s[|s| - 1];
      assert s == init + [x];
      DedupFirstOccurrenceOrder(init);
      DedupElems(init);
      IndexOfExtend(init, x);
      var d0 := Dedup(init);
      if x in init {
        ExtendKeepsOrder(d0, init, x);
      } else {
        ExtendKeepsOrder(d0, init, x);
        AppendNewKeepsOrder(d0, init, x);
      }
    }
  }

  /** First occurrences of the elements of `init` do not move when `x` is appended. */
  lemma IndexOfExtend(init: seq<DimensionTuple>, x: DimensionTuple)
    ensures forall y :: y in init ==> IndexOf(init + [x], y) == IndexOf(init, y)
    ensures x !in init ==> IndexOf(init + [x], x) == |init|
  {
    var s := init + [x];
    forall y | y in init ensures IndexOf(s, y) == IndexOf(init, y) {
      var k := IndexOf(init, y);
      assert s[..k] == init[..k];
      IndexOfUnique(s, y, k);
    }
    if x !in init {
      assert s[..|init|] == init;
      IndexOfUnique(s, x, |init|);
    }
  }

  lemma ExtendKeepsOrder(d: seq<DimensionTuple>, init: seq<DimensionTuple>, x: DimensionTuple)
    requires InFirstOccurrenceOrder(d, init)
    requires forall y :: y in init ==> IndexOf(init + [x], y) == IndexOf(init, y)
    ensures InFirstOccurrenceOrder(d, init + [x])
  {
    forall k | 0 <= k < |d| ensures d[k] in init + [x] {
      assert d[k] in init;
    }
  }

  lemma AppendNewKeepsOrder(d: seq<DimensionTuple>, init: seq<DimensionTuple>, x: DimensionTuple)
    requires InFirstOccurrenceOrder(d, init + [x])
    requires forall k :: 0 <= k < |d| ==> d[k] in init
    requires x !in init && IndexOf(init + [x], x) == |init|
    requires forall y :: y in init ==> IndexOf(init + [x], y) == IndexOf(init, y)
    ensures InFirstOccurrenceOrder(d + [x], init + [x])
  {
    var s, d' := init + [x], d + [x];
    forall i, j | 0 <= i < j < |d'| ensures IndexOf(s, d'[i]) < IndexOf(s, d'[j]) {
      if j == |d| {
        assert d'[i] == d[i] && d[i] in init;
      } else {
        assert d'[i] == d[i] && d'[j] == d[j];
      }
    }
  }

  /** A list that has no repeats is its own deduplication. */
  lemma {:induction false} DedupOfDistinct(s: seq<DimensionTuple>)
    requires NoDuplicates(s)
    ensures Dedup(s) == s
  {
    if s != [] {
      var init := s[..|s| - 1];
      DedupOfDistinct(init);
      assert s == init + [s[|s| - 1]];
    }
  }

  /** Deduplicating twice is deduplicating once. */
  lemma DedupIdempotent(s: seq<DimensionTuple>)
    ensures Dedup(Dedup(s)) == Dedup(s)
  {
    DedupNoDuplicates(s);
    DedupOfDistinct(Dedup(s));
  }

  /** The result has exactly as many entries as the input has distinct tuples. */
  lemma DedupLength(s: seq<DimensionTuple>)
    ensures |Dedup(s)| == |Elems(s)| <= |s|
  {
    DedupNoDuplicates(s);
    DistinctCardinality(Dedup(s));
    DedupElems(s);
    assert Elems(Dedup(s)) == Elems(s);
    LengthBoundsElems(s);
  }

  lemma {:induction false} LengthBoundsElems(s: seq<DimensionTuple>)
    ensures |Elems(s)| <= |s|
  {
    if s != [] {
      var init := s[..|s| - 1];
      LengthBoundsElems(init);
      assert Elems(s) == Elems(init) + {s[|s| - 1]};
    }
  }

  /**
   * Two inputs that are rearrangements of each other deduplicate to the same
   * set of tuples, of the same size.
   */
  lemma DedupOrderIndependent(s: seq<DimensionTuple>, t: seq<DimensionTuple>)
    requires multiset(s) == multiset(t)
    ensures Elems(Dedup(s)) == Elems(Dedup(t)) && |Dedup(s)| == |Dedup(t)|
  {
    DedupElems(s);
    DedupElems(t);
    assert forall x :: x in s <==> x in multiset(s);
    assert forall x :: x in t <==> x in multiset(t);
    assert Elems(s) == Elems(t);
    DedupLength(s);
    DedupLength(t);
  }

  /**
   * The merged unique list is no longer than all batches together and no
   * shorter than the distinct tuples of any single batch.
   */
  lemma MergedSizeBounds(bs: seq<seq<DimensionTuple>>, i: nat)
    requires i < |bs|
    ensures |Dedup(Flatten(bs))| <= TotalLength(bs)
    ensures |Dedup(bs[i])| <= |Dedup(Flatten(bs))|
  {
    FlattenLength(bs);
    DedupLength(Flatten(bs));
    DedupLength(bs[i]);
    forall x | x in Elems(bs[i]) ensures x in Elems(Flatten(bs)) {
      FlattenContains(bs, i, x);
    }
    SubsetCardinality(Elems(bs[i]), Elems(Flatten(bs)));
  }

  lemma SubsetCardinality(a: set<DimensionTuple>, b: set<DimensionTuple>)
    requires a <= b
    ensures |a| <= |b|
  {
    assert b == a + (b - a);
    assert a * (b - a) == {};
  }
}
