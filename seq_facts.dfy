/** Generic facts about sequences that the pipeline's specifications use. */
module SeqFacts {

  /** The set of elements of a sequence. */
  function Elems<T>(s: seq<T>): set<T> {
    set x | x in s
  }

  predicate NoDuplicates<T(==)>(s: seq<T>) {
    forall i, j :: 0 <= i < j < |s| ==> s[i] != s[j]
  }

  /** Concatenation of batches, in batch order (the `extend` loop). */
  function Flatten<T>(bs: seq<seq<T>>): seq<T> {
    if bs == [] then [] else Flatten(bs[..|bs| - 1]) + bs[|bs| - 1]
  }

  function TotalLength<T>(bs: seq<seq<T>>): nat {
    if bs == [] then 0 else TotalLength(bs[..|bs| - 1]) + |bs[|bs| - 1]|
  }

  /** Position of the first occurrence of `x` in `s`. */
  function IndexOf<T(==)>(s: seq<T>, x: T): (k: nat)
    requires x in s
    ensures k < |s| && s[k] == x && x !in s[..k]
  {
    if s[0] == x then 0 else 1 + IndexOf(s[1..], x)
  }

  lemma {:induction false} FlattenLength<T>(bs: seq<seq<T>>)
    ensures |Flatten(bs)| == TotalLength(bs)
  {
    if bs != [] {
      FlattenLength(bs[..|bs| - 1]);
    }
  }

  /** Every element of every batch is in the concatenation. */
  lemma {:induction false} FlattenContains<T>(bs: seq<seq<T>>, i: nat, x: T)
    requires i < |bs| && x in bs[i]
    ensures x in Flatten(bs)
  {
    if i < |bs| - 1 {
      FlattenContains(bs[..|bs| - 1], i, x);
    }
  }

  /** A sequence without repeats has as many distinct elements as entries. */
  lemma {:induction false} DistinctCardinality<T>(s: seq<T>)
    requires NoDuplicates(s)
    ensures |Elems(s)| == |s|
  {
    if s != [] {
      var init := s[..|s| - 1];
      DistinctCardinality(init);
      assert Elems(s) == Elems(init) + {s[|s| - 1]};
      assert s[|s| - 1] !in Elems(init);
    }
  }

  /** Removing the element at `j` leaves a sequence with one copy fewer of it. */
  lemma RemoveAt<T>(s: seq<T>, j: nat)
    requires j < |s|
    ensures multiset(s) == multiset(s[..j] + s[j + 1..]) + multiset{s[j]}
  {
    assert s == s[..j] + [s[j]] + s[j + 1..];
  }

  /** The first occurrence is the only position holding `x` with no `x` before it. */
  lemma IndexOfUnique<T>(s: seq<T>, x: T, k: nat)
    requires k < |s| && s[k] == x && x !in s[..k]
    ensures IndexOf(s, x) == k
  {
  }

  /** The indices 0, 1, ..., n - 1 in increasing order. */
  function Range(n: nat): (r: seq<nat>)
    ensures |r| == n
  {
    if n == 0 then [] else Range(n - 1) + [n - 1]
  }

  lemma {:induction false} RangeMultiplicity(n: nat, i: nat)
    ensures multiset(Range(n))[i] == if i < n then 1 else 0
  {
    if n > 0 {
      RangeMultiplicity(n - 1, i);
      var last: multiset<nat> := multiset{n - 1};
      assert multiset(Range(n)) == multiset(Range(n - 1)) + last;
    }
  }

  /** The sum of the weights of the entries of `s`. */
  function SumOf(s: seq<nat>, w: nat -> nat): nat {
    if s == [] then 0 else SumOf(s[..|s| - 1], w) + w(s[|s| - 1])
  }

  lemma {:induction false} SumOfAppend(a: seq<nat>, b: seq<nat>, w: nat -> nat)
    ensures SumOf(a + b, w) == SumOf(a, w) + SumOf(b, w)
  {
    if b == [] {
      assert a + b == a;
    } else {
      var b' := b[..|b| - 1];
      assert (a + b)[..|a + b| - 1] == a + b';
      SumOfAppend(a, b', w);
    }
  }

  /** Taking out the entry at `j` takes its weight out of the sum. */
  lemma SumOfRemoveAt(b: seq<nat>, j: nat, w: nat -> nat)
    requires j < |b|
    ensures SumOf(b, w) == SumOf(b[..j] + b[j + 1..], w) + w(b[j])
  {
    var before, x, after := b[..j], [b[j]], b[j + 1..];
    assert b == before + (x + after);
    calc {
      SumOf(b, w);
      { SumOfAppend(before, x + after, w); }
      SumOf(before, w) + SumOf(x + after, w);
      { SumOfAppend(x, after, w); SumOfSingleton(b[j], w); }
      SumOf(before, w) + w(b[j]) + SumOf(after, w);
      { SumOfAppend(before, after, w); }
      SumOf(before + after, w) + w(b[j]);
    }
  }

  lemma SumOfSingleton(x: nat, w: nat -> nat)
    ensures SumOf([x], w) == w(x)
  {
    assert [x][..0] == [];
  }

  /** Equal multisets stay equal when the same last entry is taken from both. */
  lemma MultisetCancel(init: seq<nat>, x: nat, b: seq<nat>, j: nat)
    requires j < |b| && b[j] == x
    requires multiset(init + [x]) == multiset(b)
    ensures multiset(init) == multiset(b[..j] + b[j + 1..])
  {
    var rest := b[..j] + b[j + 1..];
    RemoveAt(b, j);
    var one: multiset<nat> := multiset{x};
    assert multiset(init + [x]) == multiset(init) + one;
    forall y | y in multiset(init) + multiset(rest) ensures multiset(init)[y] == multiset(rest)[y] {
      assert multiset(init + [x])[y] == multiset(init)[y] + one[y];
      assert multiset(b)[y] == multiset(rest)[y] + one[y];
    }
  }

  /** A sum does not depend on the order of its terms. */
  lemma {:induction false} SumOfPermutation(a: seq<nat>, b: seq<nat>, w: nat -> nat)
    requires multiset(a) == multiset(b)
    ensures SumOf(a, w) == SumOf(b, w)
    decreases |a|
  {
    if a == [] {
      assert |b| == |multiset(b)| == 0;
    } else {
      var init, x := a[..|a| - 1], a[|a| - 1];
      assert a == init + [x];
      assert x in multiset(b);
      var j :| 0 <= j < |b| && b[j] == x;
      MultisetCancel(init, x, b, j);
      SumOfPermutation(init, b[..j] + b[j + 1..], w);
      SumOfRemoveAt(b, j, w);
    }
  }
}
