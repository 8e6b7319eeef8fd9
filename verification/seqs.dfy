/** Facts about sequences used by several modules: how many distinct
    elements a sequence holds, order-preserving subsequences, and the size
    of what removing elements from a set leaves. */
module Seqs {

  /** No element occurs twice. */
  predicate Distinct<T(==)>(s: seq<T>) {
    forall a, b :: 0 <= a < b < |s| ==> s[a] != s[b]
  }

  function Elements<T(==)>(s: seq<T>): set<T> {
    set x | x in s
  }

  /** A sequence never holds more distinct elements than it is long. */
  lemma {:induction false} ElementsBound<T>(s: seq<T>)
    ensures |Elements(s)| <= |s|
  {
    if s != [] {
      ElementsBound(s[1..]);
      assert Elements(s) == {s[0]} + Elements(s[1..]);
    }
  }

  /** A sequence without repetitions holds exactly as many distinct
      elements as it is long. */
  lemma {:induction false} DistinctElements<T>(s: seq<T>)
    requires Distinct(s)
    ensures |Elements(s)| == |s|
  {
    if s != [] {
      DistinctElements(s[1..]);
      assert Elements(s) == {s[0]} + Elements(s[1..]);
      assert s[0] !in Elements(s[1..]);
    }
  }

  /** `a` is `b` with some elements left out and the rest in order. */
  predicate IsSubsequence<T(==)>(a: seq<T>, b: seq<T>)
    decreases |b|
  {
    if a == [] then true
    else if b == [] then false
    else if a[0] == b[0] then IsSubsequence(a[1..], b[1..])
    else IsSubsequence(a, b[1..])
  }

  lemma {:induction false} SubsequenceOfSelf<T>(s: seq<T>)
    ensures IsSubsequence(s, s)
  {
    if s != [] {
      SubsequenceOfSelf(s[1..]);
    }
  }

  /** A subsequence is never longer than the sequence it was taken from. */
  lemma {:induction false} SubsequenceLength<T>(a: seq<T>, b: seq<T>)
    requires IsSubsequence(a, b)
    ensures |a| <= |b|
    decreases |b|
  {
    if a != [] {
      if a[0] == b[0] {
        SubsequenceLength(a[1..], b[1..]);
      } else {
        SubsequenceLength(a, b[1..]);
      }
    }
  }

  /** Removing a subset takes away exactly its size. */
  lemma RemovedCount<T>(before: set<T>, after: set<T>, gone: set<T>)
    requires gone <= before && after == before - gone
    ensures |before| == |after| + |gone|
  {
    assert before == after + gone;
  }

  /** Appending an element not yet present keeps the elements distinct and
      adds exactly that element. */
  lemma AppendFresh<T>(s: seq<T>, x: T)
    requires Distinct(s) && x !in Elements(s)
    ensures Distinct(s + [x]) && Elements(s + [x]) == Elements(s) + {x}
  {
  }

  /** Removing the members of `other` takes away as many as `before` and
      `other` share. */
  lemma RemovedMeet<T>(before: set<T>, after: set<T>, other: set<T>)
    requires after == before - other
    ensures |before| == |after| + |before * other|
  {
    RemovedCount(before, after, before * other);
  }

  /** One step of a filter: keeping or dropping the head extends the
      occurrence count of the tail's filter to the whole sequence. */
  lemma FilterCountStep<T>(s: seq<T>, rest: seq<T>, keep: T -> bool)
    requires s != []
    requires forall y :: multiset(rest)[y] == if keep(y) then multiset(s[1..])[y] else 0
    ensures var r := if keep(s[0]) then [s[0]] + rest else rest;
            forall y :: multiset(r)[y] == if keep(y) then multiset(s)[y] else 0
  {
    assert s == [s[0]] + s[1..];
    assert multiset(s) == multiset{s[0]} + multiset(s[1..]);
  }
}
