/** Vocabulary shared by every module: identifiers, results and sequence facts. */
module Foundation {

  /** A manifest digest. Only equality and order matter; `NoDigest` stands for the empty string. */
  type Digest = nat

  /** A tag name. Only equality and order matter. */
  type Tag = nat

  const NoDigest: Digest := 0

  datatype Option<+T> = None | Some(value: T)

  datatype Result<+T> = Ok(value: T) | Err

  /** The elements of a sequence. */
  function Elements<T>(s: seq<T>): set<T> {
    set x | x in s
  }

  ghost predicate Distinct<T>(s: seq<T>) {
    forall i, j :: 0 <= i < j < |s| ==> s[i] != s[j]
  }

  /** A sequence without repetition has as many entries as elements. */
  lemma DistinctCardinality<T>(s: seq<T>)
    requires Distinct(s)
    ensures |Elements(s)| == |s|
  {
    if s != [] {
      var front, last := s[..|s| - 1], s[|s| - 1];
      DistinctCardinality(front);
      assert Elements(s) == Elements(front) + {last};
    }
  }

  /** A subset is no larger than its superset. */
  lemma SubsetCardinality<T>(small: set<T>, large: set<T>)
    requires small <= large
    ensures |small| <= |large|
    ensures |small| == |large| ==> small == large
  {
    if small != {} {
      var x :| x in small;
      SubsetCardinality(small - {x}, large - {x});
    }
  }

  lemma DistinctBound<T>(s: seq<T>, universe: set<T>)
    requires Distinct(s) && Elements(s) <= universe
    ensures |s| <= |universe|
  {
    DistinctCardinality(s);
    SubsetCardinality(Elements(s), universe);
  }

  /** Sorting both lists and comparing them: the same entries, equally often. */
  predicate SameEntries<T(==)>(left: seq<T>, right: seq<T>) {
    multiset(left) == multiset(right)
  }

  lemma SameElements<T>(left: seq<T>, right: seq<T>)
    requires SameEntries(left, right)
    ensures Elements(left) == Elements(right)
  {
    forall x
      ensures x in left <==> x in right
    {
      assert x in left <==> x in multiset(left);
      assert x in right <==> x in multiset(right);
    }
  }

  lemma DistinctSameEntries<T>(left: seq<T>, right: seq<T>)
    requires Distinct(left) && Distinct(right) && Elements(left) == Elements(right)
    ensures SameEntries(left, right)
  {
    forall x
      ensures multiset(left)[x] == multiset(right)[x]
    {
      OccursOnceAtMost(left, x);
      OccursOnceAtMost(right, x);
      assert x in Elements(left) <==> x in Elements(right);
    }
  }

  lemma OccursOnceAtMost<T>(s: seq<T>, x: T)
    requires Distinct(s)
    ensures multiset(s)[x] == if x in Elements(s) then 1 else 0
  {
    if s != [] {
      var front, last := s[..|s| - 1], s[|s| - 1];
      assert s == front + [last];
      OccursOnceAtMost(front, x);
    }
  }

  lemma DistinctOfSameEntries<T>(left: seq<T>, right: seq<T>)
    requires SameEntries(left, right) && Distinct(right)
    ensures Distinct(left)
  {
    forall i, j | 0 <= i < j < |left|
      ensures left[i] != left[j]
    {
      var x := left[i];
      OccursOnceAtMost(right, x);
      assert left == left[..i] + [x] + left[i + 1..j] + [left[j]] + left[j + 1..];
      assert multiset(left)[x] <= 1;
    }
  }
}
