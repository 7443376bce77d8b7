/** What `sort.Slice(xs, func(i, j) { strings.Compare(xs[i], xs[j]) == -1 })`
    guarantees: the slice ends up ascending and holds the same strings.
    Go's sort is not stable, but equal strings cannot be told apart, so the
    result is the unique sorted permutation (SortedPermutationUnique); Sort
    below is one way to reach it. */
module Sorting {
  import opened GoStrings

  /** No later string sorts strictly before an earlier one. */
  predicate Sorted(s: seq<String>) {
    forall i, j :: 0 <= i < j < |s| ==> Compare(s[i], s[j]) <= 0
  }

  function Insert(x: String, s: seq<String>): (r: seq<String>)
    requires Sorted(s)
    ensures Sorted(r)
    ensures multiset(r) == multiset(s) + multiset{x}
  {
    if s == [] then [x]
    else if Compare(x, s[0]) <= 0 then
      assert forall j :: 0 < j < |s| ==> Compare(s[0], s[j]) <= 0;
      InsertBefore(x, s);
      [x] + s
    else
      var h, tail := s[0], s[1..];
      CompareFlip(x, h);
      SuffixSorted(s, 1);
      assert s == [h] + tail;
      var rest := Insert(x, tail);
      InsertAfter(h, x, tail, rest);
      [h] + rest
  }

  /** A head that sorts before the tail and before `x` still sorts before the
      tail with `x` inserted. */
  lemma InsertAfter(h: String, x: String, tail: seq<String>, rest: seq<String>)
    requires Sorted([h] + tail) && Compare(h, x) <= 0 && Sorted(rest)
    requires multiset(rest) == multiset(tail) + multiset{x}
    ensures Sorted([h] + rest)
  {
    forall j | 0 <= j < |rest|
      ensures Compare(h, rest[j]) <= 0
    {
      HeadBelowMember(h, x, tail, rest[j], multiset(rest));
    }
    ConsSorted(h, rest);
  }

  lemma HeadBelowMember(h: String, x: String, tail: seq<String>, y: String, ys: multiset<String>)
    requires Sorted([h] + tail) && Compare(h, x) <= 0
    requires ys == multiset(tail) + multiset{x} && y in ys
    ensures Compare(h, y) <= 0
  {
    if y != x {
      assert y in multiset(tail);
      assert y in tail;
      var k :| 0 <= k < |tail| && tail[k] == y;
      assert ([h] + tail)[0] == h && ([h] + tail)[k + 1] == y;
    }
  }

  lemma ConsSorted(h: String, s: seq<String>)
    requires Sorted(s)
    requires forall j :: 0 <= j < |s| ==> Compare(h, s[j]) <= 0
    ensures Sorted([h] + s)
  {
    forall i, j | 0 <= i < j < |[h] + s|
      ensures Compare(([h] + s)[i], ([h] + s)[j]) <= 0
    {
      if i > 0 {
        assert ([h] + s)[i] == s[i - 1];
      }
      assert ([h] + s)[j] == s[j - 1];
    }
  }

  lemma InsertBefore(x: String, s: seq<String>)
    requires Sorted(s) && s != [] && Compare(x, s[0]) <= 0
    ensures Sorted([x] + s)
  {
    forall j | 0 <= j < |s| ensures Compare(x, s[j]) <= 0 {
      if j > 0 { CompareTransitive(x, s[0], s[j]); }
    }
  }

  /** Sort(s) is an ascending permutation of s. */
  function Sort(s: seq<String>): (r: seq<String>)
    ensures Sorted(r)
    ensures multiset(r) == multiset(s)
  {
    if s == [] then []
    else
      assert s == [s[0]] + s[1..];
      Insert(s[0], Sort(s[1..]))
  }

  /** Two ascending arrangements of the same strings are identical: how sort.Slice
      orders ties cannot be observed. */
  lemma {:induction false} SortedPermutationUnique(a: seq<String>, b: seq<String>)
    requires Sorted(a) && Sorted(b) && multiset(a) == multiset(b)
    ensures a == b
  {
    assert |a| == |multiset(a)| == |multiset(b)| == |b|;
    if a != [] {
      SameHead(a, b);
      SameTail(a, b);
      SuffixSorted(a, 1);
      SuffixSorted(b, 1);
      SortedPermutationUnique(a[1..], b[1..]);
      assert a == [a[0]] + a[1..] && b == [b[0]] + b[1..];
    }
  }

  /** Sorting a list that is already ascending leaves it as it is. */
  lemma SortAscending(s: seq<String>)
    requires Sorted(s)
    ensures Sort(s) == s
  {
    SortedPermutationUnique(Sort(s), s);
  }

  lemma SameHead(a: seq<String>, b: seq<String>)
    requires Sorted(a) && Sorted(b) && multiset(a) == multiset(b) && a != [] && b != []
    ensures a[0] == b[0]
  {
    assert a[0] in multiset(b) && b[0] in multiset(a);
    HeadIsLeast(b, a[0]);
    HeadIsLeast(a, b[0]);
    CompareFlip(a[0], b[0]);
  }

  lemma SameTail(a: seq<String>, b: seq<String>)
    requires multiset(a) == multiset(b) && a != [] && b != [] && a[0] == b[0]
    ensures multiset(a[1..]) == multiset(b[1..])
  {
    assert a == [a[0]] + a[1..] && b == [b[0]] + b[1..];
    assert multiset(a[1..]) == multiset(a) - multiset{a[0]};
    assert multiset(b[1..]) == multiset(b) - multiset{b[0]};
  }

  /** The first element of an ascending sequence sorts no later than any element. */
  lemma HeadIsLeast(s: seq<String>, x: String)
    requires Sorted(s) && x in s
    ensures Compare(s[0], x) <= 0
  {
    var i :| 0 <= i < |s| && s[i] == x;
    if i == 0 {
      assert Compare(s[0], x) == 0;
    }
  }

  /** A suffix of an ascending sequence is ascending. */
  lemma SuffixSorted(s: seq<String>, k: nat)
    requires Sorted(s) && k <= |s|
    ensures Sorted(s[k..])
  {
  }
}
