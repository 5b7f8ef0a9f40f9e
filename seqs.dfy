/** Sequence helpers: filtering, subsequences and a stable sort by key. */
module Seqs {

  /** `s.filter(p)`: the elements of `s` that satisfy `p`, in their order. */
  function Filter<T(==,!new)>(s: seq<T>, p: T -> bool): (r: seq<T>)
    ensures |r| <= |s|
    ensures forall x :: x in r <==> x in s && p(x)
  {
    if s == [] then []
    else if p(s[0]) then [s[0]] + Filter(s[1..], p)
    else Filter(s[1..], p)
  }

  /** `r` is obtained from `s` by deleting elements (order is kept). */
  predicate IsSubsequence<T(==)>(r: seq<T>, s: seq<T>)
  {
    if r == [] then true
    else if s == [] then false
    else if r[0] == s[0] then IsSubsequence(r[1..], s[1..])
    else IsSubsequence(r, s[1..])
  }

  /** A filter keeps the order of what it keeps. */
  lemma {:induction false} FilterIsSubsequence<T(!new)>(s: seq<T>, p: T -> bool)
    ensures IsSubsequence(Filter(s, p), s)
  {
    if s != [] {
      FilterIsSubsequence(s[1..], p);
    }
  }

  /** Appending to a sequence keeps its subsequences. */
  lemma {:induction false} SubsequenceOfLonger<T>(r: seq<T>, s: seq<T>, x: T)
    requires IsSubsequence(r, s)
    ensures IsSubsequence(r, s + [x])
  {
    if r != [] && s != [] {
      assert (s + [x])[1..] == s[1..] + [x];
      if r[0] == s[0] {
        SubsequenceOfLonger(r[1..], s[1..], x);
      } else {
        SubsequenceOfLonger(r, s[1..], x);
      }
    }
  }

  /** Appending the same element to both keeps the relation. */
  lemma {:induction false} SubsequenceAppend<T>(r: seq<T>, s: seq<T>, x: T)
    requires IsSubsequence(r, s)
    ensures IsSubsequence(r + [x], s + [x])
  {
    if r == [] {
      assert r + [x] == [x];
      SingletonSubsequence(s, x);
    } else {
      assert s != [];
      assert (r + [x])[0] == r[0] && (r + [x])[1..] == r[1..] + [x];
      assert (s + [x])[0] == s[0] && (s + [x])[1..] == s[1..] + [x];
      if r[0] == s[0] {
        SubsequenceAppend(r[1..], s[1..], x);
      } else {
        SubsequenceAppend(r, s[1..], x);
      }
    }
  }

  /** The last element alone is a subsequence. */
  lemma {:induction false} SingletonSubsequence<T>(s: seq<T>, x: T)
    ensures IsSubsequence([x], s + [x])
  {
    if s != [] {
      assert (s + [x])[1..] == s[1..] + [x];
      if s[0] != x {
        SingletonSubsequence(s[1..], x);
      } else {
        assert [x][1..] == [];
      }
    }
  }

  /** Dropping the first element of a subsequence keeps it a subsequence. */
  lemma {:induction false} SubsequenceDropHead<T>(r: seq<T>, s: seq<T>)
    requires r != [] && IsSubsequence(r, s)
    ensures IsSubsequence(r[1..], s)
  {
    if r[0] != s[0] {
      SubsequenceDropHead(r, s[1..]);
    }
    if |r| > 1 && r[1] == s[0] {
      SubsequenceDropHead(r[1..], s[1..]);
      assert r[1..][1..] == r[2..];
    }
  }

  /** A subsequence of the tail is a subsequence of the whole sequence. */
  lemma SubsequenceOfCons<T>(r: seq<T>, s: seq<T>)
    requires s != [] && IsSubsequence(r, s[1..])
    ensures IsSubsequence(r, s)
  {
    if r != [] && r[0] == s[0] {
      SubsequenceDropHead(r, s[1..]);
    }
  }

  /** A sequence is a subsequence of itself. */
  lemma {:induction false} SubsequenceReflexive<T>(s: seq<T>)
    ensures IsSubsequence(s, s)
  {
    if s != [] {
      SubsequenceReflexive(s[1..]);
    }
  }

  lemma {:induction false} SubsequenceMembers<T>(r: seq<T>, s: seq<T>)
    requires IsSubsequence(r, s)
    ensures forall x :: x in r ==> x in s
    ensures |r| <= |s|
  {
    if r != [] && s != [] {
      assert forall x :: x in s[1..] ==> x in s;
      if r[0] == s[0] {
        SubsequenceMembers(r[1..], s[1..]);
        assert forall x :: x in r ==> x == r[0] || x in r[1..];
      } else {
        SubsequenceMembers(r, s[1..]);
      }
    }
  }

  /** Filtering twice is filtering once by the conjunction `both`. */
  lemma {:induction false} FilterFilter<T(!new)>(s: seq<T>, p: T -> bool, q: T -> bool, both: T -> bool)
    requires forall x :: x in s ==> (both(x) <==> p(x) && q(x))
    ensures Filter(Filter(s, p), q) == Filter(s, both)
  {
    if s != [] {
      FilterFilter(s[1..], p, q, both);
    }
  }

  /** Two predicates that agree on the elements of `s` filter it alike. */
  lemma {:induction false} FilterCongruent<T(!new)>(s: seq<T>, p: T -> bool, q: T -> bool)
    requires forall x :: x in s ==> (p(x) <==> q(x))
    ensures Filter(s, p) == Filter(s, q)
  {
    if s != [] {
      FilterCongruent(s[1..], p, q);
    }
  }

  lemma {:induction false} FilterAppend<T(!new)>(s: seq<T>, t: seq<T>, p: T -> bool)
    ensures Filter(s + t, p) == Filter(s, p) + Filter(t, p)
  {
    if s == [] {
      assert s + t == t;
    } else {
      assert (s + t)[1..] == s[1..] + t;
      FilterAppend(s[1..], t, p);
    }
  }

  /** Filtering by a predicate that every element satisfies changes nothing. */
  lemma {:induction false} FilterAll<T(!new)>(s: seq<T>, p: T -> bool)
    requires forall x :: x in s ==> p(x)
    ensures Filter(s, p) == s
  {
    if s != [] {
      FilterAll(s[1..], p);
    }
  }

  /** Filtering by a predicate that no element satisfies leaves nothing. */
  lemma FilterNone<T(!new)>(s: seq<T>, p: T -> bool)
    requires forall x :: x in s ==> !p(x)
    ensures Filter(s, p) == []
  {
  }

  /** `s` is ordered by `key`, largest key first. */
  predicate SortedDesc<T>(s: seq<T>, key: T -> int)
  {
    forall i, j :: 0 <= i < j < |s| ==> key(s[i]) >= key(s[j])
  }

  /** Cutting a sorted sequence gives two sorted parts holding its elements, the first part's keys not below the second's. */
  lemma SortedDescSplit<T>(s: seq<T>, key: T -> int, n: nat)
    requires SortedDesc(s, key) && n <= |s|
    ensures multiset(s[..n]) + multiset(s[n..]) == multiset(s)
    ensures SortedDesc(s[..n], key) && SortedDesc(s[n..], key)
    ensures forall i, j :: 0 <= i < n <= j < |s| ==> key(s[i]) >= key(s[j])
  {
    assert s == s[..n] + s[n..];
    forall i, j | 0 <= i < j < |s[n..]|
      ensures key(s[n..][i]) >= key(s[n..][j])
    {
      assert s[n..][i] == s[n + i] && s[n..][j] == s[n + j];
    }
  }

  /** Inserts `x` before the first element whose key is not larger than its own. */
  function InsertDesc<T>(x: T, s: seq<T>, key: T -> int): (r: seq<T>)
    requires SortedDesc(s, key)
    ensures SortedDesc(r, key)
    ensures multiset(r) == multiset(s) + multiset{x}
    ensures |r| == |s| + 1
  {
    if s == [] || key(s[0]) <= key(x) then [x] + s
    else
      var rest := InsertDesc(x, s[1..], key);
      InsertDescBelow(x, s, key, rest);
      [s[0]] + rest
  }

  /** Placing the head before the insertion into the tail keeps the order and the elements. */
  lemma InsertDescBelow<T>(x: T, s: seq<T>, key: T -> int, rest: seq<T>)
    requires s != [] && key(s[0]) > key(x) && SortedDesc(s, key)
    requires multiset(rest) == multiset(s[1..]) + multiset{x}
    ensures SortedDesc(rest, key) ==> SortedDesc([s[0]] + rest, key)
    ensures multiset([s[0]] + rest) == multiset(s) + multiset{x}
  {
    assert s == [s[0]] + s[1..];
    forall y | y in rest
      ensures key(y) <= key(s[0])
    {
      assert y in multiset(rest);
      if y != x {
        assert y in multiset(s[1..]);
      }
    }
  }

  /** A stable sort of `s` by `key`, largest key first (`Array.prototype.sort`). */
  function SortDesc<T>(s: seq<T>, key: T -> int): (r: seq<T>)
    ensures SortedDesc(r, key)
    ensures multiset(r) == multiset(s)
    ensures |r| == |s|
  {
    if s == [] then []
    else
      assert multiset(s) == multiset{s[0]} + multiset(s[1..]) by { assert s == [s[0]] + s[1..]; }
      InsertDesc(s[0], SortDesc(s[1..], key), key)
  }

  /** `s` in reverse order (`Array.prototype.reverse`). */
  function Reverse<T>(s: seq<T>): (r: seq<T>)
    ensures |r| == |s|
    ensures multiset(r) == multiset(s)
  {
    if s == [] then []
    else
      assert s == [s[0]] + s[1..];
      Reverse(s[1..]) + [s[0]]
  }

  /** `s` is ordered by `key`, smallest key first. */
  predicate SortedAsc<T>(s: seq<T>, key: T -> int)
  {
    forall i, j :: 0 <= i < j < |s| ==> key(s[i]) <= key(s[j])
  }

  /** Reversing an ascending sequence gives a descending one. */
  lemma {:induction false} ReverseSortedAsc<T>(s: seq<T>, key: T -> int)
    requires SortedAsc(s, key)
    ensures SortedDesc(Reverse(s), key)
  {
    if s != [] {
      ReverseSortedAsc(s[1..], key);
      var r := Reverse(s[1..]);
      forall y | y in r
        ensures key(y) >= key(s[0])
      {
        assert y in multiset(r);
        assert y in multiset(s[1..]);
      }
    }
  }

  /** The elements a filter keeps stay in their order. */
  lemma {:induction false} FilterSortedAsc<T(!new)>(s: seq<T>, p: T -> bool, key: T -> int)
    requires SortedAsc(s, key)
    ensures SortedAsc(Filter(s, p), key)
  {
    if s != [] {
      FilterSortedAsc(s[1..], p, key);
      assert forall y :: y in Filter(s[1..], p) ==> key(s[0]) <= key(y);
    }
  }

  /** The elements a filter keeps stay in their order. */
  lemma {:induction false} FilterSortedDesc<T(!new)>(s: seq<T>, p: T -> bool, key: T -> int)
    requires SortedDesc(s, key)
    ensures SortedDesc(Filter(s, p), key)
  {
    if s != [] {
      FilterSortedDesc(s[1..], p, key);
      assert forall y :: y in Filter(s[1..], p) ==> key(s[0]) >= key(y);
    }
  }

  /** Moving one element from the front of the rest to the end of the prefix. */
  lemma AppendBefore<T>(prefix: seq<T>, x: T, rest: seq<T>)
    ensures (prefix + [x]) + rest == prefix + ([x] + rest)
  {
  }

  /** Filtering one element longer a prefix of `s` adds that element when it satisfies `p`. */
  lemma FilterPrefixStep<T(!new)>(s: seq<T>, i: nat, p: T -> bool)
    requires i < |s|
    ensures Filter(s[..i + 1], p) == Filter(s[..i], p) + (if p(s[i]) then [s[i]] else [])
  {
    assert s[..i + 1] == s[..i] + [s[i]];
    FilterAppend(s[..i], [s[i]], p);
  }
}
