/** Sequence helpers standing for the JavaScript array methods the clients use:
    `filter`, `find`, `[...new Set(xs)]`, `slice(0, n)` and `sort` on a copy. */
module Lists {
  import opened Common

  /** `r` can be obtained from `xs` by deleting elements: the order of what is
      kept is the order in `xs`. */
  predicate IsSubsequence<T(==)>(r: seq<T>, xs: seq<T>)
    decreases |xs|
  {
    if r == [] then true
    else if xs == [] then false
    else (r[0] == xs[0] && IsSubsequence(r[1..], xs[1..])) || IsSubsequence(r, xs[1..])
  }

  /** Every sequence is a subsequence of itself. */
  lemma {:induction false} SubsequenceOfSelf<T>(xs: seq<T>)
    ensures IsSubsequence(xs, xs)
  {
    if xs != [] {
      SubsequenceOfSelf(xs[1..]);
    }
  }

  /** Keeping a subsequence of a subsequence is keeping a subsequence. */
  lemma {:induction false} SubsequenceTransitive<T>(a: seq<T>, b: seq<T>, c: seq<T>)
    requires IsSubsequence(a, b) && IsSubsequence(b, c)
    ensures IsSubsequence(a, c)
    decreases |c|
  {
    if a != [] && c != [] {
      if b[0] == c[0] && IsSubsequence(b[1..], c[1..]) {
        if a[0] == b[0] && IsSubsequence(a[1..], b[1..]) {
          SubsequenceTransitive(a[1..], b[1..], c[1..]);
        } else {
          SubsequenceTransitive(a, b[1..], c[1..]);
        }
      } else {
        SubsequenceTransitive(a, b, c[1..]);
      }
    }
  }

  predicate NoDuplicates<T(==)>(xs: seq<T>) {
    forall i, j :: 0 <= i < j < |xs| ==> xs[i] != xs[j]
  }

  /** Some element of a non-empty set, the way a loop over a collection
      takes the next item. */
  method Pick<T>(s: set<T>) returns (x: T)
    requires s != {}
    ensures x in s
  {
    x :| x in s;
  }

  /** `Array.prototype.filter`: the elements satisfying `p`, in their order. */
  function Filter<T(==)>(xs: seq<T>, p: T -> bool): (r: seq<T>)
    ensures |r| <= |xs|
    ensures forall i :: 0 <= i < |r| ==> r[i] in xs && p(r[i])
    ensures forall i :: 0 <= i < |xs| && p(xs[i]) ==> xs[i] in r
    ensures IsSubsequence(r, xs)
  {
    if xs == [] then []
    else if p(xs[0]) then [xs[0]] + Filter(xs[1..], p)
    else Filter(xs[1..], p)
  }

  /** `Array.prototype.find`: the first element satisfying `p`, if any. */
  function Find<T>(xs: seq<T>, p: T -> bool): (r: Option<T>)
    ensures r.None? <==> forall i :: 0 <= i < |xs| ==> !p(xs[i])
    ensures r.Some? ==> exists i :: 0 <= i < |xs| && xs[i] == r.value && p(xs[i]) && forall j :: 0 <= j < i ==> !p(xs[j])
  {
    if xs == [] then None
    else if p(xs[0]) then Some(xs[0])
    else
      var r := Find(xs[1..], p);
      assert r.Some? ==> exists i :: 0 <= i < |xs| && xs[i] == r.value && p(xs[i]) && forall j :: 0 <= j < i ==> !p(xs[j]) by {
        if r.Some? {
          var i :| 0 <= i < |xs[1..]| && xs[1..][i] == r.value && p(xs[1..][i]) && forall j :: 0 <= j < i ==> !p(xs[1..][j]);
          assert xs[i + 1] == r.value && forall j :: 0 <= j < i + 1 ==> !p(xs[j]);
        }
      }
      r
  }

  /** Filtering keeps each element that passes as often as it occurs, and
      drops each that fails. */
  lemma {:induction false} FilterMultiset<T>(xs: seq<T>, p: T -> bool)
    ensures forall x :: multiset(Filter(xs, p))[x] == if p(x) then multiset(xs)[x] else 0
  {
    if xs != [] {
      FilterMultiset(xs[1..], p);
      assert xs == [xs[0]] + xs[1..];
      assert multiset(xs) == multiset{xs[0]} + multiset(xs[1..]);
    }
  }

  /** Filtering keeps every element when the predicate holds throughout. */
  lemma {:induction false} FilterAll<T>(xs: seq<T>, p: T -> bool)
    requires forall i :: 0 <= i < |xs| ==> p(xs[i])
    ensures Filter(xs, p) == xs
  {
    if xs != [] {
      FilterAll(xs[1..], p);
    }
  }

  /** Filtering twice by the same predicate is filtering once. */
  lemma {:induction false} FilterIdempotent<T>(xs: seq<T>, p: T -> bool)
    ensures Filter(Filter(xs, p), p) == Filter(xs, p)
  {
    FilterAll(Filter(xs, p), p);
  }

  /** `slice(0, n)`: the first `n` elements, or all of them when there are fewer. */
  function Take<T>(xs: seq<T>, n: nat): (r: seq<T>)
    ensures |r| == if |xs| < n then |xs| else n
    ensures forall i :: 0 <= i < |r| ==> r[i] == xs[i]
  {
    if |xs| < n then xs else xs[..n]
  }

  /** The elements of `xs` left over after `[...new Set(prefix)]` has read
      `seen`: each element that is not yet seen, at its first occurrence. */
  function DistinctAfter<T(==)>(xs: seq<T>, seen: seq<T>): seq<T> {
    if xs == [] then []
    else if xs[0] in seen then DistinctAfter(xs[1..], seen)
    else [xs[0]] + DistinctAfter(xs[1..], seen + [xs[0]])
  }

  /** What `DistinctAfter` keeps: elements of `xs` not yet seen, each of them,
      once, in order. */
  lemma {:induction false} DistinctAfterKeeps<T>(xs: seq<T>, seen: seq<T>)
    ensures var r := DistinctAfter(xs, seen);
            && (forall i :: 0 <= i < |r| ==> r[i] in xs && r[i] !in seen)
            && (forall i :: 0 <= i < |xs| && xs[i] !in seen ==> xs[i] in r)
            && NoDuplicates(r)
            && IsSubsequence(r, xs)
    decreases |xs|
  {
    if xs != [] {
      if xs[0] in seen {
        DistinctAfterKeeps(xs[1..], seen);
        assert forall i :: 0 < i < |xs| ==> xs[i] == xs[1..][i - 1];
      } else {
        var rest := DistinctAfter(xs[1..], seen + [xs[0]]);
        DistinctAfterKeeps(xs[1..], seen + [xs[0]]);
        var r := [xs[0]] + rest;
        assert r[1..] == rest;
        assert forall i :: 0 < i < |r| ==> r[i] == rest[i - 1];
        assert forall i :: 0 < i < |xs| ==> xs[i] == xs[1..][i - 1];
      }
    }
  }

  /** `DistinctAfter` depends on `seen` only through its elements. */
  lemma {:induction false} DistinctAfterSameSeen<T>(xs: seq<T>, s1: seq<T>, s2: seq<T>)
    requires forall e :: e in s1 <==> e in s2
    ensures DistinctAfter(xs, s1) == DistinctAfter(xs, s2)
    decreases |xs|
  {
    if xs != [] {
      if xs[0] in s1 {
        DistinctAfterSameSeen(xs[1..], s1, s2);
      } else {
        DistinctAfterSameSeen(xs[1..], s1 + [xs[0]], s2 + [xs[0]]);
      }
    }
  }

  /** `[...new Set(xs)]`: the distinct elements, in first-occurrence order. */
  function Distinct<T(==)>(xs: seq<T>): (r: seq<T>)
    ensures forall i :: 0 <= i < |r| ==> r[i] in xs
    ensures forall i :: 0 <= i < |xs| ==> xs[i] in r
    ensures NoDuplicates(r)
    ensures IsSubsequence(r, xs)
  {
    DistinctAfterKeeps(xs, []);
    DistinctAfter(xs, [])
  }

  /** An independent reference definition of first-occurrence order, built from
      the back: the last element is kept exactly when it does not occur before. */
  function FirstOccurrences<T(==)>(xs: seq<T>): seq<T> {
    if xs == [] then []
    else
      var init := xs[..|xs| - 1];
      FirstOccurrences(init) + (if xs[|xs| - 1] in init then [] else [xs[|xs| - 1]])
  }

  /** Appending one element to the input of `FirstOccurrences` appends it to
      the output exactly when it is new. */
  lemma FirstOccurrencesSnoc<T>(p: seq<T>, x: T)
    ensures FirstOccurrences(p + [x]) == FirstOccurrences(p) + (if x in p then [] else [x])
  {
    assert (p + [x])[..|p + [x]| - 1] == p;
  }

  lemma ConcatAssoc<T>(a: seq<T>, b: seq<T>, c: seq<T>)
    ensures (a + b) + c == a + (b + c)
  {
  }

  /** Moving the head of `xs` onto the end of `p` keeps `p + xs`. */
  lemma MoveHead<T>(p: seq<T>, xs: seq<T>)
    requires xs != []
    ensures (p + [xs[0]]) + xs[1..] == p + xs
  {
  }

  /** An element already seen is skipped, and seeing it again changes nothing. */
  lemma DistinctAfterSeenHead<T>(xs: seq<T>, p: seq<T>)
    requires xs != [] && xs[0] in p
    ensures DistinctAfter(xs, p) == DistinctAfter(xs[1..], p + [xs[0]])
  {
    DistinctAfterSameSeen(xs[1..], p + [xs[0]], p);
  }

  /** Reading `xs` after a prefix `p` adds to `p`'s first occurrences exactly
      what `DistinctAfter` keeps of `xs` once `p` has been seen. */
  lemma {:induction false} DistinctAfterPrefix<T>(p: seq<T>, xs: seq<T>)
    ensures FirstOccurrences(p + xs) == FirstOccurrences(p) + DistinctAfter(xs, p)
    decreases |xs|
  {
    if xs == [] {
      assert p + xs == p;
    } else {
      var p' := p + [xs[0]];
      DistinctAfterPrefix(p', xs[1..]);
      MoveHead(p, xs);
      FirstOccurrencesSnoc(p, xs[0]);
      if xs[0] in p {
        DistinctAfterSeenHead(xs, p);
      } else {
        ConcatAssoc(FirstOccurrences(p), [xs[0]], DistinctAfter(xs[1..], p'));
      }
    }
  }

  /** `Distinct` keeps exactly the first occurrences, in order. */
  lemma {:induction false} DistinctIsFirstOccurrences<T>(xs: seq<T>)
    ensures Distinct(xs) == FirstOccurrences(xs)
  {
    DistinctAfterPrefix([], xs);
    assert [] + xs == xs;
  }

  /** `le` is a total preorder: what a sort comparator must be for the sort to
      be well defined. */
  ghost predicate TotalPreorder<T(!new)>(le: (T, T) -> bool) {
    && (forall a, b :: le(a, b) || le(b, a))
    && (forall a, b, c :: le(a, b) && le(b, c) ==> le(a, c))
  }

  predicate SortedBy<T>(s: seq<T>, le: (T, T) -> bool) {
    forall i, j :: 0 <= i < j < |s| ==> le(s[i], s[j])
  }

  /** Swapping two cells of an array leaves its multiset of elements alone. */
  lemma SwapKeepsElements<T>(before: seq<T>, after: seq<T>, j: nat)
    requires 0 < j < |before|
    requires after == before[j - 1 := before[j]][j := before[j - 1]]
    ensures multiset(after) == multiset(before)
  {
  }

  /** The order `InsertAt` keeps while it moves the element at `j` left:
      the first `i + 1` cells are ordered apart from `j`, and the element at
      `j` may come before every cell after it. */
  ghost predicate SortedAround<T>(s: seq<T>, i: nat, j: nat, le: (T, T) -> bool)
    requires j <= i < |s|
  {
    && (forall p, q :: 0 <= p < q <= i && p != j && q != j ==> le(s[p], s[q]))
    && (forall q :: j < q <= i ==> le(s[j], s[q]))
  }

  /** Swapping the element at `j` with its left neighbour, which must come
      after it, moves the gap one cell left. */
  lemma SwapLeft<T(!new)>(s: seq<T>, s': seq<T>, i: nat, j: nat, le: (T, T) -> bool)
    requires TotalPreorder(le)
    requires 0 < j <= i < |s| && SortedAround(s, i, j, le) && !le(s[j - 1], s[j])
    requires s' == s[j - 1 := s[j]][j := s[j - 1]]
    ensures SortedAround(s', i, j - 1, le)
  {
    assert le(s[j], s[j - 1]);
  }

  /** Once the element at `j` may come after its left neighbour, or has
      reached the front, the first `i + 1` cells are ordered. */
  lemma GapClosed<T(!new)>(s: seq<T>, i: nat, j: nat, le: (T, T) -> bool)
    requires TotalPreorder(le)
    requires j <= i < |s| && SortedAround(s, i, j, le) && (j == 0 || le(s[j - 1], s[j]))
    ensures forall p, q :: 0 <= p < q <= i ==> le(s[p], s[q])
  {
    forall p, q | 0 <= p < q <= i
      ensures le(s[p], s[q])
    {
      if q == j && p < j - 1 {
        assert le(s[p], s[j - 1]);
      }
    }
  }

  /** One step of insertion sort: moves `a[i]` left past every element that
      must come after it, so that `a[..i+1]` becomes sorted. */
  method InsertAt<T(!new)>(a: array<T>, i: nat, le: (T, T) -> bool)
    requires TotalPreorder(le)
    requires i < a.Length
    requires forall p, q :: 0 <= p < q < i ==> le(a[p], a[q])
    modifies a
    ensures multiset(a[..]) == old(multiset(a[..]))
    ensures forall p, q :: 0 <= p < q <= i ==> le(a[p], a[q])
  {
    var j := i;
    while j > 0 && !le(a[j - 1], a[j])
      invariant 0 <= j <= i
      invariant multiset(a[..]) == old(multiset(a[..]))
      invariant SortedAround(a[..], i, j, le)
    {
      ghost var before := a[..];
      a[j - 1], a[j] := a[j], a[j - 1];
      SwapKeepsElements(before, a[..], j);
      SwapLeft(before, a[..], i, j, le);
      j := j - 1;
    }
    GapClosed(a[..], i, j, le);
  }

  /** `[...s].sort(cmp)`: copies `s` into a fresh array and sorts the copy in
      place (insertion sort), so that the result is ordered by `le` and is a
      permutation of `s`; `s` itself is a value and stays as it was. */
  method SortCopy<T(!new)>(s: seq<T>, le: (T, T) -> bool) returns (r: seq<T>)
    requires TotalPreorder(le)
    ensures SortedBy(r, le)
    ensures multiset(r) == multiset(s)
  {
    var a := new T[|s|](i requires 0 <= i < |s| => s[i]);
    assert a[..] == s;
    var i := 0;
    while i < a.Length
      invariant 0 <= i <= a.Length
      invariant multiset(a[..]) == multiset(s)
      invariant forall p, q :: 0 <= p < q < i ==> le(a[p], a[q])
    {
      InsertAt(a, i, le);
      i := i + 1;
    }
    r := a[..];
  }

  /** The first elements of a sorted permutation are the greatest in `le`'s
      sense: nothing left out comes before anything kept. */
  lemma TakeOfSortedIsExtreme<T(!new)>(sorted: seq<T>, s: seq<T>, n: nat, le: (T, T) -> bool)
    requires SortedBy(sorted, le)
    requires multiset(sorted) == multiset(s)
    ensures multiset(Take(sorted, n)) <= multiset(s)
    ensures forall x, y :: x in Take(sorted, n) && y in multiset(s) - multiset(Take(sorted, n)) ==> le(x, y)
  {
    var t := Take(sorted, n);
    if |sorted| >= n {
      assert sorted == t + sorted[n..];
      assert multiset(sorted) == multiset(t) + multiset(sorted[n..]);
      assert multiset(s) - multiset(t) == multiset(sorted[n..]);
      forall x, y | x in t && y in multiset(s) - multiset(t)
        ensures le(x, y)
      {
        assert y in sorted[n..];
        var i :| 0 <= i < |t| && t[i] == x;
        var j :| 0 <= j < |sorted[n..]| && sorted[n..][j] == y;
        assert sorted[i] == x && sorted[n + j] == y;
      }
    } else {
      assert t == sorted;
      assert multiset(s) - multiset(t) == multiset{};
    }
  }
}
