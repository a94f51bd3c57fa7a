/**
  Sequence helpers shared by every pipeline of the model: the host array
  operations the source leans on (`filter`, `slice`, `flat`, `sort`,
  de-duplication through `some`) written once, with their contracts.
 */
module Seqs {

  datatype Option<T> = None | Some(value: T)

  function Min(a: int, b: int): int { if a <= b then a else b }
  function Max(a: int, b: int): int { if a >= b then a else b }

  /** `Array.prototype.filter`: keeps, in order, the elements satisfying `p`. */
  function Filter<T>(p: T -> bool, xs: seq<T>): (r: seq<T>)
    ensures |r| <= |xs|
    ensures forall x :: x in r ==> x in xs && p(x)
    ensures forall x :: x in xs && p(x) ==> x in r
    ensures multiset(r) <= multiset(xs)
    ensures (forall x :: x in xs ==> p(x)) ==> r == xs
  {
    if |xs| == 0 then []
    else
      var rest := Filter(p, xs[1..]);
      assert xs == [xs[0]] + xs[1..];
      if p(xs[0]) then [xs[0]] + rest else rest
  }

  lemma {:induction false} FilterAppend<T>(p: T -> bool, a: seq<T>, b: seq<T>)
    ensures Filter(p, a + b) == Filter(p, a) + Filter(p, b)
    decreases |a|
  {
    if |a| == 0 {
      assert a + b == b;
    } else {
      assert (a + b)[1..] == a[1..] + b;
      FilterAppend(p, a[1..], b);
    }
  }

  /** Filtering a non-empty sequence: its head if it passes, then the filtered tail. */
  lemma FilterCons<T>(p: T -> bool, xs: seq<T>)
    requires xs != []
    ensures Filter(p, xs) == (if p(xs[0]) then [xs[0]] else []) + Filter(p, xs[1..])
  {
  }

  lemma FilterSingle<T>(p: T -> bool, x: T)
    ensures Filter(p, [x]) == if p(x) then [x] else []
  {
    assert [x][1..] == [];
  }

  /** Filters that agree on the elements give the same result. */
  lemma {:induction false} FilterExt<T>(p: T -> bool, q: T -> bool, xs: seq<T>)
    requires forall x :: x in xs ==> p(x) == q(x)
    ensures Filter(p, xs) == Filter(q, xs)
    decreases |xs|
  {
    if |xs| > 0 {
      assert xs[0] in xs;
      assert forall x :: x in xs[1..] ==> x in xs;
      FilterExt(p, q, xs[1..]);
    }
  }

  /** Filtering twice is filtering once with the conjunction. */
  lemma {:induction false} FilterFilter<T>(p: T -> bool, q: T -> bool, both: T -> bool, xs: seq<T>)
    requires forall x :: both(x) == (p(x) && q(x))
    ensures Filter(q, Filter(p, xs)) == Filter(both, xs)
    decreases |xs|
  {
    if |xs| > 0 {
      FilterFilter(p, q, both, xs[1..]);
      var head := if p(xs[0]) then [xs[0]] else [];
      FilterAppend(q, head, Filter(p, xs[1..]));
    }
  }
  /** Nothing passes, nothing is kept. */
  lemma FilterNone<T>(p: T -> bool, xs: seq<T>)
    requires forall x :: x in xs ==> !p(x)
    ensures Filter(p, xs) == []
  {
    if Filter(p, xs) != [] {
      assert Filter(p, xs)[0] in Filter(p, xs);
    }
  }


  /** Concatenation of a sequence of sequences (`join('')`, `flat()`). */
  function Flatten<T>(xss: seq<seq<T>>): (r: seq<T>)
  {
    if |xss| == 0 then [] else xss[0] + Flatten(xss[1..])
  }

  lemma {:induction false} FlattenAppend<T>(a: seq<seq<T>>, b: seq<seq<T>>)
    ensures Flatten(a + b) == Flatten(a) + Flatten(b)
    decreases |a|
  {
    if |a| == 0 {
      assert a + b == b;
    } else {
      assert (a + b)[1..] == a[1..] + b;
      FlattenAppend(a[1..], b);
    }
  }

  /** A strict prefix of the parts concatenates to a prefix of the whole. */
  lemma FlattenPrefix<T>(xss: seq<seq<T>>, k: nat)
    requires k <= |xss|
    ensures Flatten(xss) == Flatten(xss[..k]) + Flatten(xss[k..])
  {
    assert xss == xss[..k] + xss[k..];
    FlattenAppend(xss[..k], xss[k..]);
  }

  /** JavaScript `Array.prototype.slice(start, end)`, negative indices included. */
  function Slice<T>(xs: seq<T>, start: int, end: int): (r: seq<T>)
    ensures |r| <= |xs|
    ensures 0 <= start <= end <= |xs| ==> r == xs[start..end]
    ensures 0 <= end <= start ==> r == []
  {
    var n := |xs|;
    var from := if start < 0 then Max(n + start, 0) else Min(start, n);
    var to := if end < 0 then Max(n + end, 0) else Min(end, n);
    if from < to then xs[from..to] else []
  }

  /** A slice holds only elements of the list it is cut from. */
  lemma SliceMembers<T>(xs: seq<T>, start: int, end: int)
    ensures forall x :: x in Slice(xs, start, end) ==> x in xs
  {
    var r := Slice(xs, start, end);
    forall x | x in r ensures x in xs {
      var k :| 0 <= k < |r| && r[k] == x;
    }
  }

  /** `xs.slice(0, n)` for a non-negative n. */
  function Take<T>(xs: seq<T>, n: nat): (r: seq<T>)
    ensures |r| == Min(n, |xs|)
    ensures r == xs[..Min(n, |xs|)]
  {
    Slice(xs, 0, n)
  }

  // ---------------------------------------------------------------------------
  // Ordering. The host sort is modelled by a stable insertion sort under a
  // caller-supplied "less or equal"; contracts only promise what every correct
  // comparison sort promises: a permutation that is ordered.
  // ---------------------------------------------------------------------------

  ghost predicate TotalPreorder<T(!new)>(le: (T, T) -> bool)
  {
    && (forall a :: le(a, a))
    && (forall a, b, c :: le(a, b) && le(b, c) ==> le(a, c))
    && (forall a, b :: le(a, b) || le(b, a))
  }

  ghost predicate TotalOrder<T(!new)>(le: (T, T) -> bool)
  {
    && TotalPreorder(le)
    && (forall a, b :: le(a, b) && le(b, a) ==> a == b)
  }

  ghost predicate Sorted<T>(le: (T, T) -> bool, xs: seq<T>)
  {
    forall i, j :: 0 <= i < j < |xs| ==> le(xs[i], xs[j])
  }

  /** Inserts x after the last element that is not above it. */
  function Insert<T>(le: (T, T) -> bool, s: seq<T>, x: T): (r: seq<T>)
    ensures |r| == |s| + 1
    ensures multiset(r) == multiset(s) + multiset{x}
  {
    if |s| == 0 then [x]
    else if le(s[|s| - 1], x) then s + [x]
    else
      SnocSplit(s);
      Insert(le, s[..|s| - 1], x) + [s[|s| - 1]]
  }

  /** The host's `sort` with a comparator that agrees with `le`. */
  function SortBy<T>(le: (T, T) -> bool, xs: seq<T>): (r: seq<T>)
    ensures |r| == |xs|
    ensures multiset(r) == multiset(xs)
  {
    if |xs| == 0 then []
    else
      SnocSplit(xs);
      Insert(le, SortBy(le, xs[..|xs| - 1]), xs[|xs| - 1])
  }

  lemma {:induction false} InsertSorted<T(!new)>(le: (T, T) -> bool, s: seq<T>, x: T)
    requires TotalPreorder(le)
    requires Sorted(le, s)
    ensures Sorted(le, Insert(le, s, x))
    decreases |s|
  {
    if |s| == 0 {
    } else if le(s[|s| - 1], x) {
      var r := s + [x];
      forall i, j | 0 <= i < j < |r|
        ensures le(r[i], r[j])
      {
        if j == |s| && i < |s| - 1 {
          assert le(s[i], s[|s| - 1]);
        }
      }
    } else {
      var init := s[..|s| - 1];
      var last := s[|s| - 1];
      assert le(x, last);
      InsertSorted(le, init, x);
      var ins := Insert(le, init, x);
      var r := ins + [last];
      forall i, j | 0 <= i < j < |r|
        ensures le(r[i], r[j])
      {
        if j == |ins| {
          assert r[i] in multiset(ins);
          assert r[i] in multiset(init) || r[i] == x;
          if r[i] != x {
            var k :| 0 <= k < |init| && init[k] == r[i];
            assert le(s[k], s[|s| - 1]);
          }
        }
      }
    }
  }

  /** The sorted copy is ordered under `le`. */
  lemma {:induction false} SortBySorted<T(!new)>(le: (T, T) -> bool, xs: seq<T>)
    requires TotalPreorder(le)
    ensures Sorted(le, SortBy(le, xs))
    decreases |xs|
  {
    if |xs| > 0 {
      SortBySorted(le, xs[..|xs| - 1]);
      InsertSorted(le, SortBy(le, xs[..|xs| - 1]), xs[|xs| - 1]);
    }
  }

  /**
    A comparator that never separates two elements (the source's
    `default: return 0`) leaves a stable sort's input in place.
   */
  lemma {:induction false} SortByAllEqual<T>(le: (T, T) -> bool, xs: seq<T>)
    requires forall a, b :: le(a, b)
    ensures SortBy(le, xs) == xs
    decreases |xs|
  {
    if |xs| > 0 {
      SortByAllEqual(le, xs[..|xs| - 1]);
      SnocSplit(xs);
    }
  }

  /** A stable sort leaves an already ordered input in place. */
  lemma {:induction false} SortByOrdered<T>(le: (T, T) -> bool, xs: seq<T>)
    requires Sorted(le, xs)
    ensures SortBy(le, xs) == xs
    decreases |xs|
  {
    if |xs| > 0 {
      var init := xs[..|xs| - 1];
      assert Sorted(le, init) by {
        forall i, j | 0 <= i < j < |init| ensures le(init[i], init[j]) {
          assert init[i] == xs[i] && init[j] == xs[j];
        }
      }
      SortByOrdered(le, init);
      SnocSplit(xs);
      if |init| > 0 {
        assert le(xs[|init| - 1], xs[|xs| - 1]);
      }
    }
  }

  /** Keeping a subsequence of an ordered sequence keeps it ordered. */
  lemma {:induction false} FilterSorted<T>(le: (T, T) -> bool, p: T -> bool, xs: seq<T>)
    requires Sorted(le, xs)
    ensures Sorted(le, Filter(p, xs))
    decreases |xs|
  {
    if |xs| > 0 {
      var rest := Filter(p, xs[1..]);
      FilterSorted(le, p, xs[1..]);
      FilterCons(p, xs);
      if p(xs[0]) {
        forall y | y in rest ensures le(xs[0], y) {
          var k :| 0 <= k < |xs[1..]| && xs[1..][k] == y;
          assert xs[k + 1] == y;
        }
        SortedCons(le, xs[0], rest);
      }
    }
  }

  /** An element below everything in an ordered sequence can go in front of it. */
  lemma SortedCons<T>(le: (T, T) -> bool, x: T, rest: seq<T>)
    requires Sorted(le, rest)
    requires forall y :: y in rest ==> le(x, y)
    ensures Sorted(le, [x] + rest)
  {
    var r := [x] + rest;
    forall i, j | 0 <= i < j < |r| ensures le(r[i], r[j]) {
      assert r[j] == rest[j - 1];
      if i > 0 {
        assert r[i] == rest[i - 1];
      }
    }
  }

  // ---------------------------------------------------------------------------
  // De-duplication in first-occurrence order (the `some`/`push` loop).
  // ---------------------------------------------------------------------------

  ghost predicate NoDuplicates<T>(xs: seq<T>)
  {
    forall i, j :: 0 <= i < j < |xs| ==> xs[i] != xs[j]
  }

  /** Index of the first occurrence of x in xs. */
  function FirstIndex<T(==)>(xs: seq<T>, x: T): (k: nat)
    requires x in xs
    ensures k < |xs| && xs[k] == x && x !in xs[..k]
  {
    if xs[0] == x then 0 else 1 + FirstIndex(xs[1..], x)
  }

  lemma {:induction false} FirstIndexPrefix<T>(xs: seq<T>, n: nat, x: T)
    requires n <= |xs| && x in xs[..n]
    ensures FirstIndex(xs, x) == FirstIndex(xs[..n], x)
    decreases n
  {
    if xs[0] != x {
      assert xs[..n][1..] == xs[1..][..n - 1];
      FirstIndexPrefix(xs[1..], n - 1, x);
    }
  }

  /**
    Walks xs left to right and appends each element not seen yet: the
    result holds every element once, in the order of first occurrence.
   */
  function Dedup<T(==)>(xs: seq<T>): (r: seq<T>)
    ensures NoDuplicates(r)
    ensures forall x :: x in r ==> x in xs
    ensures forall x :: x in xs ==> x in r
    ensures forall i, j :: 0 <= i < j < |r| ==> FirstIndex(xs, r[i]) < FirstIndex(xs, r[j])
  {
    if |xs| == 0 then []
    else
      var init := xs[..|xs| - 1];
      var last := xs[|xs| - 1];
      var d := Dedup(init);
      assert xs == init + [last];
      assert forall x :: x in d ==> FirstIndex(xs, x) == FirstIndex(init, x) by {
        forall x | x in d { FirstIndexPrefix(xs, |xs| - 1, x); }
      }
      if last in d then d
      else
        assert FirstIndex(xs, last) == |xs| - 1;
        d + [last]
  }

  /** Appending an element adds it to the end unless it is already there. */
  lemma DedupSnoc<T>(xs: seq<T>, x: T)
    ensures Dedup(xs + [x]) == if x in Dedup(xs) then Dedup(xs) else Dedup(xs) + [x]
  {
    assert (xs + [x])[..|xs|] == xs;
  }

  /** A suffix cut at two points is the concatenation of the three pieces. */
  lemma SliceThree<T>(s: seq<T>, p: nat, q: nat, e: nat)
    requires p <= q <= e <= |s|
    ensures s[p..] == s[p..q] + s[q..e] + s[e..]
  {
  }

  lemma MultisetCons<T>(xs: seq<T>)
    requires xs != []
    ensures multiset(xs) == multiset{xs[0]} + multiset(xs[1..])
  {
    assert xs == [xs[0]] + xs[1..];
  }

  /** The four pieces of a + b + c + e, cut back out. */
  lemma Concat4<T>(a: seq<T>, b: seq<T>, c: seq<T>, e: seq<T>)
    ensures var s := a + b + c + e;
      && s[..|a|] == a
      && s[|a|..] == b + c + e
      && s[|a|..|a| + |b|] == b
      && s[|a| + |b|..|a| + |b| + |c|] == c
      && s[|a| + |b| + |c|..] == e
  {
  }

  /** A slice that spells x starts with x[0] and then spells the rest of x. */
  lemma SliceTail<T>(s: seq<T>, k: nat, x: seq<T>)
    requires |x| > 0 && k + |x| <= |s| && s[k..k + |x|] == x
    ensures s[k] == x[0] && s[k + 1..k + 1 + |x[1..]|] == x[1..]
  {
    assert s[k..k + |x|][0] == s[k];
  }

  lemma SliceOfSuffix<T>(xs: seq<T>, c: nat, a: nat, b: nat)
    requires c <= |xs| && a <= b <= |xs| - c
    ensures xs[c..][a..b] == xs[c + a..c + b]
  {
  }

  lemma SliceOfSlice<T>(xs: seq<T>, c: nat, e: nat, a: nat, b: nat)
    requires c <= e <= |xs| && a <= b <= e - c
    ensures xs[c..e][a..b] == xs[c + a..c + b]
  {
    forall k | 0 <= k < b - a ensures xs[c..e][a..b][k] == xs[c + a..c + b][k] {
      assert xs[c..e][a + k] == xs[c + a + k];
    }
  }

  /** An element absent from a slice differs from every element in that range. */
  lemma NotInSlice<T>(xs: seq<T>, i: nat, j: nat, x: T)
    requires i <= j <= |xs| && x !in xs[i..j]
    ensures forall k :: i <= k < j ==> xs[k] != x
  {
    forall k | i <= k < j ensures xs[k] != x {
      assert xs[i..j][k - i] == xs[k];
    }
  }

  /** The end of the run of elements from i on that pass p. */
  function RunEnd<T>(p: T -> bool, xs: seq<T>, i: nat): (j: nat)
    requires i <= |xs|
    ensures i <= j <= |xs|
    ensures forall k :: i <= k < j ==> p(xs[k])
    ensures j == |xs| || !p(xs[j])
    decreases |xs| - i
  {
    if i < |xs| && p(xs[i]) then RunEnd(p, xs, i + 1) else i
  }

  /** A non-empty sequence is its front followed by its last element. */
  lemma SnocSplit<T>(xs: seq<T>)
    requires |xs| > 0
    ensures xs == xs[..|xs| - 1] + [xs[|xs| - 1]]
  {
  }

  lemma ConcatAssoc<T>(a: seq<T>, b: seq<T>, c: seq<T>)
    ensures (a + b) + c == a + (b + c)
  {
  }

  lemma AppendHalves<T>(a: seq<T>, b: seq<T>)
    ensures (a + b)[..|a|] == a && (a + b)[|a|..] == b
  {
  }

  /** Sequences with the same multiset of elements have the same members. */
  lemma MultisetMembers<T>(xs: seq<T>, ys: seq<T>)
    requires multiset(xs) == multiset(ys)
    ensures forall k :: k in xs <==> k in ys
  {
    forall k ensures k in xs <==> k in ys {
      assert k in xs <==> k in multiset(xs);
      assert k in ys <==> k in multiset(ys);
    }
  }

  lemma PrefixSplit<T>(xs: seq<T>, a: nat, b: nat)
    requires a <= b <= |xs|
    ensures xs[..a] + xs[a..b] == xs[..b]
  {
  }

  lemma PrefixSnoc<T>(xs: seq<T>, i: nat)
    requires i < |xs|
    ensures xs[..i + 1] == xs[..i] + [xs[i]]
  {
  }

  /** How often a filtered sequence holds x: as often as the input if x passes, else never. */
  lemma {:induction false} FilterCount<T>(p: T -> bool, xs: seq<T>, x: T)
    ensures multiset(Filter(p, xs))[x] == if p(x) then multiset(xs)[x] else 0
  {
    if |xs| > 0 {
      var head := if p(xs[0]) then [xs[0]] else [];
      FilterCount(p, xs[1..], x);
      FilterCons(p, xs);
      MultisetCons(xs);
      assert multiset(Filter(p, xs)) == multiset(head) + multiset(Filter(p, xs[1..]));
    }
  }

  lemma {:induction false} NoDuplicatesCount<T>(xs: seq<T>, x: T)
    requires NoDuplicates(xs)
    ensures multiset(xs)[x] <= 1
  {
    if |xs| > 0 {
      assert xs == [xs[0]] + xs[1..];
      assert NoDuplicates(xs[1..]) by {
        forall i, j | 0 <= i < j < |xs[1..]| ensures xs[1..][i] != xs[1..][j] {
          assert xs[1..][i] == xs[i + 1] && xs[1..][j] == xs[j + 1];
        }
      }
      NoDuplicatesCount(xs[1..], x);
      if xs[0] == x {
        assert x !in xs[1..] by {
          forall k | 0 <= k < |xs[1..]| ensures xs[1..][k] != x {
            assert xs[1..][k] == xs[k + 1];
          }
        }
      }
    }
  }

  /** A sub-multiset of a duplicate-free sequence is duplicate-free. */
  lemma NoDuplicatesSub<T>(xs: seq<T>, ys: seq<T>)
    requires NoDuplicates(xs) && multiset(ys) <= multiset(xs)
    ensures NoDuplicates(ys)
  {
    forall i, j | 0 <= i < j < |ys| ensures ys[i] != ys[j] {
      NoDuplicatesCount(xs, ys[i]);
      assert ys == ys[..j] + [ys[j]] + ys[j + 1..];
      assert ys[i] in ys[..j];
      assert multiset(ys)[ys[i]] >= multiset(ys[..j])[ys[i]] + multiset{ys[j]}[ys[i]];
    }
  }

  lemma NoDuplicatesAppend<T>(a: seq<T>, b: seq<T>)
    requires NoDuplicates(a) && NoDuplicates(b)
    requires forall x :: x in a ==> x !in b
    ensures NoDuplicates(a + b)
  {
    forall i, j | 0 <= i < j < |a + b| ensures (a + b)[i] != (a + b)[j] {
      if i < |a| && j >= |a| {
        assert (a + b)[i] in a && (a + b)[j] == b[j - |a|];
      }
    }
  }
}
