/** Rearranged, mapped and duplicate-free sequences. */
module Sequences {
  import opened Text

  function Map<A, B>(f: A -> B, s: seq<A>): (r: seq<B>)
    ensures |r| == |s|
  {
    if s == [] then [] else Map(f, s[..|s| - 1]) + [f(s[|s| - 1])]
  }

  lemma {:induction false} MapAt<A, B>(f: A -> B, s: seq<A>, i: nat)
    requires i < |s|
    ensures Map(f, s)[i] == f(s[i])
  {
    if i < |s| - 1 {
      MapAt(f, s[..|s| - 1], i);
    }
  }

  lemma MapStep<A, B>(f: A -> B, front: seq<A>, x: A)
    ensures Map(f, front + [x]) == Map(f, front) + [f(x)]
  {
    assert (front + [x])[..|front|] == front;
  }

  lemma PrefixStep<T>(s: seq<T>, i: nat)
    requires i < |s|
    ensures s[..i + 1] == s[..i] + [s[i]]
  {
  }

  lemma FullPrefix<T>(s: seq<T>)
    ensures s[..|s|] == s
  {
  }

  /** An element in the middle counts as it would at the end. */
  lemma CountsAround<T>(x: seq<T>, m: T, y: seq<T>)
    ensures multiset(x + [m] + y) == multiset(x + y) + multiset([m])
  {
  }

  lemma {:induction false} MapAppend<A, B>(f: A -> B, a: seq<A>, b: seq<A>)
    ensures Map(f, a + b) == Map(f, a) + Map(f, b)
  {
    if b == [] {
      assert a + b == a;
    } else {
      var last := |b| - 1;
      MapAppend(f, a, b[..last]);
      assert (a + b)[..|a + b| - 1] == a + b[..last];
    }
  }

  lemma MapAround<A, B>(f: A -> B, x: seq<A>, m: A, y: seq<A>)
    ensures multiset(Map(f, x + [m] + y)) == multiset(Map(f, x + y)) + multiset([f(m)])
  {
    MapAppend(f, x + [m], y);
    MapStep(f, x, m);
    MapAppend(f, x, y);
    CountsAround(Map(f, x), f(m), Map(f, y));
  }

  lemma MapHead<A, B>(f: A -> B, a: seq<A>)
    requires a != []
    ensures multiset(Map(f, a)) == multiset(Map(f, a[1..])) + multiset([f(a[0])])
  {
    MapAround(f, [], a[0], a[1..]);
    assert [] + [a[0]] + a[1..] == a && [] + a[1..] == a[1..];
  }

  lemma WithoutHead<T>(a: seq<T>)
    requires a != []
    ensures multiset(a) == multiset(a[1..]) + multiset([a[0]])
  {
    assert a == [a[0]] + a[1..];
  }

  /** Where the first element of one arrangement stands in the other; without it they still match. */
  lemma TakeOut<T>(a: seq<T>, b: seq<T>) returns (k: nat)
    requires a != [] && multiset(a) == multiset(b)
    ensures k < |b| && b[k] == a[0] && b == b[..k] + [a[0]] + b[k + 1..]
    ensures multiset(a[1..]) == multiset(b[..k] + b[k + 1..])
  {
    SameMembers(a, b, a[0]);
    k :| 0 <= k < |b| && b[k] == a[0];
    CountsAround(b[..k], a[0], b[k + 1..]);
    assert b == b[..k] + [a[0]] + b[k + 1..];
    WithoutHead(a);
    var rest := multiset(b[..k] + b[k + 1..]);
    assert multiset(a[1..]) + multiset([a[0]]) == rest + multiset([a[0]]);
    CancelOne(multiset(a[1..]), rest, multiset([a[0]]));
  }

  lemma CancelOne<T>(x: multiset<T>, y: multiset<T>, m: multiset<T>)
    requires x + m == y + m
    ensures x == y
  {
    assert x == (x + m) - m && y == (y + m) - m;
  }

  lemma {:induction false} MapPermutes<A, B>(f: A -> B, a: seq<A>, b: seq<A>)
    requires multiset(a) == multiset(b)
    ensures multiset(Map(f, a)) == multiset(Map(f, b))
    decreases |a|
  {
    if a == [] {
      assert |multiset(b)| == |b|;
    } else {
      var k := TakeOut(a, b);
      MapPermutes(f, a[1..], b[..k] + b[k + 1..]);
      MapAround(f, b[..k], a[0], b[k + 1..]);
      MapHead(f, a);
    }
  }

  predicate Distinct<T(==)>(s: seq<T>) {
    forall i, j | 0 <= i < j < |s| :: s[i] != s[j]
  }

  lemma DistinctSnoc<T>(s: seq<T>, x: T)
    ensures Distinct(s + [x]) <==> Distinct(s) && x !in s
  {
    var t := s + [x];
    if Distinct(t) {
      assert forall i | 0 <= i < |s| :: s[i] == t[i] && t[i] != t[|s|];
    }
  }

  lemma DistinctConcat<T>(a: seq<T>, b: seq<T>)
    ensures Distinct(a + b) <==> Distinct(a) && Distinct(b) && (forall x | x in b :: x !in a)
  {
    var c := a + b;
    if Distinct(c) {
      assert forall i | 0 <= i < |a| :: c[i] == a[i];
      assert forall i | 0 <= i < |b| :: c[|a| + i] == b[i];
    }
    if Distinct(a) && Distinct(b) && forall x | x in b :: x !in a {
      forall i, j | 0 <= i < j < |c| ensures c[i] != c[j] {
        if i < |a| && |a| <= j {
          assert c[i] in a && c[j] in b;
        }
      }
    }
  }

  lemma SmallCountsAreDistinct<T>(s: seq<T>)
    requires forall x :: multiset(s)[x] <= 1
    ensures Distinct(s)
  {
    forall i, j | 0 <= i < j < |s| ensures s[i] != s[j] {
      assert s == s[..j] + [s[j]] + s[j + 1..];
      assert s[..j][i] in multiset(s[..j]);
      assert multiset(s)[s[j]] <= 1;
    }
  }

  lemma {:induction false} DistinctCounts<T>(s: seq<T>, x: T)
    requires Distinct(s)
    ensures multiset(s)[x] <= 1
  {
    if s != [] {
      DistinctCounts(s[1..], x);
      assert s == [s[0]] + s[1..];
      assert s[0] !in s[1..];
      assert s[0] !in multiset(s[1..]);
    }
  }

  lemma RearrangedStaysDistinct<T>(a: seq<T>, b: seq<T>)
    requires multiset(a) == multiset(b) && Distinct(a)
    ensures Distinct(b)
  {
    forall x ensures multiset(b)[x] <= 1 {
      DistinctCounts(a, x);
    }
    SmallCountsAreDistinct(b);
  }

  lemma MemberIsCounted<T>(s: seq<T>, x: T)
    ensures x in s <==> multiset(s)[x] >= 1
  {
  }

  /** Two duplicate-free sequences with the same elements are rearrangements of each other. */
  lemma SameElementsRearrange<T>(a: seq<T>, b: seq<T>)
    requires Distinct(a) && Distinct(b) && forall x :: x in a <==> x in b
    ensures multiset(a) == multiset(b)
  {
    forall x ensures multiset(a)[x] == multiset(b)[x] {
      DistinctCounts(a, x);
      DistinctCounts(b, x);
      MemberIsCounted(a, x);
      MemberIsCounted(b, x);
    }
  }

  lemma SameSizeSameSet<T>(a: set<T>, b: set<T>)
    requires a <= b && |a| == |b|
    ensures a == b
  {
    assert |b - a| == 0;
  }

  lemma SubsetIsSmaller<T>(a: set<T>, b: set<T>)
    requires a <= b
    ensures |a| <= |b|
  {
    assert b == a + (b - a);
  }

  lemma DisjointSizes<T>(a: set<T>, b: set<T>, c: set<T>)
    requires a !! b && a !! c && b !! c
    ensures |a + b + c| == |a| + |b| + |c|
  {
    assert (a + b) !! c;
    assert |a + b| == |a| + |b|;
  }
}
