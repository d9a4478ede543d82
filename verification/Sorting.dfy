/** The contract of the library sort: some rearrangement in order, equal elements in no particular
    order. The body stands in for the library's algorithm. */
module Sorting {
  import opened Common

  ghost predicate TotalPreorder<T(!new)>(le: (T, T) -> bool) {
    && (forall a, b :: le(a, b) || le(b, a))
    && (forall a, b, c :: le(a, b) && le(b, c) ==> le(a, c))
  }

  predicate SortedBy<T>(s: seq<T>, le: (T, T) -> bool) {
    forall i, j | 0 <= i < j < |s| :: le(s[i], s[j])
  }

  ghost predicate IsSorting<T>(r: seq<T>, s: seq<T>, le: (T, T) -> bool) {
    multiset(r) == multiset(s) && SortedBy(r, le)
  }

  function InsertAt<T>(s: seq<T>, x: T, k: nat): seq<T>
    requires k <= |s|
  {
    s[..k] + [x] + s[k..]
  }

  lemma InsertKeepsBag<T>(s: seq<T>, x: T, k: nat)
    requires k <= |s|
    ensures multiset(InsertAt(s, x, k)) == multiset(s) + multiset{x}
  {
    assert s == s[..k] + s[k..];
  }

  lemma InsertKeepsOrder<T(!new)>(s: seq<T>, x: T, k: nat, le: (T, T) -> bool)
    requires TotalPreorder(le) && SortedBy(s, le) && k <= |s|
    requires k > 0 ==> le(s[k - 1], x)
    requires k < |s| ==> le(x, s[k])
    ensures SortedBy(InsertAt(s, x, k), le)
  {
    var out := InsertAt(s, x, k);
    forall i, j | 0 <= i < j < |out| ensures le(out[i], out[j]) {
      if j < k {
        assert le(s[i], s[j]);
      } else if i > k {
        assert le(s[i - 1], s[j - 1]);
      } else {
        if i < k {
          assert i == k - 1 || le(s[i], s[k - 1]);
          assert le(s[i], x);
        }
        if j > k {
          assert j - 1 == k || le(s[k], s[j - 1]);
          assert le(x, s[j - 1]);
        }
      }
    }
  }

  method Insert<T(!new)>(s: seq<T>, x: T, le: (T, T) -> bool) returns (out: seq<T>)
    requires TotalPreorder(le) && SortedBy(s, le)
    ensures multiset(out) == multiset(s) + multiset{x} && SortedBy(out, le)
  {
    hide InsertAt, SortedBy;
    var k := |s|;
    while k > 0 && !le(s[k - 1], x)
      invariant 0 <= k <= |s|
      invariant k < |s| ==> !le(s[k], x)
    {
      k := k - 1;
    }
    InsertKeepsOrder(s, x, k, le);
    InsertKeepsBag(s, x, k);
    out := InsertAt(s, x, k);
  }

  /** sort.Slice. */
  method Sort<T(!new)>(s: seq<T>, le: (T, T) -> bool) returns (r: seq<T>)
    requires TotalPreorder(le)
    ensures IsSorting(r, s, le)
  {
    r := [];
    for n := 0 to |s|
      invariant IsSorting(r, s[..n], le)
    {
      assert s[..n + 1] == s[..n] + [s[n]];
      r := Insert(r, s[n], le);
    }
    assert s[..|s|] == s;
  }

  lemma SomeSorting<T(!new)>(s: seq<T>, le: (T, T) -> bool) returns (r: seq<T>)
    requires TotalPreorder(le)
    ensures IsSorting(r, s, le)
  {
    if s == [] {
      r := [];
    } else {
      var front, x := s[..|s| - 1], s[|s| - 1];
      var sorted := SomeSorting(front, le);
      var k := |sorted|;
      while k > 0 && !le(sorted[k - 1], x)
        invariant 0 <= k <= |sorted|
        invariant k < |sorted| ==> !le(sorted[k], x)
      {
        k := k - 1;
      }
      InsertKeepsOrder(sorted, x, k, le);
      InsertKeepsBag(sorted, x, k);
      assert s == front + [x];
      r := InsertAt(sorted, x, k);
    }
  }

  lemma SortingElements<T>(r: seq<T>, s: seq<T>, le: (T, T) -> bool)
    requires IsSorting(r, s, le)
    ensures |r| == |s| && forall x :: x in r <==> x in s
  {
    assert |multiset(r)| == |multiset(s)|;
    forall x ensures x in r <==> x in s {
      assert x in multiset(r) <==> x in multiset(s);
    }
  }

  lemma {:induction false} DistinctCounts<T>(s: seq<T>)
    ensures Distinct(s) <==> forall x | x in s :: multiset(s)[x] == 1
  {
    if s != [] {
      var front := s[..|s| - 1];
      var last := s[|s| - 1];
      DistinctCounts(front);
      assert s == front + [last];
      assert forall x :: multiset(s)[x] == multiset(front)[x] + (if x == last then 1 else 0);
      if Distinct(s) {
        forall x | x in s ensures multiset(s)[x] == 1 {
          assert last !in front;
          assert x == last || x in front;
        }
      } else {
        var i, j :| 0 <= i < j < |s| && s[i] == s[j];
        if j < |front| {
          assert front[i] == front[j];
          var x :| x in front && multiset(front)[x] != 1;
          assert multiset(s)[x] > 1;
        } else {
          assert last in front && multiset(s)[last] > 1;
        }
      }
    }
  }

  lemma SortingDistinct<T>(r: seq<T>, s: seq<T>, le: (T, T) -> bool)
    requires IsSorting(r, s, le) && Distinct(s)
    ensures Distinct(r)
  {
    SortingElements(r, s, le);
    DistinctCounts(s);
    DistinctCounts(r);
  }

  lemma LastIsGreatest<T>(s: seq<T>, le: (T, T) -> bool, x: T)
    requires SortedBy(s, le) && x in s
    ensures x == s[|s| - 1] || le(x, s[|s| - 1])
  {
    var i :| 0 <= i < |s| && s[i] == x;
  }

  lemma FrontBag<T>(s: seq<T>)
    requires s != []
    ensures s == s[..|s| - 1] + [s[|s| - 1]]
    ensures multiset(s[..|s| - 1]) == multiset(s) - multiset{s[|s| - 1]}
  {
    assert s == s[..|s| - 1] + [s[|s| - 1]];
  }

  lemma FrontSorted<T>(s: seq<T>, le: (T, T) -> bool)
    requires SortedBy(s, le) && s != []
    ensures SortedBy(s[..|s| - 1], le)
  {
  }

  /** Where the order tells the elements apart there is only one sorted rearrangement. */
  lemma {:induction false} SortingUnique<T>(a: seq<T>, b: seq<T>, le: (T, T) -> bool)
    requires multiset(a) == multiset(b) && SortedBy(a, le) && SortedBy(b, le)
    requires forall x, y | x in a && y in a && le(x, y) && le(y, x) :: x == y
    ensures a == b
  {
    hide SortedBy;
    SortingElements(a, b, le);
    if a != [] {
      var n := |a| - 1;
      FrontSorted(a, le);
      FrontSorted(b, le);
      LastIsGreatest(a, le, b[n]);
      LastIsGreatest(b, le, a[n]);
      assert a[n] == b[n];
      FrontBag(a);
      FrontBag(b);
      SortingUnique(a[..n], b[..n], le);
    }
  }
}
