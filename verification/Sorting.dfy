/**
 Sorting by a total preorder. `SortSlice` stands for Go's `sort.Slice`, which is not stable:
 callers know only that the result is ordered and a permutation.
 */
module Sorting {
  ghost predicate TotalPreorder<T(!new)>(leq: (T, T) -> bool) {
    && (forall a, b :: leq(a, b) || leq(b, a))
    && (forall a, b, c :: leq(a, b) && leq(b, c) ==> leq(a, c))
  }

  ghost predicate Sorted<T>(s: seq<T>, leq: (T, T) -> bool) {
    forall i, j :: 0 <= i < j < |s| ==> leq(s[i], s[j])
  }

  function Insert<T(!new)>(s: seq<T>, x: T, leq: (T, T) -> bool): (r: seq<T>)
    ensures multiset(r) == multiset(s) + multiset{x}
  {
    if s == [] then [x]
    else if leq(s[|s| - 1], x) then s + [x]
    else
      assert s == s[..|s| - 1] + [s[|s| - 1]];
      Insert(s[..|s| - 1], x, leq) + [s[|s| - 1]]
  }

  lemma {:induction false} InsertSorted<T(!new)>(s: seq<T>, x: T, leq: (T, T) -> bool)
    requires TotalPreorder(leq) && Sorted(s, leq)
    ensures Sorted(Insert(s, x, leq), leq)
  {
    if s != [] {
      var n := |s| - 1;
      if leq(s[n], x) {
        assert forall i :: 0 <= i < n ==> leq(s[i], s[n]);
        assert forall i :: 0 <= i <= n ==> leq(s[i], x);
      } else {
        InsertSorted(s[..n], x, leq);
        var r := Insert(s[..n], x, leq);
        forall i | 0 <= i < |r| ensures leq(r[i], s[n]) {
          assert r[i] in multiset(r);
          assert r[i] in s[..n] || r[i] == x;
        }
      }
    }
  }

  /** Some sorted arrangement of `s`. */
  function Arrange<T(!new)>(s: seq<T>, leq: (T, T) -> bool): (r: seq<T>)
    requires TotalPreorder(leq)
    ensures Sorted(r, leq)
    ensures multiset(r) == multiset(s)
    ensures |r| == |s|
  {
    if s == [] then []
    else
      assert s == s[..|s| - 1] + [s[|s| - 1]];
      var front := Arrange(s[..|s| - 1], leq);
      InsertSorted(front, s[|s| - 1], leq);
      var r := Insert(front, s[|s| - 1], leq);
      assert |multiset(r)| == |multiset(s)|;
      r
  }

  method SortSlice<T(!new)>(a: array<T>, leq: (T, T) -> bool)
    requires TotalPreorder(leq)
    modifies a
    ensures Sorted(a[..], leq)
    ensures multiset(a[..]) == multiset(old(a[..]))
  {
    var s := Arrange(a[..], leq);
    forall i | 0 <= i < a.Length {
      a[i] := s[i];
    }
    assert a[..] == s;
  }

  /** The order tells the elements of `s` apart. */
  ghost predicate Separates<T(!new)>(s: seq<T>, leq: (T, T) -> bool) {
    forall i, j :: 0 <= i < |s| && 0 <= j < |s| && leq(s[i], s[j]) && leq(s[j], s[i]) ==> s[i] == s[j]
  }

  /** Two sorted arrangements of the same elements are equal when the order tells
      distinct elements apart. */
  lemma {:induction false} SortedUnique<T(!new)>(s: seq<T>, t: seq<T>, leq: (T, T) -> bool)
    requires Sorted(s, leq) && Sorted(t, leq)
    requires multiset(s) == multiset(t)
    requires Separates(s, leq)
    ensures s == t
  {
    SameLength(s, t);
    if s != [] {
      var n := |s| - 1;
      LastsAgree(s, t, leq);
      DropLast(s);
      DropLast(t);
      PrefixSorted(s, n, leq);
      PrefixSorted(t, n, leq);
      SortedUnique(s[..n], t[..n], leq);
    }
  }

  lemma DropLast<T>(s: seq<T>)
    requires s != []
    ensures multiset(s[..|s| - 1]) == multiset(s) - multiset{s[|s| - 1]}
    ensures s == s[..|s| - 1] + [s[|s| - 1]]
  {
    assert s == s[..|s| - 1] + [s[|s| - 1]];
  }

  lemma PrefixSorted<T(!new)>(s: seq<T>, n: nat, leq: (T, T) -> bool)
    requires Sorted(s, leq) && n <= |s|
    ensures Sorted(s[..n], leq) && (Separates(s, leq) ==> Separates(s[..n], leq))
  {
  }

  lemma LastsAgree<T(!new)>(s: seq<T>, t: seq<T>, leq: (T, T) -> bool)
    requires Sorted(s, leq) && Sorted(t, leq)
    requires multiset(s) == multiset(t) && s != [] && |s| == |t|
    requires Separates(s, leq)
    ensures s[|s| - 1] == t[|s| - 1]
  {
    var n := |s| - 1;
    assert s[n] in multiset(t) && t[n] in multiset(s);
    var i :| 0 <= i <= n && t[i] == s[n];
    var j :| 0 <= j <= n && s[j] == t[n];
    if i < n && j < n {
      assert leq(t[i], t[n]) && leq(s[j], s[n]);
      assert s[j] == s[n];
    }
  }

  lemma SameLength<T>(s: seq<T>, t: seq<T>)
    requires multiset(s) == multiset(t)
    ensures |s| == |t|
  {
    assert |multiset(s)| == |s|;
    assert |multiset(t)| == |t|;
  }

  /** An element of a rearrangement: where it is in the other sequence, and what remains. */
  lemma Locate<T>(s: seq<T>, t: seq<T>) returns (j: nat)
    requires s != [] && multiset(s) == multiset(t)
    ensures j < |t| && t[j] == s[|s| - 1]
    ensures multiset(s[..|s| - 1]) == multiset(t[..j] + t[j + 1..])
  {
    var x := s[|s| - 1];
    assert x in multiset(t);
    j :| 0 <= j < |t| && t[j] == x;
    assert s == s[..|s| - 1] + [x];
    assert t == t[..j] + [x] + t[j + 1..];
    assert multiset(s[..|s| - 1]) == multiset(s) - multiset{x};
    assert multiset(t) == multiset(t[..j] + t[j + 1..]) + multiset{x};
  }

  function Map<T, U>(s: seq<T>, f: T -> U): (r: seq<U>)
    ensures |r| == |s| && forall i :: 0 <= i < |s| ==> r[i] == f(s[i])
  {
    seq(|s|, i requires 0 <= i < |s| => f(s[i]))
  }

  lemma {:induction false} MapPermutes<T, U>(s: seq<T>, t: seq<T>, f: T -> U)
    requires multiset(s) == multiset(t)
    ensures multiset(Map(s, f)) == multiset(Map(t, f))
  {
    SameLength(s, t);
    if s == [] {
      assert Map(s, f) == Map(t, f);
    } else {
      var n := |s| - 1;
      var j := Locate(s, t);
      var t' := t[..j] + t[j + 1..];
      MapPermutes(s[..n], t', f);
      assert Map(s, f) == Map(s[..n], f) + [f(s[n])];
      assert Map(t, f) == Map(t[..j], f) + [f(t[j])] + Map(t[j + 1..], f);
      assert Map(t', f) == Map(t[..j], f) + Map(t[j + 1..], f);
    }
  }

  /** The elements that satisfy `keep`, in order. */
  function Filter<T(!new)>(s: seq<T>, keep: T -> bool): (r: seq<T>)
    ensures forall x :: x in r <==> x in s && keep(x)
    ensures |r| <= |s|
  {
    if s == [] then []
    else
      assert forall x :: x in s <==> x in s[..|s| - 1] || x == s[|s| - 1];
      Filter(s[..|s| - 1], keep) + (if keep(s[|s| - 1]) then [s[|s| - 1]] else [])
  }

  lemma {:induction false} FilterSame<T(!new)>(s: seq<T>, keep: T -> bool, keep': T -> bool)
    requires forall x :: x in s ==> keep(x) == keep'(x)
    ensures Filter(s, keep) == Filter(s, keep')
  {
    if s != [] {
      assert s[|s| - 1] in s;
      FilterSame(s[..|s| - 1], keep, keep');
    }
  }

  lemma FirstIsIn<T>(s: seq<T>)
    ensures s != [] ==> s[0] in s
  {
  }

  lemma {:induction false} FilterMultiplicity<T(!new)>(s: seq<T>, keep: T -> bool, x: T)
    ensures multiset(Filter(s, keep))[x] == if keep(x) then multiset(s)[x] else 0
  {
    if s != [] {
      FilterMultiplicity(s[..|s| - 1], keep, x);
      assert s == s[..|s| - 1] + [s[|s| - 1]];
    }
  }

  lemma FilterPermutes<T(!new)>(s: seq<T>, t: seq<T>, keep: T -> bool)
    requires multiset(s) == multiset(t)
    ensures multiset(Filter(s, keep)) == multiset(Filter(t, keep))
  {
    forall x ensures multiset(Filter(s, keep))[x] == multiset(Filter(t, keep))[x] {
      FilterMultiplicity(s, keep, x);
      FilterMultiplicity(t, keep, x);
    }
  }

  lemma {:induction false} FilterAll<T(!new)>(s: seq<T>, keep: T -> bool)
    requires forall x :: x in s ==> keep(x)
    ensures Filter(s, keep) == s
  {
    if s != [] {
      FilterAll(s[..|s| - 1], keep);
      assert s == s[..|s| - 1] + [s[|s| - 1]];
    }
  }

  // ---------- enumerations of a set, such as the order in which Go visits a map ----------

  ghost predicate NoDuplicates<T>(s: seq<T>) {
    forall i, j :: 0 <= i < j < |s| ==> s[i] != s[j]
  }

  ghost predicate Enumerates<T(!new)>(order: seq<T>, elements: set<T>) {
    NoDuplicates(order) && forall x :: x in order <==> x in elements
  }

  lemma EnumerateOneMore<T(!new)>(order: seq<T>, elements: set<T>, x: T)
    requires Enumerates(order, elements) && x !in elements
    ensures Enumerates(order + [x], elements + {x})
  {
  }

  lemma {:induction false} Multiplicity<T>(s: seq<T>, x: T)
    requires NoDuplicates(s)
    ensures multiset(s)[x] == if x in s then 1 else 0
  {
    if s != [] {
      Multiplicity(s[..|s| - 1], x);
      assert s == s[..|s| - 1] + [s[|s| - 1]];
    }
  }

  lemma EnumeratesPermutes<T(!new)>(s: seq<T>, t: seq<T>, elements: set<T>)
    requires Enumerates(s, elements) && multiset(s) == multiset(t)
    ensures Enumerates(t, elements)
  {
    assert forall x :: (x in s <==> x in multiset(s)) && (x in t <==> x in multiset(t));
    forall i, j | 0 <= i < j < |t| ensures t[i] != t[j] {
      if t[i] == t[j] {
        assert t == t[..i] + [t[i]] + t[i + 1..j] + [t[j]] + t[j + 1..];
        assert multiset(t)[t[i]] >= 2;
        Multiplicity(s, t[i]);
      }
    }
  }

  lemma EnumerationsPermute<T(!new)>(s: seq<T>, t: seq<T>, elements: set<T>)
    requires Enumerates(s, elements) && Enumerates(t, elements)
    ensures multiset(s) == multiset(t)
  {
    forall x ensures multiset(s)[x] == multiset(t)[x] {
      Multiplicity(s, x);
      Multiplicity(t, x);
    }
  }

  lemma {:induction false} FilterKeepsNoDuplicates<T(!new)>(s: seq<T>, keep: T -> bool)
    requires NoDuplicates(s)
    ensures NoDuplicates(Filter(s, keep))
  {
    if s != [] {
      FilterKeepsNoDuplicates(s[..|s| - 1], keep);
      assert s[|s| - 1] !in s[..|s| - 1];
    }
  }
}
