/** The stable sort that `list.sort` and `sorted` give, and the sequence filters the
    proofs about it are written with. A descending sort (`reverse=True`) is the same
    function under the reversed order, because Python keeps it stable as well. */
module StableSort {

  /** `le(x, y)`: x may stand in front of y. */
  ghost predicate TotalPreorder<T(!new)>(le: (T, T) -> bool) {
    && (forall x, y :: le(x, y) || le(y, x))
    && (forall x, y, z :: le(x, y) && le(y, z) ==> le(x, z))
  }

  ghost predicate Ordered<T>(s: seq<T>, le: (T, T) -> bool) {
    forall i, j :: 0 <= i < j < |s| ==> le(s[i], s[j])
  }

  ghost predicate Distinct<T>(s: seq<T>) {
    forall i, j :: 0 <= i < j < |s| ==> s[i] != s[j]
  }

  function Filter<T>(s: seq<T>, p: T -> bool): seq<T> {
    if s == [] then [] else if p(s[0]) then [s[0]] + Filter(s[1..], p) else Filter(s[1..], p)
  }

  /** Inserts an element that came earlier in the input than every element of `s`. */
  function Insert<T>(x: T, s: seq<T>, le: (T, T) -> bool): seq<T> {
    if s == [] || le(x, s[0]) then [x] + s else [s[0]] + Insert(x, s[1..], le)
  }

  function Sort<T>(s: seq<T>, le: (T, T) -> bool): seq<T> {
    if s == [] then [] else Insert(s[0], Sort(s[1..], le), le)
  }

  lemma ConcatAssociates<T>(a: seq<T>, b: seq<T>, c: seq<T>)
    ensures a + b + c == a + (b + c)
  {
  }

  lemma ConcatSnoc<T>(a: seq<T>, b: seq<T>)
    requires b != []
    ensures a + b == a + b[..|b| - 1] + [b[|b| - 1]]
  {
  }

  // ---- filters --------------------------------------------------------------

  lemma {:induction false} FilterAppend<T>(a: seq<T>, b: seq<T>, p: T -> bool)
    ensures Filter(a + b, p) == Filter(a, p) + Filter(b, p)
  {
    if a == [] {
      assert a + b == b;
    } else {
      assert (a + b)[1..] == a[1..] + b;
      FilterAppend(a[1..], b, p);
    }
  }

  lemma {:induction false} FilterMembers<T>(s: seq<T>, p: T -> bool)
    ensures |Filter(s, p)| <= |s|
    ensures forall x :: x in Filter(s, p) <==> x in s && p(x)
    ensures (forall x :: x in s ==> p(x)) <==> Filter(s, p) == s
    ensures (forall x :: x in s ==> p(x)) <==> |Filter(s, p)| == |s|
    ensures (forall x :: x in s ==> !p(x)) <==> Filter(s, p) == []
  {
    if s != [] {
      FilterMembers(s[1..], p);
      assert s == [s[0]] + s[1..];
    }
  }

  lemma {:induction false} FilterCong<T>(s: seq<T>, p: T -> bool, q: T -> bool)
    requires forall x :: x in s ==> p(x) == q(x)
    ensures Filter(s, p) == Filter(s, q)
  {
    if s != [] { FilterCong(s[1..], p, q); }
  }

  lemma {:induction false} FilterDistinct<T>(s: seq<T>, p: T -> bool)
    requires Distinct(s)
    ensures Distinct(Filter(s, p))
  {
    if s != [] {
      FilterDistinct(s[1..], p);
      FilterMembers(s[1..], p);
    }
  }

  /** A prefix of a duplicate-free list is cut out by membership in that prefix. */
  lemma TakeIsFilter<T>(s: seq<T>, k: nat)
    requires Distinct(s) && k <= |s|
    ensures Filter(s, x => x in s[..k]) == s[..k]
  {
    var p := x => x in s[..k];
    assert s == s[..k] + s[k..];
    FilterAppend(s[..k], s[k..], p);
    FilterMembers(s[..k], p);
    FilterMembers(s[k..], p);
  }

  // ---- the sort -------------------------------------------------------------

  lemma {:induction false} InsertPermutes<T>(x: T, s: seq<T>, le: (T, T) -> bool)
    ensures multiset(Insert(x, s, le)) == multiset(s) + multiset{x}
  {
    if s != [] && !le(x, s[0]) {
      InsertPermutes(x, s[1..], le);
      assert s == [s[0]] + s[1..];
    }
  }

  lemma {:induction false} SortKeepsMultiset<T>(s: seq<T>, le: (T, T) -> bool)
    ensures multiset(Sort(s, le)) == multiset(s)
  {
    if s != [] {
      SortKeepsMultiset(s[1..], le);
      InsertPermutes(s[0], Sort(s[1..], le), le);
      assert s == [s[0]] + s[1..];
    }
  }

  lemma SameMultiset<T>(a: seq<T>, b: seq<T>)
    requires multiset(a) == multiset(b)
    ensures |a| == |b|
    ensures forall x :: x in a <==> x in b
  {
    assert |multiset(a)| == |a| && |multiset(b)| == |b|;
    assert forall x :: x in a <==> x in multiset(a);
    assert forall x :: x in b <==> x in multiset(b);
  }

  lemma SortPermutes<T>(s: seq<T>, le: (T, T) -> bool)
    ensures multiset(Sort(s, le)) == multiset(s)
    ensures |Sort(s, le)| == |s|
    ensures forall x :: x in Sort(s, le) <==> x in s
  {
    SortKeepsMultiset(s, le);
    SameMultiset(Sort(s, le), s);
  }

  lemma {:induction false} InsertOrdered<T(!new)>(x: T, s: seq<T>, le: (T, T) -> bool)
    requires TotalPreorder(le) && Ordered(s, le)
    ensures Ordered(Insert(x, s, le), le)
  {
    if s != [] && !le(x, s[0]) {
      InsertOrdered(x, s[1..], le);
      InsertPermutes(x, s[1..], le);
      var t := Insert(x, s[1..], le);
      forall i | 0 <= i < |t| ensures le(s[0], t[i]) {
        assert t[i] in multiset(t);
        assert t[i] == x || t[i] in s[1..];
      }
    }
  }

  lemma {:induction false} SortOrdered<T(!new)>(s: seq<T>, le: (T, T) -> bool)
    requires TotalPreorder(le)
    ensures Ordered(Sort(s, le), le)
  {
    if s != [] {
      SortOrdered(s[1..], le);
      InsertOrdered(s[0], Sort(s[1..], le), le);
    }
  }

  lemma {:induction false} SortOfOrdered<T>(s: seq<T>, le: (T, T) -> bool)
    requires Ordered(s, le)
    ensures Sort(s, le) == s
  {
    if s != [] { SortOfOrdered(s[1..], le); }
  }

  lemma {:induction false} InsertFilter<T(!new)>(x: T, s: seq<T>, le: (T, T) -> bool, p: T -> bool)
    requires TotalPreorder(le) && Ordered(s, le)
    ensures Filter(Insert(x, s, le), p) == if p(x) then Insert(x, Filter(s, p), le) else Filter(s, p)
  {
    if s == [] || le(x, s[0]) {
      assert ([x] + s)[1..] == s;
      FilterMembers(s, p);
      var f := Filter(s, p);
      if f != [] {
        assert f[0] in s;
        assert le(x, f[0]);
      }
    } else {
      InsertFilter(x, s[1..], le, p);
      var t := Insert(x, s, le);
      assert t[1..] == Insert(x, s[1..], le);
    }
  }

  /** Stability: sorting a sub-selection gives the sub-selection of the sorted list. */
  lemma {:induction false} SortFilter<T(!new)>(s: seq<T>, le: (T, T) -> bool, p: T -> bool)
    requires TotalPreorder(le)
    ensures Filter(Sort(s, le), p) == Sort(Filter(s, p), le)
  {
    if s != [] {
      SortFilter(s[1..], le, p);
      SortOrdered(s[1..], le);
      InsertFilter(s[0], Sort(s[1..], le), le, p);
    }
  }

  lemma SortDistinct<T>(s: seq<T>, le: (T, T) -> bool)
    requires Distinct(s)
    ensures Distinct(Sort(s, le))
  {
    SortPermutes(s, le);
    var t := Sort(s, le);
    forall i, j | 0 <= i < j < |t| ensures t[i] != t[j] {
      if t[i] == t[j] {
        assert t == t[..i] + [t[i]] + t[i+1..j] + [t[j]] + t[j+1..];
        assert multiset(t)[t[i]] >= 2;
        DistinctCounts(s, t[i]);
      }
    }
  }

  lemma {:induction false} DistinctCounts<T>(s: seq<T>, x: T)
    requires Distinct(s)
    ensures multiset(s)[x] <= 1
  {
    if s != [] {
      assert s == [s[0]] + s[1..];
      DistinctCounts(s[1..], x);
      if s[0] == x { assert x !in s[1..]; }
    }
  }

  lemma FirstIsLeast<T(!new)>(s: seq<T>, le: (T, T) -> bool, x: T)
    requires TotalPreorder(le) && Ordered(s, le) && x in multiset(s)
    ensures s != [] && le(s[0], x)
  {
    var i :| 0 <= i < |s| && s[i] == x;
    assert i > 0 ==> le(s[0], s[i]);
  }

  lemma TailMultiset<T>(s: seq<T>)
    requires s != []
    ensures multiset(s[1..]) == multiset(s) - multiset{s[0]} && s[0] in multiset(s)
  {
    assert s == [s[0]] + s[1..];
  }

  /** Two ordered arrangements of the same elements agree when the order is antisymmetric on them. */
  lemma {:induction false} OrderedUnique<T(!new)>(a: seq<T>, b: seq<T>, le: (T, T) -> bool)
    requires TotalPreorder(le) && Ordered(a, le) && Ordered(b, le) && multiset(a) == multiset(b)
    requires forall x, y :: x in a && y in a && le(x, y) && le(y, x) ==> x == y
    ensures a == b
  {
    SameMultiset(a, b);
    if a != [] {
      TailMultiset(a);
      TailMultiset(b);
      FirstIsLeast(a, le, b[0]);
      FirstIsLeast(b, le, a[0]);
      assert b[0] in a && a[0] == b[0];
      OrderedUnique(a[1..], b[1..], le);
    }
  }

  // ---- sorting in parts -------------------------------------------------------

  function InsertAll<T>(a: seq<T>, s: seq<T>, le: (T, T) -> bool): seq<T> {
    if a == [] then s else Insert(a[0], InsertAll(a[1..], s, le), le)
  }

  lemma {:induction false} SortOfConcat<T>(a: seq<T>, b: seq<T>, le: (T, T) -> bool)
    ensures Sort(a + b, le) == InsertAll(a, Sort(b, le), le)
  {
    if a == [] {
      assert a + b == b;
    } else {
      assert (a + b)[1..] == a[1..] + b;
      SortOfConcat(a[1..], b, le);
    }
  }

  lemma {:induction false} InsertAllOrdered<T(!new)>(a: seq<T>, s: seq<T>, le: (T, T) -> bool)
    requires TotalPreorder(le) && Ordered(s, le)
    ensures Ordered(InsertAll(a, s, le), le)
  {
    if a != [] {
      InsertAllOrdered(a[1..], s, le);
      InsertOrdered(a[0], InsertAll(a[1..], s, le), le);
    }
  }

  lemma {:induction false} InsertsCommute<T(!new)>(a: T, x: T, s: seq<T>, le: (T, T) -> bool)
    requires TotalPreorder(le) && Ordered(s, le) && !le(x, a)
    ensures Insert(a, Insert(x, s, le), le) == Insert(x, Insert(a, s, le), le)
  {
    if s != [] && !le(a, s[0]) { InsertsCommute(a, x, s[1..], le); }
  }

  lemma {:induction false} InsertAllOfInsert<T(!new)>(x: T, a: seq<T>, s: seq<T>, le: (T, T) -> bool)
    requires TotalPreorder(le) && Ordered(s, le)
    ensures InsertAll(Insert(x, a, le), s, le) == Insert(x, InsertAll(a, s, le), le)
  {
    if a != [] && !le(x, a[0]) {
      InsertAllOfInsert(x, a[1..], s, le);
      InsertAllOrdered(a[1..], s, le);
      InsertsCommute(a[0], x, InsertAll(a[1..], s, le), le);
    } else {
      assert ([x] + a)[1..] == a;
    }
  }

  /** Sorting the parts first changes nothing, ties included. */
  lemma {:induction false} SortPartsFirst<T(!new)>(a: seq<T>, b: seq<T>, le: (T, T) -> bool)
    requires TotalPreorder(le)
    ensures Sort(Sort(a, le) + Sort(b, le), le) == Sort(a + b, le)
  {
    SortOfConcat(a, b, le);
    SortOfConcat(Sort(a, le), Sort(b, le), le);
    SortOrdered(b, le);
    SortOfOrdered(Sort(b, le), le);
    if a != [] {
      SortPartsFirst(a[1..], b, le);
      SortOfConcat(a[1..], b, le);
      SortOfConcat(Sort(a[1..], le), Sort(b, le), le);
      InsertAllOfInsert(a[0], Sort(a[1..], le), Sort(b, le), le);
    }
  }
}
