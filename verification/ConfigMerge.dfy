/** Configuration trees and the recursive merge that a configuration update applies. */
module ConfigMerge {
  import opened Options

  /** A JSON value: an object, or anything that is not one. */
  datatype Json =
    Obj(fields: map<string, Json>) | Text(text: string) | List(items: seq<Json>) | Scalar(value: int) | Null

  function At(fields: map<string, Json>, key: string): Option<Json> {
    if key in fields then Some(fields[key]) else None
  }

  /** What a key holds after the merge: recursive when both sides are objects, else the override. */
  function Merge(base: map<string, Json>, over: map<string, Json>): map<string, Json>
    decreases Obj(base)
  {
    map k | k in base.Keys + over.Keys ::
      if k in base && k in over then
        if base[k].Obj? && over[k].Obj? then (assert base[k] < Obj(base); Obj(Merge(base[k].fields, over[k].fields)))
        else over[k]
      else if k in over then over[k] else base[k]
  }

  /** `result = base.copy()`, then one assignment per key of the override, in any order. */
  method DeepMerge(base: map<string, Json>, over: map<string, Json>) returns (result: map<string, Json>)
    ensures result == Merge(base, over)
    decreases Obj(base)
  {
    result := base;
    var left := over.Keys;
    while left != {}
      invariant left <= over.Keys
      invariant result.Keys == base.Keys + (over.Keys - left)
      invariant forall k :: k in result ==>
                  result[k] == if k in left || k !in over then base[k] else Merge(base, over)[k]
      decreases left
    {
      var key :| key in left;
      if key in result && result[key].Obj? && over[key].Obj? {
        assert base[key] < Obj(base);
        var merged := DeepMerge(result[key].fields, over[key].fields);
        result := result[key := Obj(merged)];
      } else {
        result := result[key := over[key]];
      }
      left := left - {key};
    }
    assert result.Keys == Merge(base, over).Keys;
  }

  // ---- paths -----------------------------------------------------------------------

  /** The value at a non-empty path, absent when the path leaves the tree or passes a non-object. */
  function Lookup(fields: map<string, Json>, path: seq<string>): Option<Json>
    requires path != []
    decreases |path|
  {
    if path[0] !in fields then None
    else if |path| == 1 then Some(fields[path[0]])
    else if fields[path[0]].Obj? then Lookup(fields[path[0]].fields, path[1..])
    else None
  }

  /** Some proper prefix of the path holds a non-object. */
  ghost predicate Blocked(fields: map<string, Json>, path: seq<string>) {
    exists n :: 1 <= n < |path| && Lookup(fields, path[..n]).Some? && !Lookup(fields, path[..n]).value.Obj?
  }

  lemma LookupStep(fields: map<string, Json>, path: seq<string>, n: nat)
    requires 2 <= n <= |path| && path[0] in fields && fields[path[0]].Obj?
    ensures Lookup(fields, path[..n]) == Lookup(fields[path[0]].fields, path[1..][..n - 1])
  {
    assert path[..n][1..] == path[1..][..n - 1];
  }

  lemma BlockedStep(fields: map<string, Json>, path: seq<string>)
    requires |path| >= 2
    ensures path[0] !in fields ==> !Blocked(fields, path)
    ensures path[0] in fields && !fields[path[0]].Obj? ==> Blocked(fields, path)
    ensures path[0] in fields && fields[path[0]].Obj? ==>
              (Blocked(fields, path) <==> Blocked(fields[path[0]].fields, path[1..]))
  {
    assert path[..1] == [path[0]];
    if path[0] in fields && !fields[path[0]].Obj? {
      assert Lookup(fields, path[..1]).Some?;
    }
    if path[0] in fields && fields[path[0]].Obj? {
      if Blocked(fields, path) {
        var n :| 1 <= n < |path| && Lookup(fields, path[..n]).Some? && !Lookup(fields, path[..n]).value.Obj?;
        assert n >= 2;
        LookupStep(fields, path, n);
      }
      if Blocked(fields[path[0]].fields, path[1..]) {
        var n :| 1 <= n < |path[1..]| && Lookup(fields[path[0]].fields, path[1..][..n]).Some?
                 && !Lookup(fields[path[0]].fields, path[1..][..n]).value.Obj?;
        LookupStep(fields, path, n + 1);
        assert Lookup(fields, path[..n + 1]).Some?;
      }
    }
  }

  /** The merged tree, path by path, from the two trees alone. Where the override has a value it wins,
      two objects merging; where it has none the base shows through, unless the override has
      put a non-object on the way. */
  function MergedAt(base: map<string, Json>, over: map<string, Json>, path: seq<string>): Option<Json>
    requires path != []
  {
    var b, o := Lookup(base, path), Lookup(over, path);
    if o.None? then b
    else if b.Some? && b.value.Obj? && o.value.Obj? then Some(Obj(Merge(b.value.fields, o.value.fields)))
    else o
  }

  lemma {:induction false} MergeByPath(base: map<string, Json>, over: map<string, Json>, path: seq<string>)
    requires path != []
    ensures Lookup(Merge(base, over), path) ==
            if Lookup(over, path).None? && Blocked(over, path) then None else MergedAt(base, over, path)
    decreases |path|
  {
    var k := path[0];
    if |path| > 1 {
      BlockedStep(over, path);
      if k in base && k in over && base[k].Obj? && over[k].Obj? {
        MergeByPath(base[k].fields, over[k].fields, path[1..]);
      } else if k in over && over[k].Obj? {
        BlockedMeansAbsent(over[k].fields, path[1..]);
      }
    }
  }

  lemma {:induction false} BlockedMeansAbsent(fields: map<string, Json>, path: seq<string>)
    requires path != []
    ensures Blocked(fields, path) ==> Lookup(fields, path).None?
    decreases |path|
  {
    if |path| > 1 {
      BlockedStep(fields, path);
      if path[0] in fields && fields[path[0]].Obj? { BlockedMeansAbsent(fields[path[0]].fields, path[1..]); }
    }
  }

  // ---- algebra --------------------------------------------------------------------------

  lemma EmptyIsIdentity(a: map<string, Json>)
    ensures Merge(a, map[]) == a && Merge(map[], a) == a
  {
  }

  /** Every key of `a`, at every object depth, is already in `b`: merging `b` over `a` adds nothing. */
  predicate Covers(b: map<string, Json>, a: map<string, Json>)
    decreases Obj(a)
  {
    forall k :: k in a ==>
      k in b && (a[k].Obj? && b[k].Obj? ==> (assert a[k] < Obj(a); Covers(b[k].fields, a[k].fields)))
  }

  lemma {:induction false} MergeAbsorbsIff(a: map<string, Json>, b: map<string, Json>)
    ensures Merge(a, b) == b <==> Covers(b, a)
    decreases Obj(a)
  {
    var m := Merge(a, b);
    forall k | k in a && k in b && a[k].Obj? && b[k].Obj?
      ensures m[k] == b[k] <==> Covers(b[k].fields, a[k].fields)
    {
      assert a[k] < Obj(a);
      MergeAbsorbsIff(a[k].fields, b[k].fields);
    }
    if m == b {
      assert forall k :: k in a ==> k in m;
    }
    if Covers(b, a) {
      assert m.Keys == b.Keys;
      assert forall k :: k in b ==> m[k] == b[k];
    }
  }

  lemma {:induction false} CoversItself(a: map<string, Json>)
    ensures Covers(a, a)
    decreases Obj(a)
  {
    forall k | k in a && a[k].Obj? ensures Covers(a[k].fields, a[k].fields) {
      assert a[k] < Obj(a);
      CoversItself(a[k].fields);
    }
  }

  lemma {:induction false} MergeCoversOverride(a: map<string, Json>, b: map<string, Json>)
    ensures Covers(Merge(a, b), b)
    ensures Merge(Merge(a, b), b) == Merge(a, b)
    decreases Obj(a)
  {
    var m := Merge(a, b);
    forall k | k in b && b[k].Obj? && m[k].Obj?
      ensures Covers(m[k].fields, b[k].fields)
      ensures Merge(m[k].fields, b[k].fields) == m[k].fields
    {
      if k in a && a[k].Obj? {
        assert a[k] < Obj(a);
        MergeCoversOverride(a[k].fields, b[k].fields);
      } else {
        CoversItself(b[k].fields);
        MergeAbsorbsIff(b[k].fields, b[k].fields);
      }
    }
    assert Merge(m, b).Keys == m.Keys;
  }

  /** Applying the same update twice is applying it once, and merging a tree into itself changes nothing. */
  lemma MergeIdempotent(a: map<string, Json>, b: map<string, Json>)
    ensures Merge(a, a) == a
    ensures Merge(Merge(a, b), b) == Merge(a, b)
  {
    CoversItself(a);
    MergeAbsorbsIff(a, a);
    MergeCoversOverride(a, b);
  }

  /** Wherever all three trees reach, the middle one does not replace an object of `a` by a non-object
      that `c` then replaces by an object short of what `a` had. */
  predicate Groups(a: map<string, Json>, b: map<string, Json>, c: map<string, Json>)
    decreases Obj(a)
  {
    forall k :: k in a && k in b && k in c && a[k].Obj? && c[k].Obj? ==>
      if b[k].Obj? then (assert a[k] < Obj(a); Groups(a[k].fields, b[k].fields, c[k].fields))
      else Covers(c[k].fields, a[k].fields)
  }

  predicate GroupsAt(a: map<string, Json>, b: map<string, Json>, c: map<string, Json>, k: string) {
    k in a && k in b && k in c && a[k].Obj? && c[k].Obj? ==>
      if b[k].Obj? then Groups(a[k].fields, b[k].fields, c[k].fields) else Covers(c[k].fields, a[k].fields)
  }

  lemma GroupsByKey(a: map<string, Json>, b: map<string, Json>, c: map<string, Json>)
    ensures Groups(a, b, c) <==> forall k :: k in a.Keys + b.Keys + c.Keys ==> GroupsAt(a, b, c, k)
  {
    if forall k :: k in a.Keys + b.Keys + c.Keys ==> GroupsAt(a, b, c, k) {
      forall k | k in a && k in b && k in c && a[k].Obj? && c[k].Obj?
        ensures if b[k].Obj? then Groups(a[k].fields, b[k].fields, c[k].fields) else Covers(c[k].fields, a[k].fields)
      {
        assert k in a.Keys + b.Keys + c.Keys && GroupsAt(a, b, c, k);
      }
    }
  }

  /** Exactly when two updates can be merged into one first. */
  lemma {:induction false} MergeAssociatesIff(a: map<string, Json>, b: map<string, Json>, c: map<string, Json>)
    ensures Merge(Merge(a, b), c) == Merge(a, Merge(b, c)) <==> Groups(a, b, c)
    decreases Obj(a)
  {
    var l, r, keys := Merge(Merge(a, b), c), Merge(a, Merge(b, c)), a.Keys + b.Keys + c.Keys;
    assert l.Keys == keys && r.Keys == keys;
    forall k | k in keys ensures k in l && k in r && (l[k] == r[k] <==> GroupsAt(a, b, c, k)) {
      MergeAssociatesAt(a, b, c, k);
    }
    GroupsByKey(a, b, c);
    assert l == r <==> forall k :: k in keys ==> l[k] == r[k];
  }

  lemma {:induction false} MergeAssociatesAt(a: map<string, Json>, b: map<string, Json>, c: map<string, Json>,
                                             k: string)
    requires k in a || k in b || k in c
    ensures var l, r := Merge(Merge(a, b), c), Merge(a, Merge(b, c));
            k in l && k in r && (l[k] == r[k] <==> GroupsAt(a, b, c, k))
    decreases Obj(a), 0
  {
    if k in a && k in b && k in c && a[k].Obj? && c[k].Obj? {
      assert a[k] < Obj(a);
      if b[k].Obj? {
        MergeAssociatesIff(a[k].fields, b[k].fields, c[k].fields);
      } else {
        MergeAbsorbsIff(a[k].fields, c[k].fields);
      }
    }
  }

  /** The smallest failure: the middle tree drops an object that the last one brings back emptier. */
  lemma MergeDoesNotAssociate(k: string, x: string)
    ensures var a, b, c := map[k := Obj(map[x := Null])], map[k := Null], map[k := Obj(map[])];
            Merge(Merge(a, b), c) != Merge(a, Merge(b, c))
  {
    var a, b, c := map[k := Obj(map[x := Null])], map[k := Null], map[k := Obj(map[])];
    assert x in a[k].fields && !Covers(map[], a[k].fields);
    MergeAssociatesIff(a, b, c);
  }

  /** No path is an object in one tree and a non-object in another. */
  ghost predicate SameShape(a: map<string, Json>, b: map<string, Json>)
    decreases Obj(a)
  {
    forall k :: k in a && k in b ==>
      (a[k].Obj? <==> b[k].Obj?) && (a[k].Obj? ==> (assert a[k] < Obj(a); SameShape(a[k].fields, b[k].fields)))
  }

  lemma {:induction false} SameShapeGroups(a: map<string, Json>, b: map<string, Json>, c: map<string, Json>)
    requires SameShape(a, b)
    ensures Groups(a, b, c)
    decreases Obj(a)
  {
    forall k | k in a && k in b && k in c && a[k].Obj? && b[k].Obj? && c[k].Obj?
      ensures Groups(a[k].fields, b[k].fields, c[k].fields)
    {
      assert a[k] < Obj(a);
      SameShapeGroups(a[k].fields, b[k].fields, c[k].fields);
    }
  }

  lemma MergeAssociatesOnSameShape(a: map<string, Json>, b: map<string, Json>, c: map<string, Json>)
    requires SameShape(a, b)
    ensures Merge(Merge(a, b), c) == Merge(a, Merge(b, c))
  {
    SameShapeGroups(a, b, c);
    MergeAssociatesIff(a, b, c);
  }
}
