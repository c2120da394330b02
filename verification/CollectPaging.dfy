/** Paging over several sources that are merged by time after each was cut to a bounded prefix. */
module CollectPaging {
  import opened Options
  import opened StableSort

  /** `source` and `id` identify the item; `at` is the timestamp both the query and the merge sort by. */
  datatype Item = Item(source: string, id: int, at: int)

  predicate Newer(a: Item, b: Item) { a.at >= b.at }

  function Prefix<T>(s: seq<T>, n: nat): seq<T> {
    if n < |s| then s[..n] else s
  }

  /** Python's `s[start:end]` for non-negative bounds. */
  function Slice<T>(s: seq<T>, start: nat, end: nat): seq<T> {
    var e := if end < |s| then end else |s|;
    if start < e then s[start..e] else []
  }

  /** `order_by(desc(...))` with `offset` and `limit` on a table listed in the database's order of ties. */
  function Query(table: seq<Item>, offset: nat, limit: nat): seq<Item> {
    Slice(Sort(table, Newer), offset, offset + limit)
  }

  function Flatten(tables: seq<seq<Item>>): seq<Item> {
    if tables == [] then [] else tables[0] + Flatten(tables[1..])
  }

  /** The first `bound` rows of every source, as the services collect them before merging. */
  function Fetched(tables: seq<seq<Item>>, bound: nat): seq<Item> {
    if tables == [] then [] else Query(tables[0], 0, bound) + Fetched(tables[1..], bound)
  }

  /** Everything, newest first. */
  function Full(tables: seq<seq<Item>>): seq<Item> {
    Sort(Flatten(tables), Newer)
  }

  /** The rows before the page. */
  function Skipped(page: nat, limit: nat): nat
    requires page >= 1
  {
    (page - 1) * limit
  }

  /** `results[start:end]` with `start = (page - 1) * limit` and `end = start + limit`. */
  function CutPage(s: seq<Item>, page: nat, limit: nat): seq<Item>
    requires page >= 1
  {
    Slice(s, Skipped(page, limit), Skipped(page, limit) + limit)
  }

  /** What paging promises: the page cut out of everything. */
  function FullPage(tables: seq<seq<Item>>, page: nat, limit: nat): seq<Item>
    requires page >= 1
  {
    CutPage(Full(tables), page, limit)
  }

  /** What is served: the page cut out of the merged prefixes. */
  function ServedPage(tables: seq<seq<Item>>, bound: nat, page: nat, limit: nat): seq<Item>
    requires page >= 1
  {
    CutPage(Sort(Fetched(tables, bound), Newer), page, limit)
  }

  /** Items carry a source and a primary key, so no item occurs twice. */
  ghost predicate Keyed(tables: seq<seq<Item>>) {
    Distinct(Flatten(tables))
  }

  // ---- the merged prefixes are a selection of everything -----------------------------

  lemma NewerIsOrder()
    ensures TotalPreorder(Newer)
  {
  }

  function SortedTables(tables: seq<seq<Item>>): seq<Item> {
    if tables == [] then [] else Sort(tables[0], Newer) + SortedTables(tables[1..])
  }

  lemma {:induction false} SortedTablesFull(tables: seq<seq<Item>>)
    ensures Sort(SortedTables(tables), Newer) == Full(tables)
    ensures multiset(SortedTables(tables)) == multiset(Flatten(tables))
  {
    if tables != [] {
      SortedTablesFull(tables[1..]);
      var t, s, r, sr := tables[0], Sort(tables[0], Newer), Flatten(tables[1..]), SortedTables(tables[1..]);
      SortPartsFirst(t, r, Newer);
      SortPartsFirst(s, sr, Newer);
      SortOrdered(t, Newer);
      SortOfOrdered(s, Newer);
      SortPermutes(t, Newer);
    }
  }

  lemma DistinctParts(a: seq<Item>, b: seq<Item>)
    requires Distinct(a + b)
    ensures Distinct(a) && Distinct(b)
    ensures forall x :: !(x in a && x in b)
  {
    assert forall i :: 0 <= i < |a| ==> (a + b)[i] == a[i];
    assert forall i :: 0 <= i < |b| ==> (a + b)[|a| + i] == b[i];
  }

  lemma {:induction false} FetchedIsSelection(tables: seq<seq<Item>>, bound: nat)
    requires Distinct(SortedTables(tables))
    ensures Filter(SortedTables(tables), (x: Item) => x in Fetched(tables, bound)) == Fetched(tables, bound)
  {
    if tables != [] {
      var s, rest := Sort(tables[0], Newer), SortedTables(tables[1..]);
      var f, frest := Query(tables[0], 0, bound), Fetched(tables[1..], bound);
      var p, q := (x: Item) => x in Fetched(tables, bound), (x: Item) => x in frest;
      DistinctParts(s, rest);
      FetchedIsSelection(tables[1..], bound);
      FilterMembers(rest, q);
      FilterAppend(s, rest, p);
      assert f == s[..|f|];
      TakeIsFilter(s, |f|);
      FilterCong(s, p, x => x in s[..|f|]);
      FilterCong(rest, p, q);
    }
  }

  lemma DistinctPermuted(a: seq<Item>, b: seq<Item>)
    requires Distinct(a) && multiset(a) == multiset(b)
    ensures Distinct(b)
  {
    forall i, j | 0 <= i < j < |b| ensures b[i] != b[j] {
      if b[i] == b[j] {
        assert b == b[..i] + [b[i]] + b[i + 1..j] + [b[j]] + b[j + 1..];
        assert multiset(b)[b[i]] >= 2;
        DistinctCounts(a, b[i]);
      }
    }
  }

  /** Merging the prefixes gives the full list with the rows that were not fetched left out. */
  lemma ServedIsFilteredFull(tables: seq<seq<Item>>, bound: nat)
    requires Keyed(tables)
    ensures Sort(Fetched(tables, bound), Newer) == Filter(Full(tables), (x: Item) => x in Fetched(tables, bound))
    ensures Distinct(Full(tables))
  {
    NewerIsOrder();
    SortedTablesFull(tables);
    DistinctPermuted(Flatten(tables), SortedTables(tables));
    FetchedIsSelection(tables, bound);
    SortFilter(SortedTables(tables), Newer, (x: Item) => x in Fetched(tables, bound));
    SortDistinct(Flatten(tables), Newer);
  }

  // ---- when leaving rows out is harmless --------------------------------------------

  lemma {:induction false} FilterKeepsPrefix<T>(s: seq<T>, p: T -> bool, e: nat)
    requires e <= |s| && forall i :: 0 <= i < e ==> p(s[i])
    ensures e <= |Filter(s, p)| && Filter(s, p)[..e] == s[..e]
  {
    assert s == s[..e] + s[e..];
    FilterAppend(s[..e], s[e..], p);
    FilterMembers(s[..e], p);
  }

  /** Where a selected element lands. */
  lemma FilterPosition<T>(s: seq<T>, p: T -> bool, j: nat)
    requires j < |s| && p(s[j])
    ensures |Filter(s[..j], p)| < |Filter(s, p)| && Filter(s, p)[|Filter(s[..j], p)|] == s[j]
  {
    assert s == s[..j] + s[j..];
    FilterAppend(s[..j], s[j..], p);
  }

  lemma PageIsSelected<T>(s: seq<T>, p: T -> bool, start: nat, e: nat)
    requires start < e <= |s| && e <= |Filter(s, p)| && Filter(s, p)[start..e] == s[start..e]
    ensures forall i :: start <= i < e ==> Filter(s, p)[i] == s[i] && p(s[i])
  {
    var f := Filter(s, p);
    FilterMembers(s, p);
    hide Filter;
    forall i | start <= i < e ensures f[i] == s[i] && p(s[i]) {
      assert f[start..e][i - start] == s[start..e][i - start] && f[i] in f;
    }
  }

  /** A page that comes out right needs everything before it and in it. */
  lemma RightPageIsSelected<T>(s: seq<T>, p: T -> bool, start: nat, e: nat)
    requires Distinct(s) && start < e <= |s| && e <= |Filter(s, p)|
    requires Filter(s, p)[start..e] == s[start..e]
    ensures forall i :: 0 <= i < e ==> p(s[i])
  {
    hide Filter;
    PageIsSelected(s, p, start, e);
    RankOfFirst(s, p, start);
    FilterMembers(s[..start], p);
    forall i | 0 <= i < start ensures p(s[i]) { assert s[..start][i] in s[..start]; }
  }

  /** An element that keeps its place in a selection has everything before it selected. */
  lemma RankOfFirst<T>(s: seq<T>, p: T -> bool, start: nat)
    requires Distinct(s) && start < |s| && start < |Filter(s, p)| && Filter(s, p)[start] == s[start] && p(s[start])
    ensures |Filter(s[..start], p)| == start
  {
    FilterDistinct(s, p);
    FilterPosition(s, p, start);
  }

  lemma SliceOfPrefix<T>(s: seq<T>, start: nat, end: nat)
    requires start < end <= |s|
    ensures Slice(s, start, end) == s[..end][start..]
  {
  }

  lemma PageOfFullSelection<T>(s: seq<T>, p: T -> bool, start: nat, end: nat)
    requires start < end && forall x :: x in Prefix(s, end) ==> p(x)
    ensures Slice(Filter(s, p), start, end) == Slice(s, start, end)
  {
    FilterMembers(s, p);
    if end < |s| {
      forall i | 0 <= i < end ensures p(s[i]) { assert s[..end][i] in s[..end]; }
      FilterKeepsPrefix(s, p, end);
      SliceOfPrefix(s, start, end);
      SliceOfPrefix(Filter(s, p), start, end);
    }
  }

  lemma EqualSlices<T>(f: seq<T>, s: seq<T>, start: nat, end: nat)
    requires |f| <= |s| && start < end && start < |s| && Slice(f, start, end) == Slice(s, start, end)
    ensures var e := if end < |s| then end else |s|; e <= |f| && f[start..e] == s[start..e]
  {
    assert |Slice(f, start, end)| == |Slice(s, start, end)|;
  }

  lemma RightPageNeedsAll<T>(s: seq<T>, p: T -> bool, start: nat, end: nat)
    requires Distinct(s) && start < end && start < |s|
    requires Slice(Filter(s, p), start, end) == Slice(s, start, end)
    ensures forall x :: x in Prefix(s, end) ==> p(x)
  {
    var e := if end < |s| then end else |s|;
    FilterMembers(s, p);
    EqualSlices(Filter(s, p), s, start, end);
    RightPageIsSelected(s, p, start, e);
    hide Filter, Slice;
    assert Prefix(s, end) == s[..e];
  }

  /** Cutting a page out of a selection of `s` gives that page of `s` exactly when the page lies beyond
      the end of `s` or everything up to its end was selected. */
  lemma PageOfSelectionIff<T>(s: seq<T>, p: T -> bool, start: nat, end: nat)
    requires Distinct(s) && start < end
    ensures Slice(Filter(s, p), start, end) == Slice(s, start, end) <==>
            |s| <= start || forall x :: x in Prefix(s, end) ==> p(x)
  {
    FilterMembers(s, p);
    if forall x :: x in Prefix(s, end) ==> p(x) { PageOfFullSelection(s, p, start, end); }
    if |s| > start && Slice(Filter(s, p), start, end) == Slice(s, start, end) { RightPageNeedsAll(s, p, start, end); }
  }

  // ---- tables ------------------------------------------------------------------------

  lemma {:induction false} Members(tables: seq<seq<Item>>, bound: nat, x: Item)
    ensures x in Flatten(tables) <==> exists t :: 0 <= t < |tables| && x in tables[t]
    ensures x in Fetched(tables, bound) <==> exists t :: 0 <= t < |tables| && x in Prefix(Sort(tables[t], Newer), bound)
  {
    if tables != [] {
      Members(tables[1..], bound, x);
      assert Query(tables[0], 0, bound) == Prefix(Sort(tables[0], Newer), bound);
      if x in Flatten(tables[1..]) {
        var t :| 0 <= t < |tables[1..]| && x in tables[1..][t];
        assert x in tables[t + 1];
      }
      if x in Fetched(tables[1..], bound) {
        var t :| 0 <= t < |tables[1..]| && x in Prefix(Sort(tables[1..][t], Newer), bound);
        assert x in Prefix(Sort(tables[t + 1], Newer), bound);
      }
      if t :| 0 <= t < |tables| && x in tables[t] { assert t > 0 ==> x in tables[1..][t - 1]; }
      if t :| 0 <= t < |tables| && x in Prefix(Sort(tables[t], Newer), bound) {
        assert t > 0 ==> x in Prefix(Sort(tables[1..][t - 1], Newer), bound);
      }
    }
  }

  lemma {:induction false} TablesDisjoint(tables: seq<seq<Item>>, t: nat, u: nat, x: Item)
    requires Keyed(tables) && t < u < |tables|
    ensures Distinct(tables[t]) && Distinct(tables[u])
    ensures !(x in tables[t] && x in tables[u])
  {
    DistinctParts(tables[0], Flatten(tables[1..]));
    if t > 0 {
      TablesDisjoint(tables[1..], t - 1, u - 1, x);
    } else {
      TableDistinct(tables[1..], u - 1);
      Members(tables[1..], 0, x);
      assert tables[u] == tables[1..][u - 1];
    }
  }

  lemma {:induction false} TableDistinct(tables: seq<seq<Item>>, t: nat)
    requires Keyed(tables) && t < |tables|
    ensures Distinct(tables[t])
  {
    DistinctParts(tables[0], Flatten(tables[1..]));
    if t > 0 { TableDistinct(tables[1..], t - 1); }
  }

  lemma FirstTableOfFlatten(tables: seq<seq<Item>>)
    requires Keyed(tables) && tables != []
    ensures Filter(Flatten(tables), (x: Item) => x in tables[0]) == tables[0]
  {
    var a, b, p := tables[0], Flatten(tables[1..]), (x: Item) => x in tables[0];
    FilterAppend(a, b, p);
    FilterMembers(a, p);
    FilterMembers(b, p);
    forall x | x in b ensures !p(x) {
      Members(tables[1..], 0, x);
      var u :| 0 <= u < |tables[1..]| && x in tables[1..][u];
      TablesDisjoint(tables, 0, u + 1, x);
    }
  }

  lemma TailKeyed(tables: seq<seq<Item>>)
    requires Keyed(tables) && tables != []
    ensures Keyed(tables[1..])
  {
    DistinctParts(tables[0], Flatten(tables[1..]));
  }

  lemma {:induction false} TableOfFlatten(tables: seq<seq<Item>>, t: nat)
    requires Keyed(tables) && t < |tables|
    ensures Filter(Flatten(tables), (x: Item) => x in tables[t]) == tables[t]
  {
    if t == 0 {
      FirstTableOfFlatten(tables);
    } else {
      var a, b, p := tables[0], Flatten(tables[1..]), (x: Item) => x in tables[t];
      FilterAppend(a, b, p);
      FilterMembers(a, p);
      forall x | x in a ensures !p(x) { TablesDisjoint(tables, 0, t, x); }
      TailKeyed(tables);
      TableOfFlatten(tables[1..], t - 1);
      FilterCong(b, p, (x: Item) => x in tables[1..][t - 1]);
    }
  }

  /** How many of the newest `n` items of the full list come from table `t`. */
  function Share(tables: seq<seq<Item>>, t: nat, n: nat): nat
    requires t < |tables|
  {
    |Filter(Prefix(Full(tables), n), (x: Item) => x in tables[t])|
  }

  /** Within the full list every source keeps its own order, so its newest items come first. */
  lemma ShareIsPrefix(tables: seq<seq<Item>>, t: nat, n: nat)
    requires Keyed(tables) && t < |tables|
    ensures var s := Sort(tables[t], Newer); var c := Share(tables, t, n);
            && c <= |s| && c <= n
            && Filter(Prefix(Full(tables), n), (x: Item) => x in tables[t]) == s[..c]
  {
    var f, p := Full(tables), (x: Item) => x in tables[t];
    NewerIsOrder();
    SortFilter(Flatten(tables), Newer, p);
    TableOfFlatten(tables, t);
    assert f == Prefix(f, n) + f[|Prefix(f, n)|..];
    FilterAppend(Prefix(f, n), f[|Prefix(f, n)|..], p);
    FilterMembers(Prefix(f, n), p);
  }

  lemma RowBeyondBoundNotIn(tables: seq<seq<Item>>, bound: nat, t: nat, u: nat)
    requires Keyed(tables) && t < |tables| && u < |tables| && bound < |Sort(tables[t], Newer)|
    ensures Sort(tables[t], Newer)[bound] in tables[t]
    ensures Sort(tables[t], Newer)[bound] !in Prefix(Sort(tables[u], Newer), bound)
  {
    hide Sort, Newer, Keyed;
    var s, x := Sort(tables[t], Newer), Sort(tables[t], Newer)[bound];
    SortPermutes(tables[t], Newer);
    SortPermutes(tables[u], Newer);
    assert x in s;
    if u < t {
      TablesDisjoint(tables, u, t, x);
    } else if t < u {
      TablesDisjoint(tables, t, u, x);
    } else {
      TableDistinct(tables, t);
      SortDistinct(tables[t], Newer);
      assert forall i :: 0 <= i < bound ==> s[i] != s[bound];
    }
  }

  /** The first row of a source beyond the bound is not fetched from anywhere. */
  lemma RowBeyondBoundUnfetched(tables: seq<seq<Item>>, bound: nat, t: nat)
    requires Keyed(tables) && t < |tables| && bound < |Sort(tables[t], Newer)|
    ensures Sort(tables[t], Newer)[bound] in tables[t] && Sort(tables[t], Newer)[bound] !in Fetched(tables, bound)
  {
    hide Sort, Newer, Keyed, Fetched, Prefix;
    var x := Sort(tables[t], Newer)[bound];
    RowBeyondBoundNotIn(tables, bound, t, t);
    Members(tables, bound, x);
    forall u | 0 <= u < |tables| ensures x !in Prefix(Sort(tables[u], Newer), bound) {
      RowBeyondBoundNotIn(tables, bound, t, u);
    }
  }

  lemma FetchedMeansWithinBound(tables: seq<seq<Item>>, bound: nat, n: nat, t: nat)
    requires Keyed(tables) && t < |tables|
    requires forall x :: x in Prefix(Full(tables), n) ==> x in Fetched(tables, bound)
    ensures Share(tables, t, n) <= bound
  {
    ShareIsPrefix(tables, t, n);
    var s, c := Sort(tables[t], Newer), Share(tables, t, n);
    FilterMembers(Prefix(Full(tables), n), (y: Item) => y in tables[t]);
    assert bound < c ==> s[..c][bound] == s[bound] && s[bound] in s[..c];
    if bound < |s| { RowBeyondBoundUnfetched(tables, bound, t); }
  }

  lemma WithinBoundMeansFetched(tables: seq<seq<Item>>, bound: nat, n: nat, x: Item)
    requires Keyed(tables) && x in Prefix(Full(tables), n)
    requires forall t :: 0 <= t < |tables| ==> Share(tables, t, n) <= bound
    ensures x in Fetched(tables, bound)
  {
    SortPermutes(Flatten(tables), Newer);
    Members(tables, bound, x);
    var t :| 0 <= t < |tables| && x in tables[t];
    RankWithinShare(tables, n, t, x);
    InLongerPrefix(Sort(tables[t], Newer), Share(tables, t, n), bound, x);
  }

  lemma RankWithinShare(tables: seq<seq<Item>>, n: nat, t: nat, x: Item)
    requires Keyed(tables) && t < |tables| && x in Prefix(Full(tables), n) && x in tables[t]
    ensures Share(tables, t, n) <= |Sort(tables[t], Newer)| && x in Sort(tables[t], Newer)[..Share(tables, t, n)]
  {
    ShareIsPrefix(tables, t, n);
    FilterMembers(Prefix(Full(tables), n), (y: Item) => y in tables[t]);
  }

  lemma InLongerPrefix(s: seq<Item>, c: nat, bound: nat, x: Item)
    requires c <= |s| && c <= bound && x in s[..c]
    ensures x in Prefix(s, bound)
  {
    var i :| 0 <= i < c && s[..c][i] == x;
    assert Prefix(s, bound)[i] == x;
  }

  // ---- the page theorems ----------------------------------------------------------------

  lemma AllFetchedIff(tables: seq<seq<Item>>, bound: nat, n: nat)
    requires Keyed(tables)
    ensures (forall x :: x in Prefix(Full(tables), n) ==> x in Fetched(tables, bound)) <==>
            forall t :: 0 <= t < |tables| ==> Share(tables, t, n) <= bound
  {
    if forall x :: x in Prefix(Full(tables), n) ==> x in Fetched(tables, bound) {
      forall t | 0 <= t < |tables| ensures Share(tables, t, n) <= bound {
        FetchedMeansWithinBound(tables, bound, n, t);
      }
    }
    if forall t :: 0 <= t < |tables| ==> Share(tables, t, n) <= bound {
      forall x | x in Prefix(Full(tables), n) ensures x in Fetched(tables, bound) {
        WithinBoundMeansFetched(tables, bound, n, x);
      }
    }
  }

  lemma CutOfServedIff(tables: seq<seq<Item>>, bound: nat, start: nat, end: nat)
    requires Keyed(tables) && start < end
    ensures Slice(Sort(Fetched(tables, bound), Newer), start, end) == Slice(Full(tables), start, end) <==>
            |Flatten(tables)| <= start || forall t :: 0 <= t < |tables| ==> Share(tables, t, end) <= bound
  {
    ServedIsFilteredFull(tables, bound);
    SortPermutes(Flatten(tables), Newer);
    AllFetchedIff(tables, bound, end);
    PageOfSelectionIff(Full(tables), (x: Item) => x in Fetched(tables, bound), start, end);
  }

  /** Exactly when a page served from prefixes of `bound` rows is the page of the full merge: when it
      lies beyond the end anyway, or when among the newest page * limit items no source has
      more than `bound`. */
  lemma ServedPageIsFullIff(tables: seq<seq<Item>>, bound: nat, page: nat, limit: nat)
    requires Keyed(tables) && page >= 1 && limit >= 1
    ensures ServedPage(tables, bound, page, limit) == FullPage(tables, page, limit) <==>
            || |Flatten(tables)| <= Skipped(page, limit)
            || forall t :: 0 <= t < |tables| ==> Share(tables, t, page * limit) <= bound
  {
    PageBounds(page, limit);
    CutOfServedIff(tables, bound, Skipped(page, limit), page * limit);
  }

  lemma PageBounds(page: nat, limit: nat)
    requires page >= 1 && limit >= 1
    ensures Skipped(page, limit) + limit == page * limit
  {
  }

  /** A bound that reaches the end of the page is always enough. */
  lemma LongPrefixesSuffice(tables: seq<seq<Item>>, bound: nat, page: nat, limit: nat)
    requires Keyed(tables) && page >= 1 && limit >= 1 && bound >= page * limit
    ensures ServedPage(tables, bound, page, limit) == FullPage(tables, page, limit)
  {
    ServedPageIsFullIff(tables, bound, page, limit);
    forall t | 0 <= t < |tables| ensures Share(tables, t, page * limit) <= bound {
      ShareIsPrefix(tables, t, page * limit);
    }
  }

  lemma {:induction false} FetchedLength(tables: seq<seq<Item>>, bound: nat)
    ensures |Fetched(tables, bound)| <= |tables| * bound
  {
    if tables != [] {
      FetchedLength(tables[1..], bound);
      assert |Query(tables[0], 0, bound)| <= bound;
      OneMore(|tables[1..]|, bound);
    }
  }

  lemma OneMore(n: nat, bound: nat)
    ensures (n + 1) * bound == n * bound + bound
  {
  }

  /** With prefixes of two pages, nothing is served beyond twice as many pages as there are sources. */
  lemma LatePagesAreEmpty(tables: seq<seq<Item>>, page: nat, limit: nat)
    requires page > 2 * |tables|
    ensures ServedPage(tables, 2 * limit, page, limit) == []
  {
    FetchedLength(tables, 2 * limit);
    SortPermutes(Fetched(tables, 2 * limit), Newer);
    TwiceAsManyPages(|tables|, page - 1, limit);
  }

  lemma TwiceAsManyPages(n: nat, pages: nat, limit: nat)
    requires 2 * n <= pages
    ensures n * (2 * limit) <= pages * limit
  {
    assert n * (2 * limit) == (2 * n) * limit;
    assert pages * limit == (2 * n) * limit + (pages - 2 * n) * limit;
  }

  /** So a history filtered to one source loses every page from the third on, even while `total`
      says there are more: the third page is served empty although it has rows. */
  lemma ThirdPageOfOneSourceIsLost(table: seq<Item>, limit: nat)
    requires limit >= 1 && |table| > 2 * limit
    ensures ServedPage([table], 2 * limit, 3, limit) == [] != FullPage([table], 3, limit)
  {
    LatePagesAreEmpty([table], 3, limit);
    SingleTable(table, 0);
    SortPermutes(table, Newer);
    assert Skipped(3, limit) == 2 * limit;
  }

  function Pages(tables: seq<seq<Item>>, n: nat, limit: nat): seq<Item> {
    if n == 0 then [] else Pages(tables, n - 1, limit) + FullPage(tables, n, limit)
  }

  lemma PrefixGrows<T>(s: seq<T>, a: nat, b: nat)
    requires a <= b
    ensures Prefix(s, a) + Slice(s, a, b) == Prefix(s, b)
  {
  }

  lemma PageGrows(tables: seq<seq<Item>>, page: nat, limit: nat)
    requires page >= 1 && limit >= 1
    ensures Prefix(Full(tables), (page - 1) * limit) + FullPage(tables, page, limit) ==
            Prefix(Full(tables), page * limit)
  {
    PageBounds(page, limit);
    PrefixGrows(Full(tables), Skipped(page, limit), page * limit);
  }

  lemma {:induction false} PagesAreAPrefix(tables: seq<seq<Item>>, n: nat, limit: nat)
    requires limit >= 1
    ensures Pages(tables, n, limit) == Prefix(Full(tables), n * limit)
  {
    if n > 0 {
      PagesAreAPrefix(tables, n - 1, limit);
      PageGrows(tables, n, limit);
    }
  }

  /** Reading every page shows every item of every source exactly once, newest first. */
  lemma PagesCoverEverything(tables: seq<seq<Item>>, n: nat, limit: nat)
    requires limit >= 1
    ensures Ordered(Pages(tables, n, limit), Newer)
    ensures n * limit >= |Flatten(tables)| ==>
              Pages(tables, n, limit) == Full(tables) && multiset(Pages(tables, n, limit)) == multiset(Flatten(tables))
  {
    PagesAreAPrefix(tables, n, limit);
    SortPermutes(Flatten(tables), Newer);
    SortOrdered(Flatten(tables), Newer);
  }

  /** The full list is newest first, items of one moment in the order of the tables and of their rows. */
  lemma FullIsNewestFirst(tables: seq<seq<Item>>)
    ensures forall i, j :: 0 <= i < j < |Full(tables)| ==> Full(tables)[i].at >= Full(tables)[j].at
    ensures multiset(Full(tables)) == multiset(Flatten(tables))
    ensures forall at :: ItemsAt(Full(tables), at) == ItemsAt(Flatten(tables), at)
  {
    NewerIsOrder();
    SortOrdered(Flatten(tables), Newer);
    SortPermutes(Flatten(tables), Newer);
    forall at ensures ItemsAt(Full(tables), at) == ItemsAt(Flatten(tables), at) {
      TiesKeepOrder(Flatten(tables), at);
    }
  }

  function ItemsAt(items: seq<Item>, at: int): seq<Item> {
    Filter(items, (x: Item) => x.at == at)
  }

  lemma TiesKeepOrder(items: seq<Item>, at: int)
    ensures ItemsAt(Sort(items, Newer), at) == ItemsAt(items, at)
  {
    var p := (x: Item) => x.at == at;
    SortFilter(items, Newer, p);
    FilterMembers(items, p);
    assert forall i :: 0 <= i < |Filter(items, p)| ==> Filter(items, p)[i] in Filter(items, p);
    SortOfOrdered(Filter(items, p), Newer);
  }

  /** A page is `limit` rows of the full list, from row (page - 1) * limit on; the last page may be shorter. */
  lemma PageRows(tables: seq<seq<Item>>, page: nat, limit: nat)
    requires page >= 1
    ensures var all, rows, start := Full(tables), FullPage(tables, page, limit), (page - 1) * limit;
            && |rows| == (if start + limit <= |all| then limit else if start <= |all| then |all| - start else 0)
            && start + |rows| <= (if rows == [] then start else |all|)
            && forall i :: 0 <= i < |rows| ==> rows[i] == all[start + i]
  {
  }

  // ---- the two services -----------------------------------------------------------------

  /** `instagram` and `web` are the filtered tables of the two post sources. */
  function PostTables(instagram: seq<Item>, web: seq<Item>, sourceType: Option<string>): seq<seq<Item>> {
    if sourceType.None? then [instagram, web]
    else if sourceType.value == "instagram" then [instagram]
    else if sourceType.value == "web" then [web]
    else []
  }

  lemma SingleSourcePage(table: seq<Item>, page: nat, limit: nat)
    requires page >= 1 && limit >= 1
    ensures Sort(Query(table, Skipped(page, limit), limit), Newer) == FullPage([table], page, limit)
  {
    NewerIsOrder();
    SortOrdered(table, Newer);
    SortOfOrdered(Query(table, Skipped(page, limit), limit), Newer);
    SingleTable(table, 0);
    PageBounds(page, limit);
  }

  lemma CombinedPage(instagram: seq<Item>, web: seq<Item>, page: nat, limit: nat)
    requires page >= 1 && limit >= 1 && Keyed([instagram, web])
    ensures CutPage(Sort(Query(instagram, 0, page * limit) + Query(web, 0, page * limit), Newer), page, limit)
            == FullPage([instagram, web], page, limit)
    ensures Flatten([instagram, web]) == instagram + web
  {
    FlattenFetchedAppend([instagram], [web], page * limit);
    SingleTable(instagram, page * limit);
    SingleTable(web, page * limit);
    assert [instagram] + [web] == [instagram, web];
    LongPrefixesSuffice([instagram, web], page * limit, page, limit);
  }

  function PostRows(instagram: seq<Item>, web: seq<Item>, sourceType: Option<string>, offset: nat,
                    limit: nat): seq<Item> {
    if sourceType.None? then Query(instagram, offset, limit) + Query(web, offset, limit)
    else if sourceType.value == "instagram" then Query(instagram, offset, limit)
    else if sourceType.value == "web" then Query(web, offset, limit)
    else []
  }

  lemma PostRowsPage(instagram: seq<Item>, web: seq<Item>, page: nat, limit: nat, sourceType: Option<string>)
    requires page >= 1 && limit >= 1 && Keyed([instagram, web])
    ensures var full := FullPage(PostTables(instagram, web, sourceType), page, limit);
            if sourceType.None? then
              CutPage(Sort(PostRows(instagram, web, sourceType, 0, page * limit), Newer), page, limit) == full
            else
              Sort(PostRows(instagram, web, sourceType, Skipped(page, limit), limit), Newer) == full
    ensures |Flatten(PostTables(instagram, web, sourceType))| ==
            if sourceType.None? then |instagram| + |web|
            else if sourceType.value == "instagram" then |instagram|
            else if sourceType.value == "web" then |web| else 0
  {
    if sourceType.None? {
      CombinedPage(instagram, web, page, limit);
    } else if sourceType.value == "instagram" {
      SingleSourcePage(instagram, page, limit);
      SingleTable(instagram, 0);
    } else if sourceType.value == "web" {
      SingleSourcePage(web, page, limit);
      SingleTable(web, 0);
    }
  }

  lemma PageOfPosts(instagram: seq<Item>, web: seq<Item>, page: nat, limit: nat, sourceType: Option<string>)
    requires page >= 1
    ensures var rows := FullPage(PostTables(instagram, web, sourceType), page, limit);
            && (forall i, j :: 0 <= i < j < |rows| ==> rows[i].at >= rows[j].at)
            && (sourceType.Some? && sourceType.value !in {"instagram", "web"} ==> rows == [])
  {
    FullIsNewestFirst(PostTables(instagram, web, sourceType));
    PageRows(PostTables(instagram, web, sourceType), page, limit);
  }

  /** The page of collected posts: one source paged by the database, or both merged and re-paged. */
  method GetPostsPaginated(instagram: seq<Item>, web: seq<Item>, page: nat, limit: nat, sourceType: Option<string>)
    returns (results: seq<Item>, total: nat)
    requires page >= 1 && limit >= 1 && Keyed([instagram, web])
    ensures results == FullPage(PostTables(instagram, web, sourceType), page, limit)
    ensures total == |Flatten(PostTables(instagram, web, sourceType))|
    ensures sourceType == None ==> results == FullPage([instagram, web], page, limit)
    ensures sourceType == None ==> total == |instagram| + |web|
    ensures sourceType == Some("instagram") ==> results == FullPage([instagram], page, limit) && total == |instagram|
    ensures sourceType == Some("web") ==> results == FullPage([web], page, limit) && total == |web|
    ensures sourceType.Some? && sourceType.value !in {"instagram", "web"} ==> results == [] && total == 0
    ensures forall i, j :: 0 <= i < j < |results| ==> results[i].at >= results[j].at
  {
    results, total := [], 0;
    var isCombined := sourceType.None?;
    var fetchPage := if isCombined then 1 else page;
    var fetchLimit := if isCombined then page * limit else limit;
    var offset := Skipped(fetchPage, fetchLimit);
    assert isCombined ==> offset == 0;
    PageOfPosts(instagram, web, page, limit, sourceType);
    if sourceType.None? || sourceType.value == "instagram" {
      results := results + Query(instagram, offset, fetchLimit);
      total := total + |instagram|;
    }
    if sourceType.None? || sourceType.value == "web" {
      results := results + Query(web, offset, fetchLimit);
      total := total + |web|;
    }
    assert results == PostRows(instagram, web, sourceType, offset, fetchLimit);
    results := Sort(results, Newer);
    PostRowsPage(instagram, web, page, limit, sourceType);
    if isCombined {
      results := CutPage(results, page, limit);
    }
  }

  predicate AsksRequests(sourceType: Option<string>) {
    sourceType.None? || sourceType.value in {"instagram", "web", "activity"}
  }

  predicate AsksRuns(sourceType: Option<string>) {
    sourceType.None? || sourceType.value in {"instagram", "web", "writing", "report"}
  }

  predicate AsksSearches(sourceType: Option<string>) {
    sourceType.None? || sourceType.value == "google_search"
  }

  /** `requests`, `runs` and `searches` are the tables left by the filters of the three helpers. */
  function HistoryTables(requests: seq<Item>, runs: seq<Item>, searches: seq<Item>,
                         sourceType: Option<string>): seq<seq<Item>> {
    (if AsksRequests(sourceType) then [requests] else []) +
    (if AsksRuns(sourceType) then [runs] else []) +
    (if AsksSearches(sourceType) then [searches] else [])
  }

  lemma {:induction false} FlattenFetchedAppend(a: seq<seq<Item>>, b: seq<seq<Item>>, bound: nat)
    ensures Flatten(a + b) == Flatten(a) + Flatten(b)
    ensures Fetched(a + b, bound) == Fetched(a, bound) + Fetched(b, bound)
  {
    if a == [] {
      assert a + b == b;
    } else {
      hide Query;
      assert (a + b)[1..] == a[1..] + b;
      FlattenFetchedAppend(a[1..], b, bound);
      ConcatAssociates(a[0], Flatten(a[1..]), Flatten(b));
      ConcatAssociates(Query(a[0], 0, bound), Fetched(a[1..], bound), Fetched(b, bound));
    }
  }

  lemma SingleTable(t: seq<Item>, bound: nat)
    ensures Flatten([t]) == t && Fetched([t], bound) == Query(t, 0, bound)
  {
    assert [t][1..] == [];
  }

  function HistoryRows(requests: seq<Item>, runs: seq<Item>, searches: seq<Item>, sourceType: Option<string>,
                       bound: nat): seq<Item> {
    (if AsksRequests(sourceType) then Query(requests, 0, bound) else []) +
    (if AsksRuns(sourceType) then Query(runs, 0, bound) else []) +
    (if AsksSearches(sourceType) then Query(searches, 0, bound) else [])
  }

  lemma FetchedTriple(a: seq<seq<Item>>, b: seq<seq<Item>>, c: seq<seq<Item>>, bound: nat)
    ensures Fetched(a + b + c, bound) == Fetched(a, bound) + Fetched(b, bound) + Fetched(c, bound)
    ensures |Flatten(a + b + c)| == |Flatten(a)| + |Flatten(b)| + |Flatten(c)|
  {
    FlattenFetchedAppend(a + b, c, bound);
    FlattenFetchedAppend(a, b, bound);
  }

  lemma HistoryRowsFetched(requests: seq<Item>, runs: seq<Item>, searches: seq<Item>, sourceType: Option<string>,
                           bound: nat)
    ensures Fetched(HistoryTables(requests, runs, searches, sourceType), bound) ==
            HistoryRows(requests, runs, searches, sourceType, bound)
    ensures |Flatten(HistoryTables(requests, runs, searches, sourceType))| ==
            (if AsksRequests(sourceType) then |requests| else 0) +
            (if AsksRuns(sourceType) then |runs| else 0) +
            (if AsksSearches(sourceType) then |searches| else 0)
  {
    SingleTable(requests, bound);
    SingleTable(runs, bound);
    SingleTable(searches, bound);
    FetchedTriple(if AsksRequests(sourceType) then [requests] else [],
                  if AsksRuns(sourceType) then [runs] else [],
                  if AsksSearches(sourceType) then [searches] else [], bound);
  }

  lemma HistoryPages(tables: seq<seq<Item>>, page: nat, limit: nat)
    requires page >= 1 && limit >= 1 && Keyed(tables)
    ensures page <= 2 ==> ServedPage(tables, 2 * limit, page, limit) == FullPage(tables, page, limit)
  {
    if page <= 2 {
      assert page * limit <= 2 * limit;
      LongPrefixesSuffice(tables, 2 * limit, page, limit);
    }
  }

  lemma ServedNewestFirst(tables: seq<seq<Item>>, bound: nat, page: nat, limit: nat)
    requires page >= 1
    ensures var rows := ServedPage(tables, bound, page, limit);
            forall i, j :: 0 <= i < j < |rows| ==> rows[i].at >= rows[j].at
  {
    NewerIsOrder();
    SortOrdered(Fetched(tables, bound), Newer);
    hide Sort;
  }

  /** Which tables a history of one source type reads; without a type all three. */
  lemma HistoryTablesAsked(requests: seq<Item>, runs: seq<Item>, searches: seq<Item>, sourceType: Option<string>)
    ensures HistoryTables(requests, runs, searches, sourceType) ==
            if sourceType == None then [requests, runs, searches]
            else if sourceType == Some("instagram") || sourceType == Some("web") then [requests, runs]
            else if sourceType == Some("activity") then [requests]
            else if sourceType == Some("writing") || sourceType == Some("report") then [runs]
            else if sourceType == Some("google_search") then [searches]
            else []
  {
  }

  /** The page of crawl history: two pages of every source, merged and cut. */
  method GetCrawlHistory(requests: seq<Item>, runs: seq<Item>, searches: seq<Item>, page: nat, limit: nat,
                         sourceType: Option<string>)
    returns (results: seq<Item>, total: nat)
    requires page >= 1 && limit >= 1 && Keyed(HistoryTables(requests, runs, searches, sourceType))
    ensures var tables := HistoryTables(requests, runs, searches, sourceType);
            && results == ServedPage(tables, 2 * limit, page, limit)
            && total == |Flatten(tables)|
            && (page <= 2 ==> results == FullPage(tables, page, limit))
    ensures forall i, j :: 0 <= i < j < |results| ==> results[i].at >= results[j].at
  {
    results, total := [], 0;
    if AsksRequests(sourceType) {
      results, total := results + Query(requests, 0, 2 * limit), total + |requests|;
    }
    if AsksRuns(sourceType) {
      results, total := results + Query(runs, 0, 2 * limit), total + |runs|;
    }
    if AsksSearches(sourceType) {
      results, total := results + Query(searches, 0, 2 * limit), total + |searches|;
    }
    assert results == HistoryRows(requests, runs, searches, sourceType, 2 * limit);
    HistoryRowsFetched(requests, runs, searches, sourceType, 2 * limit);
    HistoryPages(HistoryTables(requests, runs, searches, sourceType), page, limit);
    ServedNewestFirst(HistoryTables(requests, runs, searches, sourceType), 2 * limit, page, limit);
    hide Sort, Slice, HistoryTables, HistoryRows, Flatten, Fetched, FullPage;
    results := Sort(results, Newer);
    results := CutPage(results, page, limit);
  }
}
