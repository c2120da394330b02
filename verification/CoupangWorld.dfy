/** All slots together: the fold over an interleaved stream of observations, and the proof
    that the slots do not influence each other. */
module CoupangWorld {
  import opened Options
  import opened CoupangText
  import opened CoupangSlot
  import opened StableSort
  import opened TextOrder

  /** `order` is the insertion order of the slot dictionary. */
  datatype World = World(order: seq<string>, slots: map<string, Slot>, closed: seq<Row>)

  function Observe(w: World, o: Observation): World {
    if o.key !in w.slots then
      World(w.order + [o.key], w.slots[o.key := Start(o)], w.closed)
    else
      var (s, rows) := Step(w.slots[o.key], o);
      World(w.order, w.slots[o.key := s], w.closed + rows)
  }

  function Replay(obs: seq<Observation>): World {
    if obs == [] then World([], map[], []) else Observe(Replay(obs[..|obs| - 1]), obs[|obs| - 1])
  }

  function OpenRowsInOrder(order: seq<string>, slots: map<string, Slot>): seq<Row>
    requires forall k :: k in order ==> k in slots
  {
    if order == [] then [] else OpenRows(slots[order[0]]) + OpenRowsInOrder(order[1..], slots)
  }

  /** The dictionary and its insertion order agree, and every slot is filed under its own key. */
  ghost predicate Consistent(w: World) {
    && Distinct(w.order)
    && (forall k :: k in w.order <==> k in w.slots)
    && (forall k :: k in w.slots ==> w.slots[k].key == k)
  }

  lemma ObserveConsistent(w: World, o: Observation)
    requires Consistent(w)
    ensures Consistent(Observe(w, o))
    ensures Observe(w, o).slots.Keys == w.slots.Keys + {o.key}
  {
    assert o.key in w.slots ==> Step(w.slots[o.key], o).0.key == o.key;
    hide Step;
  }

  lemma {:induction false} ReplayConsistent(obs: seq<Observation>)
    ensures Consistent(Replay(obs))
    ensures forall k :: k in Replay(obs).slots <==> exists o :: o in obs && o.key == k
  {
    if obs != [] {
      var front, o := obs[..|obs| - 1], obs[|obs| - 1];
      assert Replay(obs) == Observe(Replay(front), o) && obs == front + [o];
      hide *;
      ReplayConsistent(front);
      ObserveConsistent(Replay(front), o);
      forall k ensures k in Replay(obs).slots <==> exists o :: o in obs && o.key == k {
        if k in Replay(front).slots {
          var o' :| o' in front && o'.key == k;
          assert o' in obs;
        }
        if k == o.key { assert o in obs; }
      }
    }
  }

  /** The rows before the final sort. */
  function Unsorted(obs: seq<Observation>): seq<Row> {
    ReplayConsistent(obs);
    var w := Replay(obs);
    w.closed + OpenRowsInOrder(w.order, w.slots)
  }

  /** `rows.sort(key=lambda item: (item.timestamp, item.id), reverse=True)`. */
  predicate NewestFirst(a: Row, b: Row) {
    a.openedAt > b.openedAt || (a.openedAt == b.openedAt && AtMost(b.id, a.id))
  }

  function Published(obs: seq<Observation>): seq<Row> {
    Sort(Unsorted(obs), NewestFirst)
  }

  // ---- independence of the slots ------------------------------------------------

  function SlotStream(obs: seq<Observation>, key: string): seq<Observation> {
    Filter(obs, (o: Observation) => o.key == key)
  }

  function SlotRows(rows: seq<Row>, key: string): seq<Row> {
    Filter(rows, (r: Row) => r.key == key)
  }

  lemma SlotStreamOwn(obs: seq<Observation>, key: string)
    ensures forall o :: o in SlotStream(obs, key) ==> o.key == key && o in obs
    ensures SlotStream(obs, key) == [] <==> forall o :: o in obs ==> o.key != key
  {
    FilterMembers(obs, (o: Observation) => o.key == key);
  }

  lemma SlotStreamSnoc(obs: seq<Observation>, key: string)
    requires obs != []
    ensures var front, o := obs[..|obs| - 1], obs[|obs| - 1];
            SlotStream(obs, key) == if o.key == key then SlotStream(front, key) + [o] else SlotStream(front, key)
  {
    var front, o := obs[..|obs| - 1], obs[|obs| - 1];
    var p := (o: Observation) => o.key == key;
    assert obs == front + [o];
    FilterAppend(front, [o], p);
    assert Filter([o], p) == if p(o) then [o] else [] by { assert [o][1..] == []; }
  }

  lemma SlotRowsAppend(a: seq<Row>, b: seq<Row>, key: string)
    ensures SlotRows(a + b, key) == SlotRows(a, key) + SlotRows(b, key)
    ensures (forall r :: r in b ==> r.key == key) ==> SlotRows(b, key) == b
    ensures (forall r :: r in b ==> r.key != key) ==> SlotRows(b, key) == []
  {
    var p := (r: Row) => r.key == key;
    FilterAppend(a, b, p);
    FilterMembers(b, p);
  }

  lemma RowKeys(s: Slot, o: Observation)
    ensures forall r :: r in OpenRows(s) ==> r.key == s.key
    ensures forall r :: r in Step(s, o).1 ==> r.key == s.key
  {
  }

  /** After any interleaving, the entry of a slot and its closed rows are what the slot's own
      observations alone produce. */
  lemma {:induction false} ReplayIsPerSlot(obs: seq<Observation>, key: string)
    ensures var own := SlotStream(obs, key); var w := Replay(obs);
            && (key in w.slots <==> own != [])
            && (own != [] ==> w.slots[key] == Run(own).0 && SlotRows(w.closed, key) == Run(own).1)
            && (own == [] ==> SlotRows(w.closed, key) == [])
  {
    if obs != [] {
      var front, o := obs[..|obs| - 1], obs[|obs| - 1];
      ReplayIsPerSlot(front, key);
      SlotStreamSnoc(obs, key);
      ReplayConsistent(front);
      var w := Replay(front);
      if o.key in w.slots {
        var more := Step(w.slots[o.key], o).1;
        RowKeys(w.slots[o.key], o);
        SlotRowsAppend(w.closed, more, key);
        if o.key == key {
          var own := SlotStream(front, key);
          assert (own + [o])[..|own|] == own;
        }
      }
    }
  }

  lemma {:induction false} OpenRowsPerSlot(order: seq<string>, slots: map<string, Slot>, key: string)
    requires Distinct(order) && (forall k :: k in order ==> k in slots && slots[k].key == k)
    ensures SlotRows(OpenRowsInOrder(order, slots), key) == if key in order then OpenRows(slots[key]) else []
  {
    if order != [] {
      hide OpenRows, SlotRows;
      OpenRowsPerSlot(order[1..], slots, key);
      var head, tail := OpenRows(slots[order[0]]), OpenRowsInOrder(order[1..], slots);
      RowsOfOneSlot(slots[order[0]], key);
      SlotRowsAppend(head, tail, key);
      if order[0] == key { assert key !in order[1..]; }
      assert OpenRows(slots[order[0]]) + [] == OpenRows(slots[order[0]]);
    }
  }

  lemma RowsOfOneSlot(s: Slot, key: string)
    ensures SlotRows(OpenRows(s), key) == if s.key == key then OpenRows(s) else []
  {
    FilterMembers(OpenRows(s), (r: Row) => r.key == key);
  }

  /** Slot independence: whatever the interleaving, the rows of one slot are exactly, and in the
      same order, the rows its own observations give when nothing else is observed. */
  lemma SlotsAreIndependent(obs: seq<Observation>, key: string)
    ensures var own := SlotStream(obs, key);
            SlotRows(Unsorted(obs), key) == if own == [] then [] else Rows(own)
  {
    ReplayIsPerSlot(obs, key);
    ReplayConsistent(obs);
    var w := Replay(obs);
    SlotRowsAppend(w.closed, OpenRowsInOrder(w.order, w.slots), key);
    OpenRowsPerSlot(w.order, w.slots, key);
  }

  /** The machine run on one slot's stream alone gives that slot's rows and nothing else. */
  lemma AloneIsSlot(obs: seq<Observation>, key: string)
    requires obs != [] && forall o :: o in obs ==> o.key == key
    ensures Unsorted(obs) == Rows(obs)
  {
    SlotsAreIndependent(obs, key);
    FilterMembers(obs, (o: Observation) => o.key == key);
    AllRowsOwned(obs);
    FilterMembers(Unsorted(obs), (r: Row) => r.key == key);
  }

  lemma {:induction false} AllRowsOwned(obs: seq<Observation>)
    ensures forall r :: r in Unsorted(obs) ==> exists o :: o in obs && o.key == r.key
  {
    ReplayConsistent(obs);
    var w := Replay(obs);
    ClosedRowsOwned(obs);
    forall r | r in OpenRowsInOrder(w.order, w.slots) ensures r.key in w.slots {
      OpenRowsOwned(w.order, w.slots, r);
    }
  }

  lemma {:induction false} ClosedRowsOwned(obs: seq<Observation>)
    ensures forall r :: r in Replay(obs).closed ==> r.key in Replay(obs).slots
  {
    if obs != [] {
      var front, o := obs[..|obs| - 1], obs[|obs| - 1];
      ClosedRowsOwned(front);
      ReplayConsistent(front);
      if o.key in Replay(front).slots { RowKeys(Replay(front).slots[o.key], o); }
    }
  }

  lemma {:induction false} OpenRowsOwned(order: seq<string>, slots: map<string, Slot>, r: Row)
    requires forall k :: k in order ==> k in slots && slots[k].key == k
    requires r in OpenRowsInOrder(order, slots)
    ensures r.key in slots
  {
    if r !in OpenRows(slots[order[0]]) { OpenRowsOwned(order[1..], slots, r); }
  }

  // ---- row identifiers and the published order ------------------------------------

  lemma FilterKeepsPairs<T>(s: seq<T>, p: T -> bool, i: nat, j: nat) returns (i': nat, j': nat)
    requires i < j < |s| && p(s[i]) && p(s[j])
    ensures i' < j' < |Filter(s, p)| && Filter(s, p)[i'] == s[i] && Filter(s, p)[j'] == s[j]
  {
    var a, b := s[..j], s[j..];
    assert s == a + b;
    FilterAppend(a, b, p);
    FilterMembers(a, p);
    assert s[i] in a;
    i' :| 0 <= i' < |Filter(a, p)| && Filter(a, p)[i'] == s[i];
    j' := |Filter(a, p)|;
  }

  lemma RowIsOfSlot(obs: seq<Observation>, r: Row)
    requires r in Unsorted(obs)
    ensures var own := SlotStream(obs, r.key);
            && own != [] && (forall o :: o in own ==> o.key == r.key) && r in Rows(own)
  {
    hide Unsorted, Rows;
    FilterMembers(Unsorted(obs), (x: Row) => x.key == r.key);
    assert r in SlotRows(Unsorted(obs), r.key);
    SlotsAreIndependent(obs, r.key);
    SlotStreamOwn(obs, r.key);
  }

  lemma RowIdShape(own: seq<Observation>, r: Row) returns (eventId: nat, ordinal: nat)
    requires own != [] && (forall o :: o in own ==> o.key == own[0].key) && r in Rows(own)
    ensures r.id == HistoryId(own[0].key, eventId, ordinal)
  {
    hide HistoryId, Rows, Opens, Run;
    RowsAreOpens(own);
    var i :| 0 <= i < |Rows(own)| && Rows(own)[i] == r;
    eventId, ordinal := Opens(own)[i].eventId, i + 1;
  }

  ghost predicate UniqueIds(rows: seq<Row>) {
    forall i, j :: 0 <= i < j < |rows| ==> rows[i].id != rows[j].id
  }

  lemma SlotRowIdsUnique(own: seq<Observation>)
    requires own != [] && forall o :: o in own ==> o.key == own[0].key
    ensures UniqueIds(Rows(own))
  {
    hide HistoryId, Rows, Opens, Run;
    RowsAreOpens(own);
    var key, opens := own[0].key, Opens(own);
    forall i, j | 0 <= i < j < |Rows(own)| ensures Rows(own)[i].id != Rows(own)[j].id {
      if Rows(own)[i].id == Rows(own)[j].id {
        HistoryIdInjective(key, opens[i].eventId, i + 1, key, opens[j].eventId, j + 1);
      }
    }
  }

  /** The slot key can be read off a row's id, so rows of different slots have different ids. */
  lemma SameIdSameSlot(obs: seq<Observation>, a: Row, b: Row)
    requires a in Unsorted(obs) && b in Unsorted(obs) && a.id == b.id
    ensures a.key == b.key
  {
    hide HistoryId, Unsorted, Rows, SlotStream;
    RowIsOfSlot(obs, a);
    RowIsOfSlot(obs, b);
    var eventId, ordinal := RowIdShape(SlotStream(obs, a.key), a);
    var eventId', ordinal' := RowIdShape(SlotStream(obs, b.key), b);
    HistoryIdInjective(a.key, eventId, ordinal, b.key, eventId', ordinal');
  }

  /** No two rows, of the same or of different slots, share a public id. */
  lemma RowIdsUnique(obs: seq<Observation>)
    ensures UniqueIds(Unsorted(obs))
  {
    var rows := Unsorted(obs);
    forall i, j | 0 <= i < j < |rows| ensures rows[i].id != rows[j].id {
      if rows[i].id == rows[j].id {
        SameIdSameSlot(obs, rows[i], rows[j]);
        var key := rows[i].key;
        var i', j' := FilterKeepsPairs(rows, (r: Row) => r.key == key, i, j);
        SlotsAreIndependent(obs, key);
        SlotStreamOwn(obs, key);
        SlotRowIdsUnique(SlotStream(obs, key));
      }
    }
  }

  lemma SortKeepsUniqueIds(rows: seq<Row>)
    requires UniqueIds(rows)
    ensures UniqueIds(Sort(rows, NewestFirst))
  {
    assert Distinct(rows);
    SortDistinct(rows, NewestFirst);
    SortPermutes(rows, NewestFirst);
    var t := Sort(rows, NewestFirst);
    forall i, j | 0 <= i < j < |t| ensures t[i].id != t[j].id {
      assert t[i] in rows && t[j] in rows && t[i] != t[j];
    }
  }

  lemma NewestFirstIsOrder()
    ensures TotalPreorder(NewestFirst)
    ensures forall a, b :: NewestFirst(a, b) && NewestFirst(b, a) ==> a.id == b.id
  {
    forall a, b: Row
      ensures NewestFirst(a, b) || NewestFirst(b, a)
      ensures NewestFirst(a, b) && NewestFirst(b, a) ==> a.id == b.id
    {
      AtMostTotal(a.id, b.id);
    }
    forall a, b, c: Row | NewestFirst(a, b) && NewestFirst(b, c) ensures NewestFirst(a, c) {
      if a.openedAt == b.openedAt == c.openedAt { AtMostTransitive(c.id, b.id, a.id); }
    }
  }

  /** The published list holds every row once, newest first, with ids breaking ties. */
  lemma PublishedIsSortedRows(obs: seq<Observation>)
    ensures multiset(Published(obs)) == multiset(Unsorted(obs))
    ensures Ordered(Published(obs), NewestFirst)
    ensures UniqueIds(Published(obs))
    ensures forall i, j :: 0 <= i < j < |Published(obs)| ==>
              var a, b := Published(obs)[i], Published(obs)[j];
              a.openedAt > b.openedAt || (a.openedAt == b.openedAt && a.id != b.id && AtMost(b.id, a.id))
  {
    NewestFirstIsOrder();
    SortPermutes(Unsorted(obs), NewestFirst);
    SortOrdered(Unsorted(obs), NewestFirst);
    RowIdsUnique(obs);
    SortKeepsUniqueIds(Unsorted(obs));
  }

  /** A slot's part of the published list is the published list of that slot's own observations. */
  lemma PublishedPerSlot(obs: seq<Observation>, key: string)
    ensures SlotRows(Published(obs), key) == Published(SlotStream(obs, key))
  {
    NewestFirstIsOrder();
    SortFilter(Unsorted(obs), NewestFirst, (r: Row) => r.key == key);
    SlotsAreIndependent(obs, key);
    SlotStreamOwn(obs, key);
    if SlotStream(obs, key) != [] { AloneIsSlot(SlotStream(obs, key), key); }
  }

  lemma {:induction false} CountPerSlot(rows: seq<Row>, r: Row)
    ensures multiset(rows)[r] == multiset(SlotRows(rows, r.key))[r]
  {
    if rows != [] {
      assert rows == [rows[0]] + rows[1..];
      CountPerSlot(rows[1..], r);
    }
  }

  /** Two interleavings of the same per-slot streams are published as the very same list. */
  lemma InterleavingIsInvisible(obs: seq<Observation>, obs': seq<Observation>)
    requires forall key :: SlotStream(obs, key) == SlotStream(obs', key)
    ensures Published(obs) == Published(obs')
  {
    var a, b := Unsorted(obs), Unsorted(obs');
    forall r ensures multiset(a)[r] == multiset(b)[r] {
      CountPerSlot(a, r);
      CountPerSlot(b, r);
      SlotsAreIndependent(obs, r.key);
      SlotsAreIndependent(obs', r.key);
    }
    assert multiset(a) == multiset(b);
    PublishedIsSortedRows(obs);
    PublishedIsSortedRows(obs');
    NewestFirstIsOrder();
    RowIdsUnique(obs);
    OrderedUnique(Published(obs), Published(obs'), NewestFirst);
  }
}
