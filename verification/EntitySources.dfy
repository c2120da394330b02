/** The sources of an event or popup, and the summary fields on the entity that must agree with them. */
module EntitySources {
  import opened Options

  datatype EntityType = Event | Popup
  datatype Key = Key(kind: EntityType, id: int)

  datatype NewSource = NewSource(sourceType: string, sourceId: Option<int>, url: Option<string>,
                                 account: Option<string>, priority: Option<int>,
                                 contributed: Option<seq<string>>)

  datatype Source = Source(owner: Key, sourceType: string, sourceId: Option<int>, url: Option<string>,
                           account: Option<string>, priority: Option<int>, contributed: Option<seq<string>>,
                           isPrimary: bool)

  datatype Entity = Entity(sourceCount: int, primarySourceId: Option<int>)

  datatype Db = Db(sources: map<int, Source>, entities: map<Key, Entity>)

  /** A patch field is absent, or present with a value that may be null. */
  datatype Patch = Patch(priority: Option<Option<int>>, contributed: Option<Option<seq<string>>>)

  function NonEmpty(fields: Option<seq<string>>): Option<seq<string>> {
    if fields.Some? && fields.value == [] then None else fields
  }

  function IdsOf(sources: map<int, Source>, key: Key): set<int> {
    set id | id in sources && sources[id].owner == key
  }

  function Duplicates(sources: map<int, Source>, key: Key, data: NewSource): set<int> {
    set id | id in IdsOf(sources, key) && sources[id].sourceType == data.sourceType
             && sources[id].sourceId == data.sourceId
  }

  function Row(key: Key, data: NewSource, isPrimary: bool): Source {
    Source(key, data.sourceType, data.sourceId, data.url, data.account, data.priority, NonEmpty(data.contributed),
           isPrimary)
  }

  // ---- the operations as functions of the database ---------------------------------

  function Recounted(db: Db, key: Key): Db {
    if key in db.entities then
      db.(entities := db.entities[key := db.entities[key].(sourceCount := |IdsOf(db.sources, key)|)])
    else db
  }

  function WithPrimary(db: Db, key: Key, primary: Option<int>): Db {
    if key in db.entities then
      db.(entities := db.entities[key := db.entities[key].(primarySourceId := primary)])
    else db
  }

  function Demoted(sources: map<int, Source>, key: Key): map<int, Source> {
    map id | id in sources :: if sources[id].owner == key then sources[id].(isPrimary := false) else sources[id]
  }

  function Added(db: Db, key: Key, data: NewSource, newId: int): Db {
    if key !in db.entities || Duplicates(db.sources, key, data) != {} then db else
      var first := IdsOf(db.sources, key) == {};
      var db1 := Recounted(db.(sources := db.sources[newId := Row(key, data, first)]), key);
      if first then WithPrimary(db1, key, Some(newId)) else db1
  }

  function PrimarySet(db: Db, key: Key, id: int): Db {
    if id !in IdsOf(db.sources, key) then db else
      var sources := Demoted(db.sources, key);
      WithPrimary(db.(sources := sources[id := sources[id].(isPrimary := true)]), key, Some(id))
  }

  /** `next` is the source the database returns first when ordering the rest by priority. */
  function Removed(db: Db, key: Key, id: int, next: Option<int>): Db {
    if id !in IdsOf(db.sources, key) then db else
      var db1 := Recounted(db.(sources := db.sources - {id}), key);
      if !db.sources[id].isPrimary then db1
      else if next.Some? then PrimarySet(db1, key, next.value)
      else WithPrimary(db1, key, None)
  }

  function Patched(s: Source, patch: Patch): Source {
    var s1 := if patch.priority.Some? then s.(priority := patch.priority.value) else s;
    if patch.contributed.Some? then s1.(contributed := NonEmpty(patch.contributed.value)) else s1
  }

  function Updated(db: Db, id: int, patch: Patch): Db {
    if id in db.sources then db.(sources := db.sources[id := Patched(db.sources[id], patch)]) else db
  }

  /** Descending priority; where a null priority sorts depends on the database. */
  predicate AtLeast(a: Option<int>, b: Option<int>, nullsFirst: bool) {
    if a.None? then nullsFirst || b.None? else if b.None? then !nullsFirst else a.value >= b.value
  }

  ghost predicate TopPriority(sources: map<int, Source>, key: Key, next: Option<int>, nullsFirst: bool) {
    if next.None? then IdsOf(sources, key) == {} else
      && next.value in IdsOf(sources, key)
      && forall id :: id in IdsOf(sources, key) ==>
           AtLeast(sources[next.value].priority, sources[id].priority, nullsFirst)
  }

  // ---- what the bookkeeping must keep -------------------------------------------------

  /** Exactly one primary source, named by the entity, and none for an entity without sources. */
  ghost predicate PrimarySound(db: Db, key: Key) {
    var ids := IdsOf(db.sources, key);
    if key !in db.entities then ids == {}
    else if ids == {} then db.entities[key].primarySourceId.None?
    else
      && db.entities[key].primarySourceId.Some?
      && db.entities[key].primarySourceId.value in ids
      && forall id :: id in ids ==> (db.sources[id].isPrimary <==> id == db.entities[key].primarySourceId.value)
  }

  ghost predicate SourcesUnique(db: Db, key: Key) {
    forall a, b :: a in IdsOf(db.sources, key) && b in IdsOf(db.sources, key) && a != b ==>
      db.sources[a].sourceType != db.sources[b].sourceType || db.sources[a].sourceId != db.sources[b].sourceId
  }

  ghost predicate Sound(db: Db) {
    forall key :: PrimarySound(db, key) && SourcesUnique(db, key)
  }

  ghost predicate CountRight(db: Db, key: Key) {
    key in db.entities ==> db.entities[key].sourceCount == |IdsOf(db.sources, key)|
  }

  ghost predicate SameFor(db: Db, db': Db, key: Key) {
    && IdsOf(db.sources, key) == IdsOf(db'.sources, key)
    && (forall id :: id in IdsOf(db.sources, key) ==> db'.sources[id] == db.sources[id])
    && (key in db.entities <==> key in db'.entities)
    && (key in db.entities ==> db'.entities[key] == db.entities[key])
  }

  lemma SameForSound(db: Db, db': Db, key: Key)
    requires SameFor(db, db', key)
    ensures PrimarySound(db, key) ==> PrimarySound(db', key)
    ensures SourcesUnique(db, key) ==> SourcesUnique(db', key)
    ensures CountRight(db, key) ==> CountRight(db', key)
  {
  }

  lemma AddKeeps(db: Db, key: Key, data: NewSource, newId: int)
    requires Sound(db) && newId !in db.sources
    ensures var db' := Added(db, key, data, newId);
            && PrimarySound(db', key) && SourcesUnique(db', key)
            && (forall other :: other != key ==> SameFor(db, db', other))
            && (CountRight(db, key) || db' != db ==> CountRight(db', key))
            && (db' != db ==> IdsOf(db'.sources, key) == IdsOf(db.sources, key) + {newId} &&
                              db'.sources == db.sources[newId := Row(key, data, IdsOf(db.sources, key) == {})])
  {
    var db' := Added(db, key, data, newId);
    assert PrimarySound(db, key) && SourcesUnique(db, key);
    if key in db.entities && Duplicates(db.sources, key, data) == {} {
      AddedSource(db, key, data, newId);
      forall other | other != key ensures SameFor(db, db', other) {
        assert IdsOf(db'.sources, other) == IdsOf(db.sources, other);
      }
    }
  }

  lemma AddedSource(db: Db, key: Key, data: NewSource, newId: int)
    requires newId !in db.sources && key in db.entities && Duplicates(db.sources, key, data) == {}
    requires PrimarySound(db, key) && SourcesUnique(db, key)
    ensures var db' := Added(db, key, data, newId);
            && db'.sources == db.sources[newId := Row(key, data, IdsOf(db.sources, key) == {})]
            && IdsOf(db'.sources, key) == IdsOf(db.sources, key) + {newId}
            && PrimarySound(db', key) && SourcesUnique(db', key) && CountRight(db', key)
  {
    var db' := Added(db, key, data, newId);
    assert IdsOf(db'.sources, key) == IdsOf(db.sources, key) + {newId};
    forall id | id in IdsOf(db.sources, key)
      ensures db.sources[id].sourceType != data.sourceType || db.sources[id].sourceId != data.sourceId
    {
      assert id !in Duplicates(db.sources, key, data);
    }
  }

  lemma PrimaryKeeps(db: Db, key: Key, id: int)
    requires forall k :: SourcesUnique(db, k)
    requires id in IdsOf(db.sources, key) ==> key in db.entities
    ensures var db' := PrimarySet(db, key, id);
            && IdsOf(db'.sources, key) == IdsOf(db.sources, key) && SourcesUnique(db', key)
            && (forall other :: other != key ==> SameFor(db, db', other))
            && (CountRight(db, key) ==> CountRight(db', key))
            && (id in IdsOf(db.sources, key) ==>
                  PrimarySound(db', key) && db'.entities[key] == db.entities[key].(primarySourceId := Some(id)))
            && (id !in IdsOf(db.sources, key) ==> db' == db)
  {
    var db' := PrimarySet(db, key, id);
    assert SourcesUnique(db, key);
    if id in IdsOf(db.sources, key) {
      assert db'.sources.Keys == db.sources.Keys;
      assert forall i :: i in db'.sources ==> db'.sources[i].owner == db.sources[i].owner;
      assert forall k :: IdsOf(db'.sources, k) == IdsOf(db.sources, k);
    }
  }

  lemma RemoveKeeps(db: Db, key: Key, id: int, next: Option<int>, nullsFirst: bool)
    requires Sound(db) && (id in IdsOf(db.sources, key) ==> TopPriority(db.sources - {id}, key, next, nullsFirst))
    ensures var db' := Removed(db, key, id, next);
            && PrimarySound(db', key) && SourcesUnique(db', key)
            && (forall other :: other != key ==> SameFor(db, db', other))
            && (CountRight(db, key) || db' != db ==> CountRight(db', key))
            && IdsOf(db'.sources, key) == IdsOf(db.sources, key) - {id}
            && (id in IdsOf(db.sources, key) && db.sources[id].isPrimary ==>
                  key in db'.entities && db'.entities[key].primarySourceId == next)
  {
    assert PrimarySound(db, key) && SourcesUnique(db, key);
    if id in IdsOf(db.sources, key) {
      var db1 := Recounted(db.(sources := db.sources - {id}), key);
      RemovedSource(db, key, id);
      if db.sources[id].isPrimary && next.Some? {
        PrimaryKeeps(db1, key, next.value);
      }
    } else {
      assert IdsOf(db.sources, key) - {id} == IdsOf(db.sources, key);
    }
  }

  /** The rows that are left once a source is deleted and its entity recounted. */
  lemma RemovedSource(db: Db, key: Key, id: int)
    requires Sound(db) && id in IdsOf(db.sources, key)
    ensures var db1 := Recounted(db.(sources := db.sources - {id}), key);
            && IdsOf(db1.sources, key) == IdsOf(db.sources, key) - {id}
            && CountRight(db1, key) && (forall k :: SourcesUnique(db1, k))
            && (forall other :: other != key ==> SameFor(db, db1, other))
  {
    var db1 := Recounted(db.(sources := db.sources - {id}), key);
    assert IdsOf(db1.sources, key) == IdsOf(db.sources, key) - {id};
    forall other | other != key ensures SameFor(db, db1, other) {
      assert IdsOf(db1.sources, other) == IdsOf(db.sources, other);
    }
    forall k ensures SourcesUnique(db1, k) { assert SourcesUnique(db, k); }
  }

  lemma UpdateKeeps(db: Db, id: int, patch: Patch, key: Key)
    ensures var db' := Updated(db, id, patch);
            && IdsOf(db'.sources, key) == IdsOf(db.sources, key)
            && (PrimarySound(db, key) ==> PrimarySound(db', key))
            && (SourcesUnique(db, key) ==> SourcesUnique(db', key))
            && (CountRight(db, key) ==> CountRight(db', key))
            && (id !in IdsOf(db.sources, key) ==> SameFor(db, db', key))
  {
    assert IdsOf(Updated(db, id, patch).sources, key) == IdsOf(db.sources, key);
  }

  // ---- what each call writes, field by field -------------------------------------------------

  ghost predicate IsDuplicate(s: Source, key: Key, data: NewSource) {
    s.owner == key && s.sourceType == data.sourceType && s.sourceId == data.sourceId
  }

  /** Only the given entity's summary may differ. */
  ghost predicate OtherEntitiesSame(db: Db, db': Db, key: Key) {
    && db'.entities.Keys == db.entities.Keys
    && forall k :: k in db.entities && k != key ==> db'.entities[k] == db.entities[k]
  }

  /** An add for an unknown entity, or of a source the entity already has, changes nothing; any other stores the
      data as given, an empty field list as none, primary exactly when it is the entity's first source. */
  lemma AddWrites(db: Db, key: Key, data: NewSource, newId: int)
    requires newId !in db.sources
    ensures var db' := Added(db, key, data, newId);
            if key !in db.entities || (exists id :: id in db.sources && IsDuplicate(db.sources[id], key, data)) then
              db' == db
            else
              && db'.sources.Keys == db.sources.Keys + {newId} && OtherEntitiesSame(db, db', key)
              && (forall id :: id in db.sources ==> db'.sources[id] == db.sources[id])
              && var s := db'.sources[newId];
                 && s.owner == key && s.sourceType == data.sourceType && s.sourceId == data.sourceId
                 && s.url == data.url && s.account == data.account && s.priority == data.priority
                 && s.contributed == (if data.contributed == Some([]) then None else data.contributed)
                 && (s.isPrimary <==> forall id :: id in db.sources ==> db.sources[id].owner != key)
                 && db'.entities[key].primarySourceId ==
                    if s.isPrimary then Some(newId) else db.entities[key].primarySourceId
  {
    DuplicatesMeaning(db.sources, key, data);
    SourcesMeaning(db.sources, key);
    var db' := Added(db, key, data, newId);
    if key in db.entities && Duplicates(db.sources, key, data) == {} {
      assert db'.sources == db.sources[newId := Row(key, data, IdsOf(db.sources, key) == {})];
    }
  }

  lemma ElementOf<T>(s: set<T>) returns (x: T)
    requires s != {}
    ensures x in s
  {
    x :| x in s;
  }

  lemma DuplicatesMeaning(sources: map<int, Source>, key: Key, data: NewSource)
    ensures Duplicates(sources, key, data) != {} <==> exists id :: id in sources && IsDuplicate(sources[id], key, data)
  {
    var found := Duplicates(sources, key, data);
    if found != {} {
      var id := ElementOf(found);
      assert IsDuplicate(sources[id], key, data);
    }
    if id :| id in sources && IsDuplicate(sources[id], key, data) { assert id in Duplicates(sources, key, data); }
  }

  lemma SourcesMeaning(sources: map<int, Source>, key: Key)
    ensures IdsOf(sources, key) == {} <==> forall id :: id in sources ==> sources[id].owner != key
  {
    var ids := IdsOf(sources, key);
    if ids != {} {
      var id := ElementOf(ids);
      assert sources[id].owner == key;
    }
    if id :| id in sources && sources[id].owner == key { assert id in ids; }
  }

  /** An update writes the patched priority and field list, an empty list as none, and nothing else; of a missing
      source it changes nothing. */
  lemma UpdateWrites(db: Db, id: int, patch: Patch)
    ensures var db' := Updated(db, id, patch);
            && db'.entities == db.entities && db'.sources.Keys == db.sources.Keys
            && (forall other :: other in db.sources && other != id ==> db'.sources[other] == db.sources[other])
            && (id in db.sources ==>
                  var s, s' := db.sources[id], db'.sources[id];
                  && s'.owner == s.owner && s'.sourceType == s.sourceType && s'.sourceId == s.sourceId
                  && s'.url == s.url && s'.account == s.account && s'.isPrimary == s.isPrimary
                  && s'.priority == (if patch.priority.Some? then patch.priority.value else s.priority)
                  && s'.contributed == (if patch.contributed.None? then s.contributed
                                        else if patch.contributed.value == Some([]) then None
                                        else patch.contributed.value))
  {
  }

  /** Of the sources in both databases only the primary flag may differ, and only for the entity's own. */
  ghost predicate OnlyFlagsDiffer(db: Db, db': Db, key: Key) {
    forall id :: id in db.sources && id in db'.sources ==>
      var s, s' := db.sources[id], db'.sources[id];
      && (s.owner != key ==> s' == s)
      && s'.owner == s.owner && s'.sourceType == s.sourceType && s'.sourceId == s.sourceId && s'.url == s.url
      && s'.account == s.account && s'.priority == s.priority && s'.contributed == s.contributed
  }

  /** Choosing a primary makes it the only one of its entity and writes nothing but the flags and the entity's
      reference; choosing a source the entity does not have changes nothing. */
  lemma PrimaryWrites(db: Db, key: Key, id: int)
    ensures var db' := PrimarySet(db, key, id);
            if id in db.sources && db.sources[id].owner == key then
              && db'.sources.Keys == db.sources.Keys && OnlyFlagsDiffer(db, db', key)
              && OtherEntitiesSame(db, db', key)
              && (forall i :: i in db'.sources && db'.sources[i].owner == key ==>
                    (db'.sources[i].isPrimary <==> i == id))
              && (key in db.entities ==>
                    && db'.entities[key].primarySourceId == Some(id)
                    && db'.entities[key].sourceCount == db.entities[key].sourceCount)
            else db' == db
  {
  }

  /** A removal deletes that one source. Unless it was primary the others keep their flags; if it was, the
      successor is a source of the entity that no other outranks. */
  lemma RemoveWrites(db: Db, key: Key, id: int, next: Option<int>, nullsFirst: bool)
    requires id in db.sources && db.sources[id].owner == key
    requires TopPriority(db.sources - {id}, key, next, nullsFirst)
    ensures var db' := Removed(db, key, id, next);
            && db'.sources.Keys == db.sources.Keys - {id} && OnlyFlagsDiffer(db, db', key)
            && OtherEntitiesSame(db, db', key)
            && (!db.sources[id].isPrimary ==> db'.sources == db.sources - {id})
            && (db.sources[id].isPrimary && key in db.entities ==> db'.entities[key].primarySourceId == next)
    ensures next.None? <==> forall i :: i in db.sources && db.sources[i].owner == key ==> i == id
    ensures next.Some? ==>
              && next.value in db.sources && next.value != id && db.sources[next.value].owner == key
              && forall i :: i in db.sources && i != id && db.sources[i].owner == key ==>
                   NotOutranked(db.sources[next.value].priority, db.sources[i].priority, nullsFirst)
  {
    PrimaryWrites(Recounted(db.(sources := db.sources - {id}), key), key, if next.Some? then next.value else id);
    if i :| i in db.sources && i != id && db.sources[i].owner == key { assert i in IdsOf(db.sources - {id}, key); }
    forall i | next.Some? && i in db.sources && i != id && db.sources[i].owner == key
      ensures NotOutranked(db.sources[next.value].priority, db.sources[i].priority, nullsFirst)
    {
      assert i in IdsOf(db.sources - {id}, key);
    }
  }

  /** In descending order `a` may stand before `b`: larger priorities first, missing ones all first or all last. */
  ghost predicate NotOutranked(a: Option<int>, b: Option<int>, nullsFirst: bool) {
    match (a, b)
    case (Some(x), Some(y)) => x >= y
    case (None, None) => true
    case (None, Some(_)) => nullsFirst
    case (Some(_), None) => !nullsFirst
  }

  // ---- runs ------------------------------------------------------------------------------

  /** One service call, with what the database chose for it. */
  datatype Call =
    | Add(key: Key, data: NewSource, newId: int)
    | Remove(key: Key, id: int, next: Option<int>, nullsFirst: bool)
    | SetPrimary(key: Key, id: int)
    | Update(id: int, patch: Patch)

  ghost predicate Possible(db: Db, c: Call) {
    match c
    case Add(_, _, newId) => newId !in db.sources
    case Remove(key, id, next, nullsFirst) =>
      id in IdsOf(db.sources, key) ==> TopPriority(db.sources - {id}, key, next, nullsFirst)
    case _ => true
  }

  function Apply(db: Db, c: Call): Db {
    match c
    case Add(key, data, newId) => Added(db, key, data, newId)
    case Remove(key, id, next, _) => Removed(db, key, id, next)
    case SetPrimary(key, id) => PrimarySet(db, key, id)
    case Update(id, patch) => Updated(db, id, patch)
  }

  /** The call adds or removes a source of the entity. */
  predicate Counts(db: Db, c: Call, key: Key) {
    match c
    case Add(k, data, _) => k == key && key in db.entities && Duplicates(db.sources, key, data) == {}
    case Remove(k, id, _, _) => k == key && id in IdsOf(db.sources, key)
    case _ => false
  }

  lemma CallKeeps(db: Db, c: Call, key: Key)
    requires Sound(db) && Possible(db, c)
    ensures Sound(Apply(db, c))
    ensures CountRight(db, key) || Counts(db, c, key) ==> CountRight(Apply(db, c), key)
    ensures !Counts(db, c, key) && IdsOf(db.sources, key) == {} ==> SameFor(db, Apply(db, c), key)
  {
    var db' := Apply(db, c);
    forall k ensures PrimarySound(db', k) && SourcesUnique(db', k) {
      CallKeepsKey(db, c, k);
    }
    CallKeepsKey(db, c, key);
  }

  lemma CallKeepsKey(db: Db, c: Call, key: Key)
    requires Sound(db) && Possible(db, c)
    ensures var db' := Apply(db, c);
            && PrimarySound(db', key) && SourcesUnique(db', key)
            && (CountRight(db, key) || Counts(db, c, key) ==> CountRight(db', key))
            && (!Counts(db, c, key) && IdsOf(db.sources, key) == {} ==> SameFor(db, db', key))
  {
    var db' := Apply(db, c);
    assert PrimarySound(db, key) && SourcesUnique(db, key);
    match c
    case Add(k, data, newId) =>
      AddKeeps(db, k, data, newId);
      if k != key { SameForSound(db, db', key); }
    case Remove(k, id, next, nullsFirst) =>
      RemoveKeeps(db, k, id, next, nullsFirst);
      if k != key { SameForSound(db, db', key); }
    case SetPrimary(k, id) =>
      assert PrimarySound(db, k);
      PrimaryKeeps(db, k, id);
      if k != key { SameForSound(db, db', key); }
    case Update(id, patch) =>
      UpdateKeeps(db, id, patch, key);
  }

  function Run(db: Db, calls: seq<Call>): Db {
    if calls == [] then db else Apply(Run(db, calls[..|calls| - 1]), calls[|calls| - 1])
  }

  ghost predicate AllPossible(db: Db, calls: seq<Call>) {
    forall i :: 0 <= i < |calls| ==> Possible(Run(db, calls[..i]), calls[i])
  }

  /** No sources yet; the counts on the entities may be anything (the column default is 1). */
  ghost predicate Fresh(db: Db) {
    db.sources == map[] && forall key :: key in db.entities ==> db.entities[key].primarySourceId.None?
  }

  ghost predicate Counted(db: Db, calls: seq<Call>, key: Key) {
    exists i :: 0 <= i < |calls| && Counts(Run(db, calls[..i]), calls[i], key)
  }

  lemma PossiblePrefix(db: Db, calls: seq<Call>)
    requires calls != [] && AllPossible(db, calls)
    ensures AllPossible(db, calls[..|calls| - 1]) && Possible(Run(db, calls[..|calls| - 1]), calls[|calls| - 1])
  {
    hide Possible, Apply;
    var front := calls[..|calls| - 1];
    assert forall i :: 0 <= i < |front| ==> front[i] == calls[i] && front[..i] == calls[..i];
  }

  lemma CountedPrefix(db: Db, calls: seq<Call>, key: Key)
    requires calls != []
    ensures var n := |calls| - 1; var front := calls[..n];
            Counted(db, calls, key) <==> Counted(db, front, key) || Counts(Run(db, front), calls[n], key)
  {
    hide Counts, Apply;
    var n := |calls| - 1;
    var front := calls[..n];
    assert forall i :: 0 <= i < n ==> front[i] == calls[i] && front[..i] == calls[..i];
    if Counted(db, front, key) {
      var i :| 0 <= i < n && Counts(Run(db, front[..i]), front[i], key);
      assert Counts(Run(db, calls[..i]), calls[i], key);
    }
    if Counts(Run(db, front), calls[n], key) { assert Counts(Run(db, calls[..n]), calls[n], key); }
  }

  lemma FreshIsSound(db: Db, key: Key)
    requires Fresh(db)
    ensures Sound(db) && SameFor(db, db, key) && IdsOf(db.sources, key) == {}
  {
    assert forall k :: IdsOf(db.sources, k) == {};
  }

  lemma {:induction false} RunStaysSound(db: Db, calls: seq<Call>)
    requires Fresh(db) && AllPossible(db, calls)
    ensures Sound(Run(db, calls))
  {
    var any := Key(Event, 0);
    if calls == [] {
      FreshIsSound(db, any);
    } else {
      PossiblePrefix(db, calls);
      RunStaysSound(db, calls[..|calls| - 1]);
      CallKeeps(Run(db, calls[..|calls| - 1]), calls[|calls| - 1], any);
    }
  }

  /** After any run from a database without sources: every entity with sources has exactly one
      primary, which the entity names; an entity without sources names none; sources are unique
      per entity; and from the first add or remove on, the count is the real one. Before
      that the entity is as it was. */
  lemma {:induction false} EveryRunIsSound(db: Db, calls: seq<Call>, key: Key)
    requires Fresh(db) && AllPossible(db, calls)
    ensures Sound(Run(db, calls))
    ensures if Counted(db, calls, key) then CountRight(Run(db, calls), key)
            else SameFor(db, Run(db, calls), key) && IdsOf(Run(db, calls).sources, key) == {}
  {
    RunStaysSound(db, calls);
    if calls == [] {
      FreshIsSound(db, key);
    } else {
      var front, last := calls[..|calls| - 1], calls[|calls| - 1];
      PossiblePrefix(db, calls);
      CountedPrefix(db, calls, key);
      EveryRunIsSound(db, front, key);
      CallKeeps(Run(db, front), last, key);
      if !Counted(db, calls, key) { SameForTwice(db, Run(db, front), Run(db, calls), key); }
    }
  }

  lemma SameForTwice(a: Db, b: Db, c: Db, key: Key)
    requires SameFor(a, b, key) && SameFor(b, c, key)
    ensures SameFor(a, c, key)
  {
  }
}
