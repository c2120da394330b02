/** The service methods on a database session with commit and rollback. */
module EntitySourceService {
  import opened Options
  import opened EntitySources

  /** `.first()` of a query without an order. */
  method AnyOf<T>(items: set<T>) returns (item: T)
    requires items != {}
    ensures item in items
  {
    item :| item in items;
  }

  /** The session's working tables and the last committed ones. */
  class Session {
    var sources: map<int, Source>
    var entities: map<Key, Entity>
    var savedSources: map<int, Source>
    var savedEntities: map<Key, Entity>

    function View(): Db
      reads this
    {
      Db(sources, entities)
    }

    function Committed(): Db
      reads this
    {
      Db(savedSources, savedEntities)
    }

    /** Nothing is pending between service calls. */
    predicate Clean()
      reads this
    {
      Committed() == View()
    }

    constructor (db: Db)
      ensures Clean() && View() == db
    {
      sources, entities, savedSources, savedEntities := db.sources, db.entities, db.sources, db.entities;
    }

    method Commit()
      modifies this
      ensures Clean() && View() == old(View())
    {
      savedSources, savedEntities := sources, entities;
    }

    method Rollback()
      modifies this
      ensures Clean() && View() == old(Committed())
    {
      sources, entities := savedSources, savedEntities;
    }

    method UpdateSourceCount(key: Key)
      modifies this
      ensures Clean() && View() == Recounted(old(View()), key)
    {
      var count := |IdsOf(sources, key)|;
      if key in entities { entities := entities[key := entities[key].(sourceCount := count)]; }
      Commit();
    }

    method UpdatePrimarySource(key: Key, primary: Option<int>)
      modifies this
      ensures Clean() && View() == WithPrimary(old(View()), key, primary)
    {
      if key in entities { entities := entities[key := entities[key].(primarySourceId := primary)]; }
      Commit();
    }

    /** `newId` is the key the database assigns. Returns the id of the new or already present source. */
    method AddSource(key: Key, data: NewSource, newId: int) returns (source: Option<int>)
      requires Clean() && newId !in sources
      modifies this
      ensures Clean() && View() == Added(old(View()), key, data, newId)
      ensures source.None? <==> key !in old(entities)
      ensures source.Some? ==>
                source.value in sources && sources[source.value].owner == key &&
                sources[source.value].sourceType == data.sourceType && sources[source.value].sourceId == data.sourceId
    {
      if key !in entities { return None; }
      var existing := Duplicates(sources, key, data);
      if existing != {} {
        var id := AnyOf(existing);
        return Some(id);
      }
      var sourceCount := |IdsOf(sources, key)|;
      var isPrimary := sourceCount == 0;
      sources := sources[newId := Row(key, data, isPrimary)];
      Commit();
      UpdateSourceCount(key);
      if isPrimary { UpdatePrimarySource(key, Some(newId)); }
      return Some(newId);
    }

    /** `query.order_by(priority.desc()).first()` over the sources of the entity. */
    method FirstByPriority(key: Key, nullsFirst: bool) returns (next: Option<int>)
      ensures TopPriority(sources, key, next, nullsFirst)
    {
      var ids := IdsOf(sources, key);
      next := None;
      while ids != {}
        invariant ids <= IdsOf(sources, key)
        invariant next.None? ==> ids == IdsOf(sources, key)
        invariant next.Some? ==> next.value in IdsOf(sources, key)
        invariant next.Some? ==> forall id :: id in IdsOf(sources, key) - ids ==>
                    AtLeast(sources[next.value].priority, sources[id].priority, nullsFirst)
        decreases ids
      {
        var id := AnyOf(ids);
        if next.None? || !AtLeast(sources[next.value].priority, sources[id].priority, nullsFirst) { next := Some(id); }
        ids := ids - {id};
      }
    }

    method SetPrimarySource(key: Key, id: int) returns (found: bool)
      requires Clean()
      modifies this
      ensures Clean() && View() == PrimarySet(old(View()), key, id)
      ensures found <==> id in IdsOf(old(sources), key)
      ensures !found ==> View() == old(View())
    {
      sources := Demoted(sources, key);
      if id !in sources || sources[id].owner != key {
        Rollback();
        return false;
      }
      sources := sources[id := sources[id].(isPrimary := true)];
      Commit();
      UpdatePrimarySource(key, Some(id));
      return true;
    }

    /** `next` is the source the database puts first among those that are left. */
    method RemoveSource(key: Key, id: int, nullsFirst: bool) returns (removed: bool, ghost next: Option<int>)
      requires Clean()
      modifies this
      ensures Clean() && View() == Removed(old(View()), key, id, next)
      ensures removed <==> id in IdsOf(old(sources), key)
      ensures removed ==> TopPriority(old(sources) - {id}, key, next, nullsFirst)
      ensures !removed ==> View() == old(View())
    {
      if id !in sources || sources[id].owner != key { return false, None; }
      var wasPrimary := sources[id].isPrimary;
      sources := sources - {id};
      Commit();
      UpdateSourceCount(key);
      var nextSource := FirstByPriority(key, nullsFirst);
      next := nextSource;
      if wasPrimary {
        if nextSource.Some? {
          var _ := SetPrimarySource(key, nextSource.value);
        } else {
          UpdatePrimarySource(key, None);
        }
      }
      return true, next;
    }

    method UpdateSource(id: int, patch: Patch) returns (found: bool)
      requires Clean()
      modifies this
      ensures Clean() && View() == Updated(old(View()), id, patch)
      ensures found <==> id in old(sources)
    {
      if id !in sources { return false; }
      sources := sources[id := Patched(sources[id], patch)];
      Commit();
      return true;
    }
  }
}
