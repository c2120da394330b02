/** The objects that do it: the tailer's source table and the watcher that refreshes it. */
module RunnerWatching {
  import opened Options
  import opened RunnerMembership

  /** `sources` maps a source name to the path being tailed. */
  class MultiTailer {
    var sources: map<string, string>

    constructor ()
      ensures sources == map[]
    {
      sources := map[];
    }

    method AddSource(name: string, path: string, replace: bool)
      modifies this
      ensures sources == if name in old(sources) && !replace then old(sources) else old(sources)[name := path]
    {
      if name in sources && !replace { return; }
      sources := sources[name := path];
    }

    method RemoveSource(name: string)
      modifies this
      ensures sources == old(sources) - {name}
    {
      sources := sources - {name};
    }
  }

  // ---- partial progress through the set loops, which run in no fixed order -------------

  ghost function Joined(w: Watch, m: map<string, RunnerInfo>, done: set<string>): Watch
    requires done <= m.Keys
  {
    Watch(w.known + done, w.stale - done, w.lastRefresh, WithShorts(w.shortOf, m, done))
  }

  ghost function JoinedNames(m: map<string, RunnerInfo>, done: set<string>): set<string>
    requires done <= m.Keys
  {
    set id, n | id in done && n in SourcesOf(m[id]) :: n
  }

  /** The table once the runners in `done` have been added. */
  ghost predicate JoinedTable(before: map<string, string>, table: map<string, string>, m: map<string, RunnerInfo>,
                              done: set<string>)
    requires done <= m.Keys
  {
    table.Keys == before.Keys + JoinedNames(m, done) && PathsKept(before, table, m, done)
  }

  lemma JoinOne(w: Watch, m: map<string, RunnerInfo>, done: set<string>, id: string)
    requires done <= m.Keys && id in m
    ensures var j := Joined(w, m, done);
            Joined(w, m, done + {id}) ==
            Watch(j.known + {id}, j.stale - {id}, j.lastRefresh, j.shortOf[id := m[id].shortId])
  {
  }

  lemma JoinOneName(m: map<string, RunnerInfo>, done: set<string>, id: string)
    requires id in m && done <= m.Keys
    ensures JoinedNames(m, done + {id}) == JoinedNames(m, done) + SourcesOf(m[id]).Keys
  {
    hide SourcesOf;
  }

  lemma JoinOneInTable(before: map<string, string>, table: map<string, string>, m: map<string, RunnerInfo>,
                       done: set<string>, id: string)
    requires id in m && done <= m.Keys && JoinedTable(before, table, m, done)
    ensures JoinedTable(before, SourcesOf(m[id]) + table, m, done + {id})
  {
    hide SourcesOf, JoinedNames;
    var after := SourcesOf(m[id]) + table;
    JoinOneName(m, done, id);
    forall n | n in after && n !in before ensures exists id' :: id' in done + {id} && Gives(m[id'], n, after[n]) {
      if n in table {
        var id' :| id' in done && Gives(m[id'], n, table[n]);
        assert id' in done + {id};
      } else {
        assert Gives(m[id], n, after[n]);
      }
    }
  }

  lemma NoneJoined(w: Watch, m: map<string, RunnerInfo>, table: map<string, string>)
    ensures Joined(w, m, {}) == w && JoinedTable(table, table, m, {})
  {
  }

  ghost function Missed(w: Watch, now: real, done: set<string>): Watch {
    var gone := Expired(w, now, w.known - done);
    Watch(w.known - gone,
          map id | id in (w.stale.Keys + done) - gone ::
            if id in w.stale then w.stale[id] else (ShortOf(w.shortOf, id), now),
          w.lastRefresh, w.shortOf - gone)
  }

  ghost function MissedNames(w: Watch, now: real, done: set<string>): set<string> {
    RemovedNames(w, now, w.known - done)
  }

  predicate Ends(w: Watch, now: real, id: string) {
    id in w.stale && now - w.stale[id].1 >= GRACE_PERIOD
  }

  /** What missing one more runner does to the watcher. */
  ghost function MissOne(w: Watch, now: real, id: string): Watch {
    if Ends(w, now, id) then Watch(w.known - {id}, w.stale - {id}, w.lastRefresh, w.shortOf - {id})
    else if id in w.stale then w
    else w.(stale := w.stale[id := (ShortOf(w.shortOf, id), now)])
  }

  lemma MissStep(w: Watch, now: real, done: set<string>, id: string)
    requires id in w.known && id !in done && done <= w.known
    ensures Missed(w, now, done + {id}) == MissOne(Missed(w, now, done), now, id)
    ensures Ends(Missed(w, now, done), now, id) <==> Ends(w, now, id)
    ensures id in Missed(w, now, done).known
  {
    var gone, gone' := Expired(w, now, w.known - done), Expired(w, now, w.known - (done + {id}));
    assert gone' == if Ends(w, now, id) then gone + {id} else gone;
    var a, b := Missed(w, now, done + {id}), MissOne(Missed(w, now, done), now, id);
    assert a.known == b.known && a.shortOf == b.shortOf;
    assert a.stale.Keys == b.stale.Keys;
    assert a.stale == b.stale;
  }

  lemma MissStepNames(w: Watch, now: real, done: set<string>, id: string)
    requires id in w.known && id !in done && done <= w.known
    ensures MissedNames(w, now, done + {id}) ==
            MissedNames(w, now, done) + if Ends(w, now, id) then BothNames(w.stale[id].0) else {}
    ensures Ends(w, now, id) ==> Missed(w, now, done).stale[id] == w.stale[id]
  {
    var gone, gone' := Expired(w, now, w.known - done), Expired(w, now, w.known - (done + {id}));
    assert gone' == if Ends(w, now, id) then gone + {id} else gone;
  }

  lemma MissedNone(w: Watch, now: real)
    ensures Missed(w, now, {}) == w && MissedNames(w, now, {}) == {}
  {
  }

  lemma MissedAll(w: Watch, now: real, current: set<string>)
    requires w.stale.Keys !! current
    ensures Missed(w, now, w.known - current) ==
            Watch(w.known - Expired(w, now, current), StaleAfter(w, now, current), w.lastRefresh,
                  w.shortOf - Expired(w, now, current))
    ensures MissedNames(w, now, w.known - current) == RemovedNames(w, now, current)
  {
    assert w.known - (w.known - (w.known - current)) == w.known - current;
    assert Expired(w, now, w.known - (w.known - current)) == Expired(w, now, current);
    assert StaleAfter(w, now, current).Keys == Missed(w, now, w.known - current).stale.Keys;
  }

  /** Adding a runner's two entries one after the other, entries already there winning. */
  lemma AddedInTurn(r: RunnerInfo, table: map<string, string>)
    ensures var logs: map<string, string> :=
              if HasPath(r.logPath) then map[LogName(r.shortId) := r.logPath.value] else map[];
            var streams: map<string, string> :=
              if HasPath(r.streamPath) then map[StreamName(r.shortId) := r.streamPath.value] else map[];
            streams + (logs + table) == SourcesOf(r) + table
  {
    NamesClashIff(r.shortId, r.shortId);
  }

  class RunnerWatcher {
    var knownRunners: set<string>
    var staleTracker: map<string, (string, real)>
    var lastRefresh: real
    var idToShort: map<string, string>

    function View(): Watch
      reads this
    {
      Watch(knownRunners, staleTracker, lastRefresh, idToShort)
    }

    constructor ()
      ensures View() == INITIAL
    {
      knownRunners, staleTracker, lastRefresh, idToShort := {}, map[], 0.0, map[];
    }

    method AddSources(tailer: MultiTailer, r: RunnerInfo)
      modifies tailer
      ensures tailer.sources == SourcesOf(r) + old(tailer.sources)
    {
      ghost var logs: map<string, string> :=
        if HasPath(r.logPath) then map[LogName(r.shortId) := r.logPath.value] else map[];
      if HasPath(r.logPath) { tailer.AddSource(LogName(r.shortId), r.logPath.value, false); }
      assert tailer.sources == logs + old(tailer.sources);
      if HasPath(r.streamPath) { tailer.AddSource(StreamName(r.shortId), r.streamPath.value, false); }
      AddedInTurn(r, old(tailer.sources));
    }

    /** One runner seen for the first time. */
    method AddRunner(tailer: MultiTailer, r: RunnerInfo)
      modifies this, tailer
      ensures View() == Watch(old(knownRunners) + {r.runnerId}, old(staleTracker) - {r.runnerId}, old(lastRefresh),
                              old(idToShort)[r.runnerId := r.shortId])
      ensures tailer.sources == SourcesOf(r) + old(tailer.sources)
    {
      hide SourcesOf;
      idToShort := idToShort[r.runnerId := r.shortId];
      AddSources(tailer, r);
      knownRunners := knownRunners + {r.runnerId};
      staleTracker := staleTracker - {r.runnerId};
    }

    method AddNew(tailer: MultiTailer, m: map<string, RunnerInfo>)
      requires forall id :: id in m ==> m[id].runnerId == id
      modifies this, tailer
      ensures View() == Joined(old(View()), m, m.Keys - old(knownRunners))
      ensures JoinedTable(old(tailer.sources), tailer.sources, m, m.Keys - old(knownRunners))
    {
      hide Joined, JoinedTable, SourcesOf;
      var newIds := m.Keys - knownRunners;
      ghost var done: set<string> := {};
      NoneJoined(View(), m, tailer.sources);
      while newIds != {}
        invariant newIds + done == m.Keys - old(knownRunners) && newIds !! done
        invariant View() == Joined(old(View()), m, done)
        invariant JoinedTable(old(tailer.sources), tailer.sources, m, done)
        decreases newIds
      {
        var rid :| rid in newIds;
        JoinOne(old(View()), m, done, rid);
        JoinOneInTable(old(tailer.sources), tailer.sources, m, done, rid);
        AddRunner(tailer, m[rid]);
        newIds, done := newIds - {rid}, done + {rid};
      }
      assert done == m.Keys - old(knownRunners);
    }

    /** Grace ends for every tracked runner that is listed again. */
    method CancelGrace(current: set<string>)
      modifies this`staleTracker
      ensures staleTracker == old(staleTracker) - current
    {
      var tracked := staleTracker.Keys;
      while tracked != {}
        invariant tracked <= old(staleTracker).Keys
        invariant staleTracker == old(staleTracker) - (current - tracked)
        decreases tracked
      {
        var rid :| rid in tracked;
        if rid in current { staleTracker := staleTracker - {rid}; }
        tracked := tracked - {rid};
      }
    }

    /** A runner found missing: starts its grace period, or ends it. */
    method Miss(tailer: MultiTailer, sid: string, now: real)
      modifies this, tailer
      ensures View() == MissOne(old(View()), now, sid)
      ensures tailer.sources == old(tailer.sources)
                                - if Ends(old(View()), now, sid) then BothNames(old(staleTracker)[sid].0) else {}
    {
      if sid !in staleTracker {
        staleTracker := staleTracker[sid := (ShortOf(idToShort, sid), now)];
        return;
      }
      var (shortId, startTime) := staleTracker[sid];
      if now - startTime >= GRACE_PERIOD {
        tailer.RemoveSource(LogName(shortId));
        tailer.RemoveSource(StreamName(shortId));
        knownRunners := knownRunners - {sid};
        staleTracker := staleTracker - {sid};
        idToShort := idToShort - {sid};
      }
    }

    /** Every known runner that is not listed now, in any order. */
    method MissAll(tailer: MultiTailer, now: real, current: set<string>)
      modifies this, tailer
      ensures View() == Missed(old(View()), now, old(knownRunners) - current)
      ensures tailer.sources == old(tailer.sources) - MissedNames(old(View()), now, old(knownRunners) - current)
    {
      ghost var w := View();
      var staleIds := knownRunners - current;
      ghost var done: set<string> := {};
      MissedNone(w, now);
      hide Missed, MissedNames, MissOne, Ends, BothNames;
      while staleIds != {}
        invariant staleIds + done == w.known - current && staleIds !! done
        invariant View() == Missed(w, now, done)
        invariant tailer.sources == old(tailer.sources) - MissedNames(w, now, done)
        decreases staleIds
      {
        var sid :| sid in staleIds;
        MissStep(w, now, done, sid);
        MissStepNames(w, now, done, sid);
        Miss(tailer, sid, now);
        staleIds, done := staleIds - {sid}, done + {sid};
      }
      assert done == w.known - current;
    }

    /** Refreshes the runner list and keeps the tailer in step; returns at once inside the interval. */
    method RefreshTailer(tailer: MultiTailer, now: real, runners: seq<RunnerInfo>)
      modifies this, tailer
      ensures View() == Refresh(old(View()), now, runners)
      ensures TableStep(old(View()), old(tailer.sources), tailer.sources, now, runners)
    {
      if now - lastRefresh < REFRESH_INTERVAL { return; }
      ghost var w := View();
      lastRefresh := now;
      var m, current := RunnerMap(runners), CurrentIds(runners);
      AddNew(tailer, m);
      CancelGrace(current);
      ghost var w1 := View();
      MissAll(tailer, now, current);
      RefreshInSteps(w, w1, now, runners);
    }
  }

  lemma JoinedShorts(w: Watch, m: map<string, RunnerInfo>, id: string)
    requires id !in m
    ensures ShortOf(WithNew(w, m), id) == ShortOf(w.shortOf, id)
  {
  }

  lemma JoinedSets(known: set<string>, current: set<string>, stale: map<string, (string, real)>)
    ensures known + (current - known) == known + current
    ensures known + current - current == known - current
    ensures stale - (current - known) - current == stale - current
  {
  }

  lemma GraceAfterJoin(w: Watch, w1: Watch, now: real, current: set<string>)
    requires w1.stale == w.stale - current && w1.known - current == w.known - current
    requires forall id :: id !in current ==> ShortOf(w1.shortOf, id) == ShortOf(w.shortOf, id)
    ensures Expired(w1, now, current) == Expired(w, now, current)
    ensures StaleAfter(w1, now, current) == StaleAfter(w, now, current)
    ensures RemovedNames(w1, now, current) == RemovedNames(w, now, current)
  {
    assert Expired(w1, now, current) == Expired(w, now, current);
    assert StaleAfter(w1, now, current).Keys == StaleAfter(w, now, current).Keys;
  }

  /** Joining, cancelling and missing, one after the other, make one refresh. */
  lemma RefreshInSteps(w: Watch, w1: Watch, now: real, runners: seq<RunnerInfo>)
    requires Due(w, now)
    requires var m := RunnerMap(runners); var j := Joined(w.(lastRefresh := now), m, m.Keys - w.known);
             w1 == j.(stale := j.stale - CurrentIds(runners))
    ensures var m, current := RunnerMap(runners), CurrentIds(runners);
            && Missed(w1, now, w1.known - current) == Refresh(w, now, runners)
            && MissedNames(w1, now, w1.known - current) == RemovedNames(w, now, current)
            && JoinedNames(m, m.Keys - w.known) == AddedNames(w, m)
  {
    var m, current := RunnerMap(runners), CurrentIds(runners);
    JoinedSets(w.known, current, w.stale);
    forall id | id !in current ensures ShortOf(w1.shortOf, id) == ShortOf(w.shortOf, id) { JoinedShorts(w, m, id); }
    MissedAll(w1, now, current);
    GraceAfterJoin(w, w1, now, current);
  }
}
