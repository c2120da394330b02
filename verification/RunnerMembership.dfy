/** Which runners are followed: the timed membership rule, as a function of the refreshes so far. */
module RunnerMembership {
  import opened Options

  datatype RunnerInfo = RunnerInfo(runnerId: string, shortId: string, logPath: Option<string>,
                                   streamPath: Option<string>)

  const REFRESH_INTERVAL: real := 10.0
  const GRACE_PERIOD: real := 30.0

  /** `stale` remembers, for a runner in grace, its short id and when it was first found missing. */
  datatype Watch = Watch(known: set<string>, stale: map<string, (string, real)>, lastRefresh: real,
                         shortOf: map<string, string>)

  const INITIAL := Watch({}, map[], 0.0, map[])

  function CurrentIds(runners: seq<RunnerInfo>): set<string> {
    set r | r in runners :: r.runnerId
  }

  /** `{r.runner_id: r for r in runners}`: the last entry of an id wins. */
  function RunnerMap(runners: seq<RunnerInfo>): (m: map<string, RunnerInfo>)
    ensures m.Keys == CurrentIds(runners)
    ensures forall id :: id in m ==> m[id] in runners && m[id].runnerId == id
  {
    if runners == [] then map[] else
      RunnerMap(runners[..|runners| - 1])[runners[|runners| - 1].runnerId := runners[|runners| - 1]]
  }

  predicate Due(w: Watch, now: real) {
    now - w.lastRefresh >= REFRESH_INTERVAL
  }

  function ShortOf(shortOf: map<string, string>, id: string): string {
    if id in shortOf then shortOf[id] else id
  }

  /** The runners whose grace period ends at this refresh. */
  function Expired(w: Watch, now: real, current: set<string>): set<string> {
    set id | id in w.known - current && id in w.stale && now - w.stale[id].1 >= GRACE_PERIOD
  }

  function StaleAfter(w: Watch, now: real, current: set<string>): map<string, (string, real)> {
    map id | id in ((w.stale.Keys - current) + (w.known - current)) - Expired(w, now, current) ::
      if id in w.stale then w.stale[id] else (ShortOf(w.shortOf, id), now)
  }

  /** Records the short ids of the runners in `ids`. */
  function WithShorts(shortOf: map<string, string>, m: map<string, RunnerInfo>, ids: set<string>): map<string, string>
    requires ids <= m.Keys
  {
    map id | id in shortOf.Keys + ids :: if id in ids then m[id].shortId else shortOf[id]
  }

  function WithNew(w: Watch, m: map<string, RunnerInfo>): map<string, string> {
    WithShorts(w.shortOf, m, m.Keys - w.known)
  }

  function Refresh(w: Watch, now: real, runners: seq<RunnerInfo>): Watch {
    if !Due(w, now) then w else
      var m, current := RunnerMap(runners), CurrentIds(runners);
      var gone := Expired(w, now, current);
      Watch((w.known + current) - gone, StaleAfter(w, now, current), now, WithNew(w, m) - gone)
  }

  // ---- runs ----------------------------------------------------------------------

  datatype Tick = Tick(now: real, runners: seq<RunnerInfo>)

  function Run(ticks: seq<Tick>): Watch {
    if ticks == [] then INITIAL else
      var t := ticks[|ticks| - 1];
      Refresh(Run(ticks[..|ticks| - 1]), t.now, t.runners)
  }

  /** The ticks that were not skipped. */
  function Effective(ticks: seq<Tick>): seq<Tick> {
    if ticks == [] then [] else
      var front, t := ticks[..|ticks| - 1], ticks[|ticks| - 1];
      if Due(Run(front), t.now) then Effective(front) + [t] else Effective(front)
  }

  ghost predicate Consistent(w: Watch) {
    && w.shortOf.Keys == w.known
    && w.stale.Keys <= w.known
    && forall id :: id in w.stale ==> w.stale[id].0 == w.shortOf[id]
  }

  /** One refresh keeps the books; and after an effective one the runners in grace are exactly
      the known ones not listed now. */
  lemma RefreshKeepsBooks(w: Watch, now: real, runners: seq<RunnerInfo>)
    requires Consistent(w)
    ensures Consistent(Refresh(w, now, runners))
    ensures Due(w, now) ==>
              var w' := Refresh(w, now, runners);
              && w'.stale.Keys == w'.known - CurrentIds(runners)
              && CurrentIds(runners) <= w'.known
              && w'.shortOf.Keys == w'.known
  {
  }

  /** The same in every reachable state. */
  lemma {:induction false} GraceIsKnownMinusCurrent(ticks: seq<Tick>)
    ensures Consistent(Run(ticks))
    ensures var e := Effective(ticks); var w := Run(ticks);
            if e == [] then w == INITIAL
            else w.stale.Keys == w.known - CurrentIds(e[|e| - 1].runners) && w.lastRefresh == e[|e| - 1].now
  {
    if ticks != [] {
      GraceIsKnownMinusCurrent(ticks[..|ticks| - 1]);
      RefreshKeepsBooks(Run(ticks[..|ticks| - 1]), ticks[|ticks| - 1].now, ticks[|ticks| - 1].runners);
    }
  }

  /** The time of the first of the effective refreshes, up to the latest, that have all missed `id`. */
  function AbsentSince(e: seq<Tick>, id: string): Option<real> {
    if e == [] || id in CurrentIds(e[|e| - 1].runners) then None else
      var before := AbsentSince(e[..|e| - 1], id);
      if before.Some? then before else Some(e[|e| - 1].now)
  }

  /** `AbsentSince` means what it says. */
  lemma {:induction false} AbsentSinceMeaning(e: seq<Tick>, id: string) returns (i: nat)
    ensures AbsentSince(e, id).None? <==> e == [] || id in CurrentIds(e[|e| - 1].runners)
    ensures AbsentSince(e, id).Some? ==>
              && i < |e| && e[i].now == AbsentSince(e, id).value
              && (forall j :: i <= j < |e| ==> id !in CurrentIds(e[j].runners))
              && (i > 0 ==> id in CurrentIds(e[i - 1].runners))
  {
    i := 0;
    if e != [] && id !in CurrentIds(e[|e| - 1].runners) {
      i := AbsentSinceMeaning(e[..|e| - 1], id);
      if AbsentSince(e[..|e| - 1], id).None? { i := |e| - 1; }
    }
  }

  /** The recorded start of grace is the start of the current absence. */
  lemma {:induction false} StaleTimeIsAbsence(ticks: seq<Tick>, id: string)
    requires id in Run(ticks).known
    ensures var w, since := Run(ticks), AbsentSince(Effective(ticks), id);
            if id in w.stale then since == Some(w.stale[id].1) else since.None?
  {
    GraceIsKnownMinusCurrent(ticks);
    if ticks != [] {
      var front, t := ticks[..|ticks| - 1], ticks[|ticks| - 1];
      GraceIsKnownMinusCurrent(front);
      var e := Effective(front);
      if Due(Run(front), t.now) {
        assert (e + [t])[..|e|] == e;
        if id in Run(front).known { StaleTimeIsAbsence(front, id); }
      } else {
        StaleTimeIsAbsence(front, id);
      }
    }
  }

  /** Exactly when a runner is dropped: at an effective refresh that misses it, as did every effective
      refresh for at least the grace period. */
  lemma DroppedIffAbsentForGrace(ticks: seq<Tick>, t: Tick, id: string)
    requires id in Run(ticks).known
    ensures var since := AbsentSince(Effective(ticks), id);
            id !in Run(ticks + [t]).known <==>
            && t.now - Run(ticks).lastRefresh >= 10.0 && id !in CurrentIds(t.runners)
            && since.Some? && t.now - since.value >= 30.0
  {
    assert (ticks + [t])[..|ticks|] == ticks;
    StaleTimeIsAbsence(ticks, id);
  }

  lemma {:induction false} EffectiveSpacing(ticks: seq<Tick>)
    ensures var e := Effective(ticks);
            forall i :: 0 <= i < |e| - 1 ==> e[i + 1].now - e[i].now >= 10.0
  {
    if ticks != [] {
      EffectiveSpacing(ticks[..|ticks| - 1]);
      GraceIsKnownMinusCurrent(ticks[..|ticks| - 1]);
    }
  }

  /** A runner that four effective refreshes in a row have missed is gone. */
  lemma {:induction false} FourMissesDrop(ticks: seq<Tick>, id: string)
    requires var e := Effective(ticks);
             |e| >= 4 && forall j :: |e| - 4 <= j < |e| ==> id !in CurrentIds(e[j].runners)
    ensures id !in Run(ticks).known
  {
    var front, t := ticks[..|ticks| - 1], ticks[|ticks| - 1];
    assert ticks == front + [t];
    if !Due(Run(front), t.now) {
      FourMissesDrop(front, id);
    } else {
      var e, all := Effective(front), Effective(ticks);
      var n := |e|;
      assert all == e + [t] && all[n] == t && id !in CurrentIds(t.runners);
      if id in Run(front).known {
        EffectiveSpacing(ticks);
        EffectiveSpacing(front);
        var i := AbsentSinceMeaning(e, id);
        assert forall j :: n - 3 <= j < n ==> e[j] == all[j];
        assert i > 0 ==> !(n - 3 <= i - 1 < n);
        AbsentLongEnough(e, i);
        DroppedIffAbsentForGrace(front, t, id);
        assert all[(n - 1) + 1].now - all[n - 1].now >= REFRESH_INTERVAL;
      }
    }
  }

  /** The time of the latest refresh that took effect; the clock starts at zero. */
  function LatestEffective(ticks: seq<Tick>): real {
    var e := Effective(ticks);
    if e == [] then 0.0 else e[|e| - 1].now
  }

  /** A refresh takes effect exactly when ten seconds have passed since the last one that did. */
  lemma EffectiveIff(ticks: seq<Tick>, t: Tick)
    ensures Effective(ticks + [t]) ==
            if t.now - LatestEffective(ticks) >= 10.0 then Effective(ticks) + [t] else Effective(ticks)
    ensures t.now - LatestEffective(ticks) < 10.0 ==> Run(ticks + [t]) == Run(ticks)
  {
    assert (ticks + [t])[..|ticks|] == ticks;
    GraceIsKnownMinusCurrent(ticks);
  }

  /** No runner is given up early: a runner that a refresh drops was missed by it and by every effective refresh
      since one at least thirty seconds before. */
  lemma DroppedAfterThirtySeconds(ticks: seq<Tick>, t: Tick, id: string) returns (i: nat)
    requires id in Run(ticks).known && id !in Run(ticks + [t]).known
    ensures var e := Effective(ticks);
            && i < |e| && t.now - e[i].now >= 30.0 && id !in CurrentIds(t.runners)
            && forall j :: i <= j < |e| ==> id !in CurrentIds(e[j].runners)
  {
    DroppedIffAbsentForGrace(ticks, t, id);
    i := AbsentSinceMeaning(Effective(ticks), id);
  }

  /** A runner missed for less than thirty seconds is still known. */
  lemma StillInGrace(a: RunnerInfo, x: real, y: real, z: real)
    requires x >= 10.0 && y - x >= 10.0 && z - y >= 10.0 && z - y < 30.0
    ensures a.runnerId in Run([Tick(x, [a]), Tick(y, []), Tick(z, [])]).known
  {
    var t1, t2, t3 := Tick(x, [a]), Tick(y, []), Tick(z, []);
    assert [t1] + [t2] == [t1, t2] && [t1, t2] + [t3] == [t1, t2, t3] && CurrentIds([]) == {};
    hide Refresh, Expired, Run, RunnerMap;
    RunnerMapOf(a, a);
    AfterFirst(x, [a]);
    RunSnoc([t1], t2);
    RunSnoc([t1, t2], t3);
    RefreshOf(Run([t1]), y, [], a.runnerId);
    RefreshOf(Run([t1, t2]), z, [], a.runnerId);
  }

  lemma {:induction false} AbsentLongEnough(e: seq<Tick>, i: nat)
    requires i < |e| && forall j :: 0 <= j < |e| - 1 ==> e[j + 1].now - e[j].now >= REFRESH_INTERVAL
    ensures i <= |e| - 3 ==> e[|e| - 1].now - e[i].now >= 20.0
    ensures e[|e| - 1].now >= e[i].now
    decreases |e| - i
  {
    if i + 1 < |e| { AbsentLongEnough(e, i + 1); }
    if i == |e| - 3 { assert e[i + 2].now - e[i + 1].now >= REFRESH_INTERVAL; }
  }

  // ---- the sources of the tailer ------------------------------------------------------

  function LogName(shortId: string): string { "PR:" + shortId }
  function StreamName(shortId: string): string { "PS:" + shortId }

  predicate HasPath(path: Option<string>) { path.Some? && path.value != "" }

  /** The sources a runner has a path for, by name. */
  function SourcesOf(r: RunnerInfo): map<string, string> {
    (if HasPath(r.logPath) then map[LogName(r.shortId) := r.logPath.value] else map[]) +
    (if HasPath(r.streamPath) then map[StreamName(r.shortId) := r.streamPath.value] else map[])
  }

  function AddedNames(w: Watch, m: map<string, RunnerInfo>): set<string> {
    set id, n | id in m.Keys - w.known && n in SourcesOf(m[id]) :: n
  }

  function BothNames(shortId: string): set<string> {
    {LogName(shortId), StreamName(shortId)}
  }

  function RemovedNames(w: Watch, now: real, current: set<string>): set<string> {
    set id, n | id in Expired(w, now, current) && n in BothNames(w.stale[id].0) :: n
  }

  function SourcesAfter(w: Watch, names: set<string>, now: real, runners: seq<RunnerInfo>): set<string> {
    if !Due(w, now) then names
    else (names + AddedNames(w, RunnerMap(runners))) - RemovedNames(w, now, CurrentIds(runners))
  }

  /** What a refresh does to the tailer's table of sources: expired runners lose their names, the others keep
      their paths, and a name that is new has a path that some new runner was listed with. */
  ghost predicate TableStep(w: Watch, before: map<string, string>, after: map<string, string>, now: real,
                            runners: seq<RunnerInfo>) {
    var m := RunnerMap(runners);
    && after.Keys == SourcesAfter(w, before.Keys, now, runners)
    && PathsKept(before, after, m, m.Keys - w.known)
  }

  ghost predicate PathsKept(before: map<string, string>, after: map<string, string>, m: map<string, RunnerInfo>,
                            joining: set<string>)
    requires joining <= m.Keys
  {
    forall n :: n in after ==>
      if n in before then after[n] == before[n] else exists id :: id in joining && Gives(m[id], n, after[n])
  }

  predicate Gives(r: RunnerInfo, name: string, path: string) {
    name in SourcesOf(r) && SourcesOf(r)[name] == path
  }

  /** How each known runner looked when it was first seen. */
  function FirstSeen(w: Watch, seen: map<string, RunnerInfo>, now: real,
                     runners: seq<RunnerInfo>): map<string, RunnerInfo> {
    if !Due(w, now) then seen else
      var m := RunnerMap(runners);
      (map id | id in seen.Keys + (m.Keys - w.known) :: if id in m.Keys - w.known then m[id] else seen[id])
      - Expired(w, now, CurrentIds(runners))
  }

  /** The names under which runners are followed. */
  predicate IsRunnerName(name: string) { "PR:" <= name || "PS:" <= name }

  ghost predicate ShortsMatch(w: Watch, seen: map<string, RunnerInfo>) {
    && seen.Keys == w.known
    && forall id :: id in seen ==> id in w.shortOf && seen[id].shortId == w.shortOf[id]
  }

  predicate Holds(table: map<string, string>, name: string, path: string) {
    name in table && table[name] == path
  }

  /** The runner entries of the table are the first-seen paths of the known runners, and nothing else,
      but for entries the table started with; the other entries are those it started with. */
  ghost predicate Followed(start: map<string, string>, table: map<string, string>, seen: map<string, RunnerInfo>) {
    && (forall id, n :: id in seen && n in SourcesOf(seen[id]) ==> n in table)
    && (forall n :: n in table && IsRunnerName(n) ==> Holds(start, n, table[n]) || Wanted(seen, n, table[n]))
    && (forall n :: n in table && !IsRunnerName(n) ==> Holds(start, n, table[n]))
    && (forall n :: n in start && !IsRunnerName(n) ==> n in table)
  }

  ghost predicate Wanted(seen: map<string, RunnerInfo>, name: string, path: string) {
    exists id :: id in seen && Gives(seen[id], name, path)
  }

  ghost predicate DistinctValues(m: map<string, string>) {
    forall a, b :: a in m && b in m && a != b ==> m[a] != m[b]
  }

  /** Two known runners never share a short id, counting those that join now. */
  ghost predicate ShortIdsDistinct(w: Watch, runners: seq<RunnerInfo>) {
    DistinctValues(WithNew(w, RunnerMap(runners)))
  }

  lemma NamesClashIff(a: string, b: string)
    ensures LogName(a) != StreamName(b)
    ensures LogName(a) == LogName(b) <==> a == b
    ensures StreamName(a) == StreamName(b) <==> a == b
  {
    assert LogName(a)[1] == 'R' && StreamName(b)[1] == 'S';
    assert LogName(a)[3..] == a && LogName(b)[3..] == b;
    assert StreamName(a)[3..] == a && StreamName(b)[3..] == b;
  }

  /** Exactly when a refresh takes a runner's source away: when some runner whose grace ends at that
      refresh has the same short id. */
  lemma SourceLostIff(w: Watch, now: real, current: set<string>, shortId: string)
    requires Consistent(w)
    ensures var clash := exists id :: id in Expired(w, now, current) && w.shortOf[id] == shortId;
            && (LogName(shortId) in RemovedNames(w, now, current) <==> clash)
            && (StreamName(shortId) in RemovedNames(w, now, current) <==> clash)
  {
    forall id | id in Expired(w, now, current)
      ensures LogName(shortId) in BothNames(w.stale[id].0) <==> w.shortOf[id] == shortId
      ensures StreamName(shortId) in BothNames(w.stale[id].0) <==> w.shortOf[id] == shortId
    {
      NamesClashIff(shortId, w.stale[id].0);
      NamesClashIff(w.stale[id].0, shortId);
    }
  }

  /** Why the ids must be distinct: when the grace of one runner ends, another that is still known under
      the same short id is left without any source. */
  lemma SharedShortIdLosesSource(w: Watch, names: set<string>, now: real, runners: seq<RunnerInfo>, a: string,
                                 b: string)
    requires Consistent(w) && Due(w, now)
    requires a in Expired(w, now, CurrentIds(runners)) && b in w.known && b in CurrentIds(runners)
    requires w.shortOf[a] == w.shortOf[b]
    ensures b in Refresh(w, now, runners).known
    ensures BothNames(w.shortOf[b]) !! SourcesAfter(w, names, now, runners)
  {
    SourceLostIff(w, now, CurrentIds(runners), w.shortOf[b]);
  }

  lemma RunnerNames(r: RunnerInfo, n: string)
    requires n in SourcesOf(r) || n in BothNames(r.shortId)
    ensures IsRunnerName(n) && n in BothNames(r.shortId)
  {
    assert LogName(r.shortId)[..3] == "PR:" && StreamName(r.shortId)[..3] == "PS:";
  }

  lemma NameDecidesShort(a: string, b: string, n: string)
    requires n in BothNames(a) && n in BothNames(b)
    ensures a == b
  {
    NamesClashIff(a, b);
    NamesClashIff(b, a);
  }

  lemma RemovedIff(w: Watch, now: real, current: set<string>, n: string)
    requires Consistent(w)
    ensures n in RemovedNames(w, now, current) <==>
            exists id :: id in Expired(w, now, current) && n in BothNames(w.shortOf[id])
  {
    forall id | id in Expired(w, now, current) ensures w.stale[id].0 == w.shortOf[id] {}
  }

  /** A runner that stays keeps the names it has paths for. */
  lemma StayersKeepNames(w: Watch, start: map<string, string>, before: map<string, string>, now: real,
                         runners: seq<RunnerInfo>, seen: map<string, RunnerInfo>, id: string, n: string)
    requires Consistent(w) && Due(w, now) && ShortIdsDistinct(w, runners)
    requires ShortsMatch(w, seen) && Followed(start, before, seen)
    requires id in FirstSeen(w, seen, now, runners) && n in SourcesOf(FirstSeen(w, seen, now, runners)[id])
    ensures n in SourcesAfter(w, before.Keys, now, runners)
  {
    var m, current := RunnerMap(runners), CurrentIds(runners);
    var all, r := WithNew(w, m), FirstSeen(w, seen, now, runners)[id];
    RunnerNames(r, n);
    assert r.shortId == all[id];
    RemovedIff(w, now, current, n);
    if n in RemovedNames(w, now, current) {
      var gone :| gone in Expired(w, now, current) && n in BothNames(w.shortOf[gone]);
      assert all[gone] == w.shortOf[gone];
      NameDecidesShort(all[id], all[gone], n);
    }
  }

  /** An entry left after the refresh is wanted by a runner that stays, if it was wanted before or is new. */
  lemma EntriesStayWanted(w: Watch, start: map<string, string>, before: map<string, string>,
                          after: map<string, string>, now: real, runners: seq<RunnerInfo>,
                          seen: map<string, RunnerInfo>, n: string)
    requires Consistent(w) && Due(w, now) && TableStep(w, before, after, now, runners)
    requires ShortsMatch(w, seen) && Followed(start, before, seen)
    requires n in after && IsRunnerName(n)
    ensures Holds(start, n, after[n]) || Wanted(FirstSeen(w, seen, now, runners), n, after[n])
  {
    if n !in before {
      NewEntryIsWanted(w, before, after, now, runners, seen, n);
    } else if !Holds(start, n, before[n]) {
      OldEntryIsWanted(w, before, after, now, runners, seen, n);
    }
  }

  lemma NewEntryIsWanted(w: Watch, before: map<string, string>, after: map<string, string>, now: real,
                         runners: seq<RunnerInfo>, seen: map<string, RunnerInfo>, n: string)
    requires Due(w, now) && TableStep(w, before, after, now, runners) && n in after && n !in before
    ensures Wanted(FirstSeen(w, seen, now, runners), n, after[n])
  {
    hide Gives, SourcesAfter;
    var m, seen' := RunnerMap(runners), FirstSeen(w, seen, now, runners);
    var id :| id in m.Keys - w.known && Gives(m[id], n, after[n]);
    assert id in seen' && seen'[id] == m[id];
  }

  lemma OldEntryIsWanted(w: Watch, before: map<string, string>, after: map<string, string>, now: real,
                         runners: seq<RunnerInfo>, seen: map<string, RunnerInfo>, n: string)
    requires Consistent(w) && Due(w, now) && TableStep(w, before, after, now, runners) && ShortsMatch(w, seen)
    requires n in after && n in before && Wanted(seen, n, before[n])
    ensures Wanted(FirstSeen(w, seen, now, runners), n, after[n])
  {
    hide SourcesOf, BothNames;
    var id :| id in seen && Gives(seen[id], n, before[n]);
    RunnerNames(seen[id], n);
    RemovedIff(w, now, CurrentIds(runners), n);
    var seen' := FirstSeen(w, seen, now, runners);
    assert id in seen' && seen'[id] == seen[id];
  }

  lemma OtherEntriesStay(w: Watch, before: map<string, string>, after: map<string, string>, now: real,
                         runners: seq<RunnerInfo>, n: string)
    requires Consistent(w) && Due(w, now) && TableStep(w, before, after, now, runners) && !IsRunnerName(n)
    ensures n in before <==> n in after
    ensures n in before ==> after[n] == before[n]
  {
    var m, current := RunnerMap(runners), CurrentIds(runners);
    RemovedIff(w, now, current, n);
    if n in RemovedNames(w, now, current) {
      var id :| id in Expired(w, now, current) && n in BothNames(w.shortOf[id]);
      RunnerNames(RunnerInfo(id, w.shortOf[id], None, None), n);
    }
    if n in AddedNames(w, m) {
      var id :| id in m.Keys - w.known && n in SourcesOf(m[id]);
      RunnerNames(m[id], n);
    }
  }

  /** While short ids are distinct, a refresh leaves every known runner with the sources it had a path for
      when first seen; expiring one runner takes no other's source and leaves none of its own. */
  lemma RefreshKeepsFollowing(w: Watch, start: map<string, string>, before: map<string, string>,
                              after: map<string, string>, now: real, runners: seq<RunnerInfo>,
                              seen: map<string, RunnerInfo>)
    requires Consistent(w) && TableStep(w, before, after, now, runners)
    requires Due(w, now) ==> ShortIdsDistinct(w, runners)
    requires ShortsMatch(w, seen) && Followed(start, before, seen)
    ensures ShortsMatch(Refresh(w, now, runners), FirstSeen(w, seen, now, runners))
    ensures Followed(start, after, FirstSeen(w, seen, now, runners))
  {
    ShortsStayMatched(w, now, runners, seen);
    if Due(w, now) {
      hide FirstSeen, SourcesOf, SourcesAfter, TableStep, Consistent, ShortsMatch, ShortIdsDistinct, Followed;
      var seen' := FirstSeen(w, seen, now, runners);
      forall id, n | id in seen' && n in SourcesOf(seen'[id]) ensures n in after {
        StayersKeepNames(w, start, before, now, runners, seen, id, n);
        TableNames(w, before, after, now, runners);
      }
      forall n | n in after && IsRunnerName(n) ensures Holds(start, n, after[n]) || Wanted(seen', n, after[n]) {
        EntriesStayWanted(w, start, before, after, now, runners, seen, n);
      }
      forall n | !IsRunnerName(n)
        ensures n in before <==> n in after
        ensures n in before ==> after[n] == before[n]
      {
        OtherEntriesStay(w, before, after, now, runners, n);
      }
      StillFollowed(start, before, after, seen, seen');
    } else {
      hide Followed, Refresh;
      SkippedRefresh(w, before, after, now, runners, seen);
    }
  }

  lemma StillFollowed(start: map<string, string>, before: map<string, string>, after: map<string, string>,
                      seen: map<string, RunnerInfo>, seen': map<string, RunnerInfo>)
    requires Followed(start, before, seen)
    requires forall id, n :: id in seen' && n in SourcesOf(seen'[id]) ==> n in after
    requires forall n :: n in after && IsRunnerName(n) ==> Holds(start, n, after[n]) || Wanted(seen', n, after[n])
    requires forall n :: !IsRunnerName(n) ==> (n in before <==> n in after)
    requires forall n :: !IsRunnerName(n) && n in before ==> after[n] == before[n]
    ensures Followed(start, after, seen')
  {
    hide SourcesOf, IsRunnerName, Wanted;
  }

  lemma SkippedRefresh(w: Watch, before: map<string, string>, after: map<string, string>, now: real,
                       runners: seq<RunnerInfo>, seen: map<string, RunnerInfo>)
    requires TableStep(w, before, after, now, runners) && !Due(w, now)
    ensures after == before && FirstSeen(w, seen, now, runners) == seen
  {
  }

  lemma ShortsStayMatched(w: Watch, now: real, runners: seq<RunnerInfo>, seen: map<string, RunnerInfo>)
    requires Consistent(w) && ShortsMatch(w, seen)
    ensures ShortsMatch(Refresh(w, now, runners), FirstSeen(w, seen, now, runners))
  {
    hide StaleAfter;
  }

  lemma TableNames(w: Watch, before: map<string, string>, after: map<string, string>, now: real,
                   runners: seq<RunnerInfo>)
    requires TableStep(w, before, after, now, runners)
    ensures after.Keys == SourcesAfter(w, before.Keys, now, runners)
  {
  }

  /** What a joining runner finds under its names, short ids distinct or not: the name is in the table unless
      a runner with the same short id expires at this refresh; a name that was taken keeps its old path; a
      new name has the path of some runner that joins now. */
  lemma JoinersName(w: Watch, before: map<string, string>, after: map<string, string>, now: real,
                    runners: seq<RunnerInfo>, id: string, n: string)
    requires Consistent(w) && Due(w, now) && TableStep(w, before, after, now, runners)
    requires id in CurrentIds(runners) - w.known && n in SourcesOf(RunnerMap(runners)[id])
    ensures n in after <==> !ShortExpires(w, now, CurrentIds(runners), RunnerMap(runners)[id].shortId)
    ensures n in after && n in before ==> after[n] == before[n]
    ensures n in after && n !in before ==>
              exists id' :: Joins(w, runners, id') && Gives(RunnerMap(runners)[id'], n, after[n])
  {
    var r, current := RunnerMap(runners)[id], CurrentIds(runners);
    RunnerNames(r, n);
    RemovedIff(w, now, current, n);
    assert n in AddedNames(w, RunnerMap(runners));
    forall gone | gone in Expired(w, now, current)
      ensures n in BothNames(w.shortOf[gone]) <==> w.shortOf[gone] == r.shortId
    {
      if n in BothNames(w.shortOf[gone]) { NameDecidesShort(w.shortOf[gone], r.shortId, n); }
    }
  }

  /** A runner whose grace ends at this refresh has the short id. */
  ghost predicate ShortExpires(w: Watch, now: real, current: set<string>, shortId: string)
    requires Consistent(w)
  {
    exists id :: id in Expired(w, now, current) && w.shortOf[id] == shortId
  }

  predicate Joins(w: Watch, runners: seq<RunnerInfo>, id: string) {
    id in RunnerMap(runners) && id !in w.known
  }

  /** Exactly when a joining runner is followed on its own path, provided the runners that join with it do not
      dispute the name: when no runner with its short id expires now, and none holds the name with
      another path. */
  lemma JoinsOnItsPathIff(w: Watch, before: map<string, string>, after: map<string, string>, now: real,
                          runners: seq<RunnerInfo>, id: string, n: string)
    requires Consistent(w) && Due(w, now) && TableStep(w, before, after, now, runners)
    requires id in CurrentIds(runners) - w.known && n in SourcesOf(RunnerMap(runners)[id])
    ensures var m := RunnerMap(runners); var path := SourcesOf(m[id])[n];
            (forall id', p :: Joins(w, runners, id') && Gives(m[id'], n, p) ==> p == path) ==>
              (Holds(after, n, path) <==>
               !ShortExpires(w, now, CurrentIds(runners), m[id].shortId) && (n in before ==> before[n] == path))
  {
    hide Gives, TableStep, SourcesOf, Expired;
    JoinersName(w, before, after, now, runners, id, n);
  }

  // ---- runs on which two runners share a short id ------------------------------------------

  /** The runner ids a listing contains. */
  ghost predicate Lists(runners: seq<RunnerInfo>, id: string) {
    exists r :: r in runners && r.runnerId == id
  }

  /** The runner's grace ends at this refresh: it is known, not listed, and was found missing thirty seconds ago
      or earlier. */
  ghost predicate GraceEnds(w: Watch, now: real, runners: seq<RunnerInfo>, id: string) {
    id in w.known && !Lists(runners, id) && id in w.stale && now - w.stale[id].1 >= 30.0
  }

  /** One effective refresh, seen from one runner: listed runners are known and out of grace, a missing one keeps
      the grace it has or starts it now, until it ends; a runner keeps the short id it joined with. */
  lemma RefreshOf(w: Watch, now: real, runners: seq<RunnerInfo>, id: string)
    requires Consistent(w) && now - w.lastRefresh >= 10.0
    ensures var w' := Refresh(w, now, runners);
            && Consistent(w') && w'.lastRefresh == now
            && (id in w'.known <==> (id in w.known || Lists(runners, id)) && !GraceEnds(w, now, runners, id))
            && (id in w'.stale <==> id in w'.known && !Lists(runners, id))
            && (id in w'.stale ==>
                  w'.stale[id] == if id in w.stale then w.stale[id] else (w.shortOf[id], now))
            && (id in w'.known ==>
                  w'.shortOf[id] == if id in w.known then w.shortOf[id] else RunnerMap(runners)[id].shortId)
    ensures id in CurrentIds(runners) <==> Lists(runners, id)
    ensures id in Expired(w, now, CurrentIds(runners)) <==> GraceEnds(w, now, runners, id)
  {
    RefreshKeepsBooks(w, now, runners);
  }

  /** Where a runner id is listed twice, the last entry counts. */
  lemma {:induction false} LastListingCounts(runners: seq<RunnerInfo>, i: nat)
    requires i < |runners| && forall j :: i < j < |runners| ==> runners[j].runnerId != runners[i].runnerId
    ensures runners[i].runnerId in RunnerMap(runners) && RunnerMap(runners)[runners[i].runnerId] == runners[i]
    decreases |runners|
  {
    var n := |runners| - 1;
    if i < n { LastListingCounts(runners[..n], i); }
  }

  /** What a runner is followed on: its log file under `PR:` and its short id, its stream under `PS:`, when given. */
  lemma GivesMeaning(r: RunnerInfo, name: string, path: string)
    ensures Gives(r, name, path) <==>
            && path != ""
            && ((name == "PR:" + r.shortId && r.logPath == Some(path)) ||
                (name == "PS:" + r.shortId && r.streamPath == Some(path)))
  {
    NamesClashIff(r.shortId, r.shortId);
  }

  lemma RunnerMapOf(a: RunnerInfo, b: RunnerInfo)
    ensures CurrentIds([a]) == {a.runnerId} && RunnerMap([a])[a.runnerId] == a
    ensures CurrentIds([a, b]) == {a.runnerId, b.runnerId} && RunnerMap([a, b])[b.runnerId] == b
    ensures a.runnerId != b.runnerId ==> RunnerMap([a, b])[a.runnerId] == a
  {
    assert [a][..0] == [] && [a, b][..1] == [a];
    assert RunnerMap([a]) == RunnerMap([])[a.runnerId := a];
    assert RunnerMap([a, b]) == RunnerMap([a])[b.runnerId := b];
  }

  lemma RunSnoc(ticks: seq<Tick>, t: Tick)
    ensures Run(ticks + [t]) == Refresh(Run(ticks), t.now, t.runners)
  {
    assert (ticks + [t])[..|ticks|] == ticks;
  }

  lemma AfterFirst(now: real, runners: seq<RunnerInfo>)
    requires now >= REFRESH_INTERVAL
    ensures var w := Run([Tick(now, runners)]);
            && Consistent(w) && w.lastRefresh == now && w.known == CurrentIds(runners)
            && (forall id :: id in w.known ==> id !in w.stale)
            && (forall id :: id in w.known ==> w.shortOf[id] == RunnerMap(runners)[id].shortId)
  {
    RunSnoc([], Tick(now, runners));
    assert [] + [Tick(now, runners)] == [Tick(now, runners)] && Run([]) == INITIAL;
    hide Refresh, Expired;
    assert Consistent(INITIAL) && Due(INITIAL, now);
    forall id
      ensures var w := Refresh(INITIAL, now, runners);
              && (id in w.known <==> id in CurrentIds(runners))
              && (id in w.known ==> id !in w.stale && w.shortOf[id] == RunnerMap(runners)[id].shortId)
    {
      RefreshOf(INITIAL, now, runners, id);
    }
    RefreshOf(INITIAL, now, runners, "");
  }

  /** The second of two runners with one short id is never read: from an empty table, a refresh that lists the
      first and one that lists both leave both known and the name on the first one's path. */
  lemma SharedShortIdShadows(a: RunnerInfo, b: RunnerInfo, tables: seq<map<string, string>>)
    requires a.runnerId != b.runnerId && a.shortId == b.shortId
    requires HasPath(a.logPath) && HasPath(b.logPath) && a.logPath != b.logPath
    requires var ticks := [Tick(10.0, [a]), Tick(20.0, [a, b])]; TablesOf(ticks, tables) && tables[0] == map[]
    ensures var ticks := [Tick(10.0, [a]), Tick(20.0, [a, b])];
            && a.runnerId in Run(ticks).known && b.runnerId in Run(ticks).known
            && Holds(tables[2], LogName(b.shortId), a.logPath.value)
  {
    var first, second := Tick(10.0, [a]), Tick(20.0, [a, b]);
    var ticks, n := [first, second], LogName(b.shortId);
    assert ticks[..0] == [] && ticks[..1] == [first] && |tables| == 3;
    StepOfTables(ticks, tables, 0);
    StepOfTables(ticks, tables, 1);
    hide TableStep, SourcesOf, Run, TablesOf, Expired;
    FirstOfName(a, tables[0], tables[1]);
    BothKnown(a, b);
    RunnerMapOf(a, b);
    HasLogName(b);
    JoinersName(Run([first]), tables[1], tables[2], 20.0, [a, b], b.runnerId, n);
  }

  lemma HasLogName(r: RunnerInfo)
    requires HasPath(r.logPath)
    ensures LogName(r.shortId) in SourcesOf(r) && SourcesOf(r)[LogName(r.shortId)] == r.logPath.value
  {
    NamesClashIff(r.shortId, r.shortId);
  }

  lemma FirstOfName(a: RunnerInfo, before: map<string, string>, after: map<string, string>)
    requires HasPath(a.logPath) && before == map[] && TableStep(Run([]), before, after, 10.0, [a])
    ensures Holds(after, LogName(a.shortId), a.logPath.value)
  {
    assert Run([]) == INITIAL && Consistent(INITIAL) && Due(INITIAL, 10.0);
    hide TableStep, SourcesOf, Run;
    RunnerMapOf(a, a);
    HasLogName(a);
    JoinsOnItsPathIff(INITIAL, before, after, 10.0, [a], a.runnerId, LogName(a.shortId));
  }

  /** After a refresh that lists one runner and one that lists two, both are known and nobody has expired. */
  lemma BothKnown(a: RunnerInfo, b: RunnerInfo)
    requires a.runnerId != b.runnerId
    ensures var w, w' := Run([Tick(10.0, [a])]), Run([Tick(10.0, [a]), Tick(20.0, [a, b])]);
            && Consistent(w) && Due(w, 20.0) && w.known == {a.runnerId}
            && Expired(w, 20.0, CurrentIds([a, b])) == {}
            && a.runnerId in w'.known && b.runnerId in w'.known
  {
    var first, second := Tick(10.0, [a]), Tick(20.0, [a, b]);
    assert [first] + [second] == [first, second];
    hide Refresh, Run, RunnerMap;
    RunnerMapOf(a, b);
    AfterFirst(10.0, [a]);
    RunSnoc([first], second);
    NoneExpired(Run([first]), 20.0, [a, b]);
    hide Expired;
    RefreshOf(Run([first]), 20.0, [a, b], a.runnerId);
    RefreshOf(Run([first]), 20.0, [a, b], b.runnerId);
  }

  lemma StepOfTables(ticks: seq<Tick>, tables: seq<map<string, string>>, i: nat)
    requires TablesOf(ticks, tables) && i < |ticks|
    ensures TableStep(Run(ticks[..i]), tables[i], tables[i + 1], ticks[i].now, ticks[i].runners)
  {
  }

  lemma InGrace(a: RunnerInfo, b: RunnerInfo)
    requires a.runnerId != b.runnerId
    ensures var w := Run([Tick(10.0, [a, b]), Tick(20.0, [b])]);
            && Consistent(w) && w.lastRefresh == 20.0 && a.runnerId in w.known && b.runnerId in w.known
            && a.runnerId in w.stale && w.stale[a.runnerId].1 == 20.0
            && w.shortOf[a.runnerId] == a.shortId && w.shortOf[b.runnerId] == b.shortId
  {
    var t1, t2 := Tick(10.0, [a, b]), Tick(20.0, [b]);
    assert [t1] + [t2] == [t1, t2];
    hide Refresh, Expired, Run, RunnerMap;
    RunnerMapOf(a, b);
    RunnerMapOf(b, a);
    AfterFirst(10.0, [a, b]);
    RunSnoc([t1], t2);
    RefreshOf(Run([t1]), 20.0, [b], a.runnerId);
    RefreshOf(Run([t1]), 20.0, [b], b.runnerId);
  }

  /** And the survivor can end up unread: two runners with one short id start, the first stops being listed,
      and when its grace ends the second is still known and listed but has no source left. */
  lemma SharedShortIdStarves(a: RunnerInfo, b: RunnerInfo, tables: seq<map<string, string>>)
    requires a.runnerId != b.runnerId && a.shortId == b.shortId
    requires var ticks := [Tick(10.0, [a, b]), Tick(20.0, [b]), Tick(50.0, [b])]; TablesOf(ticks, tables)
    ensures var ticks := [Tick(10.0, [a, b]), Tick(20.0, [b]), Tick(50.0, [b])];
            && a.runnerId !in Run(ticks).known && b.runnerId in Run(ticks).known
            && BothNames(b.shortId) !! tables[3].Keys
  {
    var t1, t2, t3 := Tick(10.0, [a, b]), Tick(20.0, [b]), Tick(50.0, [b]);
    var ticks := [t1, t2, t3];
    assert ticks[..2] == [t1, t2] && [t1, t2] + [t3] == ticks && |tables| == 4;
    hide Refresh, Expired, TableStep, SourcesAfter, Run, TablesOf, RunnerMap, BothNames;
    StepOfTables(ticks, tables, 2);
    RunnerMapOf(b, a);
    InGrace(a, b);
    RunSnoc([t1, t2], t3);
    var w := Run([t1, t2]);
    RefreshOf(w, 50.0, [b], a.runnerId);
    RefreshOf(w, 50.0, [b], b.runnerId);
    SharedShortIdLosesSource(w, tables[2].Keys, 50.0, [b], a.runnerId, b.runnerId);
    TableNames(w, tables[2], tables[3], 50.0, [b]);
  }

  lemma NoneExpired(w: Watch, now: real, runners: seq<RunnerInfo>)
    requires forall id :: id in w.known ==> id !in w.stale
    ensures Expired(w, now, CurrentIds(runners)) == {}
  {
  }

  ghost predicate AlwaysDistinct(ticks: seq<Tick>) {
    forall i :: 0 <= i < |ticks| && Due(Run(ticks[..i]), ticks[i].now) ==>
      ShortIdsDistinct(Run(ticks[..i]), ticks[i].runners)
  }

  /** The tables a tailer shows, the first before the first tick and one after each. */
  ghost predicate TablesOf(ticks: seq<Tick>, tables: seq<map<string, string>>) {
    && |tables| == |ticks| + 1
    && forall i :: 0 <= i < |ticks| ==>
         TableStep(Run(ticks[..i]), tables[i], tables[i + 1], ticks[i].now, ticks[i].runners)
  }

  function SeenAfter(ticks: seq<Tick>): map<string, RunnerInfo> {
    if ticks == [] then map[] else
      var front, t := ticks[..|ticks| - 1], ticks[|ticks| - 1];
      FirstSeen(Run(front), SeenAfter(front), t.now, t.runners)
  }

  lemma FrontOfRun(ticks: seq<Tick>, tables: seq<map<string, string>>)
    requires ticks != [] && AlwaysDistinct(ticks) && TablesOf(ticks, tables)
    ensures AlwaysDistinct(ticks[..|ticks| - 1]) && TablesOf(ticks[..|ticks| - 1], tables[..|ticks|])
  {
    var front := ticks[..|ticks| - 1];
    assert forall i :: 0 <= i < |front| ==> front[i] == ticks[i] && front[..i] == ticks[..i];
  }

  /** Over any run in which known runners have distinct short ids, and whatever the tailer held at the
      start: every known runner has an entry for every path it was first seen with; an entry under a
      runner's name holds such a path of a known runner, or was there from the start; and no other
      entry ever changes. */
  lemma {:induction false} FollowedOverRun(ticks: seq<Tick>, tables: seq<map<string, string>>)
    requires AlwaysDistinct(ticks) && TablesOf(ticks, tables)
    ensures ShortsMatch(Run(ticks), SeenAfter(ticks))
    ensures Followed(tables[0], tables[|ticks|], SeenAfter(ticks))
  {
    if ticks != [] {
      hide Followed, TableStep, ShortsMatch, ShortIdsDistinct;
      var n := |ticks| - 1;
      FrontOfRun(ticks, tables);
      FollowedOverRun(ticks[..n], tables[..n + 1]);
      GraceIsKnownMinusCurrent(ticks[..n]);
      RefreshKeepsFollowing(Run(ticks[..n]), tables[0], tables[n], tables[n + 1], ticks[n].now, ticks[n].runners,
                            SeenAfter(ticks[..n]));
    }
  }

  lemma RefreshKeepsDistinct(w: Watch, now: real, runners: seq<RunnerInfo>)
    requires DistinctValues(w.shortOf) && (Due(w, now) ==> ShortIdsDistinct(w, runners))
    ensures DistinctValues(Refresh(w, now, runners).shortOf)
  {
    hide WithNew, Expired, StaleAfter;
  }

  lemma {:induction false} KnownShortsDistinct(ticks: seq<Tick>)
    requires AlwaysDistinct(ticks)
    ensures DistinctValues(Run(ticks).shortOf)
  {
    if ticks != [] {
      hide DistinctValues, ShortIdsDistinct, Refresh;
      var front, t := ticks[..|ticks| - 1], ticks[|ticks| - 1];
      assert forall i :: 0 <= i < |front| ==> front[i] == ticks[i] && front[..i] == ticks[..i];
      KnownShortsDistinct(front);
      assert Due(Run(front), t.now) ==> ShortIdsDistinct(Run(front), t.runners);
      RefreshKeepsDistinct(Run(front), t.now, t.runners);
    } else {
      assert Run(ticks) == INITIAL;
    }
  }

  /** A tailer that starts without runner entries holds, under the runners' names, exactly the first-seen
      paths of the known runners: none is missing, none is another's, and a dropped runner leaves
      nothing behind. */
  lemma EveryKnownRunnerIsFollowed(ticks: seq<Tick>, tables: seq<map<string, string>>)
    requires AlwaysDistinct(ticks) && TablesOf(ticks, tables)
    requires forall n :: n in tables[0] ==> !IsRunnerName(n)
    ensures forall n, path :: IsRunnerName(n) ==>
              (Holds(tables[|ticks|], n, path) <==> Wanted(SeenAfter(ticks), n, path))
    ensures forall n, path :: !IsRunnerName(n) ==>
              (Holds(tables[|ticks|], n, path) <==> Holds(tables[0], n, path))
  {
    var table, seen := tables[|ticks|], SeenAfter(ticks);
    FollowedOverRun(ticks, tables);
    KnownShortsDistinct(ticks);
    forall n, path | IsRunnerName(n) && Wanted(seen, n, path) ensures Holds(table, n, path) {
      var id :| id in seen && Gives(seen[id], n, path);
      assert n in table && Wanted(seen, n, table[n]);
      var id' :| id' in seen && Gives(seen[id'], n, table[n]);
      RunnerNames(seen[id], n);
      RunnerNames(seen[id'], n);
      NameDecidesShort(seen[id].shortId, seen[id'].shortId, n);
    }
  }
}
