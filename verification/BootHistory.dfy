/** The reconstruction as the program does it: a list of mutable session records and a map of
    open sessions that alias the same records. */
module BootHistory {
  import opened Options
  import opened StableSort
  import opened BootSessions
  import opened Numbers

  class SessionRecord {
    const pid: Pid
    const startedAt: int
    var endedAt: Option<int>
    var endCause: Option<string>
    var endDetails: Option<string>
    var exitCode: Option<int>
    var uptime: int
    var restartGap: Option<int>
    var lastRequest: Option<string>
    var restarted: bool
    var needsAttention: bool
    var current: bool
    var status: Status
    var inferredEnd: bool

    function View(): Session
      reads this
    {
      Session(pid, startedAt, endedAt, endCause, endDetails, exitCode, uptime, restartGap, lastRequest,
              restarted, needsAttention, current, status, inferredEnd)
    }

    constructor (e: Entry)
      ensures View() == Opening(e)
    {
      pid, startedAt, lastRequest := e.pid, e.at, e.lastRequest;
      endedAt, endCause, endDetails, exitCode, uptime, restartGap := None, None, None, None, 0, None;
      restarted, needsAttention, current, status, inferredEnd := false, false, true, Running, false;
    }

    method Supersede(at: int)
      modifies this
      ensures View() == Superseded(old(View()), at)
    {
      endedAt, endCause, endDetails, exitCode := Some(at), Some("system_reboot"), Some(REBOOT_NOTE), None;
      inferredEnd, current := true, false;
      uptime := Max(0, at - startedAt);
    }

    method Die(e: Entry)
      modifies this
      ensures View() == Died(old(View()), e)
    {
      endedAt, endCause, endDetails, exitCode := Some(e.at), TextOr(e.cause, Some("unknown")), e.details, e.exitCode;
      lastRequest := TextOr(e.lastRequest, lastRequest);
      inferredEnd, current := false, false;
      uptime := if e.uptime.Some? then e.uptime.value else Max(0, e.at - startedAt);
    }

    method Finish(next: SessionRecord?, now: int)
      modifies this
      ensures View() == Finished(old(View()), if next == null then None else Some(next.startedAt), now)
    {
      if endedAt.None? {
        status, current, restarted, needsAttention, restartGap := Running, true, false, false, None;
        uptime := Max(0, now - startedAt);
      } else if next != null {
        status, restarted, needsAttention := Restarted, true, false;
        restartGap := Some(Max(0, next.startedAt - endedAt.value));
      } else {
        status, restarted, needsAttention, restartGap := Stopped, false, true, None;
      }
    }
  }

  /** The books show the history `h`: record i is session i, records are never shared, and the map of
      open sessions holds exactly the last record while that is open, and nothing otherwise. */
  ghost predicate Shows(sessions: seq<SessionRecord>, open: map<Pid, SessionRecord>, h: seq<Session>)
    reads sessions
  {
    && Distinct(sessions)
    && |sessions| == |h|
    && (forall i :: 0 <= i < |h| ==> sessions[i].View() == h[i])
    && (forall i :: 0 <= i < |h| - 1 ==> h[i].endedAt.Some?)
    && open == if HasOpenLast(h) then map[h[|h| - 1].pid := sessions[|h| - 1]] else map[]
  }

  /** `next((c for c in reversed(sessions) if c["ended_at"] is None), None)`, optionally for one pid. */
  method LatestOpen(sessions: seq<SessionRecord>, pid: Option<Pid>) returns (found: Option<nat>)
    ensures found.Some? ==> found.value < |sessions| && sessions[found.value].endedAt.None? &&
                            (pid.Some? ==> sessions[found.value].pid == pid.value)
    ensures forall j :: (if found.Some? then found.value + 1 else 0) <= j < |sessions| ==>
              !(sessions[j].endedAt.None? && (pid.Some? ==> sessions[j].pid == pid.value))
  {
    var i := |sessions|;
    while i > 0
      invariant 0 <= i <= |sessions|
      invariant forall j :: i <= j < |sessions| ==>
                  !(sessions[j].endedAt.None? && (pid.Some? ==> sessions[j].pid == pid.value))
    {
      i := i - 1;
      if sessions[i].endedAt.None? && (pid.None? || sessions[i].pid == pid.value) { return Some(i); }
    }
    return None;
  }

  /** Ends the session that is still open, if there is one, because another start was logged. */
  method EndOpenSession(sessions: seq<SessionRecord>, open: map<Pid, SessionRecord>, at: int, ghost h: seq<Session>)
    returns (open': map<Pid, SessionRecord>)
    requires Shows(sessions, open, h)
    modifies sessions
    ensures open' == map[]
    ensures Shows(sessions, open', if HasOpenLast(h) then ReplaceLast(h, Superseded(h[|h| - 1], at)) else h)
  {
    assert forall s: Session :: Superseded(s, at).pid == s.pid && Superseded(s, at).endedAt.Some?;
    hide Superseded;
    open' := open;
    var prev := LatestOpen(sessions, None);
    if prev.Some? {
      assert prev.value == |h| - 1 && HasOpenLast(h);
      sessions[prev.value].Supersede(at);
      open' := open' - {sessions[prev.value].pid};
    }
  }

  /** Appends the record of a started process to a list that has no open session. */
  method OpenSession(sessions: seq<SessionRecord>, e: Entry, ghost h: seq<Session>)
    returns (sessions': seq<SessionRecord>, session: SessionRecord)
    requires Shows(sessions, map[], h) && !HasOpenLast(h)
    ensures fresh(session) && sessions' == sessions + [session]
    ensures Shows(sessions', map[e.pid := session], h + [Opening(e)])
  {
    assert Opening(e).pid == e.pid && Opening(e).endedAt.None?;
    hide Opening;
    session := new SessionRecord(e);
    sessions' := sessions + [session];
  }

  method OnStart(sessions: seq<SessionRecord>, open: map<Pid, SessionRecord>, e: Entry, ghost h: seq<Session>)
    returns (sessions': seq<SessionRecord>, open': map<Pid, SessionRecord>)
    requires e.kind.Start? && Shows(sessions, open, h)
    modifies sessions
    ensures Shows(sessions', open', Step(h, e))
    ensures forall i :: 0 <= i < |sessions'| ==> sessions'[i] in sessions || fresh(sessions'[i])
  {
    ghost var ended := if HasOpenLast(h) then ReplaceLast(h, Superseded(h[|h| - 1], e.at)) else h;
    assert Step(h, e) == ended + [Opening(e)] && !HasOpenLast(ended);
    hide Shows, Step, HasOpenLast, Superseded, Opening;
    open' := EndOpenSession(sessions, open, e.at, h);
    var session: SessionRecord;
    sessions', session := OpenSession(sessions, e, ended);
    open' := open'[e.pid := session];
    assert open' == map[e.pid := session];
  }

  method OnDeath(sessions: seq<SessionRecord>, open: map<Pid, SessionRecord>, e: Entry, ghost h: seq<Session>)
    returns (open': map<Pid, SessionRecord>)
    requires e.kind.Death? && Shows(sessions, open, h)
    modifies sessions
    ensures Shows(sessions, open', Step(h, e))
  {
    open' := open;
    var session: SessionRecord? := null;
    if e.pid in open { session := open[e.pid]; }
    if session == null || session.endedAt.Some? {
      var found := LatestOpen(sessions, Some(e.pid));
      if found.Some? {
        assert false; // the map already holds every open session
      }
    }
    if session == null { return; }
    assert session == sessions[|h| - 1];
    session.Die(e);
    open' := open' - {e.pid};
  }

  method Reconstruct(entries: seq<Entry>) returns (sessions: seq<SessionRecord>)
    ensures Distinct(sessions) && (forall i :: 0 <= i < |sessions| ==> fresh(sessions[i]))
    ensures |sessions| == |Fold(entries)| && forall i :: 0 <= i < |sessions| ==> sessions[i].View() == Fold(entries)[i]
  {
    var open: map<Pid, SessionRecord>;
    sessions, open := [], map[];
    for n := 0 to |entries|
      invariant Shows(sessions, open, Fold(entries[..n]))
      invariant forall i :: 0 <= i < |sessions| ==> fresh(sessions[i])
    {
      assert entries[..n + 1][..n] == entries[..n];
      var e := entries[n];
      if e.kind.Start? {
        sessions, open := OnStart(sessions, open, e, Fold(entries[..n]));
        continue;
      }
      if !e.kind.Death? { continue; }
      open := OnDeath(sessions, open, e, Fold(entries[..n]));
    }
    assert entries[..|entries|] == entries;
  }

  /** The second pass: status, restart gap and attention flag, written in place. */
  method FinishInPlace(sessions: seq<SessionRecord>, now: int)
    requires Distinct(sessions)
    modifies sessions
    ensures forall i :: 0 <= i < |sessions| ==>
              sessions[i].View() == FinishOne(old(Views(sessions)), i, now)
  {
    hide Finished;
    ghost var h := Views(sessions);
    for i := 0 to |sessions|
      invariant forall j :: 0 <= j < i ==> sessions[j].View() == FinishOne(h, j, now)
      invariant forall j :: i <= j < |sessions| ==> sessions[j].View() == h[j]
    {
      var next: SessionRecord? := if i + 1 < |sessions| then sessions[i + 1] else null;
      assert next != null ==> next.startedAt == h[i + 1].startedAt;
      assert forall j :: 0 <= j < |sessions| && j != i ==> sessions[j] != sessions[i];
      sessions[i].Finish(next, now);
    }
  }

  function Views(sessions: seq<SessionRecord>): (h: seq<Session>)
    reads sessions
    ensures |h| == |sessions| && forall i :: 0 <= i < |h| ==> h[i] == sessions[i].View()
  {
    if sessions == [] then [] else [sessions[0].View()] + Views(sessions[1..])
  }

  /** Python's `items[:limit]`, negative limits counting from the end. */
  function UpTo<T>(items: seq<T>, limit: int): seq<T> {
    if limit >= |items| then items
    else if limit >= 0 then items[..limit]
    else if -limit <= |items| then items[..|items| + limit]
    else []
  }

  predicate LaterStart(a: Session, b: Session) { a.startedAt >= b.startedAt }

  /** `sort` by (timestamp, file position) is the stable sort by timestamp. */
  method BuildBootHistory(log: seq<Entry>, limit: int, now: int) returns (history: seq<Session>)
    ensures history == UpTo(Sort(Finish(Fold(Timeline(log)), now), LaterStart), limit)
    ensures forall i, j :: 0 <= i < j < |history| ==> history[i].startedAt >= history[j].startedAt
  {
    ghost var cut := HistoryOfEveryLog(log, limit, now);
    if log == [] { return []; }
    var entries := Timeline(log);
    var sessions := Reconstruct(entries);
    assert Views(sessions) == Fold(entries);
    FinishInPlace(sessions, now);
    assert Views(sessions) == Finish(Fold(entries), now);
    history := UpTo(Sort(Views(sessions), LaterStart), limit);
  }

  /** No start and no death of the process after position `i`. */
  ghost predicate NoLater(log: seq<Entry>, pid: Pid, i: nat) {
    forall j :: i < j < |log| && log[j].pid == pid ==> !log[j].kind.Start? && !log[j].kind.Death?
  }

  lemma LastMarkMeans(log: seq<Entry>, pid: Pid)
    ensures !CleanShutdown(log, pid) <==>
            exists i :: 0 <= i < |log| && log[i].pid == pid && log[i].kind.Start? && NoLater(log, pid, i)
  {
    var m := LastMark(log, pid);
    if m.Some? {
      forall j | m.value < j < |log| && log[j].pid == pid ensures !log[j].kind.Start? && !log[j].kind.Death? {
        assert !Marks(log[j], pid);
      }
    }
    if i :| 0 <= i < |log| && log[i].pid == pid && log[i].kind.Start? && NoLater(log, pid, i) {
      assert Marks(log[i], pid) && m.Some? && i <= m.value;
    }
  }

  /** Scans the file backwards for the last start or death of the process. */
  method HadCleanShutdown(log: seq<Entry>, pid: Pid) returns (clean: bool)
    ensures clean == CleanShutdown(log, pid)
    ensures !clean <==> exists i :: 0 <= i < |log| && log[i].pid == pid && log[i].kind.Start? && NoLater(log, pid, i)
  {
    LastMarkMeans(log, pid);
    hide NoLater;
    var foundStart := false;
    var i := |log|;
    while i > 0
      invariant 0 <= i <= |log| && !foundStart
      invariant LastMark(log, pid) == LastMark(log[..i], pid)
    {
      i := i - 1;
      assert log[..i + 1][..i] == log[..i];
      var e := log[i];
      if e.pid != pid { continue; }
      if e.kind.Death? { return true; }
      if e.kind.Start? {
        foundStart := true;
        break;
      }
    }
    return !foundStart;
  }

  predicate IsStart(e: Entry) { e.kind.Start? }

  lemma {:induction false} StartsAreFiltered(log: seq<Entry>)
    ensures CountStarts(log) == |Filter(log, IsStart)|
  {
    if log != [] {
      var front, e := log[..|log| - 1], log[|log| - 1];
      StartsAreFiltered(front);
      assert log == front + [e] && [e][1..] == [];
      FilterAppend(front, [e], IsStart);
    }
  }

  lemma TimelineKeepsStarts(log: seq<Entry>)
    ensures CountStarts(Timeline(log)) == CountStarts(log)
  {
    StartsAreFiltered(log);
    StartsAreFiltered(Timeline(log));
    SortFilter(log, EarlierEntry, IsStart);
    SortPermutes(Filter(log, IsStart), EarlierEntry);
  }

  /** Newest start first, and whatever is cut off started no later than what is kept. */
  ghost predicate NewestKept(history: seq<Session>, cut: seq<Session>) {
    && (forall i, j :: 0 <= i < j < |history| ==> history[i].startedAt >= history[j].startedAt)
    && (forall s, c :: s in history && c in cut ==> s.startedAt >= c.startedAt)
  }

  /** How many sessions a limit keeps of `n`; a negative limit counts from the end. */
  function Kept(n: nat, limit: int): nat {
    if limit < 0 then Max(0, n + limit) else Min(n, limit)
  }

  lemma UpToKeeps(all: seq<Session>, limit: int)
    ensures UpTo(all, limit) == all[..Kept(|all|, limit)]
  {
  }

  lemma CutOfOrdered(all: seq<Session>, n: nat)
    requires n <= |all| && Ordered(all, LaterStart)
    ensures NewestKept(all[..n], all[n..])
  {
    forall s, c | s in all[..n] && c in all[n..] ensures s.startedAt >= c.startedAt {
      var i :| 0 <= i < n && all[..n][i] == s;
      var j :| 0 <= j < |all[n..]| && all[n..][j] == c;
      assert LaterStart(all[i], all[n + j]);
    }
    forall i, j | 0 <= i < j < n ensures all[i].startedAt >= all[j].startedAt { assert LaterStart(all[i], all[j]); }
  }

  lemma LimitKeepsNewest(sessions: seq<Session>, limit: int) returns (cut: seq<Session>)
    ensures var history := UpTo(Sort(sessions, LaterStart), limit);
            && |history| == Kept(|sessions|, limit) && NewestKept(history, cut)
            && multiset(history) + multiset(cut) == multiset(sessions)
  {
    var all, n := Sort(sessions, LaterStart), Kept(|sessions|, limit);
    SortPermutes(sessions, LaterStart);
    SortOrdered(sessions, LaterStart);
    hide *;
    UpToKeeps(all, limit);
    assert 0 <= n <= |all| by { KeptFits(|all|, limit); }
    cut := all[n..];
    assert all == all[..n] + all[n..];
    CutOfOrdered(all, n);
  }

  lemma KeptFits(n: nat, limit: int)
    ensures Kept(n, limit) <= n
  {
  }

  /** The boot history of every log, in time order or not: one session for every start in the log, newest start
      first, a limit keeping the newest; the sessions it is made from follow each other without overlap. */
  lemma HistoryOfEveryLog(log: seq<Entry>, limit: int, now: int) returns (cut: seq<Session>)
    ensures var h := Fold(Timeline(log)); var history := UpTo(Sort(Finish(h, now), LaterStart), limit);
            && |h| == CountStarts(log) && |history| == Kept(CountStarts(log), limit)
            && multiset(history) + multiset(cut) == multiset(Finish(h, now)) && NewestKept(history, cut)
    ensures var h := Fold(Timeline(log));
            forall i :: 0 <= i < |h| ==>
              && (h[i].endedAt.Some? ==> h[i].startedAt <= h[i].endedAt.value)
              && (i + 1 < |h| ==> h[i].endedAt.Some? && h[i].endedAt.value <= h[i + 1].startedAt)
  {
    var h := Fold(Timeline(log));
    TimelineInOrder(log);
    TimelineKeepsStarts(log);
    OnlyLastIsOpen(Timeline(log));
    assert |Finish(h, now)| == |h|;
    cut := LimitKeepsNewest(Finish(h, now), limit);
    hide Fold, Timeline, Finish;
    forall i | 0 <= i < |h|
      ensures h[i].endedAt.Some? ==> h[i].startedAt <= h[i].endedAt.value
      ensures i + 1 < |h| ==> h[i].endedAt.Some? && h[i].endedAt.value <= h[i + 1].startedAt
    {
      SessionsDisjoint(Timeline(log), i);
    }
  }
}
