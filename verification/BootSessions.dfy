/** Boot sessions read out of a log of process starts and deaths: the meaning of the log,
    independent of how the reconstruction keeps its books. */
module BootSessions {
  import opened Options
  import opened StableSort
  import opened Numbers

  datatype Kind = Start | Death | Other

  type Pid = Option<int>

  datatype Entry = Entry(at: int, kind: Kind, pid: Pid, cause: Option<string>, details: Option<string>,
                         exitCode: Option<int>, uptime: Option<int>, lastRequest: Option<string>)

  datatype Status = Running | Restarted | Stopped

  datatype Session = Session(pid: Pid, startedAt: int, endedAt: Option<int>, endCause: Option<string>,
                             endDetails: Option<string>, exitCode: Option<int>, uptime: int, restartGap: Option<int>,
                             lastRequest: Option<string>, restarted: bool, needsAttention: bool, current: bool,
                             status: Status, inferredEnd: bool)

  const REBOOT_NOTE := "다음 start 이벤트가 기록되어 재부팅으로 추정"

  /** Python's `a or b` on an optional text. */
  function TextOr(a: Option<string>, b: Option<string>): Option<string> {
    if a.None? || a.value == "" then b else a
  }

  function Opening(e: Entry): Session {
    Session(e.pid, e.at, None, None, None, None, 0, None, e.lastRequest, false, false, true, Running, false)
  }

  /** Closed because another start was logged first. */
  function Superseded(s: Session, at: int): Session {
    s.(endedAt := Some(at), endCause := Some("system_reboot"), endDetails := Some(REBOOT_NOTE), exitCode := None,
       inferredEnd := true, current := false, uptime := Max(0, at - s.startedAt))
  }

  /** Closed by its own death entry. */
  function Died(s: Session, e: Entry): Session {
    s.(endedAt := Some(e.at), endCause := TextOr(e.cause, Some("unknown")), endDetails := e.details,
       exitCode := e.exitCode, lastRequest := TextOr(e.lastRequest, s.lastRequest),
       inferredEnd := false, current := false,
       uptime := if e.uptime.Some? then e.uptime.value else Max(0, e.at - s.startedAt))
  }

  predicate HasOpenLast(h: seq<Session>) {
    h != [] && h[|h| - 1].endedAt.None?
  }

  function ReplaceLast(h: seq<Session>, s: Session): seq<Session>
    requires h != []
  {
    h[..|h| - 1] + [s]
  }

  /** Only the last session can be touched, and only while it is open. */
  function Step(h: seq<Session>, e: Entry): seq<Session> {
    match e.kind
    case Start =>
      (if HasOpenLast(h) then ReplaceLast(h, Superseded(h[|h| - 1], e.at)) else h) + [Opening(e)]
    case Death =>
      if HasOpenLast(h) && h[|h| - 1].pid == e.pid then ReplaceLast(h, Died(h[|h| - 1], e)) else h
    case Other => h
  }

  function Fold(log: seq<Entry>): seq<Session> {
    if log == [] then [] else Step(Fold(log[..|log| - 1]), log[|log| - 1])
  }

  lemma FoldSnoc(log: seq<Entry>, e: Entry)
    ensures Fold(log + [e]) == Step(Fold(log), e)
  {
    assert (log + [e])[..|log|] == log;
  }

  // ---- shape of every reachable history ------------------------------------------

  function CountStarts(log: seq<Entry>): nat {
    if log == [] then 0
    else CountStarts(log[..|log| - 1]) + if log[|log| - 1].kind.Start? then 1 else 0
  }

  /** One session per start entry; every session but the last is closed. */
  lemma {:induction false} OnlyLastIsOpen(log: seq<Entry>)
    ensures |Fold(log)| == CountStarts(log)
    ensures forall i :: 0 <= i < |Fold(log)| - 1 ==> Fold(log)[i].endedAt.Some?
  {
    if log != [] { OnlyLastIsOpen(log[..|log| - 1]); }
  }

  /** A closed session is final, whatever is logged afterwards. */
  lemma {:induction false} ClosedIsFinal(log: seq<Entry>, more: seq<Entry>, i: nat)
    requires i < |Fold(log)| && Fold(log)[i].endedAt.Some?
    ensures i < |Fold(log + more)| && Fold(log + more)[i] == Fold(log)[i]
  {
    if more == [] {
      assert log + more == log;
    } else {
      var front, e := more[..|more| - 1], more[|more| - 1];
      hide *;
      ConcatSnoc(log, more);
      ClosedIsFinal(log, front, i);
      FoldSnoc(log + front, e);
      StepKeepsClosed(Fold(log + front), e, i);
    }
  }

  lemma StepKeepsClosed(h: seq<Session>, e: Entry, i: nat)
    requires i < |h| && h[i].endedAt.Some?
    ensures i < |Step(h, e)| && Step(h, e)[i] == h[i]
  {
    hide Superseded, Died, Opening;
  }

  /** A process may log its death twice: the second entry changes nothing, and neither does a
      death without an open session of its process. */
  lemma SecondDeathIgnored(log: seq<Entry>, first: Entry, second: Entry)
    requires first.kind.Death? && second.kind.Death? && first.pid == second.pid
    ensures Fold(log + [first, second]) == Fold(log + [first])
    ensures !(HasOpenLast(Fold(log)) && Fold(log)[|Fold(log)| - 1].pid == first.pid) ==>
              Fold(log + [first]) == Fold(log)
  {
    FoldSnoc(log, first);
    FoldSnoc(log + [first], second);
    assert log + [first, second] == log + [first] + [second];
  }

  // ---- each session is decided by one start and one later entry ---------------------

  /** `e` ends the session that `s` opened: any start does, and so does a death of the same process. */
  predicate Decides(s: Entry, e: Entry) {
    e.kind.Start? || (e.kind.Death? && e.pid == s.pid)
  }

  /** The first entry after `k` that ends the session opened at `k`. */
  function Decider(log: seq<Entry>, k: nat): (d: Option<nat>)
    requires k < |log|
    ensures d.Some? ==> k < d.value < |log| && Decides(log[k], log[d.value])
    ensures d.Some? ==> forall j :: k < j < d.value ==> !Decides(log[k], log[j])
    ensures d.None? ==> forall j :: k < j < |log| ==> !Decides(log[k], log[j])
  {
    var n := |log| - 1;
    if n == k then None else
      var d := Decider(log[..n], k);
      if d.Some? then d else if Decides(log[k], log[n]) then Some(n) else None
  }

  function Fate(log: seq<Entry>, k: nat): Session
    requires k < |log|
  {
    var opening, d := Opening(log[k]), Decider(log, k);
    if d.None? then opening
    else if log[d.value].kind.Start? then Superseded(opening, log[d.value].at)
    else Died(opening, log[d.value])
  }

  /** What one more entry does to the session `s` opened at `k`. */
  function Ended(s: Session, opening: Entry, e: Entry): Session {
    if s.endedAt.Some? || !Decides(opening, e) then s
    else if e.kind.Start? then Superseded(s, e.at)
    else Died(s, e)
  }

  lemma StepEnds(h: seq<Session>, e: Entry, i: nat, opening: Entry)
    requires i < |h| && h[i].pid == opening.pid
    requires h[i].endedAt.None? ==> i == |h| - 1
    ensures i < |Step(h, e)| && Step(h, e)[i] == Ended(h[i], opening, e)
  {
  }

  lemma FateSnoc(log: seq<Entry>, k: nat)
    requires k < |log| - 1
    ensures Fate(log, k) == Ended(Fate(log[..|log| - 1], k), log[k], log[|log| - 1])
    ensures Fate(log, k).pid == log[k].pid
    ensures Fate(log, k).endedAt.None? <==> Decider(log, k).None?
  {
  }

  lemma FatePid(log: seq<Entry>, k: nat)
    requires k < |log|
    ensures Fate(log, k).pid == log[k].pid
    ensures Fate(log, k).endedAt.None? <==> Decider(log, k).None?
  {
  }

  /** The session of a start entry is fixed by that entry and the first later entry that is a start
      or a death of its own process; nothing else in the log matters to it. */
  lemma {:induction false} SessionFate(log: seq<Entry>, k: nat)
    requires k < |log| && log[k].kind.Start?
    ensures CountStarts(log[..k]) < |Fold(log)|
    ensures Fold(log)[CountStarts(log[..k])] == Fate(log, k)
    ensures Decider(log, k).None? ==> CountStarts(log) == CountStarts(log[..k]) + 1
    decreases |log|
  {
    var n := |log| - 1;
    var front, i := log[..n], CountStarts(log[..k]);
    OnlyLastIsOpen(front);
    if n > k {
      assert front[..k] == log[..k] && front[k] == log[k];
      assert Fold(log) == Step(Fold(front), log[n]);
      assert CountStarts(log) == CountStarts(front) + if log[n].kind.Start? then 1 else 0;
      hide Fate, Ended, Step, Fold, CountStarts, Decider;
      SessionFate(front, k);
      FateSnoc(log, k);
      FatePid(front, k);
      StepEnds(Fold(front), log[n], i, log[k]);
    } else {
      assert front == log[..k];
    }
  }

  lemma {:induction false} StartOfSession(log: seq<Entry>, i: nat) returns (k: nat)
    requires i < |Fold(log)|
    ensures k < |log| && log[k].kind.Start? && CountStarts(log[..k]) == i
    decreases |log|
  {
    var front, n := log[..|log| - 1], |log| - 1;
    OnlyLastIsOpen(log);
    OnlyLastIsOpen(front);
    if i < |Fold(front)| {
      k := StartOfSession(front, i);
      assert front[..k] == log[..k];
    } else {
      k := n;
    }
  }

  lemma {:induction false} StartsInOrder(log: seq<Entry>, k: nat, k': nat)
    requires k < k' <= |log| && log[k].kind.Start?
    ensures CountStarts(log[..k]) < CountStarts(log[..k'])
    decreases k'
  {
    assert log[..k'][..k' - 1] == log[..k' - 1];
    if k < k' - 1 { StartsInOrder(log, k, k' - 1); }
  }

  // ---- time order --------------------------------------------------------------------

  ghost predicate InTimeOrder(log: seq<Entry>) {
    forall i, j :: 0 <= i < j < |log| ==> log[i].at <= log[j].at
  }

  /** Sessions are ordered and disjoint: start <= end <= next start. */
  lemma SessionsDisjoint(log: seq<Entry>, i: nat)
    requires InTimeOrder(log) && i < |Fold(log)|
    ensures var h := Fold(log);
            && (h[i].endedAt.Some? ==> h[i].startedAt <= h[i].endedAt.value)
            && (i + 1 < |h| ==> h[i].endedAt.Some? && h[i].endedAt.value <= h[i + 1].startedAt)
  {
    var k := StartOfSession(log, i);
    FateTimes(log, k);
    hide Fold, Fate, CountStarts, Decider;
    SessionFate(log, k);
    OnlyLastIsOpen(log);
    if i + 1 < |Fold(log)| {
      var k' := StartOfSession(log, i + 1);
      FateTimes(log, k');
      SessionFate(log, k');
      if k' < k { StartsInOrder(log, k', k); }
      assert k < k' && Decides(log[k], log[k']);
      assert Decider(log, k).value <= k';
    }
  }

  lemma FateTimes(log: seq<Entry>, k: nat)
    requires k < |log|
    ensures Fate(log, k).startedAt == log[k].at
    ensures Fate(log, k).endedAt == if Decider(log, k).None? then None else Some(log[Decider(log, k).value].at)
  {
    hide Decider;
  }

  // ---- the finishing pass --------------------------------------------------------------

  /** `nextStart` is the start of the following session, if there is one. */
  function Finished(s: Session, nextStart: Option<int>, now: int): Session {
    if s.endedAt.None? then
      s.(status := Running, current := true, restarted := false, needsAttention := false, restartGap := None,
         uptime := Max(0, now - s.startedAt))
    else if nextStart.Some? then
      s.(status := Restarted, restarted := true, needsAttention := false,
         restartGap := Some(Max(0, nextStart.value - s.endedAt.value)))
    else
      s.(status := Stopped, restarted := false, needsAttention := true, restartGap := None)
  }

  function FinishOne(h: seq<Session>, i: nat, now: int): Session
    requires i < |h|
  {
    Finished(h[i], if i + 1 < |h| then Some(h[i + 1].startedAt) else None, now)
  }

  function Finish(h: seq<Session>, now: int): seq<Session> {
    seq(|h|, i requires 0 <= i < |h| => FinishOne(h, i, now))
  }

  /** Every finished session but the last was restarted; its gap to the next start is the plain
      difference, so the clamp at zero never fires. The last is running or stopped, and it
      alone can need attention. */
  lemma FinishedStatuses(log: seq<Entry>, now: int, i: nat)
    requires InTimeOrder(log) && i < |Fold(log)|
    ensures var h, f := Fold(log), Finish(Fold(log), now);
            if i + 1 < |h| then
              && f[i].status.Restarted? && !f[i].current && !f[i].needsAttention
              && f[i].endedAt.Some? && f[i].restartGap == Some(f[i + 1].startedAt - f[i].endedAt.value)
            else
              && f[i].restartGap.None?
              && (f[i].endedAt.None? ==> f[i].status.Running? && f[i].current && !f[i].needsAttention)
              && (f[i].endedAt.Some? ==> f[i].status.Stopped? && !f[i].current && f[i].needsAttention)
  {
    SessionsDisjoint(log, i);
    var k := StartOfSession(log, i);
    SessionFate(log, k);
  }

  /** When a session ended; a session still running is counted up to now. */
  function EndOf(s: Session, now: int): int {
    if s.endedAt.Some? then s.endedAt.value else now
  }

  /** The time the sessions lasted, by their start and end. */
  function Lengths(f: seq<Session>, now: int): int {
    if f == [] then 0 else Lengths(f[..|f| - 1], now) + EndOf(f[|f| - 1], now) - f[|f| - 1].startedAt
  }

  /** The downtime: the restart gaps that the finishing pass recorded. */
  function RestartGaps(f: seq<Session>): int {
    if f == [] then 0
    else RestartGaps(f[..|f| - 1]) + if f[|f| - 1].restartGap.Some? then f[|f| - 1].restartGap.value else 0
  }

  lemma {:induction false} SpanOfPrefix(log: seq<Entry>, now: int, n: nat)
    requires InTimeOrder(log) && 1 <= n <= |Fold(log)|
    ensures var f := Finish(Fold(log), now);
            Lengths(f[..n], now) + RestartGaps(f[..n]) ==
            (if n < |f| then f[n].startedAt else EndOf(f[n - 1], now)) - f[0].startedAt
  {
    var f := Finish(Fold(log), now);
    FinishedStatuses(log, now, n - 1);
    assert f[..n][..n - 1] == f[..n - 1];
    if n > 1 { SpanOfPrefix(log, now, n - 1); }
  }

  /** Nothing is lost between the sessions: their lengths and the recorded restart gaps, none of them cut
      off at zero, fill the whole span from the first start to the last end, or to now while the last
      session runs. */
  lemma SpanIsConserved(log: seq<Entry>, now: int)
    requires InTimeOrder(log) && Fold(log) != []
    ensures var h, f := Fold(log), Finish(Fold(log), now);
            Lengths(f, now) + RestartGaps(f) == EndOf(h[|h| - 1], now) - h[0].startedAt
  {
    var f := Finish(Fold(log), now);
    SpanOfPrefix(log, now, |f|);
    assert f[..|f|] == f;
  }

  /** A finished session's recorded uptime is its length, except exactly when the death that ended it
      reported a different one. */
  lemma UptimeIsLengthUnlessReported(log: seq<Entry>, now: int, k: nat)
    requires InTimeOrder(log) && k < |log| && log[k].kind.Start? && log[k].at <= now
    ensures var i, d := CountStarts(log[..k]), Decider(log, k);
            && i < |Fold(log)|
            && var s := Finish(Fold(log), now)[i];
               s.uptime == EndOf(s, now) - s.startedAt <==>
               !(d.Some? && log[d.value].kind.Death? && log[d.value].uptime.Some?
                 && log[d.value].uptime.value != log[d.value].at - log[k].at)
  {
    hide Fold, CountStarts, Decider;
    SessionFate(log, k);
  }

  predicate IsText(t: Option<string>) { t.Some? && t.value != "" }

  /** A session that no entry has ended yet. */
  ghost predicate TellsRunning(s: Session, start: Entry, now: int) {
    && s.endedAt.None? && s.endCause.None? && s.endDetails.None? && s.exitCode.None? && !s.inferredEnd
    && s.lastRequest == start.lastRequest && s.uptime == Max(0, now - start.at)
    && s.status.Running? && s.current && !s.restarted && !s.needsAttention && s.restartGap.None?
  }

  /** A session whose end is inferred from the next start. */
  ghost predicate TellsSuperseded(s: Session, start: Entry, end: Entry) {
    && s.endedAt == Some(end.at) && s.endCause == Some("system_reboot") && s.exitCode.None? && s.inferredEnd
    && s.endDetails == Some("다음 start 이벤트가 기록되어 재부팅으로 추정")
    && s.lastRequest == start.lastRequest && s.uptime == Max(0, end.at - start.at)
  }

  /** A session that its own death entry ends. */
  ghost predicate TellsDeath(s: Session, start: Entry, end: Entry) {
    && s.endedAt == Some(end.at) && s.endCause == (if IsText(end.cause) then end.cause else Some("unknown"))
    && s.endDetails == end.details && s.exitCode == end.exitCode && !s.inferredEnd
    && s.lastRequest == (if IsText(end.lastRequest) then end.lastRequest else start.lastRequest)
    && s.uptime == (if end.uptime.Some? then end.uptime.value else Max(0, end.at - start.at))
  }

  /** What an ended session shows of the start that follows it. */
  ghost predicate TellsNext(s: Session, end: Entry, next: Option<int>) {
    && !s.current
    && if next.Some? then
         && s.status.Restarted? && s.restarted && !s.needsAttention
         && s.restartGap == Some(Max(0, next.value - end.at))
       else
         s.status.Stopped? && !s.restarted && s.needsAttention && s.restartGap.None?
  }

  lemma FateTells(log: seq<Entry>, k: nat, next: Option<int>, now: int)
    requires k < |log|
    ensures var s, start, d := Finished(Fate(log, k), next, now), log[k], Decider(log, k);
            && s.pid == start.pid && s.startedAt == start.at
            && (d.None? ==> TellsRunning(s, start, now))
            && (d.Some? ==> TellsNext(s, log[d.value], next))
            && (d.Some? && log[d.value].kind.Start? ==> TellsSuperseded(s, start, log[d.value]))
            && (d.Some? && log[d.value].kind.Death? ==> TellsDeath(s, start, log[d.value]))
  {
    hide Decider;
  }

  /** The session of every start entry, as the history shows it, field by field: from the start entry and the
      first later entry, if any, that is a start or a death of its process. */
  lemma SessionTells(log: seq<Entry>, now: int, k: nat)
    requires k < |log| && log[k].kind.Start?
    ensures CountStarts(log[..k]) < |Finish(Fold(log), now)|
    ensures var f, i := Finish(Fold(log), now), CountStarts(log[..k]);
            var s, next := f[i], if i + 1 < |f| then Some(f[i + 1].startedAt) else None;
            var start, d := log[k], Decider(log, k);
            && s.pid == start.pid && s.startedAt == start.at
            && (d.None? ==> TellsRunning(s, start, now))
            && (d.Some? ==> TellsNext(s, log[d.value], next))
            && (d.Some? && log[d.value].kind.Start? ==> TellsSuperseded(s, start, log[d.value]))
            && (d.Some? && log[d.value].kind.Death? ==> TellsDeath(s, start, log[d.value]))
  {
    SessionFate(log, k);
    var h, i := Fold(log), CountStarts(log[..k]);
    FinishedAt(h, now, i);
    if i + 1 < |h| { FinishedAt(h, now, i + 1); }
    hide *;
    FateTells(log, k, if i + 1 < |h| then Some(h[i + 1].startedAt) else None, now);
  }

  lemma FinishedAt(h: seq<Session>, now: int, i: nat)
    requires i < |h|
    ensures |Finish(h, now)| == |h| && Finish(h, now)[i].startedAt == h[i].startedAt
    ensures Finish(h, now)[i] == Finished(h[i], if i + 1 < |h| then Some(h[i + 1].startedAt) else None, now)
  {
  }

  /** It happens: a process that starts, then dies reporting some other uptime. */
  lemma ReportedUptimeWins(start: Entry, death: Entry, now: int)
    requires start.kind.Start? && death.kind.Death? && start.pid == death.pid
    requires death.uptime.Some? && death.uptime.value != death.at - start.at
    ensures var f := Finish(Fold([start, death]), now);
            |f| == 1 && f[0].endedAt == Some(death.at) && f[0].uptime != death.at - f[0].startedAt
  {
    FoldSnoc([], start);
    FoldSnoc([start], death);
    assert [] + [start] == [start] && [start] + [death] == [start, death];
    assert Fold([start]) == [Opening(start)];
  }

  // ---- clean shutdown -------------------------------------------------------------------

  predicate Marks(e: Entry, pid: Pid) {
    e.pid == pid && !e.kind.Other?
  }

  /** The position of the last start or death of a process, in file order. */
  function LastMark(log: seq<Entry>, pid: Pid): (m: Option<nat>)
    ensures m.Some? ==> m.value < |log| && Marks(log[m.value], pid) &&
                        forall j :: m.value < j < |log| ==> !Marks(log[j], pid)
    ensures m.None? ==> forall j :: 0 <= j < |log| ==> !Marks(log[j], pid)
  {
    if log == [] then None
    else if Marks(log[|log| - 1], pid) then Some(|log| - 1) else LastMark(log[..|log| - 1], pid)
  }

  predicate CleanShutdown(log: seq<Entry>, pid: Pid) {
    var m := LastMark(log, pid);
    m.None? || log[m.value].kind.Death?
  }

  /** `i` is the newest session of the process. */
  ghost predicate NewestSession(h: seq<Session>, pid: Pid, i: nat) {
    && i < |h| && h[i].pid == pid
    && forall j :: i < j < |h| ==> h[j].pid != pid
  }

  ghost predicate LastStart(log: seq<Entry>, pid: Pid, k: nat) {
    && k < |log| && log[k].kind.Start? && log[k].pid == pid
    && forall j :: k < j < |log| ==> !(log[j].kind.Start? && log[j].pid == pid)
  }

  lemma NewestSessionIsLastStart(log: seq<Entry>, pid: Pid, k: nat)
    requires LastStart(log, pid, k)
    ensures NewestSession(Fold(log), pid, CountStarts(log[..k]))
  {
    SessionFate(log, k);
    var i := CountStarts(log[..k]);
    forall j | i < j < |Fold(log)| ensures Fold(log)[j].pid != pid {
      var k' := StartOfSession(log, j);
      SessionFate(log, k');
      if k' < k { StartsInOrder(log, k', k); }
    }
  }

  ghost predicate DeathAfter(log: seq<Entry>, pid: Pid, d: nat) {
    exists j :: d < j < |log| && log[j].kind.Death? && log[j].pid == pid
  }

  lemma CleanMeansDeathAfter(log: seq<Entry>, pid: Pid, k: nat)
    requires LastStart(log, pid, k)
    ensures CleanShutdown(log, pid) <==> DeathAfter(log, pid, k)
  {
    var m := LastMark(log, pid);
    assert Marks(log[k], pid);
    assert m.Some? && k <= m.value;
    assert m.value > k ==> log[m.value].kind.Death?;
  }

  lemma DeathAfterDecider(log: seq<Entry>, pid: Pid, k: nat)
    requires LastStart(log, pid, k)
    ensures var d := Decider(log, k);
            DeathAfter(log, pid, k) <==> d.Some? && (log[d.value].kind.Death? || DeathAfter(log, pid, d.value))
  {
    var d := Decider(log, k);
    if DeathAfter(log, pid, k) {
      var j :| k < j < |log| && log[j].kind.Death? && log[j].pid == pid;
      assert Decides(log[k], log[j]);
      assert d.Some? && d.value <= j;
    }
  }

  /** Where both answers read one list in one order: the newest session of a process is closed by its own
      death if and only if a clean shutdown is found, except when the process logged its death only
      after another start had already ended its session. */
  lemma AnswersInOneOrder(t: seq<Entry>, pid: Pid, k: nat)
    requires LastStart(t, pid, k)
    ensures var h, i, d := Fold(t), CountStarts(t[..k]), Decider(t, k);
            && NewestSession(h, pid, i)
            && (ClosedByDeath(h[i]) <==> d.Some? && t[d.value].kind.Death?)
            && ((CleanShutdown(t, pid) <==> ClosedByDeath(h[i])) <==> !DeathCameLate(t, pid, k))
  {
    NewestSessionIsLastStart(t, pid, k);
    SessionFate(t, k);
    CleanMeansDeathAfter(t, pid, k);
    DeathAfterDecider(t, pid, k);
  }

  predicate ClosedByDeath(s: Session) {
    s.endedAt.Some? && !s.inferredEnd
  }

  /** The session opened at `k` was ended by another start, and its process logged a death after that. */
  ghost predicate DeathCameLate(t: seq<Entry>, pid: Pid, k: nat)
    requires k < |t|
  {
    var d := Decider(t, k);
    d.Some? && t[d.value].kind.Start? && DeathAfter(t, pid, d.value)
  }

  // ---- file order and time order -----------------------------------------------------------

  predicate EarlierEntry(a: Entry, b: Entry) { a.at <= b.at }

  /** The order the boot history reads a log in: by time, entries of one time in file order. */
  function Timeline(log: seq<Entry>): seq<Entry> {
    Sort(log, EarlierEntry)
  }

  /** The entries of one moment, in their order. */
  function EntriesAt(log: seq<Entry>, at: int): seq<Entry> {
    Filter(log, (e: Entry) => e.at == at)
  }

  lemma SameTimeKeepsOrder(log: seq<Entry>, at: int)
    ensures EntriesAt(Timeline(log), at) == EntriesAt(log, at)
  {
    var p := (e: Entry) => e.at == at;
    SortFilter(log, EarlierEntry, p);
    FilterMembers(log, p);
    assert forall i :: 0 <= i < |Filter(log, p)| ==> Filter(log, p)[i] in Filter(log, p);
    SortOfOrdered(Filter(log, p), EarlierEntry);
  }

  /** Every log is read in time order, the entries of one moment in file order; a log written in time order is
      read as it stands. */
  lemma TimelineInOrder(log: seq<Entry>)
    ensures InTimeOrder(Timeline(log)) && multiset(Timeline(log)) == multiset(log)
    ensures forall e :: e in Timeline(log) <==> e in log
    ensures InTimeOrder(log) ==> Timeline(log) == log
    ensures forall at :: EntriesAt(Timeline(log), at) == EntriesAt(log, at)
  {
    forall at ensures EntriesAt(Timeline(log), at) == EntriesAt(log, at) { SameTimeKeepsOrder(log, at); }
    SortOrdered(log, EarlierEntry);
    SortPermutes(log, EarlierEntry);
    if InTimeOrder(log) { SortOfOrdered(log, EarlierEntry); }
  }

  /** A process that has a start in the log has a last one in any order of it. */
  lemma {:induction false} LastStartExists(t: seq<Entry>, pid: Pid) returns (k: nat)
    requires exists e :: e in t && e.kind.Start? && e.pid == pid
    ensures LastStart(t, pid, k)
  {
    var n := |t| - 1;
    if t[n].kind.Start? && t[n].pid == pid {
      k := n;
    } else {
      var e :| e in t && e.kind.Start? && e.pid == pid;
      assert t == t[..n] + [t[n]] && e in t[..n];
      k := LastStartExists(t[..n], pid);
    }
  }

  /** For every log, exactly when the two answers agree. The clean-shutdown check reads the file backwards,
      the boot history reads it by time: they agree if the last mark of the process is of the same
      kind in both orders and its death did not come late, and also if both go wrong at once. */
  lemma AnswersAgreeIff(log: seq<Entry>, pid: Pid, k: nat)
    requires LastStart(Timeline(log), pid, k)
    ensures var t := Timeline(log); var h, i, d := Fold(t), CountStarts(t[..k]), Decider(t, k);
            && NewestSession(h, pid, i)
            && ((CleanShutdown(log, pid) <==> ClosedByDeath(h[i])) <==>
                ((CleanShutdown(log, pid) <==> CleanShutdown(t, pid)) <==> !DeathCameLate(t, pid, k)))
            && (InTimeOrder(log) ==>
                  ((CleanShutdown(log, pid) <==> ClosedByDeath(h[i])) <==> !DeathCameLate(t, pid, k)))
  {
    TimelineInOrder(log);
    AnswersInOneOrder(Timeline(log), pid, k);
  }

  /** If no clean shutdown is found for a process, its newest session in the boot history is still open or
      was closed by inference, except exactly when, by time, its own death is the first entry after its
      last start that ends the session; in a log written in time order that cannot be. */
  lemma UncleanMeansOpenOrInferredIff(log: seq<Entry>, pid: Pid) returns (k: nat, i: nat)
    requires !CleanShutdown(log, pid)
    ensures LastStart(Timeline(log), pid, k) && NewestSession(Fold(Timeline(log)), pid, i)
    ensures var t := Timeline(log); var s, d := Fold(t)[i], Decider(t, k);
            && (s.endedAt.None? || s.inferredEnd <==> !(d.Some? && t[d.value].kind.Death?))
            && (InTimeOrder(log) ==> s.endedAt.None? || s.inferredEnd)
  {
    var t := Timeline(log);
    TimelineInOrder(log);
    var m := LastMark(log, pid).value;
    assert log[m] in log && log[m].kind.Start? && log[m].pid == pid;
    k := LastStartExists(t, pid);
    i := CountStarts(t[..k]);
    AnswersInOneOrder(t, pid, k);
    CleanMeansDeathAfter(t, pid, k);
    DeathAfterDecider(t, pid, k);
  }

  lemma FoldOfThree(a: Entry, b: Entry, c: Entry)
    ensures Fold([a]) == Step([], a) && Fold([a, b]) == Step(Fold([a]), b) && Fold([a, b, c]) == Step(Fold([a, b]), c)
  {
    FoldSnoc([], a);
    FoldSnoc([a], b);
    FoldSnoc([a, b], c);
    assert [] + [a] == [a] && [a] + [b] == [a, b] && [a, b] + [c] == [a, b, c];
  }

  lemma LastMarkDecides(log: seq<Entry>, e: Entry)
    requires !e.kind.Other?
    ensures CleanShutdown(log + [e], e.pid) <==> e.kind.Death?
  {
    assert LastMark(log + [e], e.pid) == Some(|log|);
  }

  /** Even in time order the answers can differ: process 1 starts, process 2 starts, then process 1 logs
      its death. The check finds a clean shutdown, the boot history infers the end. */
  lemma LateDeathDisagrees(a: Entry, b: Entry, c: Entry)
    requires a.kind.Start? && b.kind.Start? && c.kind.Death? && a.pid == c.pid != b.pid
    requires a.at <= b.at <= c.at
    ensures CleanShutdown([a, b, c], a.pid)
    ensures var h := Fold(Timeline([a, b, c])); |h| == 2 && h[0].pid == a.pid && h[0].inferredEnd
  {
    var log := [a, b, c];
    assert log == [a, b] + [c] && InTimeOrder(log);
    hide *;
    LastMarkDecides([a, b], c);
    TimelineInOrder(log);
    SupersededThenLate(a, b, c);
  }

  lemma SupersededThenLate(a: Entry, b: Entry, c: Entry)
    requires a.kind.Start? && b.kind.Start? && c.kind.Death? && c.pid != b.pid
    ensures var h := Fold([a, b, c]); |h| == 2 && h[0].pid == a.pid && h[0].inferredEnd
  {
    FoldOfThree(a, b, c);
    StartAfterStart(a, b);
    hide Fold, Superseded;
    assert Step(Fold([a, b]), c) == Fold([a, b]);
  }

  lemma StartAfterStart(a: Entry, b: Entry)
    requires a.kind.Start? && b.kind.Start?
    ensures Fold([a, b]) == [Superseded(Opening(a), b.at), Opening(b)]
    ensures Superseded(Opening(a), b.at).pid == a.pid && Superseded(Opening(a), b.at).inferredEnd
  {
    FoldOfThree(a, b, b);
    hide Fold;
    assert Step([], a) == [Opening(a)];
  }

  lemma TimelineOfTwo(a: Entry, b: Entry)
    ensures Timeline([a, b]) == if a.at <= b.at then [a, b] else [b, a]
  {
    assert [a, b][1..] == [b] && [b][1..] == [];
    assert Insert(a, [], EarlierEntry) == [a] && Insert(b, [], EarlierEntry) == [b];
    assert Sort([b], EarlierEntry) == [b];
    assert Sort([a, b], EarlierEntry) == Insert(a, [b], EarlierEntry);
  }

  lemma StartThenDeath(start: Entry, death: Entry)
    requires start.kind.Start? && death.kind.Death? && start.pid == death.pid
    ensures Fold([start, death]) == [Died(Opening(start), death)]
    ensures Fold([death, start]) == [Opening(start)]
  {
    FoldOfThree(start, death, death);
    FoldOfThree(death, start, start);
    hide Fold, Died;
    assert Step([], start) == [Opening(start)] && Step([], death) == [];
  }

  /** Entries stamped out of order alone make them differ, either way: a death stamped before the start it
      follows in the file leaves the session open though the check finds a clean shutdown; a start
      stamped before the death it follows is closed by that death though the check finds none. */
  lemma MisstampedEntriesDisagree(start: Entry, death: Entry)
    requires start.kind.Start? && death.kind.Death? && start.pid == death.pid
    ensures death.at < start.at ==>
              CleanShutdown([start, death], start.pid) && Fold(Timeline([start, death])) == [Opening(start)]
    ensures start.at < death.at ==>
              && !CleanShutdown([death, start], start.pid)
              && Fold(Timeline([death, start])) == [Died(Opening(start), death)]
  {
    hide *;
    assert [start, death] == [start] + [death] && [death, start] == [death] + [start];
    TimelineOfTwo(start, death);
    TimelineOfTwo(death, start);
    LastMarkDecides([start], death);
    LastMarkDecides([death], start);
    StartThenDeath(start, death);
  }
}
