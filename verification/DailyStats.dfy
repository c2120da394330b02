/** Daily statistics: detailed logs grouped into one row per day and key, day by day over a range. */
module DailyStats {
  import opened Options
  import opened StableSort

  const DAY := 86400

  datatype ProxyLog = ProxyLog(timestamp: int, host: Option<string>, success: int, errorType: Option<string>)

  datatype MonitoringEvent = MonitoringEvent(timestamp: int, scheduleId: int, status: string,
                                             bookingTriggered: bool, bookingSuccess: Option<bool>)

  datatype Row<K, V> = Row(date: int, key: K, total: int, detail: V)

  /** `errors` pairs each error type with its count. */
  datatype ProxyDetail = ProxyDetail(successCount: int, failCount: int, errors: seq<(string, nat)>)

  datatype MonitoringDetail = MonitoringDetail(successCount: nat, errorCount: nat, availableDetected: nat,
                                               bookingTriggered: nat, bookingSuccess: nat)

  // ---- GROUP BY ---------------------------------------------------------------------

  /** The distinct keys of the rows; a query gives them in no promised order, here by first appearance. */
  function Keys<L, K(==)>(logs: seq<L>, key: L -> K): seq<K> {
    if logs == [] then [] else
      var front, k := Keys(logs[..|logs| - 1], key), key(logs[|logs| - 1]);
      if k in front then front else front + [k]
  }

  function KeyIs<L, K(==)>(key: L -> K, k: K): L -> bool { l => key(l) == k }

  function KeyIn<L, K(==)>(key: L -> K, keys: seq<K>): L -> bool { l => key(l) in keys }

  function Group<L, K(==)>(logs: seq<L>, key: L -> K, k: K): seq<L> {
    Filter(logs, KeyIs(key, k))
  }

  function GroupRows<L, K(==), V>(keys: seq<K>, logs: seq<L>, key: L -> K, detail: seq<L> -> V,
                          date: int): seq<Row<K, V>> {
    seq(|keys|, i requires 0 <= i < |keys| =>
      var g := Group(logs, key, keys[i]); Row(date, keys[i], |g|, detail(g)))
  }

  /** The rows one day's logs are grouped into. */
  function DayRows<L, K(==), V>(logs: seq<L>, key: L -> K, detail: seq<L> -> V, date: int): seq<Row<K, V>> {
    GroupRows(Keys(logs, key), logs, key, detail, date)
  }

  function Total<K, V>(rows: seq<Row<K, V>>): int {
    if rows == [] then 0 else Total(rows[..|rows| - 1]) + rows[|rows| - 1].total
  }

  lemma {:induction false} TotalAppend<K, V>(a: seq<Row<K, V>>, b: seq<Row<K, V>>)
    ensures Total(a + b) == Total(a) + Total(b)
  {
    if b == [] {
      assert a + b == a;
    } else {
      assert (a + b)[..|a + b| - 1] == a + b[..|b| - 1];
      TotalAppend(a, b[..|b| - 1]);
    }
  }

  lemma {:induction false} KeysCover<L, K>(logs: seq<L>, key: L -> K)
    ensures Distinct(Keys(logs, key))
    ensures forall k :: k in Keys(logs, key) <==> exists l :: l in logs && key(l) == k
    ensures forall l :: l in logs ==> key(l) in Keys(logs, key)
    ensures Keys(logs, key) == [] <==> logs == []
  {
    if logs != [] {
      var front, last := logs[..|logs| - 1], logs[|logs| - 1];
      KeysCover(front, key);
      assert logs == front + [last];
      forall k ensures k in Keys(logs, key) <==> exists l :: l in logs && key(l) == k {
        if k in Keys(front, key) {
          var l :| l in front && key(l) == k;
          assert l in logs;
        }
        if k == key(last) { assert last in logs; }
      }
    }
  }

  lemma {:induction false} FilterSplit<L>(s: seq<L>, p: L -> bool, q: L -> bool, r: L -> bool)
    requires forall x :: x in s ==> (r(x) <==> p(x) || q(x)) && !(p(x) && q(x))
    ensures |Filter(s, r)| == |Filter(s, p)| + |Filter(s, q)|
  {
    if s != [] {
      assert s[0] in s;
      FilterSplit(s[1..], p, q, r);
    }
  }

  lemma {:induction false} GroupsPartition<L, K, V>(keys: seq<K>, logs: seq<L>, key: L -> K, detail: seq<L> -> V,
        date: int)
    requires Distinct(keys)
    ensures Total(GroupRows(keys, logs, key, detail, date)) == |Filter(logs, KeyIn(key, keys))|
  {
    var rows := GroupRows(keys, logs, key, detail, date);
    if keys == [] {
      FilterMembers(logs, KeyIn(key, keys));
    } else {
      var front, k := keys[..|keys| - 1], keys[|keys| - 1];
      assert rows[..|rows| - 1] == GroupRows(front, logs, key, detail, date);
      GroupsPartition(front, logs, key, detail, date);
      assert keys == front + [k];
      FilterSplit(logs, KeyIn(key, front), KeyIs(key, k), KeyIn(key, keys));
      assert rows[|rows| - 1].total == |Group(logs, key, k)|;
      assert Total(rows) == Total(rows[..|rows| - 1]) + rows[|rows| - 1].total;
    }
  }

  /** Grouping conserves the count: the totals of a day's rows add up to the number of its logs. */
  lemma DayRowsConserve<L, K, V>(logs: seq<L>, key: L -> K, detail: seq<L> -> V, date: int)
    ensures Total(DayRows(logs, key, detail, date)) == |logs|
    ensures forall r :: r in DayRows(logs, key, detail, date) ==> r.date == date
    ensures DayRows(logs, key, detail, date) == [] <==> logs == []
  {
    KeysCover(logs, key);
    GroupsPartition(Keys(logs, key), logs, key, detail, date);
    FilterMembers(logs, KeyIn(key, Keys(logs, key)));
  }

  // ---- the two aggregations ------------------------------------------------------------

  predicate InDays(timestamp: int, first: int, last: int) {
    first * DAY <= timestamp < (last + 1) * DAY
  }

  function HostOf(l: ProxyLog): string {
    if l.host.Some? then l.host.value else ""
  }

  function HostedIn(first: int, last: int): ProxyLog -> bool {
    (l: ProxyLog) => l.host.Some? && InDays(l.timestamp, first, last)
  }

  function HappenedIn(first: int, last: int): MonitoringEvent -> bool {
    (e: MonitoringEvent) => InDays(e.timestamp, first, last)
  }

  /** The logs with a host in the days `first` to `last`. */
  function ProxyLogs(logs: seq<ProxyLog>, first: int, last: int): seq<ProxyLog> {
    Filter(logs, HostedIn(first, last))
  }

  function Events(events: seq<MonitoringEvent>, first: int, last: int): seq<MonitoringEvent> {
    Filter(events, HappenedIn(first, last))
  }

  function ScheduleOf(e: MonitoringEvent): int { e.scheduleId }

  function Failed(l: ProxyLog): bool { l.success == 0 }

  function FailedTyped(l: ProxyLog): bool { l.success == 0 && l.errorType.Some? }

  function SumSuccess(logs: seq<ProxyLog>): int {
    if logs == [] then 0 else SumSuccess(logs[..|logs| - 1]) + logs[|logs| - 1].success
  }

  function FailedWithType(logs: seq<ProxyLog>): seq<ProxyLog> {
    Filter(logs, FailedTyped)
  }

  function ErrorOf(l: ProxyLog): string {
    if l.errorType.Some? then l.errorType.value else ""
  }

  /** The error types of one host, each with its count. */
  function ErrorTypes(logs: seq<ProxyLog>): seq<(string, nat)> {
    var failed := FailedWithType(logs);
    CountTypes(Keys(failed, ErrorOf), failed)
  }

  function CountTypes(types: seq<string>, failed: seq<ProxyLog>): seq<(string, nat)> {
    seq(|types|, i requires 0 <= i < |types| => (types[i], |Group(failed, ErrorOf, types[i])|))
  }

  function ProxyDetails(logs: seq<ProxyLog>): ProxyDetail {
    ProxyDetail(SumSuccess(logs), |Filter(logs, Failed)|, ErrorTypes(logs))
  }

  function Triggered(e: MonitoringEvent): bool { e.bookingTriggered }

  function Booked(e: MonitoringEvent): bool { e.bookingSuccess == Some(true) }

  function MonitoringDetails(events: seq<MonitoringEvent>): MonitoringDetail {
    MonitoringDetail(|Filter(events, HasStatus("success"))|,
                     |Filter(events, HasStatus("error"))|,
                     |Filter(events, HasStatus("available"))|,
                     |Filter(events, Triggered)|,
                     |Filter(events, Booked)|)
  }

  function ProxyRows(logs: seq<ProxyLog>, date: int): seq<Row<string, ProxyDetail>> {
    DayRows(ProxyLogs(logs, date, date), HostOf, ProxyDetails, date)
  }

  function MonitoringRows(events: seq<MonitoringEvent>, date: int): seq<Row<int, MonitoringDetail>> {
    DayRows(Events(events, date, date), ScheduleOf, MonitoringDetails, date)
  }

  predicate HasDay<K(==), V(==)>(table: seq<Row<K, V>>, date: int) {
    exists r :: r in table && r.date == date
  }

  function OnOtherDay<K, V>(date: int): Row<K, V> -> bool { (r: Row<K, V>) => r.date != date }

  function WithinDays<K, V>(first: int, last: int): Row<K, V> -> bool { (r: Row<K, V>) => first <= r.date <= last }

  function WithoutDay<K, V>(table: seq<Row<K, V>>, date: int): seq<Row<K, V>> {
    Filter(table, OnOtherDay(date))
  }

  /** One day's aggregation: skipped when rows exist and it is not forced, else the day is rewritten. */
  function Aggregated<K(==), V(==)>(table: seq<Row<K, V>>, rows: seq<Row<K, V>>, date: int,
                        force: bool): seq<Row<K, V>> {
    if !force && HasDay(table, date) then table
    else (if force then WithoutDay(table, date) else table) + rows
  }

  function AggregatedCount<K(==), V(==)>(table: seq<Row<K, V>>, rows: seq<Row<K, V>>, date: int, force: bool): nat {
    if !force && HasDay(table, date) then 0 else |rows|
  }

  /** A statistics table, and how many rows have been written to it. */
  datatype Progress<K, V> = Progress(table: seq<Row<K, V>>, written: nat)

  function Day<K(==), V(==)>(p: Progress<K, V>, rows: seq<Row<K, V>>, date: int, force: bool): Progress<K, V> {
    Progress(Aggregated(p.table, rows, date, force), p.written + AggregatedCount(p.table, rows, date, force))
  }

  /** The days `start` to `end`, one after the other; `rowsOf` gives each day's rows. */
  function Range<K(==), V(==)>(table: seq<Row<K, V>>, rowsOf: int -> seq<Row<K, V>>, start: int, end: int,
                   force: bool): Progress<K, V>
    decreases end - start
  {
    if end < start then Progress(table, 0)
    else Day(Range(table, rowsOf, start, end - 1, force), rowsOf(end), end, force)
  }

  lemma DayAdds<K, V>(p: Progress<K, V>, rows: seq<Row<K, V>>, date: int, force: bool)
    ensures var d := Day(Progress(p.table, 0), rows, date, force);
            Day(p, rows, date, force) == Progress(d.table, p.written + d.written)
  {
  }

  lemma RangeEnds<K, V>(table: seq<Row<K, V>>, rowsOf: int -> seq<Row<K, V>>, start: int, end: int, next: int,
                        force: bool)
    requires next == if start <= end then end + 1 else start
    ensures Range(table, rowsOf, start, next - 1, force) == Range(table, rowsOf, start, end, force)
  {
  }

  function ProxyDays(logs: seq<ProxyLog>): int -> seq<Row<string, ProxyDetail>> {
    (date: int) => ProxyRows(logs, date)
  }

  function MonitoringDays(events: seq<MonitoringEvent>): int -> seq<Row<int, MonitoringDetail>> {
    (date: int) => MonitoringRows(events, date)
  }

  class DailyStatsService {
    const logs: seq<ProxyLog>
    const events: seq<MonitoringEvent>
    var proxyStats: seq<Row<string, ProxyDetail>>
    var monitoringStats: seq<Row<int, MonitoringDetail>>

    constructor (logs: seq<ProxyLog>, events: seq<MonitoringEvent>, proxyStats: seq<Row<string, ProxyDetail>>,
                 monitoringStats: seq<Row<int, MonitoringDetail>>)
      ensures this.logs == logs && this.events == events
      ensures this.proxyStats == proxyStats && this.monitoringStats == monitoringStats
    {
      this.logs, this.events, this.proxyStats, this.monitoringStats := logs, events, proxyStats, monitoringStats;
    }

    method AggregateProxyDailyStats(date: int, force: bool) returns (count: nat)
      modifies this`proxyStats
      ensures Progress(proxyStats, count) == Day(Progress(old(proxyStats), 0), ProxyDays(logs)(date), date, force)
    {
      if !force && HasDay(proxyStats, date) { return 0; }
      if force { proxyStats := WithoutDay(proxyStats, date); }
      var rows := ProxyRows(logs, date);
      assert rows == [] ==> proxyStats + rows == proxyStats;
      if rows == [] { return 0; }
      count := 0;
      ghost var before := proxyStats;
      while count < |rows|
        invariant count <= |rows| && proxyStats == before + rows[..count]
      {
        proxyStats := proxyStats + [rows[count]];
        count := count + 1;
      }
      assert rows[..count] == rows;
    }

    method AggregateMonitoringDailyStats(date: int, force: bool) returns (count: nat)
      modifies this`monitoringStats
      ensures Progress(monitoringStats, count) ==
              Day(Progress(old(monitoringStats), 0), MonitoringDays(events)(date), date, force)
    {
      if !force && HasDay(monitoringStats, date) { return 0; }
      if force { monitoringStats := WithoutDay(monitoringStats, date); }
      var rows := MonitoringRows(events, date);
      assert rows == [] ==> monitoringStats + rows == monitoringStats;
      if rows == [] { return 0; }
      count := 0;
      ghost var before := monitoringStats;
      while count < |rows|
        invariant count <= |rows| && monitoringStats == before + rows[..count]
      {
        monitoringStats := monitoringStats + [rows[count]];
        count := count + 1;
      }
      assert rows[..count] == rows;
    }

    method AggregateDateRange(start: int, end: int, force: bool) returns (proxyTotal: nat, monitoringTotal: nat)
      modifies this
      ensures Progress(proxyStats, proxyTotal) == Range(old(proxyStats), ProxyDays(logs), start, end, force)
      ensures Progress(monitoringStats, monitoringTotal) ==
              Range(old(monitoringStats), MonitoringDays(events), start, end, force)
    {
      hide Day, ProxyDays, MonitoringDays;
      proxyTotal, monitoringTotal := 0, 0;
      var current := start;
      while current <= end
        invariant start <= current <= if start <= end then end + 1 else start
        invariant Progress(proxyStats, proxyTotal) == Range(old(proxyStats), ProxyDays(logs), start, current - 1, force)
        invariant Progress(monitoringStats, monitoringTotal)
                  == Range(old(monitoringStats), MonitoringDays(events), start, current - 1, force)
        decreases end + 1 - current
      {
        DayAdds(Progress(proxyStats, proxyTotal), ProxyDays(logs)(current), current, force);
        DayAdds(Progress(monitoringStats, monitoringTotal), MonitoringDays(events)(current), current, force);
        var proxyCount := AggregateProxyDailyStats(current, force);
        var monitoringCount := AggregateMonitoringDailyStats(current, force);
        proxyTotal, monitoringTotal := proxyTotal + proxyCount, monitoringTotal + monitoringCount;
        current := current + 1;
      }
      RangeEnds(old(proxyStats), ProxyDays(logs), start, end, current, force);
      RangeEnds(old(monitoringStats), MonitoringDays(events), start, end, current, force);
    }
  }

  // ---- conservation over a range -----------------------------------------------------------

  function Between<K, V>(table: seq<Row<K, V>>, first: int, last: int): seq<Row<K, V>> {
    Filter(table, WithinDays(first, last))
  }

  lemma KeptBetween<K, V>(table: seq<Row<K, V>>, first: int, date: int, force: bool)
    requires first <= date && (force || !HasDay(table, date))
    ensures var kept := if force then WithoutDay(table, date) else table;
            Between(kept, first, date) == Between(table, first, date - 1)
  {
    var p, q := WithinDays<K, V>(first, date), WithinDays<K, V>(first, date - 1);
    if force {
      FilterTwice(table, OnOtherDay<K, V>(date), p, q);
    } else {
      FilterCong(table, p, q);
    }
  }

  lemma AggregatedBetween<K, V>(table: seq<Row<K, V>>, rows: seq<Row<K, V>>, first: int, date: int, force: bool)
    requires first <= date && (forall r :: r in rows ==> r.date == date)
    requires force || !HasDay(table, date)
    ensures Between(Aggregated(table, rows, date, force), first, date) == Between(table, first, date - 1) + rows
  {
    var kept := if force then WithoutDay(table, date) else table;
    KeptBetween(table, first, date, force);
    FilterAppend(kept, rows, WithinDays<K, V>(first, date));
    FilterMembers(rows, WithinDays<K, V>(first, date));
  }

  lemma AggregatedOtherDays<K, V>(table: seq<Row<K, V>>, rows: seq<Row<K, V>>, date: int, force: bool, d: int)
    requires (forall r :: r in rows ==> r.date == date) && d != date
    ensures HasDay(Aggregated(table, rows, date, force), d) <==> HasDay(table, d)
  {
    var kept := if force then WithoutDay(table, date) else table;
    FilterMembers(table, OnOtherDay<K, V>(date));
    if HasDay(table, d) {
      var r :| r in table && r.date == d;
      assert r in kept && r in kept + rows;
    }
    if HasDay(kept + rows, d) {
      var r :| r in kept + rows && r.date == d;
      assert r in kept && r in table;
    }
  }

  lemma {:induction false} FilterTwice<L>(s: seq<L>, p: L -> bool, q: L -> bool, pq: L -> bool)
    requires forall x :: pq(x) <==> p(x) && q(x)
    ensures Filter(Filter(s, p), q) == Filter(s, pq)
  {
    if s != [] {
      FilterTwice(s[1..], p, q, pq);
      if p(s[0]) { assert Filter(s, p)[1..] == Filter(s[1..], p); }
    }
  }

  ghost predicate Dated<K, V>(rowsOf: int -> seq<Row<K, V>>) {
    forall d :: forall r :: r in rowsOf(d) ==> r.date == d
  }

  function SumTotals<K, V>(rowsOf: int -> seq<Row<K, V>>, start: int, end: int): int
    decreases end - start
  {
    if end < start then 0 else SumTotals(rowsOf, start, end - 1) + Total(rowsOf(end))
  }

  lemma DayOtherDays<K, V>(p: Progress<K, V>, rows: seq<Row<K, V>>, date: int, force: bool, d: int)
    requires (forall r :: r in rows ==> r.date == date) && d != date
    ensures HasDay(Day(p, rows, date, force).table, d) <==> HasDay(p.table, d)
  {
    hide HasDay, Aggregated, AggregatedCount;
    AggregatedOtherDays(p.table, rows, date, force, d);
  }

  lemma {:induction false} RangeKeepsDay<K, V>(table: seq<Row<K, V>>, rowsOf: int -> seq<Row<K, V>>, start: int,
                                               end: int, force: bool, d: int)
    requires Dated(rowsOf) && !(start <= d <= end)
    ensures HasDay(Range(table, rowsOf, start, end, force).table, d) <==> HasDay(table, d)
    decreases end - start
  {
    if start <= end {
      hide HasDay, Day;
      RangeKeepsDay(table, rowsOf, start, end - 1, force, d);
      DayOtherDays(Range(table, rowsOf, start, end - 1, force), rowsOf(end), end, force, d);
    }
  }

  /** The rows of the days outside a range. */
  function Outside<K, V>(table: seq<Row<K, V>>, first: int, last: int): seq<Row<K, V>> {
    Filter(table, OutsideDays(first, last))
  }

  function OutsideDays<K, V>(first: int, last: int): Row<K, V> -> bool {
    (r: Row<K, V>) => r.date < first || last < r.date
  }

  lemma DayLeavesOutside<K, V>(table: seq<Row<K, V>>, rows: seq<Row<K, V>>, date: int, force: bool, first: int,
                               last: int)
    requires (forall r :: r in rows ==> r.date == date) && first <= date <= last
    ensures Outside(Aggregated(table, rows, date, force), first, last) == Outside(table, first, last)
  {
    var kept, p := if force then WithoutDay(table, date) else table, OutsideDays<K, V>(first, last);
    FilterAppend(kept, rows, p);
    FilterMembers(rows, p);
    FilterTwice(table, OnOtherDay<K, V>(date), p, p);
  }

  lemma {:induction false} DaysLeaveOutside<K, V>(table: seq<Row<K, V>>, rowsOf: int -> seq<Row<K, V>>, start: int,
                                                  end: int, force: bool, first: int, last: int)
    requires Dated(rowsOf) && first <= start && end <= last
    ensures Outside(Range(table, rowsOf, start, end, force).table, first, last) == Outside(table, first, last)
    decreases end - start
  {
    if start <= end {
      hide Outside, Aggregated, AggregatedCount;
      DaysLeaveOutside(table, rowsOf, start, end - 1, force, first, last);
      DayLeavesOutside(Range(table, rowsOf, start, end - 1, force).table, rowsOf(end), end, force, first, last);
    }
  }

  /** Forced or not, a run over a range leaves the rows of all other days as they were, in their order. */
  lemma RangeOtherDays<K, V>(table: seq<Row<K, V>>, rowsOf: int -> seq<Row<K, V>>, start: int, end: int, force: bool)
    requires Dated(rowsOf)
    ensures Outside(Range(table, rowsOf, start, end, force).table, start, end) == Outside(table, start, end)
  {
    DaysLeaveOutside(table, rowsOf, start, end, force, start, end);
  }

  lemma NoneKept<K, V>(table: seq<Row<K, V>>, date: int, force: bool)
    requires force || !HasDay(table, date)
    ensures Between(if force then WithoutDay(table, date) else table, date, date) == []
  {
    var kept, within := if force then WithoutDay(table, date) else table, WithinDays<K, V>(date, date);
    OnlyOtherDays(table, date);
    FilterMembers(kept, within);
    assert forall r :: r in kept ==> r.date != date;
    assert forall r :: r in kept ==> !within(r);
  }

  lemma {:induction false} OnlyOtherDays<K, V>(table: seq<Row<K, V>>, date: int)
    ensures forall r :: r in WithoutDay(table, date) ==> r.date != date
  {
    if table != [] { OnlyOtherDays(table[1..], date); }
  }

  lemma AllWithin<K, V>(rows: seq<Row<K, V>>, date: int)
    requires forall r :: r in rows ==> r.date == date
    ensures Between(rows, date, date) == rows
  {
    FilterMembers(rows, WithinDays<K, V>(date, date));
  }

  lemma DayReplaced<K, V>(table: seq<Row<K, V>>, rows: seq<Row<K, V>>, date: int, force: bool)
    requires forall r :: r in rows ==> r.date == date
    ensures Between(Aggregated(table, rows, date, force), date, date) ==
            if !force && HasDay(table, date) then Between(table, date, date) else rows
  {
    if force || !HasDay(table, date) {
      var kept := if force then WithoutDay(table, date) else table;
      assert Aggregated(table, rows, date, force) == kept + rows;
      FilterAppend(kept, rows, WithinDays<K, V>(date, date));
      assert Between(kept + rows, date, date) == Between(kept, date, date) + Between(rows, date, date);
      hide Between, HasDay, Aggregated, WithoutDay;
      NoneKept(table, date, force);
      AllWithin(rows, date);
    }
  }

  lemma DayLeftAlone<K, V>(table: seq<Row<K, V>>, rows: seq<Row<K, V>>, date: int, force: bool, d: int)
    requires (forall r :: r in rows ==> r.date == date) && d != date
    ensures Between(Aggregated(table, rows, date, force), d, d) == Between(table, d, d)
    ensures HasDay(Aggregated(table, rows, date, force), d) <==> HasDay(table, d)
  {
    var kept, p := if force then WithoutDay(table, date) else table, WithinDays<K, V>(d, d);
    FilterAppend(kept, rows, p);
    FilterMembers(rows, p);
    FilterTwice(table, OnOtherDay<K, V>(date), p, p);
    AggregatedOtherDays(table, rows, date, force, d);
  }

  /** A run over a range, day by day: the rows of a day are replaced by the day's own, unless there were some and
      the run was not forced; then they stay. */
  lemma {:induction false} RangeDayRows<K, V>(table: seq<Row<K, V>>, rowsOf: int -> seq<Row<K, V>>, start: int,
                                              end: int, force: bool, d: int)
    requires Dated(rowsOf) && start <= d <= end
    ensures Between(Range(table, rowsOf, start, end, force).table, d, d) ==
            if !force && HasDay(table, d) then Between(table, d, d) else rowsOf(d)
    decreases end - start
  {
    var front := Range(table, rowsOf, start, end - 1, force);
    assert Range(table, rowsOf, start, end, force).table == Aggregated(front.table, rowsOf(end), end, force);
    assert forall r :: r in rowsOf(end) ==> r.date == end;
    hide Range, Aggregated, Between, HasDay;
    if d < end {
      RangeDayRows(table, rowsOf, start, end - 1, force, d);
      DayLeftAlone(front.table, rowsOf(end), end, force, d);
    } else {
      DaysBefore(table, rowsOf, start, end - 1, force, d);
      DayReplaced(front.table, rowsOf(end), end, force);
    }
  }

  lemma {:induction false} DaysBefore<K, V>(table: seq<Row<K, V>>, rowsOf: int -> seq<Row<K, V>>, start: int,
                                            end: int, force: bool, d: int)
    requires Dated(rowsOf) && end < d
    ensures var t := Range(table, rowsOf, start, end, force).table;
            Between(t, d, d) == Between(table, d, d) && (HasDay(t, d) <==> HasDay(table, d))
    decreases end - start
  {
    if start <= end {
      var front := Range(table, rowsOf, start, end - 1, force);
      assert Range(table, rowsOf, start, end, force).table == Aggregated(front.table, rowsOf(end), end, force);
      assert forall r :: r in rowsOf(end) ==> r.date == end;
      hide Range, Aggregated, Between, HasDay;
      DaysBefore(table, rowsOf, start, end - 1, force, d);
      DayLeftAlone(front.table, rowsOf(end), end, force, d);
    }
  }

  /** The number of days' own rows that a run writes. */
  function RowsToWrite<K(==), V(==)>(table: seq<Row<K, V>>, rowsOf: int -> seq<Row<K, V>>, start: int, end: int,
                                     force: bool): nat
    decreases end - start
  {
    if end < start then 0
    else
      RowsToWrite(table, rowsOf, start, end - 1, force)
      + if !force && (exists r :: r in table && r.date == end) then 0 else |rowsOf(end)|
  }

  /** The count returned is the number of rows written: those of the days that were not skipped. */
  lemma {:induction false} RangeCounts<K, V>(table: seq<Row<K, V>>, rowsOf: int -> seq<Row<K, V>>, start: int,
                                             end: int, force: bool)
    requires Dated(rowsOf)
    ensures Range(table, rowsOf, start, end, force).written == RowsToWrite(table, rowsOf, start, end, force)
    decreases end - start
  {
    if start <= end {
      RangeCounts(table, rowsOf, start, end - 1, force);
      RangeKeepsDay(table, rowsOf, start, end - 1, force, end);
    }
  }

  lemma DayTotals<K, V>(table: seq<Row<K, V>>, rows: seq<Row<K, V>>, first: int, date: int, force: bool)
    requires first <= date && (forall r :: r in rows ==> r.date == date) && (force || !HasDay(table, date))
    ensures Total(Between(Aggregated(table, rows, date, force), first, date)) ==
            Total(Between(table, first, date - 1)) + Total(rows)
  {
    AggregatedBetween(table, rows, first, date, force);
    TotalAppend(Between(table, first, date - 1), rows);
  }

  lemma {:induction false} RangeTotals<K, V>(table: seq<Row<K, V>>, rowsOf: int -> seq<Row<K, V>>, start: int,
                                             end: int, force: bool)
    requires Dated(rowsOf) && (force || forall d :: start <= d <= end ==> !HasDay(table, d))
    ensures Total(Between(Range(table, rowsOf, start, end, force).table, start, end)) == SumTotals(rowsOf, start, end)
    decreases end - start
  {
    if end < start {
      FilterMembers(table, WithinDays<K, V>(start, end));
    } else {
      RangeTotals(table, rowsOf, start, end - 1, force);
      RangeKeepsDay(table, rowsOf, start, end - 1, force, end);
      assert forall r :: r in rowsOf(end) ==> r.date == end;
      DayTotals(Range(table, rowsOf, start, end - 1, force).table, rowsOf(end), start, end, force);
    }
  }

  lemma {:induction false} RangeCoversDays<K, V>(table: seq<Row<K, V>>, rowsOf: int -> seq<Row<K, V>>, start: int,
                                                 end: int,
                                                 force: bool, d: int)
    requires Dated(rowsOf) && start <= d <= end
    ensures HasDay(Range(table, rowsOf, start, end, force).table, d) || rowsOf(d) == []
    decreases end - start
  {
    var t := Range(table, rowsOf, start, end - 1, force).table;
    assert forall r :: r in rowsOf(end) ==> r.date == end;
    if d == end {
      if rowsOf(d) != [] && !(!force && HasDay(t, d)) {
        var kept := if force then WithoutDay(t, d) else t;
        assert rowsOf(d)[0] in kept + rowsOf(d);
      }
    } else {
      RangeCoversDays(table, rowsOf, start, end - 1, force, d);
      AggregatedOtherDays(t, rowsOf(end), end, force, d);
    }
  }

  lemma {:induction false} RangeOfCoveredDays<K, V>(table: seq<Row<K, V>>, rowsOf: int -> seq<Row<K, V>>,
        start: int, end: int)
    requires forall d :: start <= d <= end ==> HasDay(table, d) || rowsOf(d) == []
    ensures Range(table, rowsOf, start, end, false) == Progress(table, 0)
    decreases end - start
  {
    if start <= end {
      RangeOfCoveredDays(table, rowsOf, start, end - 1);
      assert table + [] == table;
    }
  }

  /** Running a range again without force, on unchanged logs, writes nothing and changes nothing. */
  lemma RerunChangesNothing<K, V>(table: seq<Row<K, V>>, rowsOf: int -> seq<Row<K, V>>, start: int, end: int,
                                  force: bool)
    requires Dated(rowsOf)
    ensures var done := Range(table, rowsOf, start, end, force).table;
            Range(done, rowsOf, start, end, false) == Progress(done, 0)
  {
    var done := Range(table, rowsOf, start, end, force).table;
    forall d | start <= d <= end ensures HasDay(done, d) || rowsOf(d) == [] {
      RangeCoversDays(table, rowsOf, start, end, force, d);
    }
    RangeOfCoveredDays(done, rowsOf, start, end);
  }

  /** The same for both tables of the service. */
  lemma RerunIsSilent(proxies: seq<Row<string, ProxyDetail>>, monitorings: seq<Row<int, MonitoringDetail>>,
                      logs: seq<ProxyLog>, events: seq<MonitoringEvent>, start: int, end: int, force: bool)
    ensures var t := Range(proxies, ProxyDays(logs), start, end, force).table;
            Range(t, ProxyDays(logs), start, end, false) == Progress(t, 0)
    ensures var t := Range(monitorings, MonitoringDays(events), start, end, force).table;
            Range(t, MonitoringDays(events), start, end, false) == Progress(t, 0)
  {
    DaysAreDated(logs, events);
    RerunChangesNothing(proxies, ProxyDays(logs), start, end, force);
    RerunChangesNothing(monitorings, MonitoringDays(events), start, end, force);
  }

  lemma DaysAreDated(logs: seq<ProxyLog>, events: seq<MonitoringEvent>)
    ensures Dated(ProxyDays(logs)) && Dated(MonitoringDays(events))
  {
    forall d, r | r in ProxyDays(logs)(d) ensures r.date == d {
      DayRowsConserve(ProxyLogs(logs, d, d), HostOf, ProxyDetails, d);
    }
    forall d, r | r in MonitoringDays(events)(d) ensures r.date == d {
      DayRowsConserve(Events(events, d, d), ScheduleOf, MonitoringDetails, d);
    }
  }

  lemma {:induction false} ProxyLogsOfRange(logs: seq<ProxyLog>, start: int, end: int)
    ensures SumTotals(ProxyDays(logs), start, end) == |ProxyLogs(logs, start, end)|
    decreases end - start
  {
    if end < start {
      FilterMembers(logs, HostedIn(start, end));
    } else {
      ProxyLogsOfRange(logs, start, end - 1);
      DayRowsConserve(ProxyLogs(logs, end, end), HostOf, ProxyDetails, end);
      FilterSplit(logs, HostedIn(start, end - 1), HostedIn(end, end), HostedIn(start, end));
    }
  }

  lemma {:induction false} EventsOfRange(events: seq<MonitoringEvent>, start: int, end: int)
    ensures SumTotals(MonitoringDays(events), start, end) == |Events(events, start, end)|
    decreases end - start
  {
    if end < start {
      FilterMembers(events, HappenedIn(start, end));
    } else {
      EventsOfRange(events, start, end - 1);
      DayRowsConserve(Events(events, end, end), ScheduleOf, MonitoringDetails, end);
      FilterSplit(events, HappenedIn(start, end - 1), HappenedIn(end, end), HappenedIn(start, end));
    }
  }

  /** The attempts in the rows of a range add up to the logs with a host in the range, when the run is
      forced or found no rows there: nothing is counted twice and no log is left out. */
  lemma ProxyRangeConserves(table: seq<Row<string, ProxyDetail>>, logs: seq<ProxyLog>, start: int, end: int,
                            force: bool)
    requires force || forall d :: start <= d <= end ==> !HasDay(table, d)
    ensures Total(Between(Range(table, ProxyDays(logs), start, end, force).table, start, end)) ==
            |Filter(logs, (l: ProxyLog) => l.host.Some? && start * 86400 <= l.timestamp < (end + 1) * 86400)|
  {
    FilterCong(logs, HostedIn(start, end),
               (l: ProxyLog) => l.host.Some? && start * 86400 <= l.timestamp < (end + 1) * 86400);
    DaysAreDated(logs, []);
    RangeTotals(table, ProxyDays(logs), start, end, force);
    ProxyLogsOfRange(logs, start, end);
  }

  /** The same for the checks in the monitoring rows. */
  lemma MonitoringRangeConserves(table: seq<Row<int, MonitoringDetail>>, events: seq<MonitoringEvent>, start: int,
                                 end: int, force: bool)
    requires force || forall d :: start <= d <= end ==> !HasDay(table, d)
    ensures Total(Between(Range(table, MonitoringDays(events), start, end, force).table, start, end)) ==
            |Filter(events, (e: MonitoringEvent) => start * 86400 <= e.timestamp < (end + 1) * 86400)|
  {
    FilterCong(events, HappenedIn(start, end),
               (e: MonitoringEvent) => start * 86400 <= e.timestamp < (end + 1) * 86400);
    DaysAreDated([], events);
    RangeTotals(table, MonitoringDays(events), start, end, force);
    EventsOfRange(events, start, end);
  }

  // ---- one row -----------------------------------------------------------------------------

  lemma {:induction false} SuccessesAndFailures(logs: seq<ProxyLog>)
    requires forall l :: l in logs ==> l.success in {0, 1}
    ensures SumSuccess(logs) + |Filter(logs, Failed)| == |logs|
  {
    if logs != [] {
      var front, last := logs[..|logs| - 1], logs[|logs| - 1];
      SuccessesAndFailures(front);
      assert logs == front + [last];
      FilterAppend(front, [last], Failed);
      assert [last][1..] == [];
    }
  }

  function SumCounts(errors: seq<(string, nat)>): nat {
    if errors == [] then 0 else SumCounts(errors[..|errors| - 1]) + errors[|errors| - 1].1
  }

  lemma {:induction false} ErrorCounts(types: seq<string>, failed: seq<ProxyLog>)
    requires Distinct(types)
    ensures SumCounts(CountTypes(types, failed)) == |Filter(failed, KeyIn(ErrorOf, types))|
  {
    var counts := CountTypes(types, failed);
    if types == [] {
      FilterMembers(failed, KeyIn(ErrorOf, types));
    } else {
      var front, k := types[..|types| - 1], types[|types| - 1];
      assert counts[..|counts| - 1] == CountTypes(front, failed) && types == front + [k];
      ErrorCounts(front, failed);
      FilterSplit(failed, KeyIn(ErrorOf, front), KeyIs(ErrorOf, k), KeyIn(ErrorOf, types));
    }
  }

  lemma {:induction false} FilterShrinks<L>(s: seq<L>, p: L -> bool, q: L -> bool)
    requires forall x :: x in s ==> p(x) ==> q(x)
    ensures |Filter(s, p)| <= |Filter(s, q)|
  {
    if s != [] { FilterShrinks(s[1..], p, q); }
  }

  /** With the success flag 0 or 1, a proxy row's successes and failures make up its attempts, and its
      error types count exactly the failures that carry one, so never more than the failures. */
  lemma ProxyRowAddsUp(logs: seq<ProxyLog>, date: int, r: Row<string, ProxyDetail>)
    requires r in ProxyRows(logs, date) && forall l :: l in logs ==> l.success in {0, 1}
    ensures r.detail.successCount + r.detail.failCount == r.total
    ensures SumCounts(r.detail.errors) <= r.detail.failCount
    ensures SumCounts(r.detail.errors) == |FailedWithType(Group(ProxyLogs(logs, date, date), HostOf, r.key))|
  {
    var day := ProxyLogs(logs, date, date);
    var g := Group(day, HostOf, r.key);
    FilterMembers(logs, HostedIn(date, date));
    FilterMembers(day, KeyIs(HostOf, r.key));
    assert r.total == |g| && r.detail == ProxyDetails(g);
    SuccessesAndFailures(g);
    var failed := FailedWithType(g);
    KeysCover(failed, ErrorOf);
    ErrorCounts(Keys(failed, ErrorOf), failed);
    FilterMembers(failed, KeyIn(ErrorOf, Keys(failed, ErrorOf)));
    FilterShrinks(g, FailedTyped, Failed);
  }

  lemma {:induction false} LogOfKey<L, K>(logs: seq<L>, key: L -> K, k: K) returns (l: L)
    requires k in Keys(logs, key)
    ensures l in logs && key(l) == k
  {
    var front, last := logs[..|logs| - 1], logs[|logs| - 1];
    assert logs == front + [last];
    if k in Keys(front, key) { l := LogOfKey(front, key, k); } else { l := last; }
  }

  /** A day has one row per key, and no row without logs. */
  lemma OneRowPerKey<L, K, V>(logs: seq<L>, key: L -> K, detail: seq<L> -> V, date: int)
    ensures var rows := DayRows(logs, key, detail, date);
            && (forall i, j :: 0 <= i < j < |rows| ==> rows[i].key != rows[j].key)
            && (forall i :: 0 <= i < |rows| ==> rows[i].total > 0)
            && (forall l :: l in logs ==> exists i :: 0 <= i < |rows| && rows[i].key == key(l))
  {
    KeysCover(logs, key);
    var keys, rows := Keys(logs, key), DayRows(logs, key, detail, date);
    forall i | 0 <= i < |rows| ensures rows[i].total > 0 {
      assert keys[i] in keys;
      var l := LogOfKey(logs, key, keys[i]);
      FilterMembers(logs, KeyIs(key, keys[i]));
      assert l in Group(logs, key, keys[i]) && rows[i].total == |Group(logs, key, keys[i])|;
    }
    forall l | l in logs ensures exists i :: 0 <= i < |rows| && rows[i].key == key(l) {
      var i :| 0 <= i < |keys| && keys[i] == key(l);
      assert rows[i].key == key(l);
    }
  }

  function HasStatus(status: string): MonitoringEvent -> bool {
    (e: MonitoringEvent) => e.status == status
  }

  lemma {:induction false} StatusesApart(events: seq<MonitoringEvent>)
    ensures |Filter(events, HasStatus("success"))| + |Filter(events, HasStatus("error"))|
            + |Filter(events, HasStatus("available"))| <= |events|
  {
    if events != [] { StatusesApart(events[1..]); }
  }

  /** The counted outcomes of a monitoring row exclude each other, so they never exceed its checks. */
  lemma MonitoringRowAddsUp(events: seq<MonitoringEvent>, date: int, r: Row<int, MonitoringDetail>)
    requires r in MonitoringRows(events, date)
    ensures r.detail.successCount + r.detail.errorCount + r.detail.availableDetected <= r.total
    ensures r.detail.bookingTriggered <= r.total && r.detail.bookingSuccess <= r.total
  {
    var g := Group(Events(events, date, date), ScheduleOf, r.key);
    assert r.total == |g| && r.detail == MonitoringDetails(g);
    StatusesApart(g);
    FilterMembers(g, Triggered);
    FilterMembers(g, Booked);
  }

  // ---- the rows in plain counts ----------------------------------------------------------------

  function ProxyLogsFor(logs: seq<ProxyLog>, date: int, host: string): seq<ProxyLog> {
    Filter(logs, (l: ProxyLog) => l.host == Some(host) && date * 86400 <= l.timestamp < (date + 1) * 86400)
  }

  function EventsFor(events: seq<MonitoringEvent>, date: int, scheduleId: int): seq<MonitoringEvent> {
    Filter(events,
           (e: MonitoringEvent) => e.scheduleId == scheduleId && date * 86400 <= e.timestamp < (date + 1) * 86400)
  }

  lemma ProxyGroup(logs: seq<ProxyLog>, date: int, host: string)
    ensures Group(ProxyLogs(logs, date, date), HostOf, host) == ProxyLogsFor(logs, date, host)
  {
    var p := (l: ProxyLog) => HostedIn(date, date)(l) && KeyIs(HostOf, host)(l);
    FilterTwice(logs, HostedIn(date, date), KeyIs(HostOf, host), p);
    FilterCong(logs, p, (l: ProxyLog) => l.host == Some(host) && date * 86400 <= l.timestamp < (date + 1) * 86400);
  }

  lemma EventGroup(events: seq<MonitoringEvent>, date: int, id: int)
    ensures Group(Events(events, date, date), ScheduleOf, id) == EventsFor(events, date, id)
  {
    var p := (e: MonitoringEvent) => HappenedIn(date, date)(e) && KeyIs(ScheduleOf, id)(e);
    FilterTwice(events, HappenedIn(date, date), KeyIs(ScheduleOf, id), p);
    FilterCong(events, p,
               (e: MonitoringEvent) => e.scheduleId == id && date * 86400 <= e.timestamp < (date + 1) * 86400);
  }

  function Successes(logs: seq<ProxyLog>): int {
    if logs == [] then 0 else logs[0].success + Successes(logs[1..])
  }

  lemma {:induction false} SuccessesSum(logs: seq<ProxyLog>)
    ensures SumSuccess(logs) == Successes(logs)
  {
    if |logs| > 1 {
      var front, last := logs[..|logs| - 1], logs[|logs| - 1];
      SuccessesSum(front);
      SuccessesSum(logs[1..]);
      assert front[1..] == logs[1..][..|logs| - 2];
      SuccessesSum(front[1..]);
    } else if |logs| == 1 {
      assert logs[1..] == [] && logs[..0] == [];
    }
  }

  /** The statistics row of a host on a day, from that host's logs of that day: attempts, sum of the success flags,
      failures, and every error type of a failure once with its count. */
  lemma ProxyRowTells(logs: seq<ProxyLog>, date: int, r: Row<string, ProxyDetail>)
    requires r in ProxyRows(logs, date)
    ensures var own := ProxyLogsFor(logs, date, r.key);
            && r.date == date && r.total == |own| > 0
            && r.detail.successCount == Successes(own)
            && r.detail.failCount == |Filter(own, (l: ProxyLog) => l.success == 0)|
            && (forall e :: e in r.detail.errors ==>
                  e.1 == |Filter(own, (l: ProxyLog) => l.success == 0 && l.errorType == Some(e.0))| && e.1 > 0)
            && (forall i, j :: 0 <= i < j < |r.detail.errors| ==> r.detail.errors[i].0 != r.detail.errors[j].0)
            && (forall l :: l in own && l.success == 0 && l.errorType.Some? ==>
                  exists e :: e in r.detail.errors && e.0 == l.errorType.value)
  {
    var own := ProxyLogsFor(logs, date, r.key);
    ProxyGroup(logs, date, r.key);
    RowOfKey(ProxyLogs(logs, date, date), HostOf, ProxyDetails, date, r);
    SuccessesSum(own);
    FilterCong(own, Failed, (l: ProxyLog) => l.success == 0);
    ErrorTypesTell(own);
  }

  lemma ErrorTypesTell(own: seq<ProxyLog>)
    ensures var errors := ErrorTypes(own);
            && (forall e :: e in errors ==>
                  e.1 == |Filter(own, (l: ProxyLog) => l.success == 0 && l.errorType == Some(e.0))| && e.1 > 0)
            && (forall i, j :: 0 <= i < j < |errors| ==> errors[i].0 != errors[j].0)
            && (forall l :: l in own && l.success == 0 && l.errorType.Some? ==>
                  exists e :: e in errors && e.0 == l.errorType.value)
  {
    var failed, errors := FailedWithType(own), ErrorTypes(own);
    var types := Keys(failed, ErrorOf);
    KeysCover(failed, ErrorOf);
    FilterMembers(own, FailedTyped);
    forall i | 0 <= i < |errors|
      ensures errors[i].1 == |Filter(own, (l: ProxyLog) => l.success == 0 && l.errorType == Some(errors[i].0))|
      ensures errors[i].1 > 0
    {
      ErrorTypeCount(own, types[i]);
      var l := LogOfKey(failed, ErrorOf, types[i]);
      FilterMembers(failed, KeyIs(ErrorOf, types[i]));
      assert l in Group(failed, ErrorOf, types[i]);
    }
    forall l | l in own && l.success == 0 && l.errorType.Some?
      ensures exists e :: e in errors && e.0 == l.errorType.value
    {
      assert l in failed && ErrorOf(l) in types;
      var i :| 0 <= i < |types| && types[i] == ErrorOf(l);
      assert errors[i] in errors;
    }
  }

  lemma ErrorTypeCount(own: seq<ProxyLog>, t: string)
    ensures Group(FailedWithType(own), ErrorOf, t) ==
            Filter(own, (l: ProxyLog) => l.success == 0 && l.errorType == Some(t))
  {
    var p := (l: ProxyLog) => FailedTyped(l) && KeyIs(ErrorOf, t)(l);
    FilterTwice(own, FailedTyped, KeyIs(ErrorOf, t), p);
    FilterCong(own, p, (l: ProxyLog) => l.success == 0 && l.errorType == Some(t));
  }

  /** Every host with logs on a day has its row, and only those. */
  lemma ProxyHostsHaveRows(logs: seq<ProxyLog>, date: int, host: string)
    ensures ProxyLogsFor(logs, date, host) != [] <==> exists r :: r in ProxyRows(logs, date) && r.key == host
  {
    ProxyGroup(logs, date, host);
    RowsOfKeys(ProxyLogs(logs, date, date), HostOf, ProxyDetails, date, host);
  }

  lemma SchedulesHaveRows(events: seq<MonitoringEvent>, date: int, id: int)
    ensures EventsFor(events, date, id) != [] <==> exists r :: r in MonitoringRows(events, date) && r.key == id
  {
    EventGroup(events, date, id);
    RowsOfKeys(Events(events, date, date), ScheduleOf, MonitoringDetails, date, id);
  }

  lemma RowOfKey<L, K, V>(logs: seq<L>, key: L -> K, detail: seq<L> -> V, date: int, r: Row<K, V>)
    requires r in DayRows(logs, key, detail, date)
    ensures var g := Group(logs, key, r.key); r == Row(date, r.key, |g|, detail(g)) && |g| > 0
  {
    OneRowPerKey(logs, key, detail, date);
    var keys, rows := Keys(logs, key), DayRows(logs, key, detail, date);
    var i :| 0 <= i < |rows| && rows[i] == r;
    assert rows[i].key == keys[i];
  }

  lemma RowsOfKeys<L, K, V>(logs: seq<L>, key: L -> K, detail: seq<L> -> V, date: int, k: K)
    ensures Group(logs, key, k) != [] <==> exists r :: r in DayRows(logs, key, detail, date) && r.key == k
  {
    var keys, rows := Keys(logs, key), DayRows(logs, key, detail, date);
    KeysCover(logs, key);
    FilterMembers(logs, KeyIs(key, k));
    if Group(logs, key, k) != [] {
      assert Group(logs, key, k)[0] in Group(logs, key, k);
      var i :| 0 <= i < |keys| && keys[i] == k;
      assert rows[i] in rows && rows[i].key == k;
    }
    if r :| r in rows && r.key == k {
      var l := LogOfKey(logs, key, k);
      assert l in Group(logs, key, k);
    }
  }

  /** The statistics row of a schedule on a day, from that schedule's events of that day. */
  lemma MonitoringRowTells(events: seq<MonitoringEvent>, date: int, r: Row<int, MonitoringDetail>)
    requires r in MonitoringRows(events, date)
    ensures var own := EventsFor(events, date, r.key);
            && r.date == date && r.total == |own| > 0
            && r.detail.successCount == |Filter(own, (e: MonitoringEvent) => e.status == "success")|
            && r.detail.errorCount == |Filter(own, (e: MonitoringEvent) => e.status == "error")|
            && r.detail.availableDetected == |Filter(own, (e: MonitoringEvent) => e.status == "available")|
            && r.detail.bookingTriggered == |Filter(own, (e: MonitoringEvent) => e.bookingTriggered)|
            && r.detail.bookingSuccess == |Filter(own, (e: MonitoringEvent) => e.bookingSuccess == Some(true))|
  {
    var own := EventsFor(events, date, r.key);
    EventGroup(events, date, r.key);
    RowOfKey(Events(events, date, date), ScheduleOf, MonitoringDetails, date, r);
    FilterCong(own, HasStatus("success"), (e: MonitoringEvent) => e.status == "success");
    FilterCong(own, HasStatus("error"), (e: MonitoringEvent) => e.status == "error");
    FilterCong(own, HasStatus("available"), (e: MonitoringEvent) => e.status == "available");
    FilterCong(own, Triggered, (e: MonitoringEvent) => e.bookingTriggered);
    FilterCong(own, Booked, (e: MonitoringEvent) => e.bookingSuccess == Some(true));
  }
}
