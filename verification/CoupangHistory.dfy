/** The pairing routine itself: monitoring events in, published rows out. */
module CoupangHistory {
  import opened Options
  import opened CoupangText
  import opened CoupangSlot
  import opened CoupangWorld
  import opened Numbers
  import opened StableSort

  /** A slot as parsed from the event: label normalised, sale status trimmed and upper-cased,
      stock count present when it reads as an integer. */
  datatype RawSlot = RawSlot(optionLabel: string, timeLabel: Option<string>, saleStatus: string,
                             stockCount: Option<int>)

  /** `isoDay` and `dashDay` are the day numbers that `date.fromisoformat` and
      `strptime(..., "%Y-%m-%d")` read from `date`, absent when they raise. */
  datatype Schedule = Schedule(date: Option<string>, isoDay: Option<int>, dashDay: Option<int>,
                               bizItemName: Option<string>, businessName: Option<string>)

  datatype Event = Event(id: nat, timestamp: int, scheduleId: Option<nat>, schedule: Option<Schedule>,
                         slots: seq<RawSlot>)

  const DAY := 86400

  function IsAvailable(slot: RawSlot): bool {
    var stock := if slot.stockCount.Some? then slot.stockCount.value else 0;
    stock > 0 || slot.saleStatus in {"AVAILABLE", "ON_SALE", "SALE"}
  }

  predicate Blank(text: Option<string>) { text.None? || text.value == "" }

  predicate ShouldInclude(schedule: Option<Schedule>, now: int) {
    && schedule.Some? && !Blank(schedule.value.date)
    && schedule.value.isoDay.Some? && schedule.value.isoDay.value > now / DAY
  }

  function ObservationEnd(schedule: Schedule, now: int): int {
    if Blank(schedule.date) || schedule.dashDay.None? then now
    else Min(now, schedule.dashDay.value * DAY - 60)
  }

  /** A schedule is shown exactly while its day has not begun. */
  lemma IncludedMeansNotBegun(schedule: Schedule, now: int)
    requires !Blank(schedule.date)
    ensures ShouldInclude(Some(schedule), now) <==> schedule.isoDay.Some? && now < schedule.isoDay.value * 86400
  {
  }

  /** Open rows of a schedule that is shown are measured up to now, or to a minute before its day begins if that
      is earlier; without a readable day up to now. */
  lemma MeasuredUntil(schedule: Schedule, now: int)
    requires !Blank(schedule.date)
    ensures var end := ObservationEnd(schedule, now);
            if schedule.dashDay.None? then end == now
            else
              && end <= now && end <= schedule.dashDay.value * 86400 - 60
              && (end == now || end == schedule.dashDay.value * 86400 - 60)
  {
  }

  function Observed(e: Event, slot: RawSlot, now: int): Observation
    requires e.schedule.Some?
  {
    var sch := e.schedule.value;
    Observation(SlotKey(e.scheduleId, sch.date, slot.optionLabel),
                Listing(e.scheduleId, sch.date, sch.bizItemName, sch.businessName, slot.optionLabel, slot.timeLabel),
                IsAvailable(slot), slot.stockCount, e.timestamp, e.id, ObservationEnd(sch, now))
  }

  /** The observations an event makes: one per labelled slot, in order. */
  function SlotObservations(e: Event, slots: seq<RawSlot>, now: int): seq<Observation>
    requires e.schedule.Some?
  {
    if slots == [] then [] else
      var front, last := slots[..|slots| - 1], slots[|slots| - 1];
      SlotObservations(e, front, now) + if last.optionLabel == "" then [] else [Observed(e, last, now)]
  }

  function EventObservations(e: Event, now: int): seq<Observation> {
    if ShouldInclude(e.schedule, now) then SlotObservations(e, e.slots, now) else []
  }

  function Observations(events: seq<Event>, now: int): seq<Observation> {
    if events == [] then []
    else Observations(events[..|events| - 1], now) + EventObservations(events[|events| - 1], now)
  }

  // ---- one slot's mutable state -----------------------------------------------------

  class SlotState {
    const slotKey: string
    var about: Listing
    var isAvailable: bool
    var stockCount: Option<int>
    var cutoff: int
    var pendingOpens: seq<Open>
    var nextOpenOrdinal: nat

    ghost function View(): Slot
      reads this
    {
      Slot(slotKey, about, isAvailable, stockCount, cutoff, pendingOpens, nextOpenOrdinal)
    }

    constructor (o: Observation)
      ensures View() == Start(o)
    {
      slotKey, about, isAvailable, stockCount, cutoff := o.key, o.about, o.available, o.stock, o.cutoff;
      pendingOpens, nextOpenOrdinal := [], 0;
    }

    method EnqueuePendingOpen(openedAt: int, openEventId: nat)
      modifies this`nextOpenOrdinal, this`pendingOpens
      ensures nextOpenOrdinal == old(nextOpenOrdinal) + 1
      ensures pendingOpens == old(pendingOpens) + [Open(openedAt, openEventId, old(nextOpenOrdinal) + 1)]
    {
      nextOpenOrdinal := nextOpenOrdinal + 1;
      pendingOpens := pendingOpens + [Open(openedAt, openEventId, nextOpenOrdinal)];
    }

    method EnqueueMany(count: nat, openedAt: int, openEventId: nat)
      modifies this`nextOpenOrdinal, this`pendingOpens
      ensures nextOpenOrdinal == old(nextOpenOrdinal) + count
      ensures pendingOpens == old(pendingOpens) + NewOpens(count, openedAt, openEventId, old(nextOpenOrdinal))
    {
      for i := 0 to count
        invariant nextOpenOrdinal == old(nextOpenOrdinal) + i
        invariant pendingOpens == old(pendingOpens) + NewOpens(i, openedAt, openEventId, old(nextOpenOrdinal))
      {
        EnqueuePendingOpen(openedAt, openEventId);
      }
    }

    /** Closes up to `closeCount` pending opens, oldest first; a negative count closes none. */
    method ClosePendingOpens(rows: seq<Row>, closeCount: int, closedAt: int) returns (rows': seq<Row>, closedRows: nat)
      modifies this`pendingOpens
      ensures closedRows == Min(Max(closeCount, 0), |old(pendingOpens)|)
      ensures rows' == rows + ClosedRows(old(View()), closedRows, closedAt)
      ensures pendingOpens == old(pendingOpens)[closedRows..]
    {
      hide HistoryId, ClosedRow;
      rows', closedRows := rows, 0;
      while closedRows < Max(closeCount, 0)
        invariant closedRows <= Max(closeCount, 0) && closedRows <= |old(pendingOpens)|
        invariant pendingOpens == old(pendingOpens)[closedRows..]
        invariant rows' == rows + ClosedRows(old(View()), closedRows, closedAt)
      {
        if pendingOpens == [] { break; }
        var opening := pendingOpens[0];
        assert opening == old(pendingOpens)[closedRows];
        pendingOpens := pendingOpens[1..];
        closedRows := closedRows + 1;
        rows' := rows' + [ClosedRow(slotKey, about, opening, closedAt)];
      }
    }

    /** What the loop body does to a slot that is already known. */
    method Update(rows: seq<Row>, o: Observation) returns (rows': seq<Row>)
      requires o.key == slotKey
      modifies this
      ensures View() == Step(old(View()), o).0
      ensures rows' == rows + Step(old(View()), o).1
    {
      rows' := rows;
      var prevAvailable, prevStock := isAvailable, stockCount;
      var closedRows := 0;
      if !prevAvailable && o.available {
        var openCount := if o.stock.Some? && o.stock.value > 0 then o.stock.value else 0;
        EnqueueMany(openCount, o.at, o.eventId);
      } else if prevAvailable && o.stock.Some? && prevStock.Some? {
        var delta := o.stock.value - prevStock.value;
        if delta > 0 && o.available {
          EnqueueMany(delta, o.at, o.eventId);
        } else if delta < 0 {
          rows', closedRows := ClosePendingOpens(rows', -delta, o.at);
        }
      } else if prevAvailable && !o.available {
        var closeCount := |pendingOpens|;
        if o.stock.Some? && prevStock.Some? {
          assert false; // the branch above has taken every pair of known stocks
        }
        rows', closedRows := ClosePendingOpens(rows', closeCount, o.at);
      }
      about, isAvailable, stockCount, cutoff := o.about, o.available, o.stock, o.cutoff;
    }

    method DrainOpen(rows: seq<Row>) returns (rows': seq<Row>)
      modifies this`pendingOpens
      ensures rows' == rows + OpenRows(old(View())) && pendingOpens == []
    {
      rows' := rows;
      ghost var n := 0;
      while pendingOpens != []
        invariant n <= |old(pendingOpens)| && pendingOpens == old(pendingOpens)[n..]
        invariant rows' == rows + OpenRows(old(View()))[..n]
        decreases |pendingOpens|
      {
        var opening := pendingOpens[0];
        assert opening == old(pendingOpens)[n];
        assert OpenRows(old(View()))[..n + 1] ==
               OpenRows(old(View()))[..n] + [OpenRow(slotKey, about, opening, cutoff)];
        pendingOpens := pendingOpens[1..];
        rows' := rows' + [OpenRow(slotKey, about, opening, cutoff)];
        n := n + 1;
      }
      assert OpenRows(old(View()))[..n] == OpenRows(old(View()));
    }
  }

  // ---- the dictionary of slots --------------------------------------------------------

  /** The dictionary holds one object per slot, and each object shows what the fold says. */
  ghost predicate Shows(order: seq<string>, slotState: map<string, SlotState>, rows: seq<Row>, w: World)
    reads slotState.Values
  {
    && order == w.order && rows == w.closed
    && slotState.Keys == w.slots.Keys
    && (forall k :: k in slotState ==> slotState[k].View() == w.slots[k])
    && (forall k, k' :: k in slotState && k' in slotState && k != k' ==> slotState[k] != slotState[k'])
    && (forall k :: k in slotState ==> slotState[k].slotKey == k)
  }

  method Accept(order: seq<string>, slotState: map<string, SlotState>, rows: seq<Row>, o: Observation, ghost w: World)
    returns (order': seq<string>, slotState': map<string, SlotState>, rows': seq<Row>)
    requires Shows(order, slotState, rows, w)
    modifies slotState.Values
    ensures Shows(order', slotState', rows', Observe(w, o))
    ensures forall k :: k in slotState' ==> slotState'[k] in slotState.Values || fresh(slotState'[k])
  {
    order', slotState', rows' := order, slotState, rows;
    if o.key !in slotState {
      var state := new SlotState(o);
      order', slotState' := order + [o.key], slotState[o.key := state];
      return;
    }
    rows' := slotState[o.key].Update(rows, o);
    assert slotState[o.key] in slotState.Values;
  }

  ghost function ObserveAll(w: World, obs: seq<Observation>): World {
    if obs == [] then w else Observe(ObserveAll(w, obs[..|obs| - 1]), obs[|obs| - 1])
  }

  lemma {:induction false} ReplayAppend(a: seq<Observation>, b: seq<Observation>)
    ensures Replay(a + b) == ObserveAll(Replay(a), b)
  {
    if b == [] {
      assert a + b == a;
    } else {
      assert (a + b)[..|a + b| - 1] == a + b[..|b| - 1];
      ReplayAppend(a, b[..|b| - 1]);
    }
  }

  lemma SlotObservationsSnoc(e: Event, slots: seq<RawSlot>, now: int, w: World)
    requires slots != [] && e.schedule.Some?
    ensures var before := ObserveAll(w, SlotObservations(e, slots[..|slots| - 1], now)); var last := slots[|slots| - 1];
            ObserveAll(w, SlotObservations(e, slots, now)) ==
            if last.optionLabel == "" then before else Observe(before, Observed(e, last, now))
  {
    var front := SlotObservations(e, slots[..|slots| - 1], now);
    assert front + [] == front;
    assert forall o :: (front + [o])[..|front|] == front;
  }

  lemma NoSlots(e: Event, now: int, w: World)
    requires e.schedule.Some?
    ensures ObserveAll(w, SlotObservations(e, e.slots[..0], now)) == w
  {
  }

  /** The inner loop: every labelled slot of one event. */
  method AcceptEvent(order: seq<string>, slotState: map<string, SlotState>, rows: seq<Row>, event: Event, now: int,
                     ghost w: World)
    returns (order': seq<string>, slotState': map<string, SlotState>, rows': seq<Row>)
    requires event.schedule.Some? && Shows(order, slotState, rows, w)
    modifies slotState.Values
    ensures Shows(order', slotState', rows', ObserveAll(w, SlotObservations(event, event.slots, now)))
    ensures forall k :: k in slotState' ==> slotState'[k] in slotState.Values || fresh(slotState'[k])
  {
    hide Observe, ObserveAll, SlotObservations, Shows;
    order', slotState', rows' := order, slotState, rows;
    ghost var w' := w;
    NoSlots(event, now, w);
    for j := 0 to |event.slots|
      invariant w' == ObserveAll(w, SlotObservations(event, event.slots[..j], now))
      invariant Shows(order', slotState', rows', w')
      invariant forall k :: k in slotState' ==> slotState'[k] in slotState.Values || fresh(slotState'[k])
    {
      var slot := event.slots[j];
      SlotObservationsSnoc(event, event.slots[..j + 1], now, w);
      assert event.slots[..j + 1][..j] == event.slots[..j];
      if slot.optionLabel == "" { continue; }
      var o := Observed(event, slot, now);
      order', slotState', rows' := Accept(order', slotState', rows', o, w');
      w' := Observe(w', o);
    }
    assert event.slots[..|event.slots|] == event.slots;
  }

  lemma EventSnoc(events: seq<Event>, i: nat, now: int)
    requires i < |events|
    ensures var before := Replay(Observations(events[..i], now));
            Replay(Observations(events[..i + 1], now)) ==
            if ShouldInclude(events[i].schedule, now)
            then ObserveAll(before, SlotObservations(events[i], events[i].slots, now))
            else before
  {
    assert events[..i + 1][..i] == events[..i];
    ReplayAppend(Observations(events[..i], now), EventObservations(events[i], now));
  }

  lemma NothingSeen(events: seq<Event>, now: int)
    ensures Shows([], map[], [], Replay(Observations(events[..0], now)))
  {
  }

  /** Pairs opens and closes per slot and publishes the rows newest first. */
  method ComputePublicHistoryPairs(events: seq<Event>, now: int) returns (published: seq<Row>)
    ensures published == Published(Observations(events, now))
  {
    var order: seq<string>, slotState: map<string, SlotState>, rows: seq<Row> := [], map[], [];
    NothingSeen(events, now);
    for i := 0 to |events|
      invariant Shows(order, slotState, rows, Replay(Observations(events[..i], now)))
      invariant forall k :: k in slotState ==> fresh(slotState[k])
    {
      hide Observe, ObserveAll, SlotObservations, Shows, Replay, Observations;
      var event := events[i];
      EventSnoc(events, i, now);
      if !ShouldInclude(event.schedule, now) { continue; }
      order, slotState, rows := AcceptEvent(order, slotState, rows, event, now, Replay(Observations(events[..i], now)));
    }
    assert events[..|events|] == events;
    ReplayConsistent(Observations(events, now));
    rows := DrainAll(order, slotState, rows, Replay(Observations(events, now)));
    published := Sort(rows, NewestFirst);
  }

  function AllOpenRows(slots: seq<Slot>): seq<Row> {
    if slots == [] then [] else AllOpenRows(slots[..|slots| - 1]) + OpenRows(slots[|slots| - 1])
  }

  lemma AllOpenRowsSnoc(slots: seq<Slot>, n: nat)
    requires n < |slots|
    ensures AllOpenRows(slots[..n + 1]) == AllOpenRows(slots[..n]) + OpenRows(slots[n])
  {
    assert slots[..n + 1][..n] == slots[..n];
  }

  lemma {:induction false} AllOpenRowsCons(slots: seq<Slot>)
    requires slots != []
    ensures AllOpenRows(slots) == OpenRows(slots[0]) + AllOpenRows(slots[1..])
  {
    hide OpenRows;
    if |slots| == 1 {
      assert slots[..0] == [] && slots[1..] == [];
    } else {
      var front, last := slots[..|slots| - 1], slots[|slots| - 1];
      AllOpenRowsCons(front);
      assert slots[1..][..|slots| - 2] == front[1..];
      ConcatAssociates(OpenRows(slots[0]), AllOpenRows(front[1..]), OpenRows(last));
    }
  }

  lemma {:induction false} OpenRowsByOrder(order: seq<string>, slots: map<string, Slot>, views: seq<Slot>)
    requires |views| == |order| && forall i :: 0 <= i < |order| ==> order[i] in slots && views[i] == slots[order[i]]
    ensures OpenRowsInOrder(order, slots) == AllOpenRows(views)
  {
    if order != [] {
      OpenRowsByOrder(order[1..], slots, views[1..]);
      AllOpenRowsCons(views);
    }
  }

  /** The finishing loop over `slot_state.values()`. */
  method DrainStates(states: seq<SlotState>, rows: seq<Row>, ghost views: seq<Slot>) returns (rows': seq<Row>)
    requires Distinct(states) && |views| == |states| && forall i :: 0 <= i < |states| ==> states[i].View() == views[i]
    modifies states
    ensures rows' == rows + AllOpenRows(views)
  {
    assert AllOpenRows(views[..0]) == [] && rows + [] == rows;
    hide OpenRows, AllOpenRows;
    rows' := rows;
    for i := 0 to |states|
      invariant rows' == rows + AllOpenRows(views[..i])
      invariant forall j :: i <= j < |states| ==> states[j].View() == views[j]
    {
      assert forall j :: i < j < |states| ==> states[j] != states[i];
      AllOpenRowsSnoc(views, i);
      ConcatAssociates(rows, AllOpenRows(views[..i]), OpenRows(views[i]));
      rows' := states[i].DrainOpen(rows');
    }
    assert views[..|states|] == views;
  }

  /** The slot objects in the order of the dictionary, and what they show. */
  method StatesInOrder(order: seq<string>, slotState: map<string, SlotState>, rows: seq<Row>, ghost w: World)
    returns (states: seq<SlotState>, ghost views: seq<Slot>)
    requires Shows(order, slotState, rows, w) && Consistent(w)
    ensures Distinct(states) && |views| == |states| == |order|
    ensures forall i :: 0 <= i < |states| ==>
              && order[i] in w.slots && states[i] in slotState.Values
              && states[i].View() == views[i] == w.slots[order[i]]
  {
    states := seq(|order|, i requires 0 <= i < |order| && order[i] in slotState => slotState[order[i]]);
    views := seq(|order|, i requires 0 <= i < |order| && order[i] in w.slots => w.slots[order[i]]);
    forall i | 0 <= i < |order|
      ensures order[i] in w.slots && states[i] in slotState.Values && states[i].View() == views[i]
    {
      assert order[i] in w.order;
    }
  }

  method DrainAll(order: seq<string>, slotState: map<string, SlotState>, rows: seq<Row>, ghost w: World)
    returns (rows': seq<Row>)
    requires Shows(order, slotState, rows, w) && Consistent(w)
    modifies slotState.Values
    ensures rows' == w.closed + OpenRowsInOrder(w.order, w.slots)
  {
    var states, views := StatesInOrder(order, slotState, rows, w);
    OpenRowsByOrder(order, w.slots, views);
    rows' := DrainStates(states, rows, views);
  }

  // ---- what the published history says ------------------------------------------------

  lemma {:induction false} SlotObservationsOf(e: Event, slots: seq<RawSlot>, now: int)
    requires e.schedule.Some?
    ensures forall o :: o in SlotObservations(e, slots, now) ==> o.at == e.timestamp
    ensures forall o :: o in SlotObservations(e, slots, now) <==>
              exists r :: r in slots && r.optionLabel != "" && o == Observed(e, r, now)
  {
    if slots != [] {
      var front, last := slots[..|slots| - 1], slots[|slots| - 1];
      SlotObservationsOf(e, front, now);
      assert slots == front + [last];
    }
  }

  /** The number of rows labelled "open now". */
  function OpenNow(rows: seq<Row>): nat {
    |Filter(rows, (r: Row) => r.closedAt.None?)|
  }

  /** Schedules whose day has not begun, slots with a label. */
  predicate Counts(e: Event, r: RawSlot, now: int) {
    && e.schedule.Some? && !Blank(e.schedule.value.date)
    && e.schedule.value.isoDay.Some? && now < e.schedule.value.isoDay.value * 86400
    && r.optionLabel != ""
  }

  /** `o` is what the slot `r` of the event `e` shows. */
  ghost predicate Reads(e: Event, r: RawSlot, now: int, o: Observation) {
    && e.schedule.Some?
    && var schedule := e.schedule.value;
    && o.key == SlotKey(e.scheduleId, schedule.date, r.optionLabel)
    && o.about.scheduleId == e.scheduleId && o.about.scheduleDate == schedule.date
    && o.about.bizItemName == schedule.bizItemName && o.about.businessName == schedule.businessName
    && o.about.optionLabel == r.optionLabel && o.about.timeLabel == r.timeLabel
    && (o.available <==>
        || (r.stockCount.Some? && r.stockCount.value > 0)
        || r.saleStatus == "AVAILABLE" || r.saleStatus == "ON_SALE" || r.saleStatus == "SALE")
    && o.stock == r.stockCount && o.at == e.timestamp && o.eventId == e.id
    && o.cutoff == ObservationEnd(schedule, now)
  }

  lemma ObservedReads(e: Event, r: RawSlot, now: int)
    requires e.schedule.Some?
    ensures Reads(e, r, now, Observed(e, r, now))
    ensures forall o :: Reads(e, r, now, o) ==> o == Observed(e, r, now)
    ensures ShouldInclude(e.schedule, now) && r.optionLabel != "" <==> Counts(e, r, now)
  {
  }

  /** The slots that count, up to one slot of one event. */
  function SlotsBefore(e: Event, j: nat, now: int): nat
    requires j <= |e.slots|
  {
    if j == 0 then 0 else SlotsBefore(e, j - 1, now) + if Counts(e, e.slots[j - 1], now) then 1 else 0
  }

  function EventsBefore(events: seq<Event>, i: nat, now: int): nat
    requires i <= |events|
  {
    if i == 0 then 0 else EventsBefore(events, i - 1, now) + SlotsBefore(events[i - 1], |events[i - 1].slots|, now)
  }

  lemma {:induction false} SlotObservationsInPlace(e: Event, n: nat, now: int)
    requires n <= |e.slots| && ShouldInclude(e.schedule, now)
    ensures |SlotObservations(e, e.slots[..n], now)| == SlotsBefore(e, n, now)
    ensures forall j :: 0 <= j < n && Counts(e, e.slots[j], now) ==>
              && SlotsBefore(e, j, now) < SlotsBefore(e, n, now)
              && SlotObservations(e, e.slots[..n], now)[SlotsBefore(e, j, now)] == Observed(e, e.slots[j], now)
  {
    if n > 0 {
      assert e.slots[..n][..n - 1] == e.slots[..n - 1];
      SlotObservationsInPlace(e, n - 1, now);
      ObservedReads(e, e.slots[n - 1], now);
      hide Observed, Counts, ShouldInclude;
    }
  }

  lemma {:induction false} NothingCounts(e: Event, n: nat, now: int)
    requires n <= |e.slots| && !ShouldInclude(e.schedule, now)
    ensures SlotsBefore(e, n, now) == 0
    ensures forall j :: 0 <= j < n ==> !Counts(e, e.slots[j], now)
  {
    if n > 0 {
      NothingCounts(e, n - 1, now);
      if e.schedule.Some? { ObservedReads(e, e.slots[n - 1], now); }
    }
  }

  lemma EventInPlace(e: Event, now: int)
    ensures |EventObservations(e, now)| == SlotsBefore(e, |e.slots|, now)
    ensures forall j :: 0 <= j < |e.slots| && Counts(e, e.slots[j], now) ==>
              && SlotsBefore(e, j, now) < SlotsBefore(e, |e.slots|, now)
              && Reads(e, e.slots[j], now, EventObservations(e, now)[SlotsBefore(e, j, now)])
  {
    assert e.slots[..|e.slots|] == e.slots;
    if ShouldInclude(e.schedule, now) {
      SlotObservationsInPlace(e, |e.slots|, now);
      forall j | 0 <= j < |e.slots| ensures Reads(e, e.slots[j], now, Observed(e, e.slots[j], now)) {
        ObservedReads(e, e.slots[j], now);
      }
      hide Reads, Observed, Counts;
    } else {
      NothingCounts(e, |e.slots|, now);
    }
  }

  lemma {:induction false} ObservationsCounted(events: seq<Event>, now: int, n: nat)
    requires n <= |events|
    ensures |Observations(events[..n], now)| == EventsBefore(events, n, now)
  {
    if n > 0 {
      assert events[..n][..n - 1] == events[..n - 1];
      ObservationsCounted(events, now, n - 1);
      EventInPlace(events[n - 1], now);
    }
  }

  lemma LastEventInPlace(events: seq<Event>, now: int, n: nat, j: nat)
    requires n < |events| && j < |events[n].slots| && Counts(events[n], events[n].slots[j], now)
    ensures var obs := Observations(events[..n + 1], now);
            var place := EventsBefore(events, n, now) + SlotsBefore(events[n], j, now);
            place < |obs| && Reads(events[n], events[n].slots[j], now, obs[place])
  {
    assert events[..n + 1][..n] == events[..n];
    assert Observations(events[..n + 1], now) == Observations(events[..n], now) + EventObservations(events[n], now);
    hide *;
    ObservationsCounted(events, now, n);
    EventInPlace(events[n], now);
  }

  lemma ObservationsGrow(events: seq<Event>, now: int, n: nat)
    requires n < |events|
    ensures Observations(events[..n], now) <= Observations(events[..n + 1], now)
  {
    assert events[..n + 1][..n] == events[..n];
  }

  /** The observations are exactly the slots that count, each once, event by event and slot by slot: slot j of
      event i is read at the place that the slots before it leave to it, and there is no other place. */
  lemma {:induction false} ObservationsInPlace(events: seq<Event>, now: int, n: nat, i: nat, j: nat)
    requires i < n <= |events| && j < |events[i].slots| && Counts(events[i], events[i].slots[j], now)
    ensures var obs := Observations(events[..n], now);
            var place := EventsBefore(events, i, now) + SlotsBefore(events[i], j, now);
            && |obs| == EventsBefore(events, n, now)
            && place < |obs| && Reads(events[i], events[i].slots[j], now, obs[place])
  {
    hide *;
    ObservationsCounted(events, now, n);
    if i < n - 1 {
      ObservationsInPlace(events, now, n - 1, i, j);
      ObservationsGrow(events, now, n - 1);
    } else {
      LastEventInPlace(events, now, i, j);
    }
  }

  lemma EventObservationsAt(e: Event, now: int)
    ensures forall o :: o in EventObservations(e, now) ==> e.schedule.Some? && o.at == e.timestamp
    ensures forall o :: o in EventObservations(e, now) ==>
              exists r :: r in e.slots && Counts(e, r, now) && Reads(e, r, now, o)
  {
    if ShouldInclude(e.schedule, now) {
      SlotObservationsOf(e, e.slots, now);
      forall r | r in e.slots ensures Reads(e, r, now, Observed(e, r, now)) { ObservedReads(e, r, now); }
    }
  }

  /** So an observation is made exactly when some slot that counts gives it. */
  lemma ObservationsOf(events: seq<Event>, now: int)
    ensures forall o :: o in Observations(events, now) <==>
              exists e, r :: e in events && r in e.slots && Counts(e, r, now) && Reads(e, r, now, o)
  {
    hide Reads, Counts, EventObservations;
    forall o | o in Observations(events, now)
      ensures exists e, r :: e in events && r in e.slots && Counts(e, r, now) && Reads(e, r, now, o)
    {
      ObservationHasEvent(events, now, o);
    }
    forall e, r, o | e in events && r in e.slots && Counts(e, r, now) && Reads(e, r, now, o)
      ensures o in Observations(events, now)
    {
      ObservationIsMade(events, now, e, r, o);
    }
  }

  lemma ObservationIsMade(events: seq<Event>, now: int, e: Event, r: RawSlot, o: Observation)
    requires e in events && r in e.slots && Counts(e, r, now) && Reads(e, r, now, o)
    ensures o in Observations(events, now)
  {
    var i :| 0 <= i < |events| && events[i] == e;
    var j :| 0 <= j < |e.slots| && e.slots[j] == r;
    assert events[..|events|] == events && e.schedule.Some?;
    ObservedReads(e, r, now);
    hide *;
    ObservationsInPlace(events, now, |events|, i, j);
  }

  lemma {:induction false} ObservationHasEvent(events: seq<Event>, now: int, o: Observation)
    requires o in Observations(events, now)
    ensures exists e, r :: e in events && r in e.slots && Counts(e, r, now) && Reads(e, r, now, o)
  {
    hide Reads, Counts, EventObservations;
    var front, last := events[..|events| - 1], events[|events| - 1];
    assert events == front + [last];
    EventObservationsAt(last, now);
    if o in Observations(front, now) { ObservationHasEvent(front, now, o); }
  }

  /** The query hands over events by time; their observations are then in time order too. */
  lemma {:induction false} ObservationsInTimeOrder(events: seq<Event>, now: int)
    requires forall i, j :: 0 <= i < j < |events| ==> events[i].timestamp <= events[j].timestamp
    ensures TimeOrdered(Observations(events, now))
    ensures forall o :: o in Observations(events, now) ==> o.at <= events[|events| - 1].timestamp
  {
    if events != [] {
      var front, e := events[..|events| - 1], events[|events| - 1];
      ObservationsInTimeOrder(front, now);
      EventObservationsAt(e, now);
    }
  }

  lemma {:induction false} SlotStreamInTimeOrder(obs: seq<Observation>, key: string)
    requires TimeOrdered(obs)
    ensures TimeOrdered(SlotStream(obs, key))
  {
    if obs != [] {
      var front, o := obs[..|obs| - 1], obs[|obs| - 1];
      SlotStreamInTimeOrder(front, key);
      SlotStreamSnoc(obs, key);
      SlotStreamOwn(front, key);
    }
  }

  /** Every published row is a row of its own slot's stream. */
  lemma PublishedRowOfSlot(obs: seq<Observation>, r: Row)
    requires r in Published(obs)
    ensures var own := SlotStream(obs, r.key);
            && own != [] && (forall o :: o in own ==> o.key == own[0].key) && r in Rows(own)
  {
    hide Unsorted, Rows, SlotStream, NewestFirst;
    SortPermutes(Unsorted(obs), NewestFirst);
    RowIsOfSlot(obs, r);
  }

  /** In the published history of events read in time order, every closed row lasted from its open
      to its close: the duration is the plain difference and is never negative. */
  lemma PublishedDurations(events: seq<Event>, now: int, r: Row)
    requires forall i, j :: 0 <= i < j < |events| ==> events[i].timestamp <= events[j].timestamp
    requires r in Published(Observations(events, now)) && r.closedAt.Some?
    ensures r.openedAt <= r.closedAt.value && r.closedFor == Some(r.closedAt.value - r.openedAt)
  {
    var obs := Observations(events, now);
    PublishedRowOfSlot(obs, r);
    ObservationsInTimeOrder(events, now);
    SlotStreamInTimeOrder(obs, r.key);
    ClosedRowLasts(SlotStream(obs, r.key), r);
  }

  lemma ClosedRowLasts(own: seq<Observation>, r: Row)
    requires own != [] && TimeOrdered(own) && (forall o :: o in own ==> o.key == own[0].key)
    requires r in Rows(own) && r.closedAt.Some?
    ensures r.openedAt <= r.closedAt.value && r.closedFor == Some(r.closedAt.value - r.openedAt)
  {
    hide HistoryId, Step, Run;
    ClosesAfterOpening(own);
    RowsAreOpens(own);
    var i :| 0 <= i < |Rows(own)| && Rows(own)[i] == r;
    assert Rows(own)[i] == Run(own).1[i];
  }

  /** The slot's part of the published list is a rearrangement of the rows of its own stream. */
  lemma PublishedRowsOfSlot(obs: seq<Observation>, key: string)
    requires SlotStream(obs, key) != []
    ensures multiset(SlotRows(Published(obs), key)) == multiset(Rows(SlotStream(obs, key)))
    ensures forall o :: o in SlotStream(obs, key) ==> o.key == key && o in obs
  {
    hide Rows, Unsorted, Published, SlotRows, SlotStream;
    SlotStreamOwn(obs, key);
    PublishedPerSlot(obs, key);
    AloneIsSlot(SlotStream(obs, key), key);
    PublishedIsSortedRows(SlotStream(obs, key));
  }

  /** For every stream: the published open rows of a slot are those left in its queue. */
  lemma PublishedOpenCount(obs: seq<Observation>, key: string)
    requires SlotStream(obs, key) != []
    ensures var rows := SlotRows(Published(obs), key); var own := SlotStream(obs, key);
            OpenNow(rows) == |Run(own).0.pending| && |rows| == |Rows(own)|
  {
    hide Rows, Run, Published, SlotRows, SlotStream, OpenNow;
    var rows, own := SlotRows(Published(obs), key), SlotStream(obs, key);
    PublishedRowsOfSlot(obs, key);
    SameMultiset(rows, Rows(own));
    PermutedCount(rows, Rows(own));
    OpenNowCount(own);
  }

  lemma KnownCountsAreCounted(events: seq<Event>, now: int, key: string)
    requires forall o :: o in SlotStream(Observations(events, now), key) ==> o.stock.Some? && o.stock.value >= 0
    ensures AllCounted(SlotStream(Observations(events, now), key))
  {
    hide Observations, SlotStream;
    var obs := Observations(events, now);
    SlotStreamOwn(obs, key);
    ObservationsOf(events, now);
    var own := SlotStream(obs, key);
    forall i | 0 <= i < |own| ensures Counted(own[i]) { assert own[i] in own && own[i] in obs; }
  }

  /** A slot whose stock counts are all known and non-negative shows, in the published list, exactly
      last stock minus lowest stock open rows, and none when it ends sold out; its rows number
      the sum of its stock rises. */
  lemma PublishedOpenNow(events: seq<Event>, now: int, key: string)
    requires var own := SlotStream(Observations(events, now), key);
             own != [] && forall o :: o in own ==> o.stock.Some? && o.stock.value >= 0
    ensures var own := SlotStream(Observations(events, now), key); var last := own[|own| - 1].stock.value;
            var rows := SlotRows(Published(Observations(events, now)), key);
            && OpenNow(rows) == last - LowestStock(own)
            && |rows| == Rises(own)
            && (last == 0 ==> OpenNow(rows) == 0)
  {
    hide Rows, Run, Published, SlotRows, SlotStream, OpenNow, Observations, LowestStock, Rises;
    var obs := Observations(events, now);
    SlotStreamOwn(obs, key);
    KnownCountsAreCounted(events, now, key);
    PublishedOpenCount(obs, key);
    CountedRows(SlotStream(obs, key));
    OpenNowIsLastMinusLowest(SlotStream(obs, key));
  }

  lemma OpenNowCount(own: seq<Observation>)
    requires own != [] && forall o :: o in own ==> o.key == own[0].key
    ensures OpenNow(Rows(own)) == |Run(own).0.pending|
  {
    hide HistoryId, Step, Run, Opens;
    var closed := Run(own).1;
    FirstInFirstOut(own);
    assert forall r :: r in closed ==> r.closedAt.Some?;
    OpenNowOfParts(closed, OpenRows(Run(own).0));
  }

  lemma OpenNowOfParts(closed: seq<Row>, pending: seq<Row>)
    requires (forall r :: r in closed ==> r.closedAt.Some?) && forall r :: r in pending ==> r.closedAt.None?
    ensures OpenNow(closed + pending) == |pending|
  {
    var p := (r: Row) => r.closedAt.None?;
    FilterAppend(closed, pending, p);
    FilterMembers(closed, p);
    FilterMembers(pending, p);
  }

  lemma {:induction false} PermutedCount(a: seq<Row>, b: seq<Row>)
    requires multiset(a) == multiset(b)
    ensures OpenNow(a) == OpenNow(b)
  {
    var p := (r: Row) => r.closedAt.None?;
    forall r ensures multiset(Filter(a, p))[r] == multiset(Filter(b, p))[r] {
      FilterCount(a, p, r);
      FilterCount(b, p, r);
    }
    assert multiset(Filter(a, p)) == multiset(Filter(b, p));
    assert |multiset(Filter(a, p))| == |multiset(Filter(b, p))|;
  }

  lemma {:induction false} FilterCount(s: seq<Row>, p: Row -> bool, r: Row)
    ensures multiset(Filter(s, p))[r] == if p(r) then multiset(s)[r] else 0
  {
    if s != [] {
      assert s == [s[0]] + s[1..];
      FilterCount(s[1..], p, r);
    }
  }
}
