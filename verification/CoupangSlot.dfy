/** What one Coupang slot's stream of stock observations means: a FIFO queue of pending
    opens that stock rises feed and stock falls drain. */
module CoupangSlot {
  import opened Options
  import opened CoupangText
  import opened Numbers

  /** The descriptive fields a row copies from the slot state. */
  datatype Listing = Listing(scheduleId: Option<nat>, scheduleDate: Option<string>, bizItemName: Option<string>,
                             businessName: Option<string>, optionLabel: string, timeLabel: Option<string>)

  datatype Observation = Observation(key: string, about: Listing, available: bool, stock: Option<int>,
                                     at: int, eventId: nat, cutoff: int)

  datatype Open = Open(at: int, eventId: nat, ordinal: nat)

  /** `closedAt` is present exactly on the rows labelled "sold out again"; the others are "open now". */
  datatype Row = Row(id: string, key: string, about: Listing, openedAt: int,
                     closedAt: Option<int>, closedFor: Option<int>, openFor: Option<int>)

  datatype Slot = Slot(key: string, about: Listing, available: bool, stock: Option<int>, cutoff: int,
                       pending: seq<Open>, ordinal: nat)

  function ClosedRow(key: string, about: Listing, o: Open, closedAt: int): Row {
    Row(HistoryId(key, o.eventId, o.ordinal), key, about, o.at,
        Some(closedAt), Some(Max(0, closedAt - o.at)), None)
  }

  function OpenRow(key: string, about: Listing, o: Open, cutoff: int): Row {
    Row(HistoryId(key, o.eventId, o.ordinal), key, about, o.at, None, None, Some(Max(0, cutoff - o.at)))
  }

  // ---- one observation ---------------------------------------------------------

  /** How many opens the step from the previous observation to `o` enqueues. */
  function OpenedBy(available: bool, stock: Option<int>, o: Observation): nat {
    if !available && o.available then
      if o.stock.Some? && o.stock.value > 0 then o.stock.value else 0
    else if available && o.stock.Some? && stock.Some? && o.available then
      Max(o.stock.value - stock.value, 0)
    else 0
  }

  /** How many opens the step asks to close when `waiting` of them are pending. */
  function ClosedBy(available: bool, stock: Option<int>, waiting: nat, o: Observation): nat {
    if available && o.stock.Some? && stock.Some? then
      Max(stock.value - o.stock.value, 0)
    else if available && !o.available then waiting
    else 0
  }

  function NewOpens(n: nat, at: int, eventId: nat, ordinal: nat): seq<Open> {
    seq(n, i requires 0 <= i => Open(at, eventId, ordinal + i + 1))
  }

  function Start(o: Observation): Slot {
    Slot(o.key, o.about, o.available, o.stock, o.cutoff, [], 0)
  }

  function ClosedRows(s: Slot, n: nat, at: int): seq<Row>
    requires n <= |s.pending|
  {
    seq(n, i requires 0 <= i < n => ClosedRow(s.key, s.about, s.pending[i], at))
  }

  function Step(s: Slot, o: Observation): (Slot, seq<Row>) {
    var risen := OpenedBy(s.available, s.stock, o);
    var closed := Min(ClosedBy(s.available, s.stock, |s.pending|, o), |s.pending|);
    (Slot(s.key, o.about, o.available, o.stock, o.cutoff,
          s.pending[closed..] + NewOpens(risen, o.at, o.eventId, s.ordinal), s.ordinal + risen),
     ClosedRows(s, closed, o.at))
  }

  /** A slot's state and closed rows after a non-empty stream of its own observations. */
  function Run(obs: seq<Observation>): (Slot, seq<Row>)
    requires obs != []
  {
    var n := |obs| - 1;
    if n == 0 then (Start(obs[0]), [])
    else
      var (s, rows) := Run(obs[..n]);
      var (s', more) := Step(s, obs[n]);
      (s', rows + more)
  }

  function OpenRows(s: Slot): seq<Row> {
    seq(|s.pending|, i requires 0 <= i < |s.pending| => OpenRow(s.key, s.about, s.pending[i], s.cutoff))
  }

  /** All the rows of one slot: the closed ones in closing order, then those still open. */
  function Rows(obs: seq<Observation>): seq<Row>
    requires obs != []
  {
    Run(obs).1 + OpenRows(Run(obs).0)
  }

  // ---- the reference reading of a stream -----------------------------------------

  /** Every open the stream produces, oldest first, read off pairs of neighbouring
      observations; no queue is involved. */
  function Opens(obs: seq<Observation>): seq<Open> {
    if |obs| <= 1 then [] else
      var n := |obs| - 1;
      var before := Opens(obs[..n]);
      before + NewOpens(OpenedBy(obs[n - 1].available, obs[n - 1].stock, obs[n]),
                        obs[n].at, obs[n].eventId, |before|)
  }

  lemma {:induction false} RunRemembersLast(obs: seq<Observation>)
    requires obs != [] && forall o :: o in obs ==> o.key == obs[0].key
    ensures var s := Run(obs).0; var last := obs[|obs| - 1];
            && s.key == obs[0].key && s.about == last.about && s.available == last.available
            && s.stock == last.stock && s.cutoff == last.cutoff
  {
    var n := |obs| - 1;
    if n > 0 {
      assert obs[..n][0] == obs[0];
      RunRemembersLast(obs[..n]);
    }
  }

  lemma TailMoves(opens: seq<Open>, added: seq<Open>, closed: nat, more: nat)
    requires closed + more <= |opens|
    ensures opens[closed..][more..] + added == (opens + added)[closed + more..]
  {
  }

  lemma QueueStep(s: Slot, o: Observation)
    ensures var added := NewOpens(OpenedBy(s.available, s.stock, o), o.at, o.eventId, s.ordinal);
            var (s', more) := Step(s, o);
            |more| <= |s.pending| && s'.pending == s.pending[|more|..] + added && s'.ordinal == s.ordinal + |added|
  {
  }

  /** The queue is always the tail of the opens so far: those not yet closed, in order. */
  lemma {:induction false} QueueIsTailOfOpens(obs: seq<Observation>)
    requires obs != [] && forall o :: o in obs ==> o.key == obs[0].key
    ensures var (s, closed) := Run(obs); var opens := Opens(obs);
            |closed| <= |opens| == s.ordinal && s.pending == opens[|closed|..]
    ensures forall i :: 0 <= i < |Opens(obs)| ==> Opens(obs)[i].ordinal == i + 1
  {
    OpensAreNumbered(obs);
    var n := |obs| - 1;
    if n > 0 {
      var front := obs[..n];
      assert front[0] == obs[0] && front[n - 1] == obs[n - 1];
      RunRemembersLast(front);
      assert Run(obs) == (Step(Run(front).0, obs[n]).0, Run(front).1 + Step(Run(front).0, obs[n]).1);
      var (s, closed) := Run(front);
      var added := NewOpens(OpenedBy(s.available, s.stock, obs[n]), obs[n].at, obs[n].eventId, |Opens(front)|);
      assert Opens(obs) == Opens(front) + added;
      hide *;
      QueueIsTailOfOpens(front);
      QueueStep(s, obs[n]);
      TailMoves(Opens(front), added, |closed|, |Step(s, obs[n]).1|);
    }
  }

  lemma {:induction false} OpensAreNumbered(obs: seq<Observation>)
    ensures forall i :: 0 <= i < |Opens(obs)| ==> Opens(obs)[i].ordinal == i + 1
  {
    if |obs| > 1 { OpensAreNumbered(obs[..|obs| - 1]); }
  }

  ghost predicate Closes(r: Row, key: string, o: Open) {
    && r.id == HistoryId(key, o.eventId, o.ordinal) && r.key == key && r.openedAt == o.at
    && r.closedAt.Some? && r.openFor.None?
    && r.closedFor == Some(Max(0, r.closedAt.value - o.at))
  }

  lemma StepCloses(s: Slot, o: Observation, i: nat)
    requires i < |Step(s, o).1|
    ensures i < |s.pending| && Closes(Step(s, o).1[i], s.key, s.pending[i])
    ensures Step(s, o).1[i].closedAt == Some(o.at) && Step(s, o).1[i].about == s.about
  {
  }

  /** First in, first out, and nothing lost: the closed rows are the opens 1..c in that order, the
      queue holds the opens c+1..n, so every open gives exactly one row. */
  lemma {:induction false} FirstInFirstOut(obs: seq<Observation>)
    requires obs != [] && forall o :: o in obs ==> o.key == obs[0].key
    ensures var (s, closed) := Run(obs); var opens := Opens(obs);
            && |closed| + |s.pending| == |opens| == s.ordinal
            && s.pending == opens[|closed|..]
            && forall i :: 0 <= i < |closed| ==> Closes(closed[i], obs[0].key, opens[i])
    ensures forall i :: 0 <= i < |Opens(obs)| ==> Opens(obs)[i].ordinal == i + 1
  {
    QueueIsTailOfOpens(obs);
    forall i | 0 <= i < |Run(obs).1| ensures Closes(Run(obs).1[i], obs[0].key, Opens(obs)[i]) {
      ClosedRowClosesItsOpen(obs, i);
    }
  }

  lemma {:induction false} ClosedRowClosesItsOpen(obs: seq<Observation>, i: nat)
    requires obs != [] && (forall o :: o in obs ==> o.key == obs[0].key) && i < |Run(obs).1|
    ensures i < |Opens(obs)| && Closes(Run(obs).1[i], obs[0].key, Opens(obs)[i])
    decreases |obs|
  {
    hide HistoryId, Step;
    var n := |obs| - 1;
    var front := obs[..n];
    assert front[0] == obs[0] && front[n - 1] == obs[n - 1];
    var (s, closed) := Run(front);
    assert Run(obs).1 == closed + Step(s, obs[n]).1;
    assert Opens(front) <= Opens(obs);
    if i < |closed| {
      ClosedRowClosesItsOpen(front, i);
    } else {
      StepCloses(s, obs[n], i - |closed|);
      QueueIsTailOfOpens(front);
      RunRemembersLast(front);
      assert s.pending[i - |closed|] == Opens(front)[i];
    }
  }

  ghost predicate ShowsOpen(r: Row, key: string, o: Open) {
    r.id == HistoryId(key, o.eventId, o.ordinal) && r.key == key && r.openedAt == o.at
  }

  lemma RowAt(obs: seq<Observation>, i: nat)
    requires obs != [] && (forall o :: o in obs ==> o.key == obs[0].key) && i < |Rows(obs)|
    ensures var c, last := |Run(obs).1|, obs[|obs| - 1];
            && i < |Opens(obs)| && Opens(obs)[i].ordinal == i + 1
            && ShowsOpen(Rows(obs)[i], obs[0].key, Opens(obs)[i])
            && (Rows(obs)[i].closedAt.Some? <==> i < c)
            && (i >= c ==> Rows(obs)[i] == OpenRow(obs[0].key, last.about, Opens(obs)[i], last.cutoff))
  {
    hide HistoryId, Step;
    QueueIsTailOfOpens(obs);
    var c := |Run(obs).1|;
    if i < c {
      ClosedRowClosesItsOpen(obs, i);
    } else {
      RunRemembersLast(obs);
      assert Run(obs).0.pending[i - c] == Opens(obs)[i];
    }
  }

  /** The same for the published rows of the slot. */
  lemma RowsAreOpens(obs: seq<Observation>)
    requires obs != [] && forall o :: o in obs ==> o.key == obs[0].key
    ensures |Rows(obs)| == |Opens(obs)|
    ensures forall i :: 0 <= i < |Rows(obs)| ==>
              && Rows(obs)[i].id == HistoryId(obs[0].key, Opens(obs)[i].eventId, i + 1)
              && Rows(obs)[i].key == obs[0].key
              && Rows(obs)[i].openedAt == Opens(obs)[i].at
              && (Rows(obs)[i].closedAt.Some? <==> i < |Run(obs).1|)
    ensures forall i :: |Run(obs).1| <= i < |Rows(obs)| ==>
              && Rows(obs)[i].about == obs[|obs| - 1].about
              && Rows(obs)[i].closedFor.None?
              && Rows(obs)[i].openFor == Some(Max(0, obs[|obs| - 1].cutoff - Rows(obs)[i].openedAt))
  {
    hide HistoryId, Run, Opens;
    QueueIsTailOfOpens(obs);
    forall i | 0 <= i < |Rows(obs)|
      ensures Rows(obs)[i].id == HistoryId(obs[0].key, Opens(obs)[i].eventId, i + 1) && Rows(obs)[i].key == obs[0].key
      ensures Rows(obs)[i].openedAt == Opens(obs)[i].at && (Rows(obs)[i].closedAt.Some? <==> i < |Run(obs).1|)
      ensures i >= |Run(obs).1| ==>
                Rows(obs)[i] == OpenRow(obs[0].key, obs[|obs| - 1].about, Opens(obs)[i], obs[|obs| - 1].cutoff)
    {
      RowAt(obs, i);
    }
  }

  // ---- which observation opens a row -----------------------------------------------

  /** How many opens there have been once `obs` has been read. */
  function OpenedCount(obs: seq<Observation>): nat
    requires obs != []
  {
    Run(obs).0.ordinal
  }

  lemma {:induction false} OpensGrow(obs: seq<Observation>, k: nat)
    requires |obs| > 1 && 1 <= k < |obs|
    ensures |Opens(obs[..k])| <= |Opens(obs[..k + 1])| && Opens(obs[..k + 1]) <= Opens(obs)
    ensures forall i :: |Opens(obs[..k])| <= i < |Opens(obs[..k + 1])| ==>
              Opens(obs)[i].at == obs[k].at && Opens(obs)[i].eventId == obs[k].eventId
    decreases |obs|
  {
    var n := |obs| - 1;
    var front := obs[..n];
    assert Opens(front) <= Opens(obs);
    if k == n {
      assert obs[..k + 1] == obs;
      hide OpenedBy;
    } else {
      assert front[..k] == obs[..k] && front[..k + 1] == obs[..k + 1] && front[k] == obs[k];
      hide *;
      OpensGrow(front, k);
    }
  }

  lemma CountIsOpens(obs: seq<Observation>)
    requires obs != [] && forall o :: o in obs ==> o.key == obs[0].key
    ensures OpenedCount(obs) == |Opens(obs)|
  {
    QueueIsTailOfOpens(obs);
  }

  /** A row is opened at an observation and keeps its time and event: observation k opens as many rows as it
      records places more than the one before it, with consecutive ordinals. */
  lemma OpenedAtItsStep(obs: seq<Observation>, k: nat)
    requires obs != [] && (forall o :: o in obs ==> o.key == obs[0].key) && 1 <= k < |obs|
    ensures OpenedCount(obs[..k + 1]) == OpenedCount(obs[..k]) + Max(0, Recorded(obs[k - 1], obs[k]))
    ensures OpenedCount(obs[..1]) == 0 && OpenedCount(obs[..k + 1]) <= OpenedCount(obs) == |Rows(obs)|
    ensures forall i :: OpenedCount(obs[..k]) <= i < OpenedCount(obs[..k + 1]) ==>
              && Rows(obs)[i].openedAt == obs[k].at
              && Rows(obs)[i].id == HistoryId(obs[0].key, obs[k].eventId, i + 1)
  {
    assert OpenedCount(obs[..1]) == 0;
    OpensAtStep(obs, k);
    CountIsOpens(obs);
    hide HistoryId, OpenedCount, Rows, Recorded;
    RowsAreOpens(obs);
  }

  lemma OpensAtStep(obs: seq<Observation>, k: nat)
    requires obs != [] && (forall o :: o in obs ==> o.key == obs[0].key) && 1 <= k < |obs|
    ensures OpenedCount(obs[..k + 1]) == OpenedCount(obs[..k]) + Max(0, Recorded(obs[k - 1], obs[k]))
    ensures OpenedCount(obs[..k + 1]) <= |Opens(obs)|
    ensures forall i :: OpenedCount(obs[..k]) <= i < OpenedCount(obs[..k + 1]) ==>
              Opens(obs)[i].at == obs[k].at && Opens(obs)[i].eventId == obs[k].eventId
  {
    var front := obs[..k + 1];
    assert front[..k] == obs[..k] && obs[..k][0] == obs[0] && front[0] == obs[0];
    assert |front| - 1 == k && front[k] == obs[k] && front[k - 1] == obs[k - 1];
    hide *;
    OpenedNow(front);
    CountIsOpens(obs[..k]);
    CountIsOpens(front);
    OpensGrow(obs, k);
  }

  lemma OpenedNow(obs: seq<Observation>)
    requires |obs| > 1 && forall o :: o in obs ==> o.key == obs[0].key
    ensures var n := |obs| - 1;
            OpenedCount(obs) == OpenedCount(obs[..n]) + Max(0, Recorded(obs[n - 1], obs[n]))
  {
    var n := |obs| - 1;
    var front := obs[..n];
    assert front[0] == obs[0] && front[n - 1] == obs[n - 1];
    RunRemembersLast(front);
    QueueStep(Run(front).0, obs[n]);
    StepIsReflectedWalk(Run(front).0, obs[n - 1], obs[n]);
  }

  // ---- which observation closes a row ----------------------------------------------

  /** How many opens have been closed once `obs` has been read. */
  function ClosedCount(obs: seq<Observation>): nat
    requires obs != []
  {
    |Run(obs).1|
  }

  /** A row is written at the observation that closes it and never changed again: row i is closed
      by the first observation k after which more than i rows are closed, carries that
      observation's time, and shows the listing of the observation before it. */
  lemma {:induction false} ClosedAtItsStep(obs: seq<Observation>, k: nat)
    requires obs != [] && (forall o :: o in obs ==> o.key == obs[0].key) && 1 <= k < |obs|
    ensures Run(obs[..k + 1]).1 <= Run(obs).1
    ensures ClosedCount(obs[..k]) <= ClosedCount(obs[..k + 1])
    ensures forall i :: ClosedCount(obs[..k]) <= i < ClosedCount(obs[..k + 1]) ==>
              Run(obs).1[i].closedAt == Some(obs[k].at) && Run(obs).1[i].about == obs[k - 1].about
    decreases |obs|
  {
    hide HistoryId;
    var n := |obs| - 1;
    assert obs[..n][0] == obs[0];
    if k == n {
      assert obs[..k + 1] == obs;
      RunRemembersLast(obs[..n]);
    } else {
      assert obs[..n][..k] == obs[..k] && obs[..n][..k + 1] == obs[..k + 1];
      ClosedAtItsStep(obs[..n], k);
    }
  }

  /** When a slot is seen to sell out and the counts cannot be compared, everything pending is closed. */
  lemma UncountedSellOutClosesAll(obs: seq<Observation>)
    requires |obs| >= 2 && forall o :: o in obs ==> o.key == obs[0].key
    requires var prev, last := obs[|obs| - 2], obs[|obs| - 1];
             prev.available && !last.available && (prev.stock.None? || last.stock.None?)
    ensures Run(obs).0.pending == [] && ClosedCount(obs) == |Opens(obs)|
  {
    var front := obs[..|obs| - 1];
    assert front[0] == obs[0] && front[|front| - 1] == obs[|obs| - 2];
    RunRemembersLast(front);
    QueueIsTailOfOpens(obs);
  }

  // ---- the queue length as a walk ----------------------------------------------------

  /** The change in open places that an observation records against the one before it. */
  function Recorded(prev: Observation, o: Observation): int {
    if !prev.available then (if o.available && o.stock.Some? then Max(0, o.stock.value) else 0)
    else if prev.stock.None? || o.stock.None? then 0
    else if o.available then o.stock.value - prev.stock.value
    else Min(0, o.stock.value - prev.stock.value)
  }

  predicate UncountedSellOut(prev: Observation, o: Observation) {
    prev.available && !o.available && (prev.stock.None? || o.stock.None?)
  }

  ghost predicate Counted(o: Observation) {
    && o.stock.Some? && o.stock.value >= 0
    && (o.stock.value > 0 ==> o.available)
  }

  /** One step: an uncounted sell-out empties the queue; otherwise its length moves by the recorded
      change, reflected at zero, which with counts on both sides is the stock difference. */
  lemma StepIsReflectedWalk(s: Slot, prev: Observation, o: Observation)
    requires s.available == prev.available && s.stock == prev.stock
    ensures |Step(s, o).0.pending| ==
            if UncountedSellOut(prev, o) then 0 else Max(0, |s.pending| + Recorded(prev, o))
    ensures Counted(prev) && Counted(o) ==>
              && !UncountedSellOut(prev, o)
              && Recorded(prev, o) == o.stock.value - prev.stock.value
              && OpenedBy(s.available, s.stock, o) == Max(0, o.stock.value - prev.stock.value)
    ensures OpenedBy(s.available, s.stock, o) == Max(0, Recorded(prev, o))
  {
    StepCounts(s, o);
    hide Step;
  }

  lemma StepCounts(s: Slot, o: Observation)
    ensures |Step(s, o).0.pending| ==
            OpenedBy(s.available, s.stock, o) +
            Max(0, |s.pending| - ClosedBy(s.available, s.stock, |s.pending|, o))
  {
    hide OpenedBy, ClosedBy, ClosedRows;
  }

  /** The same after any stream. */
  lemma QueueIsReflectedWalk(front: seq<Observation>, o: Observation)
    requires front != [] && forall x :: x in front ==> x.key == front[0].key
    ensures var prev := front[|front| - 1];
            |Run(front + [o]).0.pending| ==
            if UncountedSellOut(prev, o) then 0 else Max(0, |Run(front).0.pending| + Recorded(prev, o))
  {
    hide Step;
    assert (front + [o])[..|front|] == front;
    RunRemembersLast(front);
    StepIsReflectedWalk(Run(front).0, front[|front| - 1], o);
  }

  lemma CountedChange(prev: Observation, o: Observation)
    requires Counted(prev) && Counted(o)
    ensures !UncountedSellOut(prev, o) && Recorded(prev, o) == o.stock.value - prev.stock.value
  {
  }

  // ---- known, non-negative stock ----------------------------------------------------

  ghost predicate AllCounted(obs: seq<Observation>) {
    forall i :: 0 <= i < |obs| ==> Counted(obs[i])
  }

  /** Some observation carries a count. */
  predicate HasCount(obs: seq<Observation>) {
    obs != [] && (obs[|obs| - 1].stock.Some? || HasCount(obs[..|obs| - 1]))
  }

  /** The lowest stock count seen. */
  function LowestStock(obs: seq<Observation>): int
    requires HasCount(obs)
  {
    var front, last := obs[..|obs| - 1], obs[|obs| - 1];
    if last.stock.None? then LowestStock(front)
    else if HasCount(front) then Min(LowestStock(front), last.stock.value)
    else last.stock.value
  }

  lemma {:induction false} HasCountMeaning(obs: seq<Observation>)
    ensures HasCount(obs) <==> exists i :: 0 <= i < |obs| && obs[i].stock.Some?
  {
    if obs != [] {
      var n := |obs| - 1;
      HasCountMeaning(obs[..n]);
      assert forall i :: 0 <= i < n ==> obs[..n][i] == obs[i];
    }
  }

  lemma {:induction false} LowestStockIsMinimum(obs: seq<Observation>)
    requires HasCount(obs)
    ensures forall i :: 0 <= i < |obs| && obs[i].stock.Some? ==> LowestStock(obs) <= obs[i].stock.value
    ensures exists i :: 0 <= i < |obs| && obs[i].stock == Some(LowestStock(obs))
  {
    var n := |obs| - 1;
    HasCountMeaning(obs[..n]);
    if HasCount(obs[..n]) {
      LowestStockIsMinimum(obs[..n]);
      var i :| 0 <= i < n && obs[..n][i].stock == Some(LowestStock(obs[..n]));
      assert obs[i].stock == Some(LowestStock(obs)) || obs[n].stock == Some(LowestStock(obs));
    } else {
      assert forall i :: 0 <= i < n ==> obs[..n][i].stock.None?;
      assert obs[n].stock == Some(LowestStock(obs));
    }
  }

  lemma {:induction false} LowestStockOfParts(a: seq<Observation>, b: seq<Observation>)
    requires HasCount(a)
    ensures HasCount(a + b)
    ensures !HasCount(b) ==> LowestStock(a + b) == LowestStock(a)
    ensures HasCount(b) ==> LowestStock(a + b) == Min(LowestStock(a), LowestStock(b))
  {
    if b == [] {
      assert a + b == a;
    } else {
      var front := b[..|b| - 1];
      LowestStockOfParts(a, front);
      assert (a + b)[..|a + b| - 1] == a + front;
    }
  }

  /** Sum of the positive stock increments between neighbouring observations. */
  function Rises(obs: seq<Observation>): nat
    requires forall i :: 0 <= i < |obs| ==> obs[i].stock.Some?
  {
    if |obs| <= 1 then 0 else
      var n := |obs| - 1;
      Rises(obs[..n]) + Max(0, obs[n].stock.value - obs[n - 1].stock.value)
  }

  /** The walk over a counted stretch `b`, whatever came before it: only the queue at its first count
      matters. */
  lemma {:induction false} WalkOverCounts(before: seq<Observation>, b: seq<Observation>)
    requires b != [] && AllCounted(b) && forall o :: o in before + b ==> o.key == (before + b)[0].key
    ensures var open := |Run(before + [b[0]]).0.pending|;
            |Run(before + b).0.pending| == b[|b| - 1].stock.value - Min(LowestStock(b), b[0].stock.value - open)
  {
    hide Run, Recorded, UncountedSellOut;
    if |b| == 1 {
      assert b == [b[0]];
    } else {
      var n := |b| - 1;
      var front := before + b[..n];
      assert before + b == front + [b[n]] && front[0] == (before + b)[0] && front[|front| - 1] == b[n - 1];
      assert forall o :: o in front ==> o in before + b;
      WalkOverCounts(before, b[..n]);
      QueueIsReflectedWalk(front, b[n]);
      CountedChange(b[n - 1], b[n]);
    }
  }

  /** The number of rows still open is the last stock minus the lowest stock ever seen. */
  lemma OpenNowIsLastMinusLowest(obs: seq<Observation>)
    requires obs != [] && AllCounted(obs) && forall o :: o in obs ==> o.key == obs[0].key
    ensures |Run(obs).0.pending| == obs[|obs| - 1].stock.value - LowestStock(obs)
  {
    assert [] + obs == obs && Run([] + [obs[0]]).0.pending == [];
    hide Run, LowestStock;
    WalkOverCounts([], obs);
    LowestStockIsMinimum(obs);
    assert Counted(obs[0]);
  }

  /** The number of opens is the sum of the rises. */
  lemma {:induction false} OpensAreRises(obs: seq<Observation>)
    requires AllCounted(obs)
    ensures |Opens(obs)| == Rises(obs)
  {
    if |obs| > 1 {
      var n := |obs| - 1;
      OpensAreRises(obs[..n]);
      assert Counted(obs[n - 1]) && Counted(obs[n]);
    }
  }

  /** The row counts of a slot in closed form; a slot that ends sold out has no open row. */
  lemma CountedRows(obs: seq<Observation>)
    requires obs != [] && AllCounted(obs) && forall o :: o in obs ==> o.key == obs[0].key
    ensures var last := obs[|obs| - 1].stock.value;
            && |Rows(obs)| == Rises(obs)
            && ClosedCount(obs) == Rises(obs) - (last - LowestStock(obs))
            && (last == 0 ==> |Run(obs).0.pending| == 0)
  {
    hide Run, Opens, LowestStock, Rises;
    OpenNowIsLastMinusLowest(obs);
    OpensAreRises(obs);
    QueueIsTailOfOpens(obs);
    LowestIsNotNegative(obs);
  }

  // ---- any stream: unknown counts included ---------------------------------------------

  /** No uncounted sell-out after position `k`. */
  ghost predicate Unbroken(obs: seq<Observation>, k: nat) {
    forall i :: k < i < |obs| ==> !UncountedSellOut(obs[i - 1], obs[i])
  }

  /** The sum of the changes recorded after position `k`. */
  function Gain(obs: seq<Observation>, k: nat): int
    requires k < |obs|
  {
    var n := |obs| - 1;
    if n == k then 0 else Gain(obs[..n], k) + Recorded(obs[n - 1], obs[n])
  }

  lemma UnbrokenSnoc(obs: seq<Observation>, k: nat)
    requires k < |obs| - 1
    ensures var n := |obs| - 1;
            Unbroken(obs, k) <==> Unbroken(obs[..n], k) && !UncountedSellOut(obs[n - 1], obs[n])
  {
    var n := |obs| - 1;
    if Unbroken(obs[..n], k) && !UncountedSellOut(obs[n - 1], obs[n]) {
      forall i | k < i < |obs| ensures !UncountedSellOut(obs[i - 1], obs[i]) {
        if i < n { assert !UncountedSellOut(obs[..n][i - 1], obs[..n][i]); }
      }
    }
    if Unbroken(obs, k) {
      forall i | k < i < n ensures !UncountedSellOut(obs[..n][i - 1], obs[..n][i]) {
        assert !UncountedSellOut(obs[i - 1], obs[i]);
      }
    }
  }

  ghost predicate OneSlot(obs: seq<Observation>) {
    forall o :: o in obs ==> o.key == obs[0].key
  }

  lemma QueueOfLast(obs: seq<Observation>)
    requires |obs| > 1 && OneSlot(obs)
    ensures var n := |obs| - 1; var front := obs[..n];
            && OneSlot(front)
            && |Run(obs).0.pending| ==
               if UncountedSellOut(obs[n - 1], obs[n]) then 0
               else Max(0, |Run(front).0.pending| + Recorded(obs[n - 1], obs[n]))
  {
    hide Run, Recorded, UncountedSellOut;
    var n := |obs| - 1;
    var front := obs[..n];
    assert obs == front + [obs[n]] && front[n - 1] == obs[n - 1] && front[0] == obs[0];
    QueueIsReflectedWalk(front, obs[n]);
  }

  lemma GainSnoc(obs: seq<Observation>, k: nat)
    requires k < |obs| - 1
    ensures var n := |obs| - 1; Gain(obs, k) == Gain(obs[..n], k) + Recorded(obs[n - 1], obs[n])
  {
    hide Recorded;
  }

  /** Queue and gain, one observation at a time. */
  lemma LastStep(obs: seq<Observation>, k: nat)
    requires k < |obs| - 1 && OneSlot(obs)
    ensures var n := |obs| - 1; var front := obs[..n]; var change := Recorded(obs[n - 1], obs[n]);
            && OneSlot(front)
            && |Run(obs).0.pending| ==
               (if UncountedSellOut(obs[n - 1], obs[n]) then 0 else Max(0, |Run(front).0.pending| + change))
            && Gain(obs, k) == Gain(front, k) + change
            && (Unbroken(obs, k) <==> Unbroken(front, k) && !UncountedSellOut(obs[n - 1], obs[n]))
  {
    hide *;
    QueueOfLast(obs);
    GainSnoc(obs, k);
    UnbrokenSnoc(obs, k);
  }

  lemma {:induction false} GainIsNoMore(obs: seq<Observation>, k: nat)
    requires k < |obs| && OneSlot(obs) && Unbroken(obs, k)
    ensures Gain(obs, k) <= |Run(obs).0.pending|
    decreases |obs|
  {
    if k < |obs| - 1 {
      hide *;
      LastStep(obs, k);
      GainIsNoMore(obs[..|obs| - 1], k);
      MaxIsNoLess();
    }
  }

  lemma MaxIsNoLess()
    ensures forall x: int :: Max(0, x) >= x
  {
  }

  lemma {:induction false} SomeGainIsAsMuch(obs: seq<Observation>) returns (k: nat)
    requires obs != [] && OneSlot(obs)
    ensures k < |obs| && Unbroken(obs, k) && |Run(obs).0.pending| == Gain(obs, k)
  {
    var n := |obs| - 1;
    k := n;
    if n > 0 {
      LastStep(obs, 0);
      var k' := SomeGainIsAsMuch(obs[..n]);
      LastStep(obs, k');
      if |Run(obs).0.pending| > 0 {
        hide Run, Recorded, UncountedSellOut, Unbroken, Gain, OneSlot;
        k := k';
      } else {
        assert Gain(obs, n) == 0 && Unbroken(obs, n);
      }
    }
  }

  /** For every stream, with or without counts: the open rows number the largest sum of recorded changes
      over any stretch up to the end that no uncounted sell-out interrupts. */
  lemma OpenNowIsLargestGain(obs: seq<Observation>) returns (k: nat)
    requires obs != [] && forall o :: o in obs ==> o.key == obs[0].key
    ensures k < |obs| && Unbroken(obs, k) && |Run(obs).0.pending| == Gain(obs, k)
    ensures forall j: nat :: j < |obs| && Unbroken(obs, j) ==> Gain(obs, j) <= |Run(obs).0.pending|
  {
    hide Run, Gain, Unbroken;
    assert OneSlot(obs);
    k := SomeGainIsAsMuch(obs);
    forall j: nat | j < |obs| && Unbroken(obs, j) ensures Gain(obs, j) <= |Run(obs).0.pending| {
      GainIsNoMore(obs, j);
    }
  }

  /** The stock at position `k` that the last stock and the changes recorded since imply. */
  function ImpliedStock(obs: seq<Observation>, k: nat): int
    requires k < |obs| && obs[|obs| - 1].stock.Some?
  {
    obs[|obs| - 1].stock.value - Gain(obs, k)
  }

  /** Exactly when the open rows number last stock minus lowest stock, for every stream that ends
      with a count: when the lowest implied stock since the last uncounted sell-out is the
      lowest stock seen. */
  lemma LastMinusLowestIff(obs: seq<Observation>)
    requires obs != [] && obs[|obs| - 1].stock.Some?
    requires forall o :: o in obs ==> o.key == obs[0].key
    ensures |Run(obs).0.pending| == obs[|obs| - 1].stock.value - LowestStock(obs) <==>
            && (forall k: nat :: k < |obs| && Unbroken(obs, k) ==> ImpliedStock(obs, k) >= LowestStock(obs))
            && (exists k: nat :: k < |obs| && Unbroken(obs, k) && ImpliedStock(obs, k) == LowestStock(obs))
  {
    hide LowestStock, Run, Gain;
    var k := OpenNowIsLargestGain(obs);
    assert ImpliedStock(obs, k) == obs[|obs| - 1].stock.value - |Run(obs).0.pending|;
  }

  // ---- one gap in the counts -------------------------------------------------------------

  ghost predicate Uncounted(obs: seq<Observation>) {
    forall i :: 0 <= i < |obs| ==> obs[i].stock.None?
  }

  ghost predicate AllAvailable(obs: seq<Observation>) {
    forall i :: 0 <= i < |obs| ==> obs[i].available
  }

  /** A stretch without counts keeps the queue while the slot stays available, and else leaves it empty. */
  lemma {:induction false} QueueOverGap(a: seq<Observation>, gap: seq<Observation>)
    requires a != [] && AllCounted(a) && Uncounted(gap) && forall o :: o in a + gap ==> o.key == a[0].key
    ensures |Run(a + gap).0.pending| == if AllAvailable(gap) then a[|a| - 1].stock.value - LowestStock(a) else 0
  {
    hide Run, LowestStock;
    if gap == [] {
      assert a + gap == a;
      OpenNowIsLastMinusLowest(a);
    } else {
      var n := |gap| - 1;
      var front, o := a + gap[..n], gap[n];
      assert a + gap == front + [o] && front[0] == a[0];
      assert forall x :: x in front ==> x in a + gap;
      QueueOverGap(a, gap[..n]);
      QueueIsReflectedWalk(front, o);
      assert AllAvailable(gap) <==> AllAvailable(gap[..n]) && o.available;
      LowestIsNotNegative(a);
    }
  }

  lemma LowestIsNotNegative(a: seq<Observation>)
    requires a != [] && AllCounted(a)
    ensures 0 <= LowestStock(a) <= a[0].stock.value && LowestStock(a) <= a[|a| - 1].stock.value
  {
    LowestStockIsMinimum(a);
    var i :| 0 <= i < |a| && a[i].stock == Some(LowestStock(a));
    assert Counted(a[i]) && Counted(a[0]) && Counted(a[|a| - 1]);
  }

  /** How many rows are open at `first`, the first count after the gap. */
  ghost function OpenAfterGap(a: seq<Observation>, gap: seq<Observation>, first: Observation): int
    requires a != [] && AllCounted(a) && gap != [] && Counted(first)
  {
    if !first.available then 0
    else if !gap[|gap| - 1].available then first.stock.value
    else if AllAvailable(gap) then a[|a| - 1].stock.value - LowestStock(a)
    else 0
  }

  lemma QueueAfterGap(a: seq<Observation>, gap: seq<Observation>, first: Observation)
    requires a != [] && AllCounted(a) && Uncounted(gap) && gap != [] && Counted(first)
    requires forall o :: o in a + gap ==> o.key == a[0].key
    ensures |Run(a + gap + [first]).0.pending| == OpenAfterGap(a, gap, first)
  {
    hide Run, LowestStock;
    var front := a + gap;
    QueueOverGap(a, gap);
    assert front[0] == a[0] && front[|front| - 1] == gap[|gap| - 1];
    QueueIsReflectedWalk(front, first);
    LowestIsNotNegative(a);
  }

  /** Whether a gap in the counts does no harm to "last minus lowest". */
  ghost predicate GapIsHarmless(a: seq<Observation>, gap: seq<Observation>, b: seq<Observation>)
    requires a != [] && AllCounted(a) && gap != [] && b != [] && AllCounted(b)
  {
    var jump := b[0].stock.value - a[|a| - 1].stock.value;
    if !b[0].available then true
    else if !gap[|gap| - 1].available then LowestStock(a) == 0 || LowestStock(b) == 0
    else if AllAvailable(gap) then
      jump == 0 || (LowestStock(b) <= LowestStock(a) && LowestStock(b) <= LowestStock(a) + jump)
    else LowestStock(b) <= LowestStock(a)
  }

  /** Exactly when the closed form survives a gap in the counts between two counted stretches: when the
      slot is seen available throughout, if the count is the same on both sides of the gap or later falls
      to both the lowest count before it and that count moved by the jump; when it was unavailable in
      the gap, if the count later falls as low as before, or to 0 where the gap ends unavailable;
      and always when it comes back sold out. */
  lemma GapIsHarmlessIff(a: seq<Observation>, gap: seq<Observation>, b: seq<Observation>)
    requires a != [] && AllCounted(a) && Uncounted(gap) && gap != [] && b != [] && AllCounted(b)
    requires forall o :: o in a + gap + b ==> o.key == a[0].key
    ensures |Run(a + gap + b).0.pending| == b[|b| - 1].stock.value - LowestStock(a + gap + b) <==>
            GapIsHarmless(a, gap, b)
  {
    hide Run, LowestStock;
    assert Counted(b[0]) && Counted(a[0]) && Counted(b[|b| - 1]);
    assert forall o :: o in a + gap ==> o in a + gap + b;
    QueueAfterGap(a, gap, b[0]);
    WalkOverCounts(a + gap, b);
    HasCountMeaning(gap);
    LowestStockOfParts(a, gap);
    LowestStockOfParts(a + gap, b);
    LowestIsNotNegative(a);
    LowestIsNotNegative(b);
    if !b[0].available { assert LowestStock(b) == 0; }
  }

  /** The smallest failure: one count missing between 2 and 3. The stock ends one above its lowest
      value, yet no open was ever recorded. */
  lemma UnknownStockLosesOpens(o0: Observation, o1: Observation, o2: Observation)
    requires o0.key == o1.key == o2.key && o0.available && o1.available && o2.available
    requires o0.stock == Some(2) && o1.stock == None && o2.stock == Some(3)
    ensures Rows([o0, o1, o2]) == [] && o2.stock.value - LowestStock([o0, o1, o2]) == 1
  {
    assert [o0, o1, o2][..2] == [o0, o1] && [o0, o1][..1] == [o0];
    assert Run([o0]) == (Start(o0), []);
    assert Run([o0, o1]).0.pending == [] && Run([o0, o1]).1 == [];
    LowestOfThree(o0, o1, o2);
  }

  lemma LowestOfThree(o0: Observation, o1: Observation, o2: Observation)
    requires o0.stock.Some? && o1.stock.None? && o2.stock.Some?
    ensures HasCount([o0, o1, o2]) && LowestStock([o0, o1, o2]) == Min(o0.stock.value, o2.stock.value)
  {
    assert [o0, o1, o2][..2] == [o0, o1] && [o0, o1][..1] == [o0] && [o0][..0] == [];
    assert !HasCount([]) && LowestStock([o0]) == o0.stock.value;
    assert HasCount([o0, o1]) && LowestStock([o0, o1]) == o0.stock.value;
  }

  // ---- time order ---------------------------------------------------------------------

  ghost predicate TimeOrdered(obs: seq<Observation>) {
    forall i, j :: 0 <= i < j < |obs| ==> obs[i].at <= obs[j].at
  }

  lemma {:induction false} OpensInTimeOrder(obs: seq<Observation>)
    requires TimeOrdered(obs)
    ensures forall i, j :: 0 <= i < j < |Opens(obs)| ==> Opens(obs)[i].at <= Opens(obs)[j].at
    ensures forall i :: 0 <= i < |Opens(obs)| ==> Opens(obs)[i].at <= obs[|obs| - 1].at
  {
    if |obs| > 1 {
      var n := |obs| - 1;
      OpensInTimeOrder(obs[..n]);
      assert obs[..n][n - 1] == obs[n - 1];
    }
  }

  lemma {:induction false} ClosedTimes(obs: seq<Observation>)
    requires obs != [] && TimeOrdered(obs)
    ensures forall i :: 0 <= i < |Run(obs).1| ==>
              Run(obs).1[i].closedAt.Some? && Run(obs).1[i].closedAt.value <= obs[|obs| - 1].at
    ensures forall i, j :: 0 <= i < j < |Run(obs).1| ==>
              Run(obs).1[i].closedAt.value <= Run(obs).1[j].closedAt.value
  {
    var n := |obs| - 1;
    if n > 0 {
      var front := obs[..n];
      ClosedTimes(front);
      var rows := Run(front).1;
      forall i | 0 <= i < |Run(obs).1|
        ensures Run(obs).1[i].closedAt.Some? && Run(obs).1[i].closedAt.value <= obs[n].at
        ensures if i < |rows| then Run(obs).1[i] == rows[i] else Run(obs).1[i].closedAt.value == obs[n].at
      {
        if i < |rows| {
          assert rows[i].closedAt.value <= front[n - 1].at <= obs[n].at;
        } else {
          StepCloses(Run(front).0, obs[n], i - |rows|);
        }
      }
    }
  }

  lemma StepClosesNoEarlier(front: seq<Observation>, o: Observation, i: nat)
    requires front != [] && TimeOrdered(front) && front[|front| - 1].at <= o.at
    requires (forall x :: x in front ==> x.key == front[0].key) && i < |Step(Run(front).0, o).1|
    ensures var r := Step(Run(front).0, o).1[i]; r.closedAt.Some? && r.openedAt <= r.closedAt.value
  {
    hide HistoryId, Step, Run, Opens;
    StepCloses(Run(front).0, o, i);
    QueueIsTailOfOpens(front);
    OpensInTimeOrder(front);
    assert Run(front).0.pending[i] == Opens(front)[|Run(front).1| + i];
  }

  lemma {:induction false} NotClosedBeforeOpening(obs: seq<Observation>, i: nat)
    requires obs != [] && TimeOrdered(obs) && (forall o :: o in obs ==> o.key == obs[0].key) && i < |Run(obs).1|
    ensures Run(obs).1[i].closedAt.Some? && Run(obs).1[i].openedAt <= Run(obs).1[i].closedAt.value
    decreases |obs|
  {
    hide HistoryId, Step;
    var n := |obs| - 1;
    var front := obs[..n];
    assert front[0] == obs[0] && front[n - 1] == obs[n - 1];
    assert Run(obs).1 == Run(front).1 + Step(Run(front).0, obs[n]).1;
    if i < |Run(front).1| {
      NotClosedBeforeOpening(front, i);
    } else {
      StepClosesNoEarlier(front, obs[n], i - |Run(front).1|);
    }
  }

  lemma RowsInOpeningOrder(obs: seq<Observation>)
    requires obs != [] && TimeOrdered(obs) && forall o :: o in obs ==> o.key == obs[0].key
    ensures forall i, j :: 0 <= i < j < |Rows(obs)| ==> Rows(obs)[i].openedAt <= Rows(obs)[j].openedAt
  {
    RowsAreOpens(obs);
    OpensInTimeOrder(obs);
  }

  /** On time-ordered observations no row closes before it opens, so a closed row's duration is
      the plain difference and the clamp at zero never fires; rows open in ordinal order and
      close in the same order. */
  lemma ClosesAfterOpening(obs: seq<Observation>)
    requires obs != [] && TimeOrdered(obs) && forall o :: o in obs ==> o.key == obs[0].key
    ensures var rows := Run(obs).1;
            && (forall i :: 0 <= i < |rows| ==>
                  && rows[i].closedAt.Some?
                  && rows[i].openedAt <= rows[i].closedAt.value
                  && rows[i].closedFor == Some(rows[i].closedAt.value - rows[i].openedAt))
            && (forall i, j :: 0 <= i < j < |rows| ==> rows[i].closedAt.value <= rows[j].closedAt.value)
    ensures forall i, j :: 0 <= i < j < |Rows(obs)| ==> Rows(obs)[i].openedAt <= Rows(obs)[j].openedAt
  {
    hide HistoryId, Step, Rows;
    RowsInOpeningOrder(obs);
    ClosedTimes(obs);
    var rows := Run(obs).1;
    forall i | 0 <= i < |rows|
      ensures rows[i].closedAt.Some? && rows[i].openedAt <= rows[i].closedAt.value
      ensures rows[i].closedFor == Some(rows[i].closedAt.value - rows[i].openedAt)
    {
      NotClosedBeforeOpening(obs, i);
      ClosedRowClosesItsOpen(obs, i);
    }
  }
}
