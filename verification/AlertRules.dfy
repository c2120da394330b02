/** Operator overrides of alert rules: optimistic versions, locked rules, and the effective read model. */
module AlertRules {
  import opened Options
  import opened StableSort
  import opened TextOrder

  const SEVERITIES := {"critical", "warning", "record_only"}
  const CHANNELS := {"telegram", "desktop", "ui_only"}
  const DEFAULT_CHANNEL := "telegram"
  const DEFAULT_COOLDOWN := 300

  datatype Rule = Rule(source: string, defaultSeverity: string, hasCriticalKinds: bool)

  datatype Override = Override(enabled: bool, severity: Option<string>, channel: Option<string>, cooldown: Option<int>,
                               burst: Option<int>, version: int, updatedAt: string)

  datatype Payload = Payload(enabled: Option<bool>, severity: Option<string>, channel: Option<string>,
                             cooldown: Option<int>, burst: Option<int>,
                             expectedVersion: Option<int>, expectedUpdatedAt: Option<string>)

  datatype Refusal = NotFound | StaleWrite | InvalidSeverity | InvalidChannel | LockedCritical

  datatype View = View(ruleId: string, source: string, enabled: bool, defaultSeverity: string,
                       effectiveSeverity: string, effectiveChannel: string,
                       severityOverride: Option<string>, channelOverride: Option<string>,
                       cooldown: int, burst: Option<int>, locked: bool, stale: bool, hasOverride: bool,
                       version: Option<int>, updatedAt: Option<string>)

  predicate Locked(rule: Rule) {
    rule.defaultSeverity == "critical" || rule.hasCriticalKinds
  }

  /** The explicit expected version wins over the one in the payload. */
  function Expected(payload: Payload, expected: Option<int>): Option<int> {
    OrElse(expected, payload.expectedVersion)
  }

  function CheckVersion(current: Option<Override>, payload: Payload, expected: Option<int>): Option<Refusal> {
    var e := Expected(payload, expected);
    var version := if current.Some? then Some(current.value.version) else None;
    var updatedAt := if current.Some? then Some(current.value.updatedAt) else None;
    if e.Some? && version != e then Some(StaleWrite)
    else if payload.expectedUpdatedAt.Some? && updatedAt != payload.expectedUpdatedAt then Some(StaleWrite)
    else None
  }

  function CheckPayload(rule: Rule, payload: Payload): Option<Refusal> {
    if payload.severity.Some? && payload.severity.value !in SEVERITIES then Some(InvalidSeverity)
    else if payload.channel.Some? && payload.channel.value !in CHANNELS then Some(InvalidChannel)
    else if Locked(rule) && payload.enabled == Some(false) then Some(LockedCritical)
    else if Locked(rule) && payload.severity in {Some("warning"), Some("record_only")} then Some(LockedCritical)
    else None
  }

  function Refused(registry: map<string, Rule>, table: map<string, Override>, w: Write): Option<Refusal> {
    if w.ruleId !in registry then Some(NotFound) else
      var v := CheckVersion(Current(table, w.ruleId), w.payload, w.expected);
      if v.Some? then v else CheckPayload(registry[w.ruleId], w.payload)
  }

  function Current(table: map<string, Override>, ruleId: string): Option<Override> {
    if ruleId in table then Some(table[ruleId]) else None
  }

  /** A call of the update, with the time the database stamps on it. */
  datatype Write = Write(ruleId: string, payload: Payload, expected: Option<int>, now: string)

  function Merged(current: Option<Override>, payload: Payload, now: string): Override {
    var prior := if current.Some? then current.value else Override(true, None, None, None, None, 0, "");
    Override(if payload.enabled.Some? then payload.enabled.value else prior.enabled,
             OrElse(payload.severity, prior.severity), OrElse(payload.channel, prior.channel),
             OrElse(payload.cooldown, prior.cooldown), OrElse(payload.burst, prior.burst), prior.version + 1, now)
  }

  function Apply(registry: map<string, Rule>, table: map<string, Override>, w: Write): map<string, Override> {
    if Refused(registry, table, w).Some? then table
    else table[w.ruleId := Merged(Current(table, w.ruleId), w.payload, w.now)]
  }

  function Valid(value: Option<string>, allowed: set<string>): Option<string> {
    if value.Some? && value.value in allowed then value else None
  }

  function Effective(ruleId: string, rule: Rule, o: Option<Override>): View {
    var severity := if o.Some? then Valid(o.value.severity, SEVERITIES) else None;
    var channel := if o.Some? then Valid(o.value.channel, CHANNELS) else None;
    View(ruleId, rule.source, if o.Some? then o.value.enabled else true, rule.defaultSeverity,
         if severity.Some? then severity.value else rule.defaultSeverity,
         if channel.Some? then channel.value else DEFAULT_CHANNEL, severity, channel,
         if o.Some? && o.value.cooldown.Some? then o.value.cooldown.value else DEFAULT_COOLDOWN,
         if o.Some? then o.value.burst else None, Locked(rule), false, o.Some?,
         if o.Some? then Some(o.value.version) else None, if o.Some? then Some(o.value.updatedAt) else None)
  }

  /** An override whose rule is no longer registered. */
  function Stale(ruleId: string, o: Override): View {
    Effective(ruleId, Rule(ruleId, "record_only", false), Some(o)).(stale := true)
  }

  function ViewOf(registry: map<string, Rule>, table: map<string, Override>, id: string): View
    requires id in registry || id in table
  {
    if id in registry then Effective(id, registry[id], Current(table, id)) else Stale(id, table[id])
  }

  lemma ViewOfIsNamed(registry: map<string, Rule>, table: map<string, Override>, id: string)
    requires id in registry || id in table
    ensures ViewOf(registry, table, id).ruleId == id && (ViewOf(registry, table, id).stale <==> id !in registry)
  {
  }

  // ---- one write and one view, field by field ------------------------------------------

  /** A rule that may be neither switched off nor lowered. */
  predicate Critical(rule: Rule) {
    rule.defaultSeverity == "critical" || rule.hasCriticalKinds
  }

  /** What a write says of the version and the time it was based on does not fit the stored override. */
  predicate OutOfDate(table: map<string, Override>, w: Write) {
    var version := if w.expected.Some? then w.expected else w.payload.expectedVersion;
    || (version.Some? && !(w.ruleId in table && table[w.ruleId].version == version.value))
    || (w.payload.expectedUpdatedAt.Some?
        && !(w.ruleId in table && table[w.ruleId].updatedAt == w.payload.expectedUpdatedAt.value))
  }

  predicate BadSeverity(p: Payload) {
    p.severity.Some? && p.severity.value != "critical" && p.severity.value != "warning"
    && p.severity.value != "record_only"
  }

  predicate BadChannel(p: Payload) {
    p.channel.Some? && p.channel.value != "telegram" && p.channel.value != "desktop" && p.channel.value != "ui_only"
  }

  predicate Weakens(rule: Rule, p: Payload) {
    Critical(rule) && (p.enabled == Some(false) || p.severity == Some("warning") || p.severity == Some("record_only"))
  }

  /** When a write is accepted, and of which kind a refusal is: the first that applies, in this order. */
  lemma RefusalTells(registry: map<string, Rule>, table: map<string, Override>, w: Write)
    ensures Refused(registry, table, w) ==
            if w.ruleId !in registry then Some(NotFound)
            else if OutOfDate(table, w) then Some(StaleWrite)
            else if BadSeverity(w.payload) then Some(InvalidSeverity)
            else if BadChannel(w.payload) then Some(InvalidChannel)
            else if Weakens(registry[w.ruleId], w.payload) then Some(LockedCritical)
            else None
  {
  }

  /** An accepted write stores the given fields over the old ones, raises the version by one, from one on, and
      stamps the time; all other rules keep their overrides. */
  lemma WriteStores(registry: map<string, Rule>, table: map<string, Override>, w: Write)
    requires Refused(registry, table, w).None?
    ensures var table', p := Apply(registry, table, w), w.payload;
            && table'.Keys == table.Keys + {w.ruleId}
            && (forall id :: id in table && id != w.ruleId ==> table'[id] == table[id])
            && var o, known := table'[w.ruleId], w.ruleId in table;
               && o.version == (if known then table[w.ruleId].version + 1 else 1) && o.updatedAt == w.now
               && o.enabled == (if p.enabled.Some? then p.enabled.value
                                  else if known then table[w.ruleId].enabled else true)
               && o.severity == (if p.severity.Some? then p.severity
                                   else if known then table[w.ruleId].severity else None)
               && o.channel == (if p.channel.Some? then p.channel
                                  else if known then table[w.ruleId].channel else None)
               && o.cooldown == (if p.cooldown.Some? then p.cooldown
                                   else if known then table[w.ruleId].cooldown else None)
               && o.burst == (if p.burst.Some? then p.burst
                                else if known then table[w.ruleId].burst else None)
  {
  }

  /** The row of a registered rule: its defaults, where the override does not say otherwise. */
  lemma ViewTells(registry: map<string, Rule>, table: map<string, Override>, id: string)
    requires id in registry
    ensures var v, rule, over := ViewOf(registry, table, id), registry[id], id in table;
            && v.ruleId == id && v.source == rule.source && v.defaultSeverity == rule.defaultSeverity
            && (v.locked <==> Critical(rule)) && !v.stale && (v.hasOverride <==> over)
            && v.enabled == (over ==> table[id].enabled)
            && v.severityOverride == (if over && IsSeverity(table[id].severity) then table[id].severity else None)
            && v.channelOverride == (if over && IsChannel(table[id].channel) then table[id].channel else None)
            && v.effectiveSeverity ==
               (if v.severityOverride.Some? then v.severityOverride.value else rule.defaultSeverity)
            && v.effectiveChannel == (if v.channelOverride.Some? then v.channelOverride.value else "telegram")
            && v.cooldown == (if over && table[id].cooldown.Some? then table[id].cooldown.value else 300)
            && v.burst == (if over then table[id].burst else None)
            && v.version == (if over then Some(table[id].version) else None)
            && v.updatedAt == (if over then Some(table[id].updatedAt) else None)
  {
  }

  /** The row of an override whose rule is gone. */
  lemma StaleViewTells(registry: map<string, Rule>, table: map<string, Override>, id: string)
    requires id !in registry && id in table
    ensures var v, o := ViewOf(registry, table, id), table[id];
            && v.ruleId == id && v.source == id && v.defaultSeverity == "record_only"
            && !v.locked && v.stale && v.hasOverride && v.enabled == o.enabled
            && v.severityOverride == (if IsSeverity(o.severity) then o.severity else None)
            && v.channelOverride == (if IsChannel(o.channel) then o.channel else None)
            && v.effectiveSeverity == (if IsSeverity(o.severity) then o.severity.value else "record_only")
            && v.effectiveChannel == (if IsChannel(o.channel) then o.channel.value else "telegram")
            && v.cooldown == (if o.cooldown.Some? then o.cooldown.value else 300)
            && v.burst == o.burst && v.version == Some(o.version) && v.updatedAt == Some(o.updatedAt)
  {
  }

  predicate IsSeverity(value: Option<string>) {
    value == Some("critical") || value == Some("warning") || value == Some("record_only")
  }

  predicate IsChannel(value: Option<string>) {
    value == Some("telegram") || value == Some("desktop") || value == Some("ui_only")
  }

  // ---- runs of writes ------------------------------------------------------------------

  function Run(registry: map<string, Rule>, writes: seq<Write>): map<string, Override> {
    if writes == [] then map[] else Apply(registry, Run(registry, writes[..|writes| - 1]), writes[|writes| - 1])
  }

  predicate Accepted(registry: map<string, Rule>, writes: seq<Write>, i: nat)
    requires i < |writes|
  {
    Refused(registry, Run(registry, writes[..i]), writes[i]).None?
  }

  function AcceptedCount(registry: map<string, Rule>, writes: seq<Write>, ruleId: string): nat {
    if writes == [] then 0 else
      var n := |writes| - 1;
      AcceptedCount(registry, writes[..n], ruleId)
      + if writes[n].ruleId == ruleId && Refused(registry, Run(registry, writes[..n]), writes[n]).None? then 1 else 0
  }

  /** A rule's version is the number of its accepted writes; a rule never written has no override. */
  lemma {:induction false} VersionCountsWrites(registry: map<string, Rule>, writes: seq<Write>, ruleId: string)
    ensures var table := Run(registry, writes); var n := AcceptedCount(registry, writes, ruleId);
            && (ruleId in table <==> n > 0)
            && (ruleId in table ==> table[ruleId].version == n && ruleId in registry)
  {
    if writes != [] { VersionCountsWrites(registry, writes[..|writes| - 1], ruleId); }
  }

  lemma {:induction false} CountGrows(registry: map<string, Rule>, writes: seq<Write>, ruleId: string, i: nat, j: nat)
    requires i < j <= |writes| && writes[i].ruleId == ruleId && Accepted(registry, writes, i)
    ensures AcceptedCount(registry, writes[..i], ruleId) < AcceptedCount(registry, writes[..j], ruleId)
    decreases j
  {
    assert writes[..j][..j - 1] == writes[..j - 1];
    if i < j - 1 { CountGrows(registry, writes, ruleId, i, j - 1); }
  }

  /** Optimistic locking: a write that names an expected version is accepted only if exactly that many
      writes of the rule came before, so two writes naming the same version are never both accepted. */
  lemma ExpectedVersionIsUsedOnce(registry: map<string, Rule>, writes: seq<Write>, i: nat, j: nat)
    requires i < j < |writes| && writes[i].ruleId == writes[j].ruleId
    requires var e := Expected(writes[i].payload, writes[i].expected);
             e.Some? && e == Expected(writes[j].payload, writes[j].expected)
    ensures !(Accepted(registry, writes, i) && Accepted(registry, writes, j))
    ensures Accepted(registry, writes, i) ==>
              Expected(writes[i].payload, writes[i].expected) ==
              Some(AcceptedCount(registry, writes[..i], writes[i].ruleId))
  {
    var id := writes[i].ruleId;
    VersionCountsWrites(registry, writes[..i], id);
    VersionCountsWrites(registry, writes[..j], id);
    if Accepted(registry, writes, i) { CountGrows(registry, writes, id, i, j); }
  }

  /** A locked rule can neither be switched off nor lowered: in every reachable state it is enabled and
      its effective severity is its default or critical. */
  lemma {:induction false} LockedRulesStayUp(registry: map<string, Rule>, writes: seq<Write>, ruleId: string)
    requires ruleId in registry && Critical(registry[ruleId])
    ensures var v := ViewOf(registry, Run(registry, writes), ruleId);
            v.enabled && v.locked && v.effectiveSeverity in {registry[ruleId].defaultSeverity, "critical"}
    ensures ruleId in Run(registry, writes) ==>
              && Run(registry, writes)[ruleId].enabled
              && Run(registry, writes)[ruleId].severity in {None, Some("critical")}
  {
    if writes != [] { LockedRulesStayUp(registry, writes[..|writes| - 1], ruleId); }
  }

  /** The value of a field that the latest accepted write naming it gave to the rule. */
  function LastGiven<T>(registry: map<string, Rule>, writes: seq<Write>, ruleId: string,
                        field: Payload -> Option<T>): Option<T> {
    if writes == [] then None else
      var n := |writes| - 1;
      var given := field(writes[n].payload);
      if writes[n].ruleId == ruleId && given.Some? && Refused(registry, Run(registry, writes[..n]), writes[n]).None?
      then given
      else LastGiven(registry, writes[..n], ruleId, field)
  }

  function EnabledOf(p: Payload): Option<bool> { p.enabled }
  function SeverityOf(p: Payload): Option<string> { p.severity }
  function ChannelOf(p: Payload): Option<string> { p.channel }
  function CooldownOf(p: Payload): Option<int> { p.cooldown }
  function BurstOf(p: Payload): Option<int> { p.burst }

  /** Field by field, the stored override is what was given last: a write that leaves a field out keeps
      it, and no accepted value is ever lost. */
  lemma {:induction false} FieldsAreLastGiven(registry: map<string, Rule>, writes: seq<Write>, ruleId: string)
    ensures var table := Run(registry, writes);
            if ruleId in table then
              && table[ruleId].enabled == (LastGiven(registry, writes, ruleId, EnabledOf) != Some(false))
              && table[ruleId].severity == LastGiven(registry, writes, ruleId, SeverityOf)
              && table[ruleId].channel == LastGiven(registry, writes, ruleId, ChannelOf)
              && table[ruleId].cooldown == LastGiven(registry, writes, ruleId, CooldownOf)
              && table[ruleId].burst == LastGiven(registry, writes, ruleId, BurstOf)
            else
              && LastGiven(registry, writes, ruleId, EnabledOf).None?
              && LastGiven(registry, writes, ruleId, SeverityOf).None?
              && LastGiven(registry, writes, ruleId, ChannelOf).None?
              && LastGiven(registry, writes, ruleId, CooldownOf).None?
              && LastGiven(registry, writes, ruleId, BurstOf).None?
  {
    if writes != [] {
      hide Refused;
      FieldsAreLastGiven(registry, writes[..|writes| - 1], ruleId);
    }
  }

  /** The writes to one rule. */
  function WritesTo(writes: seq<Write>, ruleId: string): seq<Write> {
    Filter(writes, (w: Write) => w.ruleId == ruleId)
  }

  lemma ApplyIsLocal(registry: map<string, Rule>, table: map<string, Override>, table': map<string, Override>, w: Write)
    requires Current(table, w.ruleId) == Current(table', w.ruleId)
    ensures Refused(registry, table, w) == Refused(registry, table', w)
    ensures Current(Apply(registry, table, w), w.ruleId) == Current(Apply(registry, table', w), w.ruleId)
    ensures forall id :: id != w.ruleId ==> Current(Apply(registry, table, w), id) == Current(table, id)
  {
  }

  /** Rules do not influence each other: whatever writes to other rules come in between, a rule's
      override is the one its own writes alone leave. */
  lemma {:induction false} RulesAreIndependent(registry: map<string, Rule>, writes: seq<Write>, ruleId: string)
    ensures Current(Run(registry, writes), ruleId) == Current(Run(registry, WritesTo(writes, ruleId)), ruleId)
  {
    if writes != [] {
      hide Apply, Current;
      var front, w, p := writes[..|writes| - 1], writes[|writes| - 1], (w: Write) => w.ruleId == ruleId;
      RulesAreIndependent(registry, front, ruleId);
      assert writes == front + [w];
      FilterAppend(front, [w], p);
      FilterMembers([w], p);
      var own := WritesTo(front, ruleId);
      if w.ruleId == ruleId {
        assert (own + [w])[..|own|] == own;
        ApplyIsLocal(registry, Run(registry, front), Run(registry, own), w);
      } else {
        assert own + [] == own;
        ApplyIsLocal(registry, Run(registry, front), Run(registry, front), w);
      }
    }
  }

  // ---- the service ------------------------------------------------------------------------

  /** `sorted(ids)`. */
  ghost predicate SortedIds(s: seq<string>, ids: set<string>) {
    && (forall id :: id in s <==> id in ids)
    && forall i, j :: 0 <= i < j < |s| ==> AtMost(s[i], s[j]) && s[i] != s[j]
  }

  method SortIds(ids: set<string>) returns (s: seq<string>)
    ensures SortedIds(s, ids)
  {
    s := [];
    var left := ids;
    while left != {}
      invariant left <= ids && SortedIds(s, ids - left)
      decreases left
    {
      var id :| id in left;
      left := left - {id};
      var i := 0;
      while i < |s| && AtMost(s[i], id)
        invariant i <= |s| && forall j :: 0 <= j < i ==> AtMost(s[j], id)
      {
        i := i + 1;
      }
      InsertSorted(s, id, i);
      s := s[..i] + [id] + s[i..];
    }
  }

  lemma InsertSorted(s: seq<string>, id: string, i: nat)
    requires i <= |s| && id !in s
    requires forall i, j :: 0 <= i < j < |s| ==> AtMost(s[i], s[j]) && s[i] != s[j]
    requires (forall j :: 0 <= j < i ==> AtMost(s[j], id)) && (i < |s| ==> !AtMost(s[i], id))
    ensures var t := s[..i] + [id] + s[i..];
            && (forall x :: x in t <==> x in s || x == id)
            && forall i, j :: 0 <= i < j < |t| ==> AtMost(t[i], t[j]) && t[i] != t[j]
  {
    forall j | i <= j < |s| ensures AtMost(id, s[j]) {
      AtMostTotal(id, s[i]);
      if i < j { AtMostTransitive(id, s[i], s[j]); }
    }
    hide AtMost;
    InsertedAt(s, id, i);
    var t := s[..i] + [id] + s[i..];
    forall j, k | 0 <= j < k < |t| ensures AtMost(t[j], t[k]) && t[j] != t[k] {
      assert j != i ==> t[j] in s;
      assert k != i ==> t[k] in s;
    }
  }

  lemma InsertedAt(s: seq<string>, id: string, i: nat)
    requires i <= |s|
    ensures var t := s[..i] + [id] + s[i..];
            && |t| == |s| + 1
            && (forall x :: x in t <==> x in s || x == id)
            && forall k :: 0 <= k < |t| ==> t[k] == if k < i then s[k] else if k == i then id else s[k - 1]
  {
    assert s == s[..i] + s[i..];
  }

  class AlertRuleSettings {
    const registry: map<string, Rule>
    var overrides: map<string, Override>

    constructor (registry: map<string, Rule>)
      ensures this.registry == registry && overrides == map[]
    {
      this.registry, overrides := registry, map[];
    }

    method UpdateOverride(w: Write) returns (refusal: Option<Refusal>, view: Option<View>)
      modifies this
      ensures refusal == Refused(registry, old(overrides), w)
      ensures overrides == Apply(registry, old(overrides), w)
      ensures refusal.None? ==> view == Some(ViewOf(registry, overrides, w.ruleId))
    {
      view := None;
      if w.ruleId !in registry { return Some(NotFound), None; }
      var current := Current(overrides, w.ruleId);
      refusal := CheckVersion(current, w.payload, w.expected);
      if refusal.Some? { return; }
      refusal := CheckPayload(registry[w.ruleId], w.payload);
      if refusal.Some? { return; }
      overrides := overrides[w.ruleId := Merged(current, w.payload, w.now)];
      view := Some(Effective(w.ruleId, registry[w.ruleId], Some(overrides[w.ruleId])));
    }

    /** The read model: one row for every registered rule and every override, registered rules first,
        each part in the order of the ids. */
    method EffectiveRules() returns (rows: seq<View>)
      ensures forall id :: id in registry.Keys + overrides.Keys ==> exists i :: 0 <= i < |rows| && rows[i].ruleId == id
      ensures forall i, j :: 0 <= i < j < |rows| ==> rows[i].ruleId != rows[j].ruleId
      ensures forall i, j :: 0 <= i < j < |rows| && rows[i].stale == rows[j].stale ==>
                AtMost(rows[i].ruleId, rows[j].ruleId)
      ensures forall i :: 0 <= i < |rows| ==>
                && rows[i].ruleId in registry.Keys + overrides.Keys
                && rows[i] == ViewOf(registry, overrides, rows[i].ruleId)
                && (rows[i].stale <==> rows[i].ruleId !in registry)
      ensures forall i, j :: 0 <= i < j < |rows| && rows[i].stale ==> rows[j].stale
    {
      var known := SortIds(registry.Keys);
      var stale := SortIds(overrides.Keys - registry.Keys);
      ListedIds(registry.Keys, overrides.Keys, known, stale);
      hide SortedIds, ViewOf, AtMost, Shows;
      var knownRows := RegisteredRows(known);
      var staleRows := StaleRows(stale);
      rows := knownRows + staleRows;
      ShownAppend(registry, overrides, knownRows, known, staleRows, stale);
      ListedRows(registry, overrides, known, stale, rows);
    }

    method RegisteredRows(known: seq<string>) returns (rows: seq<View>)
      requires forall i :: 0 <= i < |known| ==> known[i] in registry
      ensures Shows(registry, overrides, rows, known)
    {
      rows := [];
      for i := 0 to |known|
        invariant |rows| == i && forall j :: 0 <= j < i ==> rows[j] == ViewOf(registry, overrides, known[j])
      {
        rows := rows + [Effective(known[i], registry[known[i]], Current(overrides, known[i]))];
      }
    }

    method StaleRows(stale: seq<string>) returns (rows: seq<View>)
      requires forall i :: 0 <= i < |stale| ==> stale[i] in overrides && stale[i] !in registry
      ensures Shows(registry, overrides, rows, stale)
    {
      rows := [];
      for i := 0 to |stale|
        invariant |rows| == i && forall j :: 0 <= j < i ==> rows[j] == ViewOf(registry, overrides, stale[j])
      {
        rows := rows + [Stale(stale[i], overrides[stale[i]])];
      }
    }
  }

  lemma ListedIds(registered: set<string>, overridden: set<string>, known: seq<string>, stale: seq<string>)
    requires SortedIds(known, registered) && SortedIds(stale, overridden - registered)
    ensures forall i :: 0 <= i < |known| ==> known[i] in registered
    ensures forall i :: 0 <= i < |stale| ==> stale[i] in overridden && stale[i] !in registered
    ensures forall id :: id in registered + overridden <==> id in known + stale
    ensures forall i, j :: 0 <= i < j < |known + stale| ==> (known + stale)[i] != (known + stale)[j]
  {
    forall i | 0 <= i < |known| ensures known[i] in registered { assert known[i] in known; }
    forall i | 0 <= i < |stale| ensures stale[i] in overridden - registered { assert stale[i] in stale; }
  }

  ghost predicate Shows(registry: map<string, Rule>, table: map<string, Override>, rows: seq<View>, ids: seq<string>) {
    |rows| == |ids| && forall i :: 0 <= i < |ids| ==>
      (ids[i] in registry || ids[i] in table) && rows[i] == ViewOf(registry, table, ids[i])
  }

  lemma ShownAppend(registry: map<string, Rule>, table: map<string, Override>, a: seq<View>, ids: seq<string>,
                    b: seq<View>, more: seq<string>)
    requires Shows(registry, table, a, ids) && Shows(registry, table, b, more)
    ensures Shows(registry, table, a + b, ids + more)
  {
    hide ViewOf;
  }

  lemma ShownIds(registry: map<string, Rule>, table: map<string, Override>, rows: seq<View>, ids: seq<string>)
    requires Shows(registry, table, rows, ids)
    ensures forall i :: 0 <= i < |rows| ==> rows[i].ruleId == ids[i] && (rows[i].stale <==> ids[i] !in registry)
    ensures forall id :: id in ids ==> exists i :: 0 <= i < |rows| && rows[i].ruleId == id
  {
    hide ViewOf;
    forall i | 0 <= i < |rows| ensures rows[i].ruleId == ids[i] && (rows[i].stale <==> ids[i] !in registry) {
      ViewOfIsNamed(registry, table, ids[i]);
    }
    forall id | id in ids ensures exists i :: 0 <= i < |rows| && rows[i].ruleId == id {
      var i :| 0 <= i < |ids| && ids[i] == id;
      assert rows[i].ruleId == id;
    }
  }

  /** The views of registered ids, then of the other ids, each part in order. */
  lemma ListedRows(registry: map<string, Rule>, table: map<string, Override>, known: seq<string>, stale: seq<string>,
                   rows: seq<View>)
    requires SortedIds(known, registry.Keys) && SortedIds(stale, table.Keys - registry.Keys)
    requires Shows(registry, table, rows, known + stale)
    ensures forall id :: id in registry.Keys + table.Keys ==> exists i :: 0 <= i < |rows| && rows[i].ruleId == id
    ensures forall i :: 0 <= i < |rows| ==>
              && rows[i].ruleId in registry.Keys + table.Keys
              && rows[i] == ViewOf(registry, table, rows[i].ruleId)
              && (rows[i].stale <==> i >= |known|) && (rows[i].stale <==> rows[i].ruleId !in registry)
    ensures forall i, j :: 0 <= i < j < |rows| ==>
              && rows[i].ruleId != rows[j].ruleId
              && (rows[i].stale == rows[j].stale ==> AtMost(rows[i].ruleId, rows[j].ruleId))
  {
    hide ViewOf, AtMost;
    ListedIds(registry.Keys, table.Keys, known, stale);
    ShownIds(registry, table, rows, known + stale);
    var ids := known + stale;
    forall i | 0 <= i < |rows| ensures ids[i] !in registry <==> i >= |known| {}
    forall i, j | 0 <= i < j < |rows| && (ids[i] in registry <==> ids[j] in registry) ensures AtMost(ids[i], ids[j]) {
      if j < |known| {
        assert ids[i] == known[i] && ids[j] == known[j];
      } else {
        assert ids[i] == stale[i - |known|] && ids[j] == stale[j - |known|];
      }
    }
  }
}
