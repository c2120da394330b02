/** The strings that identify a slot and a history row. */
module CoupangText {
  import opened Options

  function Digit(d: nat): char
    requires d < 10
  {
    "0123456789"[d]
  }

  function Decimal(n: nat): string {
    if n < 10 then [Digit(n)] else Decimal(n / 10) + [Digit(n % 10)]
  }

  /** The format specification `0<width>d`. */
  function ZeroPadded(n: nat, width: nat): string {
    var d := Decimal(n);
    if |d| >= width then d else seq(width - |d|, _ => '0') + d
  }

  function ScheduleIdText(scheduleId: Option<nat>): string {
    if scheduleId.None? || scheduleId.value == 0 then "" else Decimal(scheduleId.value)
  }

  function DateText(date: Option<string>): string {
    if date.None? then "" else date.value
  }

  function SlotKey(scheduleId: Option<nat>, date: Option<string>, optionLabel: string): string {
    ScheduleIdText(scheduleId) + "|" + DateText(date) + "|" + optionLabel
  }

  function HistoryId(key: string, eventId: nat, ordinal: nat): string {
    "pair:" + key + ":" + ZeroPadded(eventId, 10) + ":" + ZeroPadded(ordinal, 6)
  }

  // ---- decimal texts can be read back -----------------------------------------

  function DigitValue(c: char): nat {
    if '0' <= c <= '9' then (c as int) - ('0' as int) else 0
  }

  function Value(s: string): nat {
    if s == "" then 0 else 10 * Value(s[..|s| - 1]) + DigitValue(s[|s| - 1])
  }

  ghost predicate AllDigits(s: string) {
    forall i :: 0 <= i < |s| ==> '0' <= s[i] <= '9'
  }

  lemma {:induction false} DecimalReadsBack(n: nat)
    ensures Value(Decimal(n)) == n && AllDigits(Decimal(n)) && |Decimal(n)| > 0
  {
    var s := Decimal(n);
    if n >= 10 {
      DecimalReadsBack(n / 10);
      assert s[..|s| - 1] == Decimal(n / 10);
    } else {
      assert s[..|s| - 1] == "";
    }
  }

  lemma {:induction false} LeadingZeros(k: nat, s: string)
    ensures Value(seq(k, _ => '0') + s) == Value(s)
  {
    var z := seq(k, _ => '0');
    if s != "" {
      LeadingZeros(k, s[..|s| - 1]);
      assert (z + s)[..|z + s| - 1] == z + s[..|s| - 1];
    } else if k > 0 {
      LeadingZeros(k - 1, s);
      assert (z + s)[..k - 1] == seq(k - 1, _ => '0') + s;
    }
  }

  lemma ZeroPaddedReadsBack(n: nat, width: nat)
    ensures Value(ZeroPadded(n, width)) == n && AllDigits(ZeroPadded(n, width))
  {
    hide Value, Decimal;
    DecimalReadsBack(n);
    if |Decimal(n)| < width { LeadingZeros(width - |Decimal(n)|, Decimal(n)); }
  }

  lemma {:induction false} DecimalHasNoLeadingZero(n: nat)
    ensures n >= 10 ==> Decimal(n)[0] != '0' && |Decimal(n)| >= 2
    ensures n > 0 ==> Decimal(n)[0] != '0'
  {
    if n >= 10 { DecimalHasNoLeadingZero(n / 10); }
  }

  /** `text` writes `n` in decimal digits, filled up with zeros on the left to `width` characters. */
  ghost predicate Writes(text: string, n: nat, width: nat) {
    && AllDigits(text) && Value(text) == n && |text| >= width
    && (|text| > width && |text| > 1 ==> text[0] != '0')
  }

  lemma ZeroPaddedWrites(n: nat, width: nat)
    ensures Writes(ZeroPadded(n, width), n, width)
  {
    ZeroPaddedReadsBack(n, width);
    DecimalReadsBack(n);
    DecimalHasNoLeadingZero(n);
  }

  /** A row's public id: `pair:`, the slot key, the event id on at least ten and the ordinal on at least six digits. */
  lemma HistoryIdText(key: string, eventId: nat, ordinal: nat) returns (e: string, o: string)
    ensures HistoryId(key, eventId, ordinal) == "pair:" + key + ":" + e + ":" + o
    ensures Writes(e, eventId, 10) && Writes(o, ordinal, 6)
  {
    e, o := ZeroPadded(eventId, 10), ZeroPadded(ordinal, 6);
    ZeroPaddedWrites(eventId, 10);
    ZeroPaddedWrites(ordinal, 6);
  }

  /** A slot's key: schedule id, date and label between bars; what is missing, and the id 0, is left empty. */
  lemma SlotKeyText(id: Option<nat>, date: Option<string>, optionLabel: string) returns (text: string)
    ensures SlotKey(id, date, optionLabel) ==
            text + "|" + (if date.Some? then date.value else "") + "|" + optionLabel
    ensures if id.None? || id == Some(0) then text == "" else Writes(text, id.value, 1)
  {
    text := ScheduleIdText(id);
    if id.Some? && id.value != 0 {
      DecimalReadsBack(id.value);
      DecimalHasNoLeadingZero(id.value);
    }
  }

  // ---- splitting at a separator -----------------------------------------------

  lemma SplitFirst(c: char, a: string, b: string, a': string, b': string)
    requires a + [c] + b == a' + [c] + b' && c !in a && c !in a'
    ensures a == a' && b == b'
  {
    var s, s' := a + [c] + b, a' + [c] + b';
    assert s[|a|] == c && s'[|a'|] == c;
    assert (forall i :: 0 <= i < |a| ==> s[i] == a[i]) && (forall i :: 0 <= i < |a'| ==> s'[i] == a'[i]);
    assert |a| == |a'|;
    assert a == s[..|a|] && a' == s'[..|a'|];
    assert b == s[|a| + 1..] && b' == s'[|a'| + 1..];
  }

  lemma SplitLast(c: char, a: string, b: string, a': string, b': string)
    requires a + [c] + b == a' + [c] + b' && c !in b && c !in b'
    ensures a == a' && b == b'
  {
    var s, s' := a + [c] + b, a' + [c] + b';
    assert s[|a|] == c && s'[|a'|] == c;
    assert forall i :: |a| < i < |s| ==> s[i] == b[i - |a| - 1];
    assert forall i :: |a'| < i < |s'| ==> s'[i] == b'[i - |a'| - 1];
    assert |a| == |a'|;
    assert a == s[..|a|] && a' == s'[..|a'|];
    assert b == s[|a| + 1..] && b' == s'[|a'| + 1..];
  }

  // ---- the two identifiers ----------------------------------------------------

  lemma HistoryIdInjective(key: string, eventId: nat, ordinal: nat, key': string, eventId': nat, ordinal': nat)
    requires HistoryId(key, eventId, ordinal) == HistoryId(key', eventId', ordinal')
    ensures key == key' && eventId == eventId' && ordinal == ordinal'
  {
    ZeroPaddedReadsBack(eventId, 10);
    ZeroPaddedReadsBack(eventId', 10);
    ZeroPaddedReadsBack(ordinal, 6);
    ZeroPaddedReadsBack(ordinal', 6);
    var head, head' := "pair:" + key + ":" + ZeroPadded(eventId, 10), "pair:" + key' + ":" + ZeroPadded(eventId', 10);
    SplitLast(':', head, ZeroPadded(ordinal, 6), head', ZeroPadded(ordinal', 6));
    SplitLast(':', "pair:" + key, ZeroPadded(eventId, 10), "pair:" + key', ZeroPadded(eventId', 10));
    assert ("pair:" + key)[5..] == key && ("pair:" + key')[5..] == key';
  }

  lemma ScheduleIdTextPlain(scheduleId: Option<nat>)
    ensures '|' !in ScheduleIdText(scheduleId)
    ensures ScheduleIdText(scheduleId) == "" <==> scheduleId.None? || scheduleId.value == 0
    ensures scheduleId.Some? ==> Value(ScheduleIdText(scheduleId)) == scheduleId.value
  {
    if scheduleId.Some? && scheduleId.value != 0 { DecimalReadsBack(scheduleId.value); }
  }

  predicate SameSchedule(id: Option<nat>, id': Option<nat>) {
    id == id' || (id in {None, Some(0)} && id' in {None, Some(0)})
  }

  lemma ScheduleIdTextInjective(id: Option<nat>, id': Option<nat>)
    ensures ScheduleIdText(id) == ScheduleIdText(id') <==> SameSchedule(id, id')
  {
    ScheduleIdTextPlain(id);
    ScheduleIdTextPlain(id');
  }

  /** Two observations fall into the same slot exactly when schedule, date and label agree;
      a missing schedule id and the id 0 are the same schedule. */
  lemma SlotKeySeparates(id: Option<nat>, date: Option<string>, optionLabel: string,
                         id': Option<nat>, date': Option<string>, optionLabel': string)
    requires '|' !in DateText(date) && '|' !in DateText(date')
    ensures SlotKey(id, date, optionLabel) == SlotKey(id', date', optionLabel') <==>
            SameSchedule(id, id') && DateText(date) == DateText(date') && optionLabel == optionLabel'
  {
    ScheduleIdTextInjective(id, id');
    ScheduleIdTextPlain(id);
    ScheduleIdTextPlain(id');
    if SlotKey(id, date, optionLabel) == SlotKey(id', date', optionLabel') {
      SplitKey(ScheduleIdText(id), DateText(date), optionLabel, ScheduleIdText(id'), DateText(date'), optionLabel');
    }
  }

  lemma SplitKey(a: string, b: string, c: string, a': string, b': string, c': string)
    requires '|' !in a && '|' !in a' && '|' !in b && '|' !in b'
    requires a + "|" + b + "|" + c == a' + "|" + b' + "|" + c'
    ensures a == a' && b == b' && c == c'
  {
    assert a + "|" + b + "|" + c == a + ['|'] + (b + ['|'] + c);
    assert a' + "|" + b' + "|" + c' == a' + ['|'] + (b' + ['|'] + c');
    SplitFirst('|', a, b + ['|'] + c, a', b' + ['|'] + c');
    SplitFirst('|', b, c, b', c');
  }
}
