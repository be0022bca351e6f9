/**
 * The break editor of the scheduler: the hour/minute/period picker that reads
 * and writes labels such as "11:15 AM", the three preset breaks, and the
 * add, edit and delete operations on one agent's break list.
 */
module BreakEditor {
  import opened Wrappers
  import opened TimeText
  import opened Types
  import opened HomeTime
  import opened Filters

  // ---------------------------------------------------------------------------
  // The time picker

  /** The three picker selections, as the texts the pickers hold. */
  datatype PickedTime = PickedTime(hour: string, minute: string, period: string)

  /** What the pickers show for a label with no "h:mm AM|PM" in it. */
  const DEFAULT_PICK: PickedTime := PickedTime("10", "00", "AM")

  /** The hour picker's choices 1 to 12, as numbers. */
  const HOURS: seq<nat> := seq(12, i => i + 1)

  /** The minute picker's choices "00" to "59". */
  const MINUTES: seq<string> := seq(60, i requires 0 <= i < 60 => MinuteText(i))

  const PERIODS: seq<Period> := [AM, PM]

  /**
   * The picker selections of a label: the hour digits, the minute digits
   * padded to two and the period in capitals of its first "h:mm AM|PM", or
   * the default selection when it has none.
   */
  function ParseTime(value: string): (r: PickedTime)
    ensures FindTime(value, true).None? ==> r == DEFAULT_PICK
    ensures r.period == "AM" || r.period == "PM"
    ensures |r.hour| > 0 && AllDigits(r.hour) && |r.minute| >= 2 && AllDigits(r.minute)
  {
    match FindTime(value, true)
    case None => DEFAULT_PICK
    case Some(m) => PickedTime(m.hourText, PadStart(m.minuteText, 2, '0'), PeriodText(m.period.value))
  }

  /** The label the picker reports: "h:m p". */
  function Compose(t: PickedTime): (r: string)
    ensures |r| == |t.hour| + |t.minute| + |t.period| + 2
    ensures r[..|t.hour|] == t.hour && r[|t.hour|] == ':' && r[|t.hour| + 1 + |t.minute|] == ' '
    ensures r[|r| - |t.period|..] == t.period
  {
    t.hour + ":" + t.minute + " " + t.period
  }

  /** One picker changed: the label made of the new choices and the current value's other parts. */
  function HandleChange(value: string, newHour: Option<string>, newMinute: Option<string>,
                        newPeriod: Option<string>): (r: string)
    ensures newHour.Some? && newHour.value != "" && newMinute.Some? && newMinute.value != "" &&
            newPeriod.Some? && newPeriod.value != "" ==>
      r == Compose(PickedTime(newHour.value, newMinute.value, newPeriod.value))
    ensures newHour.None? && newMinute.None? && newPeriod.None? ==> r == Compose(ParseTime(value))
  {
    var current := ParseTime(value);
    Compose(PickedTime(TextOr(newHour, current.hour), TextOr(newMinute, current.minute),
                       TextOr(newPeriod, current.period)))
  }

  /** The selection the pickers hold for hour h, minute m and period p. */
  function Picked(h: nat, m: nat, p: Period): PickedTime
    requires m < 100
  {
    PickedTime(HourText(h), MinuteText(m), PeriodText(p))
  }

  /** A selection of the pickers is reported as the time picker's own label. */
  lemma ComposePicked(h: nat, m: nat, p: Period)
    requires m < 100
    ensures Compose(Picked(h, m, p)) == ClockLabel(h, m, p)
  {
  }

  /** Padding two digits changes nothing. */
  lemma PadTwoDigits(m: nat)
    requires m < 100
    ensures PadStart(MinuteText(m), 2, '0') == MinuteText(m)
  {
  }

  /** Reading back the label of any selection gives that selection. */
  lemma ParsePicked(h: nat, m: nat, p: Period)
    requires m < 100
    ensures ParseTime(Compose(Picked(h, m, p))) == Picked(h, m, p)
  {
    ComposePicked(h, m, p);
    ClockLabelMatch(h, m, p, true);
    PadTwoDigits(m);
  }

  /** The label reported after a change, in terms of the selection the value showed before. */
  lemma HandleChangeOn(value: string, current: PickedTime, newHour: Option<string>, newMinute: Option<string>,
                       newPeriod: Option<string>)
    requires ParseTime(value) == current
    ensures HandleChange(value, newHour, newMinute, newPeriod) ==
      Compose(PickedTime(TextOr(newHour, current.hour), TextOr(newMinute, current.minute),
                         TextOr(newPeriod, current.period)))
  {
  }

  /** The hour, minute and period texts the pickers offer are never empty. */
  lemma PickerTextsNonEmpty(h: nat, m: nat, p: Period)
    requires m < 100
    ensures HourText(h) != "" && MinuteText(m) != "" && PeriodText(p) != ""
  {
  }

  /** When all three pickers are given non-empty choices, the label is made of those choices alone. */
  lemma AllChosen(value: string, hour: string, minute: string, period: string)
    requires hour != "" && minute != "" && period != ""
    ensures HandleChange(value, Some(hour), Some(minute), Some(period)) == Compose(PickedTime(hour, minute, period))
  {
  }

  /** Choosing all three pickers reports a label that reads back as those choices, whatever the value was before. */
  lemma ChooseAll(value: string, h: nat, m: nat, p: Period)
    requires m < 100
    ensures ParseTime(HandleChange(value, Some(HourText(h)), Some(MinuteText(m)), Some(PeriodText(p)))) == Picked(h, m, p)
  {
    PickerTextsNonEmpty(h, m, p);
    AllChosen(value, HourText(h), MinuteText(m), PeriodText(p));
    ParsePicked(h, m, p);
  }

  /** The i-th hour choice is i + 1 and the j-th minute choice is j, two digits wide. */
  lemma {:induction false} PickerLists(i: nat, j: nat)
    requires i < |HOURS| && j < |MINUTES|
    ensures HOURS[i] == i + 1 && MINUTES[j] == MinuteText(j)
  {
  }

  /**
   * Choosing all three pickers from their lists reports a label that reads back
   * as exactly those three choices, whatever the value was before.
   */
  lemma PickerRoundTrip(value: string, i: nat, j: nat, k: nat)
    requires i < |HOURS| && j < |MINUTES| && k < |PERIODS|
    ensures ParseTime(HandleChange(value, Some(NatToString(HOURS[i])), Some(MINUTES[j]), Some(PeriodText(PERIODS[k]))))
         == PickedTime(NatToString(HOURS[i]), MINUTES[j], PeriodText(PERIODS[k]))
  {
    PickerLists(i, j);
    ChooseAll(value, HOURS[i], j, PERIODS[k]);
  }

  /** The picker text of an optional new hour, minute or period. */
  function HourChoice(h: Option<nat>): Option<string> {
    if h.Some? then Some(HourText(h.value)) else None
  }

  function MinuteChoice(m: Option<nat>): Option<string>
    requires m.Some? ==> m.value < 100
  {
    if m.Some? then Some(MinuteText(m.value)) else None
  }

  function PeriodChoice(p: Option<Period>): Option<string> {
    if p.Some? then Some(PeriodText(p.value)) else None
  }

  /** The value of an option, or the fallback when there is none. */
  function OrElse<T>(o: Option<T>, fallback: T): T {
    if o.Some? then o.value else fallback
  }

  /**
   * Changing pickers on a label the pickers made keeps the others: the new
   * label reads back with the changed parts replaced and the rest as before.
   */
  lemma ChangeKeepsOthers(h: nat, m: nat, p: Period, newHour: Option<nat>, newMinute: Option<nat>, newPeriod: Option<Period>)
    requires m < 100
    requires newMinute.Some? ==> newMinute.value < 100
    ensures ParseTime(HandleChange(Compose(Picked(h, m, p)), HourChoice(newHour), MinuteChoice(newMinute), PeriodChoice(newPeriod)))
         == Picked(OrElse(newHour, h), OrElse(newMinute, m), OrElse(newPeriod, p))
  {
    var h', m', p' := OrElse(newHour, h), OrElse(newMinute, m), OrElse(newPeriod, p);
    ParsePicked(h, m, p);
    PickerTextsNonEmpty(h', m', p');
    HandleChangeOn(Compose(Picked(h, m, p)), Picked(h, m, p), HourChoice(newHour), MinuteChoice(newMinute), PeriodChoice(newPeriod));
    assert TextOr(HourChoice(newHour), HourText(h)) == HourText(h');
    assert TextOr(MinuteChoice(newMinute), MinuteText(m)) == MinuteText(m');
    assert TextOr(PeriodChoice(newPeriod), PeriodText(p)) == PeriodText(p');
    ParsePicked(h', m', p');
  }

  /** A padded minute has the value of the digits it was padded from. */
  lemma PadValue(d: string)
    requires |d| > 0 && AllDigits(d)
    ensures AllDigits(PadStart(d, 2, '0')) && DecimalValue(PadStart(d, 2, '0')) == DecimalValue(d)
  {
    if |d| < 2 {
      PadDigits(d);
    }
  }

  /** The pickers show the time the scheduler reads from the same label. */
  lemma PickerShowsClockTime(value: string)
    requires FindTime(value, true).Some?
    ensures var t := ParseTime(value);
      ParseTimeToMinutes(value) ==
        ClockHour(DecimalValue(t.hour), FindTime(value, true).value.period.value) * 60 + DecimalValue(t.minute)
  {
    PadValue(FindTime(value, true).value.minuteText);
  }

  // ---------------------------------------------------------------------------
  // Presets

  datatype PresetBreak = PresetBreak(name: string, defaultStart: string, defaultEnd: string)

  const PRESET_BREAKS: seq<PresetBreak> := [
    PresetBreak("Early Break", "11:00 AM", "11:15 AM"),
    PresetBreak("Lunch Break", "12:00 PM", "1:00 PM"),
    PresetBreak("Late Break", "4:00 PM", "4:15 PM")
  ]

  /** A label "hours:minutes period" reads as its hours under the 12-hour rules and its minutes. */
  lemma LabelMinutes(s: string, hd: string, md: string, p: Period)
    requires |hd| > 0 && AllDigits(hd) && |md| > 0 && AllDigits(md)
    requires s == hd + ":" + md + " " + PeriodText(p)
    ensures ParseTimeToMinutes(s) == ClockHour(DecimalValue(hd), p) * 60 + DecimalValue(md)
  {
    MatchLabel(hd, md, p, true);
    ParseMatched(s, hd, md, p);
  }

  /** The early break starts at 11:00 AM, minute 660 of the day. */
  lemma EarlyBreakStart(b: PresetBreak)
    requires b == PRESET_BREAKS[0]
    ensures ParseTimeToMinutes(b.defaultStart) == 660
  {
    LabelMinutes(b.defaultStart, "11", "00", AM);
  }

  /** The early break ends at 11:15 AM, minute 675 of the day. */
  lemma EarlyBreakEnd(b: PresetBreak)
    requires b == PRESET_BREAKS[0]
    ensures ParseTimeToMinutes(b.defaultEnd) == 675
  {
    LabelMinutes(b.defaultEnd, "11", "15", AM);
  }

  /** The lunch break starts at 12:00 PM, minute 720 of the day. */
  lemma LunchBreakStart(b: PresetBreak)
    requires b == PRESET_BREAKS[1]
    ensures ParseTimeToMinutes(b.defaultStart) == 720
  {
    LabelMinutes(b.defaultStart, "12", "00", PM);
  }

  /** The lunch break ends at 1:00 PM, minute 780 of the day. */
  lemma LunchBreakEnd(b: PresetBreak)
    requires b == PRESET_BREAKS[1]
    ensures ParseTimeToMinutes(b.defaultEnd) == 780
  {
    LabelMinutes(b.defaultEnd, "1", "00", PM);
  }

  /** The late break starts at 4:00 PM, minute 960 of the day. */
  lemma LateBreakStart(b: PresetBreak)
    requires b == PRESET_BREAKS[2]
    ensures ParseTimeToMinutes(b.defaultStart) == 960
  {
    LabelMinutes(b.defaultStart, "4", "00", PM);
  }

  /** The late break ends at 4:15 PM, minute 975 of the day. */
  lemma LateBreakEnd(b: PresetBreak)
    requires b == PRESET_BREAKS[2]
    ensures ParseTimeToMinutes(b.defaultEnd) == 975
  {
    LabelMinutes(b.defaultEnd, "4", "15", PM);
  }

  /** Every preset break starts before it ends, as the scheduler reads their times. */
  lemma PresetsStartBeforeEnd(b: PresetBreak)
    requires b in PRESET_BREAKS
    ensures ParseTimeToMinutes(b.defaultStart) < ParseTimeToMinutes(b.defaultEnd)
  {
    if b == PRESET_BREAKS[0] {
      EarlyBreakStart(b);
      EarlyBreakEnd(b);
    } else if b == PRESET_BREAKS[1] {
      LunchBreakStart(b);
      LunchBreakEnd(b);
    } else {
      LateBreakStart(b);
      LateBreakEnd(b);
    }
  }

  // ---------------------------------------------------------------------------
  // Editing one agent's break list

  /** The ids of a break list, in order. */
  function Ids(breaks: seq<BreakSlot>): (r: seq<string>)
    ensures |r| == |breaks| && forall i :: 0 <= i < |breaks| ==> r[i] == breaks[i].id
  {
    seq(|breaks|, i requires 0 <= i < |breaks| => breaks[i].id)
  }

  /** A preset is appended under a new id with the preset's name and times. */
  function AddPresetBreak(breaks: seq<BreakSlot>, preset: PresetBreak, newId: string): (r: seq<BreakSlot>)
    ensures |r| == |breaks| + 1 && r[..|breaks|] == breaks
    ensures r[|breaks|] == BreakSlot(newId, preset.name, preset.defaultStart, preset.defaultEnd)
  {
    breaks + [BreakSlot(newId, preset.name, preset.defaultStart, preset.defaultEnd)]
  }

  /**
   * Saving the custom-break form. When a break is being edited, every break
   * with its id takes the form's name and times and keeps its id; otherwise a
   * new break is appended under a new id, named "Break" when the name is empty.
   */
  function SaveCustomBreak(breaks: seq<BreakSlot>, editing: Option<BreakSlot>, customName: string,
                           customStart: string, customEnd: string, newId: string): (r: seq<BreakSlot>)
    ensures editing.Some? ==> |r| == |breaks| && Ids(r) == Ids(breaks)
    ensures editing.Some? ==> forall i :: 0 <= i < |breaks| && breaks[i].id != editing.value.id ==> r[i] == breaks[i]
    ensures editing.Some? ==> forall i :: 0 <= i < |breaks| && breaks[i].id == editing.value.id ==>
      r[i] == BreakSlot(breaks[i].id, customName, customStart, customEnd)
    ensures editing.None? ==> |r| == |breaks| + 1 && r[..|breaks|] == breaks
    ensures editing.None? ==>
      r[|breaks|] == BreakSlot(newId, if customName == "" then "Break" else customName, customStart, customEnd)
  {
    match editing
    case Some(e) =>
      seq(|breaks|, i requires 0 <= i < |breaks| =>
        if breaks[i].id == e.id then e.(name := customName, start := customStart, end := customEnd) else breaks[i])
    case None =>
      breaks + [BreakSlot(newId, if customName == "" then "Break" else customName, customStart, customEnd)]
  }

  /** The key a break is deleted by. */
  function BreakId(b: BreakSlot): string { b.id }

  /** Deleting keeps exactly the breaks with another id, in their original order. */
  function DeleteBreak(breaks: seq<BreakSlot>, breakId: string): (r: seq<BreakSlot>)
    ensures |r| <= |breaks|
    ensures forall b :: b in r <==> b in breaks && b.id != breakId
  {
    WithoutMembers(breaks, BreakId, breakId);
    Without(breaks, BreakId, breakId)
  }

  /** Deleting a break just added under a new id gives back the list as it was. */
  lemma DeleteUndoesAdd(breaks: seq<BreakSlot>, preset: PresetBreak, newId: string)
    requires newId !in Ids(breaks)
    ensures DeleteBreak(AddPresetBreak(breaks, preset, newId), newId) == breaks
  {
    var added := AddPresetBreak(breaks, preset, newId);
    WithoutAppend(breaks, added[|breaks|..], BreakId, newId);
    assert added == breaks + added[|breaks|..];
    WithoutSingle(added[|breaks|], BreakId, newId);
    forall i | 0 <= i < |breaks| ensures BreakId(breaks[i]) != newId {
      assert breaks[i].id == Ids(breaks)[i];
    }
    WithoutAbsent(breaks, BreakId, newId);
  }

  /** Editing a break and then deleting it leaves the same list as deleting it straight away. */
  lemma DeleteAfterEdit(breaks: seq<BreakSlot>, e: BreakSlot, customName: string,
                        customStart: string, customEnd: string, newId: string)
    ensures DeleteBreak(SaveCustomBreak(breaks, Some(e), customName, customStart, customEnd, newId), e.id)
         == DeleteBreak(breaks, e.id)
  {
    var edited := SaveCustomBreak(breaks, Some(e), customName, customStart, customEnd, newId);
    forall i | 0 <= i < |breaks| ensures BreakId(edited[i]) == BreakId(breaks[i]) {
      assert Ids(edited)[i] == Ids(breaks)[i];
    }
    WithoutAgreeing(edited, breaks, BreakId, e.id);
  }
}
