/**
 * The "time slot ending soon" dialog. Every check walks the slot list and
 * raises the dialog for the first locked, not yet dismissed slot whose end
 * lies one to five minutes ahead; dismissing it remembers the slot so that
 * it is not raised again.
 */
module SlotWarning {
  import opened Wrappers
  import opened TimeText
  import opened Types
  import opened HomeTime

  /**
   * The 24-hour hour of a reading whose period is optional: with a period the
   * 12-hour rules apply, without one hours 1 to 9 are afternoon hours.
   */
  function WarningHour(h: nat, p: Option<Period>): (r: nat)
    ensures p.Some? ==> r == ClockHour(h, p.value)
    ensures p.None? ==> r == SlotHour(h)
  {
    match p
    case Some(period) => ClockHour(h, period)
    case None => SlotHour(h)
  }

  /** Minutes after midnight of the first "h:mm", with or without AM/PM; 0 when there is none. */
  function WarningMinutes(s: string): (r: nat)
    ensures FindTime(s, false).None? ==> r == 0
    ensures FindTime(s, false).Some? ==>
      r == WarningHour(DecimalValue(FindTime(s, false).value.hourText), FindTime(s, false).value.period) * 60
           + DecimalValue(FindTime(s, false).value.minuteText)
  {
    match FindTime(s, false)
    case None => 0
    case Some(m) => WarningHour(DecimalValue(m.hourText), m.period) * 60 + DecimalValue(m.minuteText)
  }

  /**
   * When the first time in a text carries AM or PM, this reader and the
   * scheduler's clock-label reader agree on it.
   */
  lemma WarningAgreesOnClockTimes(s: string)
    requires FindTime(s, false).Some? && FindTime(s, false).value.period.Some?
    ensures WarningMinutes(s) == ParseTimeToMinutes(s)
  {
    PeriodicFirstMatch(s);
  }

  /** The time picker's labels read as their minute of the day. */
  lemma WarningClockLabel(h: nat, m: nat, p: Period)
    requires 1 <= h <= 12 && m < 60
    ensures WarningMinutes(ClockLabel(h, m, p)) == MinuteOfDay(h, m, p)
  {
    ClockLabelMatch(h, m, p, false);
    ParseClockLabel(h, m, p);
    ClockLabelMatch(h, m, p, true);
  }

  /** The end of a slot label: the second of exactly two " - " parts, trimmed; None otherwise. */
  function SlotEnd(slot: string): (r: Option<nat>)
    ensures r.Some? <==> |Split(slot, SLOT_SEPARATOR)| == 2
    ensures r.Some? ==> r.value == WarningMinutes(Trim(Split(slot, SLOT_SEPARATOR)[1]))
  {
    var parts := Split(slot, SLOT_SEPARATOR);
    if |parts| != 2 then None else Some(WarningMinutes(Trim(parts[1])))
  }

  /** A text that starts and ends with a digit is its own trim. */
  lemma TrimUntouched(s: string)
    requires |s| > 0 && IsDigit(s[0]) && IsDigit(s[|s| - 1])
    ensures Trim(s) == s
  {
    assert !IsSpace(s[0]) && !IsSpace(s[|s| - 1]);
  }

  /** "digits:digits" needs no trimming and reads as its own hour and minute, without a period. */
  lemma BareUntrimmed(hd: string, md: string)
    requires |hd| > 0 && AllDigits(hd) && |md| > 0 && AllDigits(md)
    ensures Trim(hd + ":" + md) == hd + ":" + md
    ensures FindTime(hd + ":" + md, false) == Some(TimeMatch(hd, md, None))
  {
    var s := hd + ":" + md;
    assert IsDigit(hd[0]) && IsDigit(md[|md| - 1]);
    assert s[0] == hd[0] && s[|s| - 1] == md[|md| - 1];
    TrimUntouched(s);
    MatchBare(hd, md);
  }

  /** A text whose first time has no period reads as a slot time. */
  lemma WarningMinutesBare(b: string, hd: string, md: string)
    requires FindTime(b, false) == Some(TimeMatch(hd, md, None))
    ensures AllDigits(hd) && AllDigits(md)
    ensures WarningMinutes(b) == SlotMinute(DecimalValue(hd), DecimalValue(md))
  {
  }

  /** A slot is read from the first time of its second part, which needs no trimming. */
  lemma SlotEndOfParts(slot: string, a: string, b: string, hd: string, md: string)
    requires Split(slot, SLOT_SEPARATOR) == [a, b] && Trim(b) == b
    requires FindTime(b, false) == Some(TimeMatch(hd, md, None))
    ensures AllDigits(hd) && AllDigits(md)
    ensures SlotEnd(slot) == Some(SlotMinute(DecimalValue(hd), DecimalValue(md)))
  {
    WarningMinutesBare(b, hd, md);
  }

  /**
   * The dialog reads the end of every slot label the scheduler builds exactly
   * as generation does.
   */
  lemma SlotEndOfLabel(h1: nat, m1: nat, h2: nat, m2: nat)
    requires m1 < 100 && m2 < 100
    ensures SlotEnd(SlotLabel(h1, m1, h2, m2)) == Some(SlotMinute(h2, m2))
    ensures ParseSlotTimes(SlotLabel(h1, m1, h2, m2)).Some?
         && SlotEnd(SlotLabel(h1, m1, h2, m2)) == Some(ParseSlotTimes(SlotLabel(h1, m1, h2, m2)).value.end)
  {
    var a, b := BareTime(h1, m1), BareTime(h2, m2);
    SplitAroundSeparator(a, b);
    BareUntrimmed(HourText(h2), MinuteText(m2));
    SlotEndOfParts(SlotLabel(h1, m1, h2, m2), a, b, HourText(h2), MinuteText(m2));
    ParseSlotLabel(h1, m1, h2, m2);
  }

  /**
   * For any slot generation can read, whose end part has no AM/PM and does
   * not start with white space, the dialog reads the same end as generation:
   * trimming the trailing white space does not move the first time.
   */
  lemma SlotEndAgrees(slot: string)
    requires ParseSlotTimes(slot).Some?
    requires FindTime(Split(slot, SLOT_SEPARATOR)[1], false).value.period.None?
    requires Split(slot, SLOT_SEPARATOR)[1] == [] || !IsSpace(Split(slot, SLOT_SEPARATOR)[1][0])
    ensures SlotEnd(slot) == Some(ParseSlotTimes(slot).value.end)
  {
    var parts := Split(slot, SLOT_SEPARATOR);
    var b := parts[1];
    var mt := FindTime(b, false).value;
    assert ParseSlotTimes(slot).value.end == SlotMinutes(mt);
    assert TrimStart(b) == b;
    FindTimeTrimEnd(b, false);
    WarningMinutesBare(Trim(b), mt.hourText, mt.minuteText);
  }

  /** A slot "h1:00 - h2:00" ends on hour h2, read as a slot hour. */
  lemma HourSlotEnd(slot: string, hd1: string, hd2: string)
    requires |hd2| > 0 && AllDigits(hd2)
    requires Split(slot, SLOT_SEPARATOR) == [hd1 + ":00", hd2 + ":00"]
    ensures SlotEnd(slot) == Some(SlotMinute(DecimalValue(hd2), 0))
  {
    var md := "00";
    assert DecimalValue(md) == 0 by {
      assert md[..1] == "0";
    }
    assert hd2 + ":00" == hd2 + ":" + md;
    BareUntrimmed(hd2, md);
    SlotEndOfParts(slot, hd1 + ":00", hd2 + ":00", hd2, md);
  }

  /** Each default slot ends on the hour after the one it starts: slot k ends at minute 660 + 60k. */
  lemma DefaultSlotEnds(k: nat)
    requires k < |DEFAULT_TIME_SLOTS|
    ensures SlotEnd(DEFAULT_TIME_SLOTS[k]) == Some(660 + 60 * k)
  {
    HourDigits(k + 1);
    DefaultSlotParts(k);
    HourSlotEnd(DEFAULT_TIME_SLOTS[k], DEFAULT_HOURS[k], DEFAULT_HOURS[k + 1]);
  }

  /** How a check reads the end of a slot; the dialog uses SlotEnd. */
  type EndReader = string -> Option<nat>

  /**
   * The dialog is raised for a slot that is locked, not dismissed and ends one
   * to five minutes after now.
   */
  predicate Due(slot: string, endOf: EndReader, lockedSlots: set<string>, dismissedSlots: set<string>, now: nat) {
    slot !in dismissedSlots && slot in lockedSlots && endOf(slot).Some?
    && 0 < endOf(slot).value - now <= 5
  }

  /** The index of the first slot at or after i that is due, if any. */
  function FirstDue(timeSlots: seq<string>, endOf: EndReader, lockedSlots: set<string>, dismissedSlots: set<string>, now: nat, i: nat): (r: Option<nat>)
    requires i <= |timeSlots|
    ensures r.Some? ==> i <= r.value < |timeSlots| && Due(timeSlots[r.value], endOf, lockedSlots, dismissedSlots, now)
    ensures r.Some? ==> forall j :: i <= j < r.value ==> !Due(timeSlots[j], endOf, lockedSlots, dismissedSlots, now)
    ensures r.None? ==> forall j :: i <= j < |timeSlots| ==> !Due(timeSlots[j], endOf, lockedSlots, dismissedSlots, now)
    decreases |timeSlots| - i
  {
    if i == |timeSlots| then None
    else if Due(timeSlots[i], endOf, lockedSlots, dismissedSlots, now) then Some(i)
    else FirstDue(timeSlots, endOf, lockedSlots, dismissedSlots, now, i + 1)
  }

  /** Slots that are not due may be skipped when looking for the first due one. */
  lemma {:induction false} FirstDueSkip(timeSlots: seq<string>, endOf: EndReader, lockedSlots: set<string>, dismissedSlots: set<string>,
                                        now: nat, i: nat, k: nat)
    requires i <= k <= |timeSlots|
    requires forall j :: i <= j < k ==> !Due(timeSlots[j], endOf, lockedSlots, dismissedSlots, now)
    ensures FirstDue(timeSlots, endOf, lockedSlots, dismissedSlots, now, i) == FirstDue(timeSlots, endOf, lockedSlots, dismissedSlots, now, k)
    decreases k - i
  {
    if i < k {
      FirstDueSkip(timeSlots, endOf, lockedSlots, dismissedSlots, now, i + 1, k);
    }
  }

  /** A slot with no readable end, or one that is unlocked or dismissed, never raises the dialog. */
  lemma NeverDue(slot: string, lockedSlots: set<string>, dismissedSlots: set<string>, now: nat)
    requires slot in dismissedSlots || slot !in lockedSlots || |Split(slot, SLOT_SEPARATOR)| != 2
    ensures !Due(slot, SlotEnd, lockedSlots, dismissedSlots, now)
  {
  }

  /** The empty label has no " - " and so never raises the dialog. */
  lemma EmptySlotNeverDue(lockedSlots: set<string>, dismissedSlots: set<string>, now: nat)
    ensures !Due("", SlotEnd, lockedSlots, dismissedSlots, now)
  {
    assert Split("", SLOT_SEPARATOR) == [""];
  }

  /**
   * With distinct slot labels, dismissing the slot the dialog was raised for
   * makes the next check pass on to the next due slot after it.
   */
  lemma DismissMovesOn(timeSlots: seq<string>, endOf: EndReader, lockedSlots: set<string>, dismissedSlots: set<string>, now: nat, k: nat)
    requires forall i, j :: 0 <= i < j < |timeSlots| ==> timeSlots[i] != timeSlots[j]
    requires FirstDue(timeSlots, endOf, lockedSlots, dismissedSlots, now, 0) == Some(k)
    ensures FirstDue(timeSlots, endOf, lockedSlots, dismissedSlots + {timeSlots[k]}, now, 0)
         == FirstDue(timeSlots, endOf, lockedSlots, dismissedSlots, now, k + 1)
  {
    var after := dismissedSlots + {timeSlots[k]};
    FirstDueSkip(timeSlots, endOf, lockedSlots, after, now, 0, k + 1);
    SameDueAfter(timeSlots, endOf, lockedSlots, dismissedSlots, after, now, k + 1);
  }

  /** Two dismissed sets that agree on the slots from i onwards pick the same first due slot from i. */
  lemma {:induction false} SameDueAfter(timeSlots: seq<string>, endOf: EndReader, lockedSlots: set<string>, d1: set<string>, d2: set<string>,
                                        now: nat, i: nat)
    requires i <= |timeSlots|
    requires forall j :: i <= j < |timeSlots| ==> (timeSlots[j] in d1 <==> timeSlots[j] in d2)
    ensures FirstDue(timeSlots, endOf, lockedSlots, d1, now, i) == FirstDue(timeSlots, endOf, lockedSlots, d2, now, i)
    decreases |timeSlots| - i
  {
    if i < |timeSlots| {
      SameDueAfter(timeSlots, endOf, lockedSlots, d1, d2, now, i + 1);
    }
  }

  /** The dialog's state: whether it is open, the slot it warns about and the slots already dismissed. */
  class SlotWarning {
    var showWarning: bool
    var currentWarningSlot: Option<string>
    var dismissedSlots: set<string>

    constructor ()
      ensures !showWarning && currentWarningSlot == None && dismissedSlots == {}
    {
      showWarning := false;
      currentWarningSlot := None;
      dismissedSlots := {};
    }

    /**
     * One check at minute `now` of the day: the first due slot opens the
     * dialog; when none is due the dialog is left as it was.
     */
    method CheckTimeSlots(timeSlots: seq<string>, lockedSlots: set<string>, now: nat)
      modifies this
      ensures dismissedSlots == old(dismissedSlots)
      ensures match FirstDue(timeSlots, SlotEnd, lockedSlots, dismissedSlots, now, 0)
        case Some(k) => showWarning && currentWarningSlot == Some(timeSlots[k])
        case None => showWarning == old(showWarning) && currentWarningSlot == old(currentWarningSlot)
    {
      var i := 0;
      while i < |timeSlots|
        invariant 0 <= i <= |timeSlots|
        invariant FirstDue(timeSlots, SlotEnd, lockedSlots, dismissedSlots, now, 0)
               == FirstDue(timeSlots, SlotEnd, lockedSlots, dismissedSlots, now, i)
        invariant showWarning == old(showWarning) && currentWarningSlot == old(currentWarningSlot)
      {
        var slot := timeSlots[i];
        if slot !in dismissedSlots && slot in lockedSlots {
          var endTime := SlotEnd(slot);
          if endTime.Some? {
            var minutesUntilEnd := endTime.value - now;
            if 0 < minutesUntilEnd <= 5 {
              currentWarningSlot := Some(slot);
              showWarning := true;
              return;
            }
          }
        }
        i := i + 1;
      }
    }

    /**
     * Closing the dialog: the slot it warned about, if any, joins the
     * dismissed slots (a falsy empty label would not, but no empty label is
     * ever due), and the dialog closes with no current slot.
     */
    method Dismiss()
      modifies this
      ensures old(currentWarningSlot).Some? && old(currentWarningSlot).value != "" ==>
        dismissedSlots == old(dismissedSlots) + {old(currentWarningSlot).value}
      ensures !(old(currentWarningSlot).Some? && old(currentWarningSlot).value != "") ==>
        dismissedSlots == old(dismissedSlots)
      ensures !showWarning && currentWarningSlot == None
    {
      if currentWarningSlot.Some? && currentWarningSlot.value != "" {
        dismissedSlots := dismissedSlots + {currentWarningSlot.value};
      }
      showWarning := false;
      currentWarningSlot := None;
    }
  }
}
