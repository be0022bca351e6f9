/**
 * The scheduler's two time readers: clock labels with a required AM/PM
 * ("1:00 PM") become minutes after midnight, and slot labels without one
 * ("12:00 - 1:00") become a start and end minute, reading hours 1 to 9 as
 * afternoon hours.
 */
module HomeTime {
  import opened Wrappers
  import opened TimeText
  import opened Types

  /** The 24-hour clock hour of a 12-hour reading: 12 AM is 0, PM hours other than 12 move on by 12. */
  function ClockHour(h: nat, p: Period): (r: nat)
    ensures h <= 12 ==> r < 24
  {
    var h1 := if p == PM && h != 12 then h + 12 else h;
    if p == AM && h1 == 12 then 0 else h1
  }

  /** Minutes after midnight of a label such as "1:00 PM"; 0 when the label holds no time with a period. */
  function ParseTimeToMinutes(s: string): (r: nat)
    ensures FindTime(s, true).None? ==> r == 0
  {
    match FindTime(s, true)
    case None => 0
    case Some(m) =>
      var hours := ClockHour(DecimalValue(m.hourText), m.period.value);
      hours * 60 + DecimalValue(m.minuteText)
  }

  /** Reference reading of a 12-hour clock time: the hour taken modulo 12, plus 12 for PM. */
  function MinuteOfDay(h: nat, m: nat, p: Period): nat {
    (h % 12 + (if p == PM then 12 else 0)) * 60 + m
  }

  /** Every label the time picker can produce reads back as its minute of the day, which is under 24 hours. */
  lemma ParseClockLabel(h: nat, m: nat, p: Period)
    requires 1 <= h <= 12 && m < 60
    ensures ParseTimeToMinutes(ClockLabel(h, m, p)) == MinuteOfDay(h, m, p) < 24 * 60
  {
    ClockLabelMatch(h, m, p, true);
    ParseMatched(ClockLabel(h, m, p), HourText(h), MinuteText(m), p);
    ClockHourModulo(h, p);
  }

  /** The minutes of a label are determined by the groups of its first match. */
  lemma ParseMatched(s: string, hd: string, md: string, p: Period)
    requires FindTime(s, true) == Some(TimeMatch(hd, md, Some(p)))
    ensures AllDigits(hd) && AllDigits(md)
    ensures ParseTimeToMinutes(s) == ClockHour(DecimalValue(hd), p) * 60 + DecimalValue(md)
  {
  }

  lemma ClockHourModulo(h: nat, p: Period)
    requires 1 <= h <= 12
    ensures ClockHour(h, p) == h % 12 + (if p == PM then 12 else 0) < 24
  {
    if h == 12 {
      assert h % 12 == 0;
    } else {
      assert h % 12 == h;
    }
  }

  /** The 12-hour rules: 12 AM is midnight, 12 PM is noon, other PM hours add 12 and other AM hours stay. */
  lemma ClockHourRules(h: nat, p: Period)
    ensures ClockHour(12, AM) == 0 && ClockHour(12, PM) == 12
    ensures h != 12 ==> ClockHour(h, AM) == h && ClockHour(h, PM) == h + 12
    ensures h <= 12 ==> ClockHour(h, p) * 60 == MinuteOfDay(h, 0, p)
  {
  }

  // ---------------------------------------------------------------------------
  // Slot labels

  const SLOT_SEPARATOR: string := " - "

  datatype Interval = Interval(start: nat, end: nat)

  /** Slot labels carry no period: hours 1 to 9 are afternoon hours, every other hour is kept. */
  function SlotHour(h: nat): (r: nat)
    ensures 1 <= h <= 9 ==> r == h + 12
    ensures !(1 <= h <= 9) ==> r == h
  {
    if 10 <= h <= 12 then h
    else if 1 <= h <= 9 then h + 12
    else h
  }

  /** The minute of the day that hour h and minute m of a slot label stand for. */
  function SlotMinute(h: nat, m: nat): nat {
    SlotHour(h) * 60 + m
  }

  /** The minute a matched "h:mm" stands for in a slot label. */
  function SlotMinutes(m: TimeMatch): nat
    requires WellFormed(m)
  {
    SlotMinute(DecimalValue(m.hourText), DecimalValue(m.minuteText))
  }

  /**
   * The start and end of a slot label: None unless it splits on " - " into
   * exactly two parts that each hold a "digits:digits" time.
   */
  function ParseSlotTimes(slot: string): (r: Option<Interval>)
    ensures r.Some? <==>
      (|Split(slot, SLOT_SEPARATOR)| == 2
       && FindTime(Split(slot, SLOT_SEPARATOR)[0], false).Some?
       && FindTime(Split(slot, SLOT_SEPARATOR)[1], false).Some?)
  {
    var parts := Split(slot, SLOT_SEPARATOR);
    if |parts| != 2 then None
    else
      var startMatch := FindTime(parts[0], false);
      var endMatch := FindTime(parts[1], false);
      if startMatch.None? || endMatch.None? then None
      else Some(Interval(SlotMinutes(startMatch.value), SlotMinutes(endMatch.value)))
  }

  predicate NoBlank(s: string) {
    forall k :: 0 <= k < |s| ==> s[k] != ' '
  }

  /** "h:mm" as the slot labels write it. */
  function BareTime(h: nat, m: nat): (r: string)
    requires m < 100
    ensures NoBlank(r)
  {
    TimeTextNoBlank(HourText(h), MinuteText(m));
    HourText(h) + ":" + MinuteText(m)
  }

  lemma DigitsNoBlank(d: string)
    requires AllDigits(d)
    ensures NoBlank(d)
  {
  }

  lemma TimeTextNoBlank(hd: string, md: string)
    requires AllDigits(hd) && AllDigits(md)
    ensures NoBlank(hd + ":" + md)
  {
    DigitsNoBlank(hd);
    DigitsNoBlank(md);
    assert NoBlank(":");
    NoBlankJoin(hd, ":", md);
  }

  lemma NoBlankJoin(a: string, b: string, c: string)
    requires NoBlank(a) && NoBlank(b) && NoBlank(c)
    ensures NoBlank(a + b + c)
  {
    var s := a + b + c;
    forall k | 0 <= k < |s|
      ensures s[k] != ' '
    {
      if k < |a| {
        assert s[k] == a[k];
      } else if k < |a| + |b| {
        assert s[k] == b[k - |a|];
      } else {
        assert s[k] == c[k - |a| - |b|];
      }
    }
  }

  function SlotLabel(h1: nat, m1: nat, h2: nat, m2: nat): string
    requires m1 < 100 && m2 < 100
  {
    BareTime(h1, m1) + SLOT_SEPARATOR + BareTime(h2, m2)
  }

  /** Two blank-free texts around " - " split back into those texts. */
  lemma SplitAroundSeparator(a: string, b: string)
    requires NoBlank(a) && NoBlank(b)
    ensures Split(a + SLOT_SEPARATOR + b, SLOT_SEPARATOR) == [a, b]
  {
    var s := a + SLOT_SEPARATOR + b;
    forall j | 0 <= j < |a|
      ensures !OccursAt(s, SLOT_SEPARATOR, j)
    {
      assert s[j] == a[j] != ' ';
      if j + 3 <= |s| {
        assert s[j..j + 3][0] == s[j];
      }
    }
    forall j | 0 <= j <= |b|
      ensures !OccursAt(b, SLOT_SEPARATOR, j)
    {
      if j + 3 <= |b| {
        assert b[j..j + 3][0] == b[j] != ' ';
      }
    }
    SplitTwo(a, b, SLOT_SEPARATOR);
  }

  /** A slot label "h:m - h:m" reads back as its two times, shifted to the afternoon where the hour is 1 to 9. */
  lemma ParseSlotText(hd1: string, md1: string, hd2: string, md2: string)
    requires |hd1| > 0 && AllDigits(hd1) && |md1| > 0 && AllDigits(md1)
    requires |hd2| > 0 && AllDigits(hd2) && |md2| > 0 && AllDigits(md2)
    ensures ParseSlotTimes((hd1 + ":" + md1) + SLOT_SEPARATOR + (hd2 + ":" + md2)) ==
      Some(Interval(SlotMinute(DecimalValue(hd1), DecimalValue(md1)), SlotMinute(DecimalValue(hd2), DecimalValue(md2))))
  {
    var a, b := hd1 + ":" + md1, hd2 + ":" + md2;
    TimeTextNoBlank(hd1, md1);
    TimeTextNoBlank(hd2, md2);
    SplitAroundSeparator(a, b);
    MatchBare(hd1, md1);
    MatchBare(hd2, md2);
    ParseSlotOfParts(a + SLOT_SEPARATOR + b, a, b, hd1, md1, hd2, md2);
  }

  /** A slot label is read from the first times of its two parts. */
  lemma ParseSlotOfParts(slot: string, a: string, b: string, hd1: string, md1: string, hd2: string, md2: string)
    requires Split(slot, SLOT_SEPARATOR) == [a, b]
    requires FindTime(a, false) == Some(TimeMatch(hd1, md1, None)) && FindTime(b, false) == Some(TimeMatch(hd2, md2, None))
    ensures AllDigits(hd1) && AllDigits(md1) && AllDigits(hd2) && AllDigits(md2)
    ensures ParseSlotTimes(slot) ==
      Some(Interval(SlotMinute(DecimalValue(hd1), DecimalValue(md1)), SlotMinute(DecimalValue(hd2), DecimalValue(md2))))
  {
    var m1, m2 := TimeMatch(hd1, md1, None), TimeMatch(hd2, md2, None);
    assert WellFormed(m1) && WellFormed(m2);
    assert ParseSlotTimes(slot) == Some(Interval(SlotMinutes(m1), SlotMinutes(m2)));
  }

  /** A slot label built from two times reads back as those times, shifted to the afternoon where the hour is 1 to 9. */
  lemma ParseSlotLabel(h1: nat, m1: nat, h2: nat, m2: nat)
    requires m1 < 100 && m2 < 100
    ensures ParseSlotTimes(SlotLabel(h1, m1, h2, m2)) == Some(Interval(SlotMinute(h1, m1), SlotMinute(h2, m2)))
  {
    ParseSlotText(HourText(h1), MinuteText(m1), HourText(h2), MinuteText(m2));
  }

  /** An on-the-hour slot "h1:00 - h2:00" written with the given hour digits. */
  lemma ParseHourSlot(hd1: string, hd2: string, h1: nat, h2: nat)
    requires |hd1| > 0 && AllDigits(hd1) && DecimalValue(hd1) == h1
    requires |hd2| > 0 && AllDigits(hd2) && DecimalValue(hd2) == h2
    ensures Split((hd1 + ":00") + SLOT_SEPARATOR + (hd2 + ":00"), SLOT_SEPARATOR) == [hd1 + ":00", hd2 + ":00"]
    ensures ParseSlotTimes((hd1 + ":00") + SLOT_SEPARATOR + (hd2 + ":00")) == Some(Interval(SlotMinute(h1, 0), SlotMinute(h2, 0)))
  {
    var md := "00";
    assert DecimalValue(md) == 0 by {
      assert md[..1] == "0";
    }
    var a, b := hd1 + ":00", hd2 + ":00";
    assert a == hd1 + ":" + md && b == hd2 + ":" + md;
    TimeTextNoBlank(hd1, md);
    TimeTextNoBlank(hd2, md);
    SplitAroundSeparator(a, b);
    ParseSlotText(hd1, md, hd2, md);
  }

  /** The nine default slots are consecutive hours: slot k runs from minute 600 + 60k to 660 + 60k. */
  lemma DefaultSlotsConsecutive()
    ensures forall k :: 0 <= k < |DEFAULT_TIME_SLOTS| ==>
      ParseSlotTimes(DEFAULT_TIME_SLOTS[k]) == Some(Interval(600 + 60 * k, 660 + 60 * k))
  {
    forall k | 0 <= k < |DEFAULT_TIME_SLOTS|
      ensures ParseSlotTimes(DEFAULT_TIME_SLOTS[k]) == Some(Interval(600 + 60 * k, 660 + 60 * k))
    {
      DefaultSlotParts(k);
    }
  }

  /** The hour digits of the default slots: slot k starts at DEFAULT_HOURS[k] and ends at DEFAULT_HOURS[k + 1]. */
  const DEFAULT_HOURS: seq<string> := ["10", "11", "12", "1", "2", "3", "4", "5", "6", "7"]

  lemma DefaultSlotParts(k: nat)
    requires k < |DEFAULT_TIME_SLOTS|
    ensures Split(DEFAULT_TIME_SLOTS[k], SLOT_SEPARATOR) == [DEFAULT_HOURS[k] + ":00", DEFAULT_HOURS[k + 1] + ":00"]
    ensures ParseSlotTimes(DEFAULT_TIME_SLOTS[k]) == Some(Interval(600 + 60 * k, 660 + 60 * k))
  {
    DefaultSlotText(k);
    HourDigits(k);
    HourDigits(k + 1);
    HourSlotAt(DEFAULT_TIME_SLOTS[k], DEFAULT_HOURS[k], DEFAULT_HOURS[k + 1], k);
  }

  /** An on-the-hour slot whose hours read as the k-th hour after 10:00 and the one after it. */
  lemma HourSlotAt(slot: string, hd1: string, hd2: string, k: nat)
    requires slot == (hd1 + ":00") + SLOT_SEPARATOR + (hd2 + ":00")
    requires |hd1| > 0 && AllDigits(hd1) && SlotMinute(DecimalValue(hd1), 0) == 600 + 60 * k
    requires |hd2| > 0 && AllDigits(hd2) && SlotMinute(DecimalValue(hd2), 0) == 660 + 60 * k
    ensures Split(slot, SLOT_SEPARATOR) == [hd1 + ":00", hd2 + ":00"]
    ensures ParseSlotTimes(slot) == Some(Interval(600 + 60 * k, 660 + 60 * k))
  {
    ParseHourSlot(hd1, hd2, DecimalValue(hd1), DecimalValue(hd2));
  }

  lemma DefaultSlotText(k: nat)
    requires k < |DEFAULT_TIME_SLOTS|
    ensures DEFAULT_TIME_SLOTS[k] == (DEFAULT_HOURS[k] + ":00") + SLOT_SEPARATOR + (DEFAULT_HOURS[k + 1] + ":00")
  {
    if k == 0 {
      SlotText0(DEFAULT_TIME_SLOTS[0]);
    } else if k == 1 {
      SlotText1(DEFAULT_TIME_SLOTS[1]);
    } else if k == 2 {
      SlotText2(DEFAULT_TIME_SLOTS[2]);
    } else if k == 3 {
      SlotText3(DEFAULT_TIME_SLOTS[3]);
    } else if k == 4 {
      SlotText4(DEFAULT_TIME_SLOTS[4]);
    } else if k == 5 {
      SlotText5(DEFAULT_TIME_SLOTS[5]);
    } else if k == 6 {
      SlotText6(DEFAULT_TIME_SLOTS[6]);
    } else if k == 7 {
      SlotText7(DEFAULT_TIME_SLOTS[7]);
    } else {
      SlotText8(DEFAULT_TIME_SLOTS[8]);
    }
  }

  /** The text of each default slot, spelt as its two hours around the separator. */
  lemma SlotText0(s: string)
    requires s == "10:00 - 11:00"
    ensures s == ("10" + ":00") + SLOT_SEPARATOR + ("11" + ":00")
  {
  }

  lemma SlotText1(s: string)
    requires s == "11:00 - 12:00"
    ensures s == ("11" + ":00") + SLOT_SEPARATOR + ("12" + ":00")
  {
  }

  lemma SlotText2(s: string)
    requires s == "12:00 - 1:00"
    ensures s == ("12" + ":00") + SLOT_SEPARATOR + ("1" + ":00")
  {
  }

  lemma SlotText3(s: string)
    requires s == "1:00 - 2:00"
    ensures s == ("1" + ":00") + SLOT_SEPARATOR + ("2" + ":00")
  {
  }

  lemma SlotText4(s: string)
    requires s == "2:00 - 3:00"
    ensures s == ("2" + ":00") + SLOT_SEPARATOR + ("3" + ":00")
  {
  }

  lemma SlotText5(s: string)
    requires s == "3:00 - 4:00"
    ensures s == ("3" + ":00") + SLOT_SEPARATOR + ("4" + ":00")
  {
  }

  lemma SlotText6(s: string)
    requires s == "4:00 - 5:00"
    ensures s == ("4" + ":00") + SLOT_SEPARATOR + ("5" + ":00")
  {
  }

  lemma SlotText7(s: string)
    requires s == "5:00 - 6:00"
    ensures s == ("5" + ":00") + SLOT_SEPARATOR + ("6" + ":00")
  {
  }

  lemma SlotText8(s: string)
    requires s == "6:00 - 7:00"
    ensures s == ("6" + ":00") + SLOT_SEPARATOR + ("7" + ":00")
  {
  }

  /** The hour DEFAULT_HOURS[k] spells out. */
  function DefaultHour(k: nat): nat {
    if k < 3 then 10 + k else k - 2
  }

  lemma HourDigits(k: nat)
    requires k < |DEFAULT_HOURS|
    ensures |DEFAULT_HOURS[k]| > 0 && AllDigits(DEFAULT_HOURS[k])
    ensures DecimalValue(DEFAULT_HOURS[k]) == DefaultHour(k)
    ensures SlotMinute(DefaultHour(k), 0) == 600 + 60 * k
  {
    var d := DEFAULT_HOURS[k];
    if k < 3 {
      assert d[..1] == "1";
    }
  }

  /** The text after " - " in a two-part slot label, and the text before it. */
  function EndText(slot: string): string {
    var parts := Split(slot, SLOT_SEPARATOR);
    if |parts| == 2 then parts[1] else ""
  }

  function StartText(slot: string): string {
    var parts := Split(slot, SLOT_SEPARATOR);
    if |parts| == 2 then parts[0] else ""
  }

  /** Each default slot splits in two and starts with the text the previous one ends with. */
  lemma DefaultSlotsChain()
    ensures forall k :: 0 <= k < |DEFAULT_TIME_SLOTS| ==> |Split(DEFAULT_TIME_SLOTS[k], SLOT_SEPARATOR)| == 2
    ensures forall k :: 1 <= k < |DEFAULT_TIME_SLOTS| ==> StartText(DEFAULT_TIME_SLOTS[k]) == EndText(DEFAULT_TIME_SLOTS[k - 1])
  {
    forall k | 0 <= k < |DEFAULT_TIME_SLOTS|
      ensures |Split(DEFAULT_TIME_SLOTS[k], SLOT_SEPARATOR)| == 2
    {
      DefaultSlotParts(k);
    }
    forall k | 1 <= k < |DEFAULT_TIME_SLOTS|
      ensures StartText(DEFAULT_TIME_SLOTS[k]) == EndText(DEFAULT_TIME_SLOTS[k - 1])
    {
      DefaultSlotParts(k);
      DefaultSlotParts(k - 1);
      AdjacentSlots(DEFAULT_TIME_SLOTS[k - 1], DEFAULT_TIME_SLOTS[k], DEFAULT_HOURS[k - 1] + ":00",
        DEFAULT_HOURS[k] + ":00", DEFAULT_HOURS[k + 1] + ":00");
    }
  }

  lemma AdjacentSlots(prev: string, next: string, a: string, mid: string, b: string)
    requires Split(prev, SLOT_SEPARATOR) == [a, mid] && Split(next, SLOT_SEPARATOR) == [mid, b]
    ensures StartText(next) == EndText(prev) == mid
  {
  }
}
