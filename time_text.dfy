/**
 * Text primitives the scheduler's parsers are built from: the time pattern
 * `(\d+):(\d+)\s*(AM|PM)` searched case-insensitively (with the period group
 * either required or optional), `parseInt(_, 10)`, `Number.toString()`,
 * `String.split`, `String.trim`, `Array.join` and `String.padStart`.
 *
 * The regular expression is modelled by the leftmost position at which it
 * matches, with every repetition taken greedily. Backtracking never finds a
 * different match: a shorter `\d+` leaves a digit where `:` or `\s`/`A`/`P` is
 * expected, and a shorter `\s*` leaves a space where `A` or `P` is expected.
 */
module TimeText {
  import opened Wrappers

  predicate IsDigit(c: char) { '0' <= c <= '9' }

  /** The characters that JavaScript's `\s` and `String.prototype.trim` treat as white space. */
  predicate IsSpace(c: char) {
    c == ' ' || c == '\t' || c == '\n' || c == '\r' || c == '\U{B}' || c == '\U{C}'
    || c == '\U{A0}' || c == '\U{1680}' || ('\U{2000}' <= c <= '\U{200A}')
    || c == '\U{2028}' || c == '\U{2029}' || c == '\U{202F}' || c == '\U{205F}'
    || c == '\U{3000}' || c == '\U{FEFF}'
  }

  predicate AllDigits(s: string) { forall k :: 0 <= k < |s| ==> IsDigit(s[k]) }

  predicate NoDigits(s: string) { forall k :: 0 <= k < |s| ==> !IsDigit(s[k]) }

  predicate AllSpaces(s: string) { forall k :: 0 <= k < |s| ==> IsSpace(s[k]) }

  /** Length of the longest run of digits that starts at position i (greedy `\d*`). */
  function DigitRun(s: string, i: nat): (n: nat)
    requires i <= |s|
    ensures i + n <= |s|
    ensures forall k :: i <= k < i + n ==> IsDigit(s[k])
    ensures i + n == |s| || !IsDigit(s[i + n])
    decreases |s| - i
  {
    if i < |s| && IsDigit(s[i]) then 1 + DigitRun(s, i + 1) else 0
  }

  /** Length of the longest run of white space that starts at position i (greedy `\s*`). */
  function SpaceRun(s: string, i: nat): (n: nat)
    requires i <= |s|
    ensures i + n <= |s|
    ensures forall k :: i <= k < i + n ==> IsSpace(s[k])
    ensures i + n == |s| || !IsSpace(s[i + n])
    decreases |s| - i
  {
    if i < |s| && IsSpace(s[i]) then 1 + SpaceRun(s, i + 1) else 0
  }

  // ---------------------------------------------------------------------------
  // Decimal numbers

  function DigitValue(c: char): nat
    requires IsDigit(c)
  {
    c as int - '0' as int
  }

  function DigitChar(n: nat): (c: char)
    requires n < 10
    ensures IsDigit(c) && DigitValue(c) == n
  {
    ('0' as int + n) as char
  }

  /** `parseInt(d, 10)` of a string of decimal digits. */
  function DecimalValue(d: string): nat
    requires AllDigits(d)
  {
    if d == [] then 0 else DecimalValue(d[..|d| - 1]) * 10 + DigitValue(d[|d| - 1])
  }

  /** `n.toString()` for a non-negative integer: its shortest decimal digits, which `parseInt` reads back. */
  function NatToString(n: nat): (s: string)
    ensures |s| > 0 && AllDigits(s)
    ensures DecimalValue(s) == n
    ensures n < 10 <==> |s| == 1
  {
    if n < 10 then [DigitChar(n)]
    else
      var init := NatToString(n / 10);
      var s := init + [DigitChar(n % 10)];
      assert s[..|s| - 1] == init;
      s
  }

  /** `s.padStart(width, c)`. */
  function PadStart(s: string, width: nat, c: char): (r: string)
    ensures |r| == if |s| >= width then |s| else width
    ensures r[|r| - |s|..] == s
    ensures forall k :: 0 <= k < |r| - |s| ==> r[k] == c
  {
    if |s| >= width then s else seq(width - |s|, _ => c) + s
  }

  // ---------------------------------------------------------------------------
  // The time pattern

  datatype Period = AM | PM

  function PeriodText(p: Period): string {
    match p
    case AM => "AM"
    case PM => "PM"
  }

  /** `(AM|PM)` matched case-insensitively at position j. */
  function PeriodAt(s: string, j: nat): (r: Option<Period>)
    requires j <= |s|
    ensures r.Some? ==> j + 2 <= |s| && !IsDigit(s[j]) && !IsSpace(s[j])
  {
    if j + 2 <= |s| && (s[j + 1] == 'M' || s[j + 1] == 'm') then
      if s[j] == 'A' || s[j] == 'a' then Some(AM)
      else if s[j] == 'P' || s[j] == 'p' then Some(PM)
      else None
    else None
  }

  /** The captured groups of one match: hours digits, minutes digits and the period, if any. */
  datatype TimeMatch = TimeMatch(hourText: string, minuteText: string, period: Option<Period>)

  predicate WellFormed(m: TimeMatch) {
    |m.hourText| > 0 && AllDigits(m.hourText) && |m.minuteText| > 0 && AllDigits(m.minuteText)
  }

  /**
   * The match that starts exactly at position i of `(\d+):(\d+)\s*(AM|PM)` when
   * needPeriod holds, and of `(\d+):(\d+)\s*(AM|PM)?` otherwise.
   */
  function MatchAt(s: string, i: nat, needPeriod: bool): (r: Option<TimeMatch>)
    requires i <= |s|
    ensures r.Some? ==> WellFormed(r.value) && (needPeriod ==> r.value.period.Some?)
    ensures r.Some? ==> i < |s| && IsDigit(s[i])
  {
    var h := DigitRun(s, i);
    if h == 0 || i + h == |s| || s[i + h] != ':' then None
    else MatchAfterColon(s, i, i + h + 1, needPeriod)
  }

  /** The rest of a match whose hour digits s[i..j - 1] are followed by the ':' at j - 1. */
  function MatchAfterColon(s: string, i: nat, j: nat, needPeriod: bool): (r: Option<TimeMatch>)
    requires i + 1 < j <= |s| && AllDigits(s[i..j - 1])
    ensures r.Some? ==> WellFormed(r.value) && (needPeriod ==> r.value.period.Some?)
    ensures r.Some? ==> r.value.hourText == s[i..j - 1]
  {
    var m := DigitRun(s, j);
    if m == 0 then None
    else
      var p := PeriodAt(s, j + m + SpaceRun(s, j + m));
      if needPeriod && p.None? then None
      else Some(TimeMatch(s[i..j - 1], s[j..j + m], p))
  }

  /** The leftmost position at or after i where the pattern matches, or |s| + 1 when there is none. */
  function MatchStart(s: string, i: nat, needPeriod: bool): (k: nat)
    requires i <= |s|
    ensures i <= k <= |s| + 1
    ensures forall j :: i <= j < k && j <= |s| ==> MatchAt(s, j, needPeriod).None?
    ensures k <= |s| ==> MatchAt(s, k, needPeriod).Some?
    decreases |s| - i
  {
    if MatchAt(s, i, needPeriod).Some? then i
    else if i == |s| then |s| + 1
    else MatchStart(s, i + 1, needPeriod)
  }

  /** `s.match(pattern)`: the groups of the leftmost match, or None (`null`). */
  function FindTime(s: string, needPeriod: bool): (r: Option<TimeMatch>)
    ensures r.Some? ==> WellFormed(r.value) && (needPeriod ==> r.value.period.Some?)
    ensures r.None? <==> forall j :: 0 <= j <= |s| ==> MatchAt(s, j, needPeriod).None?
  {
    var k := MatchStart(s, 0, needPeriod);
    if k <= |s| then MatchAt(s, k, needPeriod) else None
  }

  /** The leftmost match is determined by the first position that matches. */
  lemma FindTimeAt(s: string, k: nat, needPeriod: bool)
    requires k <= |s| && MatchAt(s, k, needPeriod).Some?
    requires forall j :: 0 <= j < k ==> MatchAt(s, j, needPeriod).None?
    ensures FindTime(s, needPeriod) == MatchAt(s, k, needPeriod)
  {
  }

  /**
   * When the leftmost `(\d+):(\d+)` occurrence carries a period, it is also the
   * leftmost occurrence of the pattern whose period is required.
   */
  lemma PeriodicFirstMatch(s: string)
    requires FindTime(s, false).Some? && FindTime(s, false).value.period.Some?
    ensures FindTime(s, true) == FindTime(s, false)
  {
    var k := MatchStart(s, 0, false);
    forall j | 0 <= j < k
      ensures MatchAt(s, j, true).None?
    {
      assert MatchAt(s, j, false).None?;
    }
    FindTimeAt(s, k, true);
  }

  // ---------------------------------------------------------------------------
  // The labels the time picker produces: "h:mm AM"

  function HourText(h: nat): string { NatToString(h) }

  /** A minute as the picker lists it: `m.toString().padStart(2, "0")`. */
  function MinuteText(m: nat): (r: string)
    requires m < 100
    ensures |r| == 2 && AllDigits(r) && DecimalValue(r) == m
  {
    var d := NatToString(m);
    PadDigits(d);
    PadStart(d, 2, '0')
  }

  /** Padding one or two digits to width 2 with '0' keeps their value. */
  lemma PadDigits(d: string)
    requires 0 < |d| <= 2 && AllDigits(d)
    ensures var r := PadStart(d, 2, '0'); |r| == 2 && AllDigits(r) && DecimalValue(r) == DecimalValue(d)
  {
    var r := PadStart(d, 2, '0');
    if |d| == 1 {
      assert r == "0" + d;
      LeadingZero(d);
    }
  }

  /** A leading zero does not change a decimal value. */
  lemma {:induction false} LeadingZero(d: string)
    requires AllDigits(d)
    ensures AllDigits("0" + d) && DecimalValue("0" + d) == DecimalValue(d)
    decreases |d|
  {
    var z := "0" + d;
    if d == [] {
      assert z[..0] == [];
    } else {
      var init := d[..|d| - 1];
      LeadingZero(init);
      assert z[..|z| - 1] == "0" + init;
      assert z[|z| - 1] == d[|d| - 1];
    }
  }

  function ClockLabel(h: nat, m: nat, p: Period): string
    requires m < 100
  {
    HourText(h) + ":" + MinuteText(m) + " " + PeriodText(p)
  }

  lemma DigitRunOfDigits(s: string, i: nat, n: nat)
    requires i + n <= |s|
    requires forall k :: i <= k < i + n ==> IsDigit(s[k])
    requires i + n == |s| || !IsDigit(s[i + n])
    ensures DigitRun(s, i) == n
    decreases n
  {
    if n > 0 {
      DigitRunOfDigits(s, i + 1, n - 1);
    }
  }

  lemma SpaceRunOfSpaces(s: string, i: nat, n: nat)
    requires i + n <= |s|
    requires forall k :: i <= k < i + n ==> IsSpace(s[k])
    requires i + n == |s| || !IsSpace(s[i + n])
    ensures SpaceRun(s, i) == n
    decreases n
  {
    if n > 0 {
      SpaceRunOfSpaces(s, i + 1, n - 1);
    }
  }

  /** A match with a period at position i, described by its groups. */
  lemma MatchAtGroups(s: string, i: nat, hd: string, md: string, w: nat, p: Period, needPeriod: bool)
    requires i + |hd| < |s| && |hd| > 0 && s[i..i + |hd|] == hd && DigitRun(s, i) == |hd|
    requires s[i + |hd|] == ':'
    requires i + |hd| + 1 + |md| <= |s| && |md| > 0 && s[i + |hd| + 1..i + |hd| + 1 + |md|] == md
    requires DigitRun(s, i + |hd| + 1) == |md|
    requires SpaceRun(s, i + |hd| + 1 + |md|) == w
    requires PeriodAt(s, i + |hd| + 1 + |md| + w) == Some(p)
    ensures MatchAt(s, i, needPeriod) == Some(TimeMatch(hd, md, Some(p)))
  {
  }

  /** Where the parts of a label "hours:minutes period" sit in it. */
  lemma LabelLayout(hd: string, md: string, pt: string, s: string)
    requires s == hd + ":" + md + " " + pt
    ensures |s| == |hd| + |md| + 2 + |pt|
    ensures s[0..|hd|] == hd && s[|hd|] == ':'
    ensures s[|hd| + 1..|hd| + 1 + |md|] == md && s[|hd| + 1 + |md|] == ' '
    ensures s[|hd| + |md| + 2..] == pt
  {
  }

  /** A copy of a string of digits, followed by a non-digit or the end, is a maximal digit run. */
  lemma DigitRunOfText(s: string, i: nat, d: string)
    requires i + |d| <= |s| && s[i..i + |d|] == d && AllDigits(d)
    requires i + |d| == |s| || !IsDigit(s[i + |d|])
    ensures DigitRun(s, i) == |d|
  {
    assert forall k :: i <= k < i + |d| ==> s[k] == d[k - i];
    DigitRunOfDigits(s, i, |d|);
  }

  /** The text of a period, at the end of s, is read as that period. */
  lemma PeriodOfText(s: string, q: nat, p: Period)
    requires q <= |s| && s[q..] == PeriodText(p)
    ensures PeriodAt(s, q) == Some(p)
  {
    assert s[q] == s[q..][0] && s[q + 1] == s[q..][1];
  }

  /** A single blank in front of a period is the whole white-space run. */
  lemma SpaceBeforePeriod(s: string, i: nat)
    requires i < |s| && s[i] == ' ' && PeriodAt(s, i + 1).Some?
    ensures SpaceRun(s, i) == 1
  {
    SpaceRunOfSpaces(s, i, 1);
  }

  /** A blank and then a period's text, ending s, are one space and that period. */
  lemma BlankThenPeriod(s: string, i: nat, p: Period)
    requires i < |s| && s[i] == ' ' && s[i + 1..] == PeriodText(p)
    ensures SpaceRun(s, i) == 1 && PeriodAt(s, i + 1) == Some(p)
  {
    PeriodOfText(s, i + 1, p);
    SpaceBeforePeriod(s, i);
  }

  /** A text laid out as "digits:digits period" matches as a whole at its first character. */
  lemma MatchLayout(s: string, hd: string, md: string, p: Period, needPeriod: bool)
    requires |hd| > 0 && AllDigits(hd) && |md| > 0 && AllDigits(md)
    requires |s| == |hd| + |md| + 2 + |PeriodText(p)|
    requires s[0..|hd|] == hd && s[|hd|] == ':'
    requires s[|hd| + 1..|hd| + 1 + |md|] == md && s[|hd| + 1 + |md|] == ' '
    requires s[|hd| + |md| + 2..] == PeriodText(p)
    ensures MatchAt(s, 0, needPeriod) == Some(TimeMatch(hd, md, Some(p)))
  {
    DigitRunOfText(s, 0, hd);
    DigitRunOfText(s, |hd| + 1, md);
    BlankThenPeriod(s, |hd| + 1 + |md|, p);
    MatchAtGroups(s, 0, hd, md, 1, p, needPeriod);
  }

  /** A label "digits:digits AM" (or PM) is found as a whole. */
  lemma MatchLabel(hd: string, md: string, p: Period, needPeriod: bool)
    requires |hd| > 0 && AllDigits(hd) && |md| > 0 && AllDigits(md)
    ensures FindTime(hd + ":" + md + " " + PeriodText(p), needPeriod) == Some(TimeMatch(hd, md, Some(p)))
  {
    var s := hd + ":" + md + " " + PeriodText(p);
    LabelLayout(hd, md, PeriodText(p), s);
    MatchLayout(s, hd, md, p, needPeriod);
    FindTimeAt(s, 0, needPeriod);
  }

  /** The time picker's labels are read back as the hour, minute and period they were built from. */
  lemma ClockLabelMatch(h: nat, m: nat, p: Period, needPeriod: bool)
    requires m < 100
    ensures FindTime(ClockLabel(h, m, p), needPeriod) == Some(TimeMatch(HourText(h), MinuteText(m), Some(p)))
  {
    MatchLabel(HourText(h), MinuteText(m), p, needPeriod);
  }

  /** A text laid out as "digits:digits" and nothing more matches at its first character, without a period. */
  lemma MatchBareLayout(s: string, hd: string, md: string)
    requires |hd| > 0 && AllDigits(hd) && |md| > 0 && AllDigits(md)
    requires |s| == |hd| + 1 + |md|
    requires s[0..|hd|] == hd && s[|hd|] == ':' && s[|hd| + 1..] == md
    ensures MatchAt(s, 0, false) == Some(TimeMatch(hd, md, None))
  {
    var h := |hd|;
    DigitRunOfText(s, 0, hd);
    assert s[h + 1..h + 1 + |md|] == md;
    DigitRunOfText(s, h + 1, md);
    assert SpaceRun(s, |s|) == 0;
  }

  /** "digits:digits" is found as a whole by the pattern whose period is optional. */
  lemma MatchBare(hd: string, md: string)
    requires |hd| > 0 && AllDigits(hd) && |md| > 0 && AllDigits(md)
    ensures FindTime(hd + ":" + md, false) == Some(TimeMatch(hd, md, None))
  {
    var s := hd + ":" + md;
    assert s[0..|hd|] == hd && s[|hd| + 1..] == md;
    MatchBareLayout(s, hd, md);
    FindTimeAt(s, 0, false);
  }

  // ---------------------------------------------------------------------------
  // String helpers

  /** `s.trimStart()`. */
  function TrimStart(s: string): (r: string)
    ensures |r| <= |s| && r == s[|s| - |r|..]
    ensures AllSpaces(s[..|s| - |r|])
    ensures r == [] || !IsSpace(r[0])
  {
    if s != [] && IsSpace(s[0]) then
      var r := TrimStart(s[1..]);
      assert s[1..][..|s| - 1 - |r|] == s[1..|s| - |r|];
      r
    else s
  }

  /** `s.trimEnd()`. */
  function TrimEnd(s: string): (r: string)
    ensures |r| <= |s| && r == s[..|r|]
    ensures AllSpaces(s[|r|..])
    ensures r == [] || !IsSpace(r[|r| - 1])
  {
    if s != [] && IsSpace(s[|s| - 1]) then
      var r := TrimEnd(s[..|s| - 1]);
      assert s[|r|..] == s[..|s| - 1][|r|..] + [s[|s| - 1]];
      r
    else s
  }

  /** `s.trim()`: no white space is left at either end, and nothing is left of a text of white space. */
  function Trim(s: string): (r: string)
    ensures |r| <= |s|
    ensures r == [] || (!IsSpace(r[0]) && !IsSpace(r[|r| - 1]))
    ensures r == [] <==> AllSpaces(s)
  {
    TrimEnd(TrimStart(s))
  }

  /** Does sep occur in s at position i? */
  predicate OccursAt(s: string, sep: string, i: nat) {
    i + |sep| <= |s| && s[i..i + |sep|] == sep
  }

  /** sep occurs nowhere in s. */
  predicate SepFree(s: string, sep: string) {
    forall j :: 0 <= j <= |s| ==> !OccursAt(s, sep, j)
  }

  /** `s.indexOf(sep, i)`, with |s| standing for "not found". */
  function IndexOf(s: string, sep: string, i: nat): (k: nat)
    requires |sep| > 0 && i <= |s|
    ensures i <= k <= |s|
    ensures k < |s| ==> OccursAt(s, sep, k)
    ensures forall j :: i <= j < k ==> !OccursAt(s, sep, j)
    decreases |s| - i
  {
    if i == |s| then |s|
    else if OccursAt(s, sep, i) then i
    else IndexOf(s, sep, i + 1)
  }

  /** `s.split(sep)` for a non-empty separator: the pieces between the occurrences found left to right. */
  function Split(s: string, sep: string): (parts: seq<string>)
    requires |sep| > 0
    ensures |parts| >= 1
    ensures forall i :: 0 <= i < |parts| ==> SepFree(parts[i], sep)
    decreases |s|
  {
    var k := IndexOf(s, sep, 0);
    if k < |s| then
      var rest := Split(s[k + |sep|..], sep);
      NoOccurrenceBefore(s, sep, k);
      var parts := [s[..k]] + rest;
      assert forall i :: 1 <= i < |parts| ==> parts[i] == rest[i - 1];
      parts
    else
      [s]
  }

  /** The text in front of the first occurrence of sep contains no occurrence of it. */
  lemma NoOccurrenceBefore(s: string, sep: string, k: nat)
    requires |sep| > 0 && k <= |s|
    requires forall j :: 0 <= j < k ==> !OccursAt(s, sep, j)
    ensures SepFree(s[..k], sep)
  {
    forall j | 0 <= j <= k
      ensures !OccursAt(s[..k], sep, j)
    {
      if OccursAt(s[..k], sep, j) {
        assert s[..k][j..j + |sep|] == s[j..j + |sep|];
        assert OccursAt(s, sep, j);
      }
    }
  }

  /** `parts.join(sep)`: it starts with the first part and ends with the last. */
  function Join(parts: seq<string>, sep: string): (r: string)
    ensures |parts| > 0 ==> |parts[0]| <= |r| && r[..|parts[0]|] == parts[0]
  {
    if |parts| == 0 then ""
    else if |parts| == 1 then parts[0]
    else parts[0] + sep + Join(parts[1..], sep)
  }

  lemma JoinCons(a: string, tail: seq<string>, sep: string)
    requires |tail| > 0
    ensures Join([a] + tail, sep) == a + sep + Join(tail, sep)
  {
    assert ([a] + tail)[1..] == tail;
  }

  /** Joining the pieces of a split with the same separator gives back the text. */
  lemma {:induction false} SplitJoin(s: string, sep: string)
    requires |sep| > 0
    ensures Join(Split(s, sep), sep) == s
    decreases |s|
  {
    var k := IndexOf(s, sep, 0);
    if k < |s| {
      var rest := s[k + |sep|..];
      var tail := Split(rest, sep);
      SplitJoin(rest, sep);
      assert Split(s, sep) == [s[..k]] + tail;
      JoinCons(s[..k], tail, sep);
      assert s[k..k + |sep|] == sep;
      assert s == s[..k] + s[k..k + |sep|] + rest;
    }
  }

  /** A text with no occurrence of the separator splits into itself alone. */
  lemma SplitNone(s: string, sep: string)
    requires |sep| > 0
    requires SepFree(s, sep)
    ensures Split(s, sep) == [s]
  {
  }

  /** A text that is two separator-free pieces around one separator splits into those two pieces. */
  lemma SplitTwo(a: string, b: string, sep: string)
    requires |sep| > 0
    requires forall j :: 0 <= j < |a| ==> !OccursAt(a + sep + b, sep, j)
    requires SepFree(b, sep)
    ensures Split(a + sep + b, sep) == [a, b]
  {
    var s := a + sep + b;
    assert OccursAt(s, sep, |a|) by { assert s[|a|..|a| + |sep|] == sep; }
    assert IndexOf(s, sep, 0) == |a|;
    assert s[|a| + |sep|..] == b;
    assert s[..|a|] == a;
    SplitNone(b, sep);
  }

  // ---------------------------------------------------------------------------
  // Trailing white space

  /** The match after a colon, described by its minute digits, the spaces after them and the period. */
  lemma MatchAfterColonIs(s: string, i: nat, j: nat, m: nat, w: nat, p: Option<Period>, needPeriod: bool)
    requires i + 1 < j <= |s| && AllDigits(s[i..j - 1]) && DigitRun(s, j) == m
    requires m != 0 ==> SpaceRun(s, j + m) == w && PeriodAt(s, j + m + w) == p
    ensures j + m <= |s|
    ensures MatchAfterColon(s, i, j, needPeriod) ==
      if m == 0 || (needPeriod && p.None?) then None else Some(TimeMatch(s[i..j - 1], s[j..j + m], p))
  {
  }

  /**
   * Two colon positions whose digits and period agree give the same match,
   * however many spaces stand before the period.
   */
  lemma MatchAfterColonParts(a: string, i: nat, j: nat, b: string, k: nat, l: nat, m: nat, wa: nat, wb: nat,
                             p: Option<Period>, needPeriod: bool)
    requires i + 1 < j <= |a| && AllDigits(a[i..j - 1]) && k + 1 < l <= |b| && AllDigits(b[k..l - 1])
    requires DigitRun(a, j) == m && DigitRun(b, l) == m
    requires m != 0 ==> SpaceRun(a, j + m) == wa && PeriodAt(a, j + m + wa) == p
    requires m != 0 ==> SpaceRun(b, l + m) == wb && PeriodAt(b, l + m + wb) == p
    requires a[i..j - 1] == b[k..l - 1] && (m != 0 ==> a[j..j + m] == b[l..l + m])
    ensures MatchAfterColon(a, i, j, needPeriod) == MatchAfterColon(b, k, l, needPeriod)
  {
    MatchAfterColonIs(a, i, j, m, wa, p, needPeriod);
    MatchAfterColonIs(b, k, l, m, wb, p, needPeriod);
  }

  /** A slice that ends inside t is the same slice of t followed by anything. */
  lemma PrefixSlice(t: string, post: string, a: nat, b: nat)
    requires a <= b <= |t|
    ensures (t + post)[a..b] == t[a..b]
  {
    assert forall k :: a <= k < b ==> (t + post)[k] == t[k];
  }

  /** Spaces after t do not lengthen a digit run, since a space is not a digit. */
  lemma {:induction false} DigitRunPad(t: string, post: string, j: nat)
    requires j <= |t| && AllSpaces(post)
    ensures DigitRun(t + post, j) == DigitRun(t, j)
    decreases |t| - j
  {
    if j < |t| {
      assert (t + post)[j] == t[j];
      DigitRunPad(t, post, j + 1);
    } else if post != [] {
      assert (t + post)[j] == post[0];
    }
  }

  /** Spaces after t only lengthen a space run that already reaches the end of t. */
  lemma {:induction false} SpaceRunPad(t: string, post: string, j: nat)
    requires j <= |t| && AllSpaces(post)
    ensures j + SpaceRun(t, j) < |t| ==> SpaceRun(t + post, j) == SpaceRun(t, j)
    ensures j + SpaceRun(t, j) == |t| ==> j + SpaceRun(t + post, j) >= |t|
    decreases |t| - j
  {
    if j < |t| {
      assert (t + post)[j] == t[j];
      SpaceRunPad(t, post, j + 1);
    }
  }

  /** No period starts inside trailing spaces or straddles the end of t. */
  lemma {:induction false} PeriodAtPad(t: string, post: string, j: nat)
    requires j <= |t + post| && AllSpaces(post)
    ensures j <= |t| ==> PeriodAt(t + post, j) == PeriodAt(t, j)
    ensures j >= |t| ==> PeriodAt(t + post, j).None?
  {
    var s := t + post;
    if j + 2 <= |t| {
      assert s[j] == t[j] && s[j + 1] == t[j + 1];
    } else if j + 1 == |t| && j + 2 <= |s| {
      assert s[j + 1] == post[0];
    } else if j >= |t| && j < |s| {
      assert s[j] == post[j - |t|];
    }
  }

  /** Spaces after t leave the match after a colon inside t unchanged. */
  lemma {:induction false} MatchAfterColonPad(t: string, post: string, i: nat, j: nat, needPeriod: bool)
    requires i + 1 < j <= |t| && AllDigits(t[i..j - 1]) && AllSpaces(post)
    ensures (t + post)[i..j - 1] == t[i..j - 1] &&
      MatchAfterColon(t + post, i, j, needPeriod) == MatchAfterColon(t, i, j, needPeriod)
  {
    var s := t + post;
    PrefixSlice(t, post, i, j - 1);
    var m := DigitRun(t, j);
    DigitRunPad(t, post, j);
    if m == 0 {
      MatchAfterColonParts(s, i, j, t, i, j, 0, 0, 0, None, needPeriod);
    } else if j + m + SpaceRun(t, j + m) == |t| {
      ColonPadRunsOut(t, post, i, j, m, needPeriod);
    } else {
      ColonPadInside(t, post, i, j, m, needPeriod);
    }
  }

  /** Minutes followed by nothing but spaces to the end of t read the same after more spaces. */
  lemma ColonPadRunsOut(t: string, post: string, i: nat, j: nat, m: nat, needPeriod: bool)
    requires i + 1 < j <= |t| && AllDigits(t[i..j - 1]) && AllSpaces(post)
    requires (t + post)[i..j - 1] == t[i..j - 1]
    requires m != 0 && DigitRun(t, j) == m && DigitRun(t + post, j) == m
    requires j + m + SpaceRun(t, j + m) == |t|
    ensures MatchAfterColon(t + post, i, j, needPeriod) == MatchAfterColon(t, i, j, needPeriod)
  {
    var s := t + post;
    var w := SpaceRun(t, j + m);
    SpaceRunPad(t, post, j + m);
    var ws := SpaceRun(s, j + m);
    PeriodAtPad(t, post, j + m + w);
    PeriodAtPad(t, post, j + m + ws);
    PrefixSlice(t, post, j, j + m);
    MatchAfterColonParts(s, i, j, t, i, j, m, ws, w, None, needPeriod);
  }

  /** Minutes whose spaces stop inside t read the same after more spaces. */
  lemma ColonPadInside(t: string, post: string, i: nat, j: nat, m: nat, needPeriod: bool)
    requires i + 1 < j <= |t| && AllDigits(t[i..j - 1]) && AllSpaces(post)
    requires (t + post)[i..j - 1] == t[i..j - 1]
    requires m != 0 && DigitRun(t, j) == m && DigitRun(t + post, j) == m
    requires j + m + SpaceRun(t, j + m) < |t|
    ensures MatchAfterColon(t + post, i, j, needPeriod) == MatchAfterColon(t, i, j, needPeriod)
  {
    var s := t + post;
    var w := SpaceRun(t, j + m);
    SpaceRunPad(t, post, j + m);
    PeriodAtPad(t, post, j + m + w);
    PrefixSlice(t, post, j, j + m);
    MatchAfterColonParts(s, i, j, t, i, j, m, w, w, PeriodAt(t, j + m + w), needPeriod);
  }

  /** The match at position i, described by the length of its hour digits. */
  lemma MatchAtIs(s: string, i: nat, h: nat, needPeriod: bool)
    requires i <= |s| && DigitRun(s, i) == h
    ensures i + h <= |s| && AllDigits(s[i..i + h])
    ensures MatchAt(s, i, needPeriod) ==
      if h == 0 || i + h == |s| || s[i + h] != ':' then None else MatchAfterColon(s, i, i + h + 1, needPeriod)
  {
  }

  /** A match at position i of t is the same match at position i of t followed by spaces. */
  lemma {:induction false} MatchAtPad(t: string, post: string, i: nat, needPeriod: bool)
    requires i <= |t| && AllSpaces(post)
    ensures MatchAt(t + post, i, needPeriod) == MatchAt(t, i, needPeriod)
  {
    var s := t + post;
    var h := DigitRun(t, i);
    DigitRunPad(t, post, i);
    MatchAtIs(t, i, h, needPeriod);
    MatchAtIs(s, i, h, needPeriod);
    if h == 0 || (i + h < |t| && t[i + h] != ':') {
      if h != 0 {
        assert s[i + h] == t[i + h];
      }
      assert MatchAt(t, i, needPeriod).None? && MatchAt(s, i, needPeriod).None?;
    } else if i + h == |t| {
      if post != [] {
        assert s[i + h] == post[0] && IsSpace(post[0]);
      }
      assert MatchAt(t, i, needPeriod).None? && MatchAt(s, i, needPeriod).None?;
    } else {
      assert s[i + h] == t[i + h] == ':';
      assert MatchAt(t, i, needPeriod) == MatchAfterColon(t, i, i + h + 1, needPeriod);
      assert MatchAt(s, i, needPeriod) == MatchAfterColon(s, i, i + h + 1, needPeriod);
      MatchAfterColonPad(t, post, i, i + h + 1, needPeriod);
    }
  }

  /**
   * A text finds the same time as its prefix b when it matches like b at
   * every position of b and nowhere after b.
   */
  lemma {:induction false} FindTimePrefix(a: string, b: string, needPeriod: bool)
    requires |b| <= |a|
    requires forall j :: 0 <= j <= |b| ==> MatchAt(a, j, needPeriod) == MatchAt(b, j, needPeriod)
    requires forall j :: |b| < j <= |a| ==> MatchAt(a, j, needPeriod).None?
    ensures FindTime(a, needPeriod) == FindTime(b, needPeriod)
  {
    if FindTime(b, needPeriod).Some? {
      FindTimeAt(a, MatchStart(b, 0, needPeriod), needPeriod);
    }
  }

  /** Trailing white space does not change which time a text holds. */
  lemma {:induction false} FindTimeTrail(t: string, post: string, needPeriod: bool)
    requires AllSpaces(post)
    ensures FindTime(t + post, needPeriod) == FindTime(t, needPeriod)
  {
    var s := t + post;
    forall j | 0 <= j <= |t| ensures MatchAt(s, j, needPeriod) == MatchAt(t, j, needPeriod) {
      MatchAtPad(t, post, j, needPeriod);
    }
    forall j | |t| < j <= |s| ensures MatchAt(s, j, needPeriod).None? {
      if j < |s| {
        assert s[j] == post[j - |t|];
      }
    }
    FindTimePrefix(s, t, needPeriod);
  }

  /** Trimming the end of a text does not change which time it holds. */
  lemma {:induction false} FindTimeTrimEnd(s: string, needPeriod: bool)
    ensures FindTime(TrimEnd(s), needPeriod) == FindTime(s, needPeriod)
  {
    var u := TrimEnd(s);
    assert s == u + s[|u|..];
    FindTimeTrail(u, s[|u|..], needPeriod);
  }
}
