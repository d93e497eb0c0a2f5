/**
 * The 12-hour clock reader `parseTimeToHour`: it finds the leftmost match of
 * the pattern `(\d{1,2}):(\d{2})(am|pm)`, matched case-insensitively, in a
 * slot's time text and turns the matched hour into a 24-hour hour.
 */
module TimeParse {
  import opened Options

  /** `\d`: an ASCII decimal digit (the `i` flag does not widen it). */
  predicate IsDigit(c: char) {
    '0' <= c <= '9'
  }

  function DigitValue(c: char): (d: nat)
    requires IsDigit(c)
    ensures d < 10
  {
    (c as int - '0' as int) as nat
  }

  /**
   * `(am|pm)` at position i, case-insensitively: Some(true) for pm,
   * Some(false) for am. Only the ASCII letters fold to a, m and p.
   */
  function MeridiemAt(s: string, i: nat): (r: Option<bool>)
    ensures r.Some? ==> i + 2 <= |s| && (s[i + 1] == 'm' || s[i + 1] == 'M')
    ensures r == Some(true) ==> s[i] == 'p' || s[i] == 'P'
    ensures r == Some(false) ==> s[i] == 'a' || s[i] == 'A'
    ensures i + 2 <= |s| && (s[i + 1] == 'm' || s[i + 1] == 'M') ==>
      && ((s[i] == 'p' || s[i] == 'P') ==> r == Some(true))
      && ((s[i] == 'a' || s[i] == 'A') ==> r == Some(false))
  {
    if i + 2 <= |s| && (s[i + 1] == 'm' || s[i + 1] == 'M') then
      if s[i] == 'a' || s[i] == 'A' then Some(false)
      else if s[i] == 'p' || s[i] == 'P' then Some(true)
      else None
    else None
  }

  /** The three capture groups of a match: hour digits, minute digits, pm or am. */
  datatype TimeMatch = TimeMatch(hour: nat, minute: nat, pm: bool)

  /** The pattern at position i with exactly n (1 or 2) hour digits. */
  function MatchWithHourDigits(s: string, i: nat, n: nat): Option<TimeMatch>
    requires n == 1 || n == 2
  {
    var colon := i + n;
    if colon + 5 <= |s| && IsDigit(s[i]) && (n == 1 || IsDigit(s[i + 1])) && s[colon] == ':'
       && IsDigit(s[colon + 1]) && IsDigit(s[colon + 2]) && MeridiemAt(s, colon + 3).Some?
    then
      var hour := if n == 1 then DigitValue(s[i]) else 10 * DigitValue(s[i]) + DigitValue(s[i + 1]);
      var minute := 10 * DigitValue(s[colon + 1]) + DigitValue(s[colon + 2]);
      Some(TimeMatch(hour, minute, MeridiemAt(s, colon + 3).value))
    else None
  }

  /** The pattern at position i: the greedy `\d{1,2}` tries two hour digits before one. */
  function MatchAt(s: string, i: nat): (r: Option<TimeMatch>)
    ensures r.Some? ==> i < |s| && IsDigit(s[i])
  {
    var two := MatchWithHourDigits(s, i, 2);
    if two.Some? then two else MatchWithHourDigits(s, i, 1)
  }

  /** `\d{n}:\d{2}(am|pm)` spelled out character by character at position i. */
  predicate TimeShapeAt(s: string, i: nat, n: nat) {
    && i + n + 5 <= |s|
    && (forall k | i <= k < i + n :: IsDigit(s[k]))
    && s[i + n] == ':' && IsDigit(s[i + n + 1]) && IsDigit(s[i + n + 2])
    && (s[i + n + 3] == 'a' || s[i + n + 3] == 'A' || s[i + n + 3] == 'p' || s[i + n + 3] == 'P')
    && (s[i + n + 4] == 'm' || s[i + n + 4] == 'M')
  }

  /**
   * The pattern matches at i exactly when two digits or one digit start a
   * time there. Two digits d1 d2 read as hour 10 * d1 + d2 ("05" is 5, "13"
   * is 13), one digit d as hour d; the minutes are the two digits after the
   * colon, and pm is a `p` or `P`.
   */
  lemma MatchAtCases(s: string, i: nat)
    ensures MatchAt(s, i).Some? <==> TimeShapeAt(s, i, 2) || TimeShapeAt(s, i, 1)
    ensures TimeShapeAt(s, i, 2) ==> MatchAt(s, i) == Some(TimeMatch(
      10 * DigitValue(s[i]) + DigitValue(s[i + 1]),
      10 * DigitValue(s[i + 3]) + DigitValue(s[i + 4]),
      s[i + 5] == 'p' || s[i + 5] == 'P'))
    ensures TimeShapeAt(s, i, 1) ==> MatchAt(s, i) == Some(TimeMatch(
      DigitValue(s[i]),
      10 * DigitValue(s[i + 2]) + DigitValue(s[i + 3]),
      s[i + 4] == 'p' || s[i + 4] == 'P'))
  {
    if TimeShapeAt(s, i, 2) {
      assert IsDigit(s[i]) && IsDigit(s[i + 1]);
    }
    if TimeShapeAt(s, i, 1) {
      assert IsDigit(s[i]);
    }
    if MatchWithHourDigits(s, i, 2).Some? {
      assert TimeShapeAt(s, i, 2);
    }
    if MatchWithHourDigits(s, i, 1).Some? {
      assert TimeShapeAt(s, i, 1);
    }
  }

  /** The pattern occurs nowhere in s. */
  predicate HasNoTime(s: string) {
    forall j | 0 <= j < |s| :: MatchAt(s, j).None?
  }

  /** The leftmost occurrence of the pattern starts at position i. */
  predicate FirstMatchAt(s: string, i: nat) {
    MatchAt(s, i).Some? && forall j | 0 <= j < i :: MatchAt(s, j).None?
  }

  /** The leftmost match in s converts to the given hour. */
  predicate LeftmostReadsAs(s: string, hour: int) {
    exists i | 0 <= i < |s| :: FirstMatchAt(s, i) && hour == To24Hour(MatchAt(s, i).value.hour, MatchAt(s, i).value.pm)
  }

  datatype Found = Found(start: nat, time: TimeMatch)

  /** `String.prototype.match` without the `g` flag: the leftmost match at or after `from`. */
  function FindMatchFrom(s: string, from: nat): (r: Option<Found>)
    decreases |s| - from
    ensures r.Some? ==> from <= r.value.start < |s| && MatchAt(s, r.value.start) == Some(r.value.time)
    ensures r.Some? ==> forall j | from <= j < r.value.start :: MatchAt(s, j).None?
    ensures r.None? ==> forall j | from <= j < |s| :: MatchAt(s, j).None?
  {
    if from >= |s| then None
    else match MatchAt(s, from)
      case Some(m) => Some(Found(from, m))
      case None => FindMatchFrom(s, from + 1)
  }

  /**
   * The conversion to 24-hour form: pm adds 12 except to 12, and 12am becomes 0.
   * For a clock-face hour 1..12 the result is the hour of the day that shows
   * that clock face in that half of the day.
   */
  function To24Hour(hour: nat, pm: bool): (r: int)
    ensures 1 <= hour <= 12 ==> 0 <= r < 24 && (r >= 12 <==> pm) && r % 12 == hour % 12
  {
    if pm && hour != 12 then hour + 12
    else if !pm && hour == 12 then 0
    else hour
  }

  /**
   * `parseTimeToHour`: None for an absent or empty text and for a text with
   * no match; otherwise the 24-hour form of the leftmost match's hour.
   * ParseTimeToHourMeaning states the second and third cases.
   */
  function ParseTimeToHour(text: Option<string>): (r: Option<int>)
    ensures text.None? || text == Some([]) ==> r.None?
  {
    if text.None? || text.value == [] then None
    else match FindMatchFrom(text.value, 0)
      case None => None
      case Some(f) => Some(To24Hour(f.time.hour, f.time.pm))
  }

  /** The reader finds nothing exactly when the pattern occurs nowhere, and otherwise reads the leftmost match. */
  lemma ParseTimeToHourMeaning(text: Option<string>)
    ensures ParseTimeToHour(text).None? <==> text.None? || HasNoTime(text.value)
    ensures ParseTimeToHour(text).Some? ==> text.Some? && LeftmostReadsAs(text.value, ParseTimeToHour(text).value)
  {
    if text.Some? && text.value != [] {
      var f := FindMatchFrom(text.value, 0);
      if f.Some? {
        assert FirstMatchAt(text.value, f.value.start);
      }
    }
  }

  function DigitChar(d: nat): (c: char)
    requires d < 10
    ensures IsDigit(c) && DigitValue(c) == d
  {
    ('0' as int + d) as char
  }

  /** A clock time written as "9:05am" or "12:30pm", with no leading zero on the hour. */
  function ClockText(h: nat, m: nat, pm: bool): (s: string)
    requires 1 <= h <= 12 && m < 60
  {
    (if h < 10 then [DigitChar(h)] else [DigitChar(h / 10), DigitChar(h % 10)])
    + [':', DigitChar(m / 10), DigitChar(m % 10)]
    + (if pm then "pm" else "am")
  }

  /**
   * A clock time written after digit-free text (labels, white space) and
   * before anything at all parses to its 24-hour hour: pm adds 12 except to
   * 12, 12am is 0, other am hours are kept, and the minutes and the trailing
   * text play no part.
   */
  lemma {:induction false} ParseClockText(p: string, h: nat, m: nat, pm: bool, q: string)
    requires 1 <= h <= 12 && m < 60
    requires forall k | 0 <= k < |p| :: !IsDigit(p[k])
    ensures ParseTimeToHour(Some(p + ClockText(h, m, pm) + q))
         == Some(if pm then (if h == 12 then 12 else h + 12) else (if h == 12 then 0 else h))
  {
    var t := ClockText(h, m, pm);
    var s := p + t + q;
    var n := if h < 10 then 1 else 2;
    assert |t| == n + 5;
    forall k | 0 <= k < |t| ensures s[|p| + k] == t[k] { }
    forall j | 0 <= j < |p| ensures MatchAt(s, j).None? {
      assert s[j] == p[j];
    }
    assert s[|p| + n] == ':';
    assert MeridiemAt(s, |p| + n + 3) == Some(pm) by {
      assert s[|p| + n + 3] == t[n + 3] && s[|p| + n + 4] == t[n + 4];
    }
    if n == 1 {
      assert MatchWithHourDigits(s, |p|, 2).None? by { assert !IsDigit(s[|p| + 1]); }
      assert MatchAt(s, |p|) == Some(TimeMatch(h, m, pm));
    } else {
      assert 10 * (h / 10) + h % 10 == h;
      assert MatchAt(s, |p|) == Some(TimeMatch(h, m, pm));
    }
    var f := FindMatchFrom(s, 0);
    assert f.Some? && f.value.start == |p|;
  }

  /**
   * Every hour of the day 0..23 is read back from its 12-hour clock face
   * (12 for hours 0 and 12, pm from noon on), whatever the minutes.
   */
  lemma {:induction false} ClockFaceRoundTrip(hourOfDay: int, m: nat)
    requires 0 <= hourOfDay < 24 && m < 60
    ensures ParseTimeToHour(Some(ClockText(if hourOfDay % 12 == 0 then 12 else hourOfDay % 12, m, hourOfDay >= 12)))
         == Some(hourOfDay)
  {
    var pm := hourOfDay >= 12;
    assert hourOfDay % 12 == if pm then hourOfDay - 12 else hourOfDay;
    var h := if hourOfDay % 12 == 0 then 12 else hourOfDay % 12;
    var t := ClockText(h, m, pm);
    assert [] + t + [] == t;
    assert (if pm then (if h == 12 then 12 else h + 12) else (if h == 12 then 0 else h)) == hourOfDay;
    ParseClockText([], h, m, pm, []);
  }

  /**
   * Letter case and a leading zero make no difference: "10:00AM" reads as
   * 10, "9:45Pm" as 21 and "05:30am" as 5.
   */
  lemma CaseAndLeadingZero()
    ensures ParseTimeToHour(Some("10:00AM")) == Some(10)
    ensures ParseTimeToHour(Some("9:45Pm")) == Some(21)
    ensures ParseTimeToHour(Some("05:30am")) == Some(5)
  {
    MatchAtCases("10:00AM", 0);
    MatchAtCases("9:45Pm", 0);
    MatchAtCases("05:30am", 0);
  }

  /**
   * The hour digits are not checked against the clock face: "13:00pm" reads
   * as 25 and "0:15pm" as 12, while a 24-hour "14:30" has no match at all.
   */
  lemma UncheckedHourDigits()
    ensures ParseTimeToHour(Some("13:00pm")) == Some(25)
    ensures ParseTimeToHour(Some("0:15pm")) == Some(12)
    ensures ParseTimeToHour(Some("14:30")) == None
  {
    assert MatchAt("13:00pm", 0) == Some(TimeMatch(13, 0, true));
    assert MatchAt("0:15pm", 0) == Some(TimeMatch(0, 15, true));
    var s := "14:30";
    forall j | 0 <= j < |s| ensures MatchAt(s, j).None? { }
  }
}
