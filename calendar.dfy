/** The week/day resolver: snapping a date to the Monday of its week, the dates
    of the five working days of a week, and the start/end shown for a week.
    A civil date is a day number, day 0 being 1970-01-01 (a Thursday), so month
    and year boundaries are plain arithmetic. */
module Calendar {
  import opened Vocabulary

  /** Day of the week with Sunday = 0 .. Saturday = 6, as `Date.prototype.getDay`. */
  function DayOfWeek(d: int): (w: int)
    ensures 0 <= w < 7
  {
    (d + 4) % 7
  }

  predicate IsMonday(d: int) {
    DayOfWeek(d) == 1
  }

  /** The shift `handleWeekChange` applies: back 6 days from a Sunday, otherwise
      back to the Monday before (or at) the date. */
  function MondayOffset(d: int): (off: int)
    ensures -6 <= off <= 0
    ensures DayOfWeek(d) == 0 ==> off == -6
    ensures DayOfWeek(d) != 0 ==> off == 1 - DayOfWeek(d)
  {
    var w := DayOfWeek(d);
    if w == 0 then -6 else 1 - w
  }

  /** The Monday of the (Monday-first) week holding `d`. */
  function WeekStart(d: int): (m: int)
    ensures IsMonday(m)
    ensures d - 6 <= m <= d
  {
    var m := d + MondayOffset(d);
    assert d + 4 == 7 * ((d + 4) / 7) + DayOfWeek(d);
    assert m + 4 == 7 * ((d + 4) / 7 - (if DayOfWeek(d) == 0 then 1 else 0)) + 1;
    m
  }

  /** Seven consecutive days hold exactly one Monday. */
  lemma OneMondayPerWeek(m: int, n: int)
    requires IsMonday(m) && IsMonday(n)
    requires m - 6 <= n <= m + 6
    ensures m == n
  {
    assert m + 4 == 7 * ((m + 4) / 7) + 1;
    assert n + 4 == 7 * ((n + 4) / 7) + 1;
    assert n - m == 7 * ((n + 4) / 7 - (m + 4) / 7);
  }

  /** `WeekStart(d)` is the only Monday at most 6 days before `d`. */
  lemma WeekStartUnique(d: int, m: int)
    requires IsMonday(m) && d - 6 <= m <= d
    ensures WeekStart(d) == m
  {
    OneMondayPerWeek(m, WeekStart(d));
  }

  /** Every day of the week starting on Monday `m` snaps back to `m`; in
      particular snapping is idempotent. */
  lemma WeekStartOfWeekDay(m: int, k: int)
    requires IsMonday(m) && 0 <= k < 7
    ensures WeekStart(m + k) == m
    ensures WeekStart(WeekStart(m + k)) == WeekStart(m + k)
  {
    WeekStartUnique(m + k, m);
    WeekStartUnique(m, m);
  }

  /** `getWeekDates`, as a value: every weekday label mapped to its date. */
  function WeekDates(weekStart: int): (dates: map<string, int>)
    ensures forall day :: day in dates <==> day in WorkDays
    ensures forall i :: 0 <= i < |WorkDays| ==> dates[WorkDays[i]] == weekStart + i
  {
    var dates := map day | day in WorkDays :: weekStart + DayOffset(day);
    assert forall i :: 0 <= i < |WorkDays| ==> dates[WorkDays[i]] == weekStart + i by {
      forall i | 0 <= i < |WorkDays|
        ensures dates[WorkDays[i]] == weekStart + i
      {
        DayOffsetOfIndex(i);
      }
    }
    dates
  }

  /** `getWeekDates`: one step of the `forEach` over the weekday labels per label. */
  method GetWeekDates(weekStart: int) returns (dates: map<string, int>)
    ensures dates == WeekDates(weekStart)
  {
    dates := map[];
    var index := 0;
    while index < |WorkDays|
      invariant 0 <= index <= |WorkDays|
      invariant forall day :: day in dates <==> day in WorkDays[..index]
      invariant forall day :: day in dates ==> day in WorkDays && dates[day] == weekStart + DayOffset(day)
    {
      var day := WorkDays[index];
      DayOffsetOfIndex(index);
      dates := dates[day := weekStart + index];
      assert WorkDays[..index + 1] == WorkDays[..index] + [day];
      index := index + 1;
    }
    assert WorkDays[..index] == WorkDays;
  }

  /** The two dates `formatWeekDisplay` shows: nothing without a week, otherwise
      the start and the start plus four days. */
  function WeekDisplay(weekStart: Option<int>): (span: Option<(int, int)>)
    ensures span.None? <==> weekStart.None?
    ensures span.Some? ==> span.value.0 == weekStart.value && span.value.1 - span.value.0 == 4
  {
    match weekStart
    case None => None
    case Some(start) => Some((start, start + 4))
  }

  /** For a week picked through the resolver the displayed span runs from its
      Monday to the date of its Friday (`Vendredi`). */
  lemma WeekDisplayIsMondayToFriday(d: int)
    ensures WeekDisplay(Some(WeekStart(d))).value.0 == WeekDates(WeekStart(d))["Lundi"]
    ensures WeekDisplay(Some(WeekStart(d))).value.1 == WeekDates(WeekStart(d))["Vendredi"]
    ensures DayOfWeek(WeekDisplay(Some(WeekStart(d))).value.1) == 5
  {
    var m := WeekStart(d);
    assert WorkDays[0] == "Lundi" && WorkDays[4] == "Vendredi";
    assert m + 4 == 7 * ((m + 4) / 7) + 1;
    assert m + 8 == 7 * ((m + 4) / 7) + 5;
  }
}
