/**
 * The day-boundary classifier `isToday` of the task page: a completion counts
 * as "today" when it lies in the half-open window that starts at the latest
 * 03:00 and lasts one day.
 *
 * Instants are integer milliseconds on the wall clock of the reference time
 * zone, so that `t % MsPerDay` is the time of day and `t - t % MsPerDay` the
 * midnight that starts t's calendar day.
 */
module DayBoundary {
  import opened Wrappers

  const MsPerHour: int := 3_600_000
  const MsPerDay: int := 24 * MsPerHour
  /** The day boundary is at 03:00, not at midnight. */
  const CutoverHour: int := 3
  const CutoverOffset: int := CutoverHour * MsPerHour

  /** `getHours()`: the wall-clock hour of an instant. */
  function HourOf(t: int): (h: int)
    ensures 0 <= h < 24
  {
    (t % MsPerDay) / MsPerHour
  }

  /** The midnight that starts the calendar day of `t`. */
  function Midnight(t: int): int {
    t - t % MsPerDay
  }

  /** `todayAt3AM` after the correction for the small hours: 03:00 of the
      current calendar day, or of the previous one while the hour is below 3. */
  function Cutover(now: int): (c: int)
    ensures c % MsPerDay == CutoverOffset
    ensures c <= now < c + MsPerDay
  {
    var todayAt3 := Midnight(now) + CutoverOffset;
    if HourOf(now) < CutoverHour then todayAt3 - MsPerDay else todayAt3
  }

  /** `isToday(completed_at)` evaluated at instant `now`; a missing (null or
      empty) timestamp is never today. */
  predicate IsToday(completedAt: Option<int>, now: int) {
    match completedAt
    case None => false
    case Some(t) => Cutover(now) <= t < Cutover(now) + MsPerDay
  }

  /** The cutover is THE 03:00 instant of the last day before `now`: any instant
      at 03:00 that lies at most one day before `now` is the cutover. */
  lemma CutoverIsLatestThreeAm(c: int, now: int)
    requires c % MsPerDay == CutoverOffset
    requires c <= now < c + MsPerDay
    ensures c == Cutover(now)
  {
    var d := Cutover(now);
    assert (c - d) % MsPerDay == 0;
    assert -MsPerDay < c - d < MsPerDay;
  }

  /** Whole days before and after each other are a day apart at least. */
  lemma DaysApart(p: int, q: int)
    requires p < q
    ensures p * MsPerDay + MsPerDay <= q * MsPerDay
  {
    assert q * MsPerDay - p * MsPerDay == (q - p) * MsPerDay;
  }

  /** The shifted day of `t` starts at most one day before `t`. */
  lemma ShiftedDayBounds(t: int)
    ensures var p := (t - CutoverOffset) / MsPerDay;
            CutoverOffset + p * MsPerDay <= t < CutoverOffset + p * MsPerDay + MsPerDay
  {
  }

  /** An independent statement of the rule: shifting the clock back by three
      hours, a timestamp is "today" exactly when it falls on the same shifted
      calendar day as `now`. */
  lemma IsTodayIffSameShiftedDay(t: int, now: int)
    ensures IsToday(Some(t), now) <==> (t - CutoverOffset) / MsPerDay == (now - CutoverOffset) / MsPerDay
  {
    var c := Cutover(now);
    var q := (now - CutoverOffset) / MsPerDay;
    ShiftedDayBounds(now);
    CutoverIsLatestThreeAm(CutoverOffset + q * MsPerDay, now);
    var p := (t - CutoverOffset) / MsPerDay;
    ShiftedDayBounds(t);
    if p < q {
      DaysApart(p, q);
    } else if p > q {
      DaysApart(q, p);
    }
  }

  /** The boundary, not midnight, decides the bucket: a task completed at 02:30
      is "today" when asked at 02:59 of the same date, and belongs to the day
      before when asked at 03:01. */
  lemma BoundaryIsThreeAm(day: int)
    ensures var midnight := day * MsPerDay;
            var minute := MsPerHour / 60;
            && IsToday(Some(midnight + 150 * minute), midnight + 179 * minute)
            && !IsToday(Some(midnight + 150 * minute), midnight + 181 * minute)
  {
    var midnight := day * MsPerDay;
    var minute := MsPerHour / 60;
    assert (midnight + 179 * minute) % MsPerDay == 179 * minute;
    assert (midnight + 181 * minute) % MsPerDay == 181 * minute;
  }
}
