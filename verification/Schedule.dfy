/** Rounded time intervals and the data spans of hourly cron jobs. Moments are microseconds
    on the UTC clock; absolute hours count from the same origin. */
module Schedule {
  import opened Options
  import opened Multiples

  const MILLISECOND: int := 1000
  const MINUTE: int := 60_000_000
  const HOUR: int := 3_600_000_000
  const DAY: int := 86_400_000_000

  /** The hour field of a cron entry: `*` with a step, or a list of hours. */
  datatype Cron = Every(step: nat) | At(hours: seq<nat>)

  /** What the scheduler accepts, with the hours in ascending order. */
  predicate IsCron(cron: Cron) {
    match cron
    case Every(step) => step >= 1
    case At(hours) => |hours| >= 1 && (forall i :: 0 <= i < |hours| ==> hours[i] < 24) && Ascending(hours)
  }

  predicate Ascending(hours: seq<nat>) {
    forall i, j :: 0 <= i < j < |hours| ==> hours[i] <= hours[j]
  }

  class TimeSpan {
    var start: int
    var end: int

    constructor (s: int, e: int)
      ensures start == s && end == e
    {
      start, end := s, e;
    }
  }

  // ---------------------------------------------------------------- rounding

  /** `replace(...)` with every field below the unit set to zero. */
  function Floor(t: int, unit: int): int
    requires unit > 0
  {
    t - t % unit
  }

  /** Flooring commutes with going back a whole number of units. */
  lemma FloorCommutes(t: int, n: int, unit: int)
    requires unit > 0
    ensures Floor(t - n * unit, unit) == Floor(t, unit) - n * unit
  {
    AddMultiple(t, -n, unit);
  }

  /** The span ends where the unit of now begins and is n units long. */
  ghost predicate Spans(span: TimeSpan, now: int, n: int, unit: int)
    requires unit > 0
    reads span
  {
    span.end == Floor(now, unit) && span.start == span.end - n * unit
  }

  /** `get_rounded_time_interval`; None is the ValueError for no argument. */
  method GetRoundedTimeInterval(
    backDays: Option<int>, backHours: Option<int>, backMinutes: Option<int>, now: int) returns (span: Option<TimeSpan>)
    ensures span.None? <==> backDays.None? && backHours.None? && backMinutes.None?
    ensures span.Some? ==> fresh(span.value)
    ensures backDays.Some? ==> Spans(span.value, now, backDays.value, 86_400_000_000)
    ensures backDays.None? && backHours.Some? ==> Spans(span.value, now, backHours.value, 3_600_000_000)
    ensures backDays.None? && backHours.None? && backMinutes.Some? ==>
              Spans(span.value, now, backMinutes.value, 60_000_000)
  {
    var start, end := now, now;
    if backDays.Some? {
      start := end - backDays.value * DAY;
      end := Floor(end, DAY);
      start := Floor(start, DAY);
      FloorCommutes(now, backDays.value, DAY);
    } else if backHours.Some? {
      start := end - backHours.value * HOUR;
      end := Floor(end, HOUR);
      start := Floor(start, HOUR);
      FloorCommutes(now, backHours.value, HOUR);
    } else if backMinutes.Some? {
      start := end - backMinutes.value * MINUTE;
      end := Floor(end, MINUTE);
      start := Floor(start, MINUTE);
      FloorCommutes(now, backMinutes.value, MINUTE);
    } else {
      return None;
    }
    var interval := new TimeSpan(start, end);
    span := Some(interval);
  }

  // ---------------------------------------------------------------- spans of one firing

  /** `list.index`. */
  function IndexOf(hours: seq<nat>, hour: nat): (i: Option<nat>)
    ensures i.None? <==> hour !in hours
    ensures i.Some? ==> i.value < |hours| && hours[i.value] == hour && hour !in hours[..i.value]
  {
    if hours == [] then None
    else if hours[0] == hour then Some(0)
    else
      var rest := IndexOf(hours[1..], hour);
      if rest.None? then None
      else
        assert hours[..rest.value + 1] == [hours[0]] + hours[1..][..rest.value];
        Some(rest.value + 1)
  }

  /** The number of hours covered by a firing in the given hour of the day; None is the
      ValueError of `index` for an hour that is not listed. */
  function HoursBack(cron: Cron, hourNow: nat): (hours: Option<int>) {
    match cron
    case Every(step) => Some(step)
    case At(list) =>
      var i := IndexOf(list, hourNow);
      if i.None? then None
      else
        var hours := hourNow - (if i.value > 0 then list[i.value - 1] else list[|list| - 1]);
        Some(if hours < 0 then hours + 24 else hours)
  }

  /** `get_time_span_by_hour`, which reads the clock for the hour and again for the
      interval. */
  method GetTimeSpanByHour(cron: Cron, before: int, now: int) returns (span: Option<TimeSpan>, hours: int)
    ensures span.None? <==> HoursBack(cron, before / HOUR % 24).None?
    ensures span.Some? ==> fresh(span.value) && Some(hours) == HoursBack(cron, before / HOUR % 24)
    ensures span.Some? ==> span.value.end == now / HOUR * HOUR
    ensures span.Some? ==> span.value.start == (now / HOUR - hours + 1) * HOUR
  {
    var back := HoursBack(cron, before / HOUR % 24);
    if back.None? {
      return None, 0;
    }
    hours := back.value;
    span := GetRoundedTimeInterval(None, Some(hours - 1), None, now);
  }

  /** `get_ms_time_span_by_hour`; None is the AssertionError for a list of hours. */
  method GetMsTimeSpanByHour(cron: Cron, now: int) returns (span: Option<TimeSpan>)
    ensures span.None? <==> cron.At?
    ensures span.Some? ==> fresh(span.value)
    ensures span.Some? ==> span.value.start == MsStart(cron.step, now / HOUR)
    ensures span.Some? ==> span.value.end == MsEnd(now / HOUR)
    ensures span.Some? ==> span.value.end < Floor(now, HOUR) == span.value.end + MILLISECOND
    ensures span.Some? ==> span.value.start == Floor(now, HOUR) - cron.step * HOUR
  {
    if cron.At? {
      return None;
    }
    span := GetRoundedTimeInterval(None, Some(cron.step), None, now);
    var timeSpan := span.value;
    var start := Floor(timeSpan.start, HOUR);
    var end := Floor(timeSpan.end - HOUR, HOUR) + 59 * MINUTE + 59 * 1000 * MILLISECOND + 999 * MILLISECOND;
    FloorCommutes(now, cron.step, HOUR);
    timeSpan.start := start;
    timeSpan.end := end;
  }

  function MsStart(step: nat, hour: int): int {
    (hour - step) * HOUR
  }

  function MsEnd(hour: int): int {
    hour * HOUR - MILLISECOND
  }

  // ---------------------------------------------------------------- the spans of all firings

  /** The absolute hours in which the job fires. */
  predicate Fires(cron: Cron, hour: int) {
    match cron
    case Every(step) => step >= 1 && hour % 24 % step == 0
    case At(hours) => hour % 24 in hours
  }

  /** The hour stamp lies in the inclusive span of a firing in that hour. */
  predicate Covers(cron: Cron, hour: int, stamp: int)
    requires IsCron(cron)
  {
    && Fires(cron, hour)
    && HoursBack(cron, hour % 24).Some?
    && hour - HoursBack(cron, hour % 24).value + 1 <= stamp <= hour
  }

  /** Exactly one firing, over all days, covers the hour stamp. */
  ghost predicate CoveredOnce(cron: Cron, stamp: int)
    requires IsCron(cron)
  {
    exists f: int :: Covers(cron, f, stamp) && forall g: int :: Covers(cron, g, stamp) ==> g == f
  }

  /** No firing lies strictly between the two hours. */
  ghost predicate Quiet(cron: Cron, a: int, b: int) {
    forall g: int :: a < g < b ==> !Fires(cron, g)
  }

  /** What a span must be for the spans of all firings to tile the hours. */
  predicate Tiling(cron: Cron)
    requires IsCron(cron)
  {
    match cron
    case Every(step) => 24 % step == 0
    case At(hours) => hours[0] < hours[|hours| - 1]
  }

  lemma CoversMeaning(cron: Cron, now: int, stamp: int)
    requires IsCron(cron) && Fires(cron, now / HOUR)
    ensures HoursBack(cron, now / HOUR % 24).Some?
    ensures Covers(cron, now / HOUR, stamp) <==>
            (now / HOUR - HoursBack(cron, now / HOUR % 24).value + 1) * HOUR <= stamp * HOUR <= now / HOUR * HOUR
  {
  }

  /** In an ascending list with two distinct hours, the hours covered reach back exactly to
      the firing before. */
  lemma ListGap(hours: seq<nat>, f: int)
    requires IsCron(At(hours)) && Tiling(At(hours)) && Fires(At(hours), f)
    ensures HoursBack(At(hours), f % 24).Some?
    ensures var h := HoursBack(At(hours), f % 24).value;
            0 < h < 24 && Fires(At(hours), f - h) && Quiet(At(hours), f - h, f)
  {
    var cron := At(hours);
    var i := IndexOf(hours, f % 24).value;
    var h := HoursBack(cron, f % 24).value;
    if i > 0 {
      assert hours[i - 1] in hours[..i];
      assert (f - h) % 24 == hours[i - 1];
    } else {
      assert (f - h) % 24 == hours[|hours| - 1];
    }
    hide Ascending;
    forall g: int | f - h < g < f ensures !Fires(cron, g) {
      if g % 24 in hours {
        var j :| 0 <= j < |hours| && hours[j] == g % 24;
        NoHourBetween(hours, i, j, f, g);
      }
    }
  }

  lemma NoHourBetween(hours: seq<nat>, i: nat, j: nat, f: int, g: int)
    requires IsCron(At(hours)) && Tiling(At(hours))
    requires i < |hours| && j < |hours| && hours[i] == f % 24 && hours[j] == g % 24 && f % 24 !in hours[..i]
    requires g < f
    ensures f - g >= if i > 0 then hours[i] - hours[i - 1] else hours[0] + 24 - hours[|hours| - 1]
  {
    var r, s := f % 24, g % 24;
    if j < i {
      assert hours[j] <= hours[i - 1];
      assert f - g >= r - s;
    } else {
      assert s >= r && s <= hours[|hours| - 1];
      assert f - g >= 24 + r - s;
    }
  }

  lemma StepGap(step: nat, f: int)
    requires step >= 1 && 24 % step == 0 && Fires(Every(step), f)
    ensures step <= 24 && Fires(Every(step), f - step) && Quiet(Every(step), f - step, f)
  {
    DividesDay(step);
    forall g: int | f - step < g < f ensures !Fires(Every(step), g) {
      StepFires(step, f);
      StepFires(step, g);
      NoMultipleBetween(f, g, step);
    }
    StepFires(step, f);
    StepFires(step, f - step);
    FloorCommutes(f, 1, step);
  }

  lemma NoMultipleBetween(f: int, g: int, step: nat)
    requires step >= 1 && f % step == 0 && f - step < g < f
    ensures g % step != 0
  {
    SameRemainder(g - (f - step), f / step - 1, step);
    assert (f / step - 1) * step == f - step;
  }

  /** The divisors of 24 are its factors. */
  lemma DividesDay(step: nat)
    requires step >= 1 && 24 % step == 0
    ensures step <= 24 && 24 / step * step == 24
  {
  }

  /** A step that divides 24 fires at every multiple, across midnights. */
  lemma StepFires(step: nat, hour: int)
    requires step >= 1 && 24 % step == 0
    ensures Fires(Every(step), hour) <==> hour % step == 0
  {
    var days, r := hour / 24, hour % 24;
    DividesDay(step);
    Regroup(days, 24 / step, step);
    AddMultiple(r, days * (24 / step), step);
  }

  lemma Regroup(a: int, b: int, c: int)
    ensures a * b * c == a * (b * c)
  {
  }

  /** The hours covered reach back exactly to the firing before. */
  lemma Gap(cron: Cron, f: int)
    requires IsCron(cron) && Tiling(cron) && Fires(cron, f)
    ensures HoursBack(cron, f % 24).Some?
    ensures var h := HoursBack(cron, f % 24).value; 0 < h && Fires(cron, f - h) && Quiet(cron, f - h, f)
  {
    match cron
    case Every(step) => StepGap(step, f);
    case At(hours) => ListGap(hours, f);
  }

  /** An hour of day that always fires. */
  function Anchor(cron: Cron): (a: nat)
    requires IsCron(cron)
    ensures a < 24 && forall f: int :: f % 24 == a ==> Fires(cron, f)
  {
    if cron.Every? then 0 else cron.hours[0]
  }

  /** The first firing at or after an hour. */
  function Next(cron: Cron, stamp: int): (f: int)
    requires IsCron(cron)
    ensures stamp <= f && Fires(cron, f) && Quiet(cron, stamp - 1, f)
    decreases (Anchor(cron) - stamp) % 24
  {
    if Fires(cron, stamp) then stamp
    else
      Next(cron, stamp + 1)
  }

  lemma TilingCoversOnce(cron: Cron, stamp: int)
    requires IsCron(cron) && Tiling(cron)
    ensures CoveredOnce(cron, stamp)
  {
    var f := Next(cron, stamp);
    Gap(cron, f);
    assert Covers(cron, f, stamp);
    forall g: int | Covers(cron, g, stamp) ensures g == f {
      Gap(cron, g);
    }
  }

  /** The latest hour before midnight at which a step fires. */
  function LastOfDay(step: nat): (hour: nat)
    requires step >= 1
    ensures hour < 24 && hour + step >= 24 && hour % step == 0
  {
    FloorCommutes(23, 0, step);
    SameRemainder(0, 23 / step, step);
    23 / step * step
  }

  lemma UnevenStepCoversTwice(step: nat)
    requires step >= 1 && 24 % step != 0
    ensures !CoveredOnce(Every(step), LastOfDay(step))
  {
    var m := LastOfDay(step);
    NotAtMidnight(step);
    assert m % 24 == m && HoursBack(Every(step), m) == Some(step);
    assert Covers(Every(step), m, m);
    assert Covers(Every(step), 24, m) by { SameRemainder(0, 0, step); }
  }

  lemma NotAtMidnight(step: nat)
    requires step >= 1
    ensures LastOfDay(step) + step == 24 <==> 24 % step == 0
    ensures (LastOfDay(step) + step) % step == 0
  {
    var m := LastOfDay(step) + step;
    hide LastOfDay;
    AddMultiple(LastOfDay(step), 1, step);
    if 24 % step == 0 {
      NearMultiple(m, step);
    }
  }

  lemma NearMultiple(m: int, step: nat)
    requires step >= 1 && m % step == 0 && 24 % step == 0 && 24 <= m < 24 + step
    ensures m == 24
  {
    DividesDay(step);
    AddMultiple(m - 24, 24 / step, step);
    SameRemainder(m - 24, 0, step);
  }

  lemma SingleHourCoversNothing(hours: seq<nat>, stamp: int)
    requires IsCron(At(hours)) && hours[0] == hours[|hours| - 1]
    ensures !CoveredOnce(At(hours), stamp)
  {
    forall f: int | Fires(At(hours), f) ensures !Covers(At(hours), f, stamp) {
      assert f % 24 == hours[0];
    }
  }

  /** The inclusive spans of all firings cover every hour stamp exactly once, day after day,
      if and only if the list has two distinct hours, or the step divides 24. */
  lemma SpansPartitionExact(cron: Cron)
    requires IsCron(cron)
    ensures (forall stamp: int :: CoveredOnce(cron, stamp)) <==> Tiling(cron)
  {
    if Tiling(cron) {
      forall stamp: int ensures CoveredOnce(cron, stamp) {
        TilingCoversOnce(cron, stamp);
      }
    } else if cron.Every? {
      UnevenStepCoversTwice(cron.step);
    } else {
      SingleHourCoversNothing(cron.hours, 0);
    }
  }

  /** Two firings with none between them. */
  ghost predicate Consecutive(cron: Cron, f: int, g: int) {
    f < g && Fires(cron, f) && Fires(cron, g) && Quiet(cron, f, g)
  }

  /** Consecutive millisecond spans leave a gap of exactly one millisecond, none lost and none
      shared, if and only if the step divides 24. */
  lemma MsSpansAbutExact(step: nat)
    requires step >= 1
    ensures (forall f: int, g: int :: Consecutive(Every(step), f, g) ==>
               MsEnd(f) + MILLISECOND == MsStart(step, g)) <==>
            24 % step == 0
  {
    var cron := Every(step);
    if 24 % step == 0 {
      forall f: int, g: int | Consecutive(cron, f, g) ensures MsEnd(f) + MILLISECOND == MsStart(step, g) {
        StepGap(step, g);
      }
    } else {
      var m := LastOfDay(step);
      LastIsLast(step);
      assert Consecutive(cron, m, 24);
      NotAtMidnight(step);
    }
  }

  lemma LastIsLast(step: nat)
    requires step >= 1
    ensures Quiet(Every(step), LastOfDay(step), 24)
  {
    forall g: int | LastOfDay(step) < g < 24 ensures !Fires(Every(step), g) {
      var m := LastOfDay(step);
      NotAtMidnight(step);
      NoMultipleBetween(m + step, g, step);
    }
  }
}
