/**
 Which work day a punch belongs to: shifts anchored on local dates, their punch windows and the
 choice between the windows that overlap. A timezone is any set of functions that fits together.
 */
module WorkDay {
  import opened AttendanceTypes
  import opened Wrappers

  const MINUTE_MS := 60_000
  const DAY_MS := 86_400_000

  /**
   A timezone as the date library presents it. `at` reads a wall-clock minute on a date, `atNext`
   the same reading moved one calendar day on, and `dayEnd` moves the start of a day one calendar
   day on, which may be later than the next day's start when that day begins in a clock change.
   */
  datatype Zone = Zone(
    dateOf: int -> int,
    dayStart: int -> int,
    dayEnd: int -> int,
    at: (int, int) -> int,
    atNext: (int, int) -> int
  )

  /** The instants of a local date. */
  predicate InDay(z: Zone, t: int, d: int) {
    z.dayStart(d) <= t < z.dayStart(d + 1)
  }

  /** Days follow one another, and a day moved on ends no later than the next. */
  predicate DayFits(z: Zone, d: int) {
    z.dayStart(d) < z.dayStart(d + 1) <= z.dayEnd(d) <= z.dayStart(d + 2)
  }

  ghost predicate ValidZone(z: Zone) {
    && (forall t, d {:trigger InDay(z, t, d)} :: z.dateOf(t) == d <==> InDay(z, t, d))
    && (forall d {:trigger DayFits(z, d)} :: DayFits(z, d))
    && (forall d, m :: 0 <= m < 1440 ==> z.dayStart(d) <= z.at(d, m) < z.dayStart(d + 2))
  }

  function Utc(): Zone {
    Zone(t => t / DAY_MS, d => d * DAY_MS, d => (d + 1) * DAY_MS,
         (d, m) => d * DAY_MS + m * MINUTE_MS, (d, m) => (d + 1) * DAY_MS + m * MINUTE_MS)
  }

  /** The conditions on a zone can be met. */
  lemma UtcIsValid()
    ensures ValidZone(Utc())
  {
  }

  /** Wall-clock times are minutes after midnight. */
  datatype ShiftTemplate = ShiftTemplate(
    id: string,
    startTime: nat,
    endTime: nat,
    breakStart: Option<nat>,
    breakEnd: Option<nat>,
    lateToleranceMinutes: Option<nat>,
    earlyLeaveToleranceMinutes: Option<nat>,
    overtimeThresholdMinutes: Option<nat>,
    flexible: bool
  )

  predicate ValidTemplate(t: ShiftTemplate) {
    t.startTime < 1440 && t.endTime < 1440
  }

  function OrElse(own: Option<nat>, fallback: nat): nat {
    if own.Some? then own.value else fallback
  }

  /** A time earlier than the start belongs to the next calendar day. */
  function Anchored(z: Zone, workDate: int, template: ShiftTemplate, time: nat): int {
    if time < template.startTime then z.atNext(workDate, time) else z.at(workDate, time)
  }

  function ResolveShift(template: ShiftTemplate, workDate: int, z: Zone, policy: Policy): ResolvedShift {
    var start := Anchored(z, workDate, template, template.startTime);
    var end := Anchored(z, workDate, template, template.endTime);
    ResolvedShift(
      template.id, template.flexible, start,
      if end == start then start + 24 * 3_600_000 else end,
      if template.breakStart.Some? then Some(Anchored(z, workDate, template, template.breakStart.value)) else None,
      if template.breakEnd.Some? then Some(Anchored(z, workDate, template, template.breakEnd.value)) else None,
      OrElse(template.lateToleranceMinutes, policy.lateToleranceMinutes),
      OrElse(template.earlyLeaveToleranceMinutes, policy.earlyLeaveToleranceMinutes),
      OrElse(template.overtimeThresholdMinutes, policy.overtimeThresholdMinutes))
  }

  function CalendarDay(workDate: int, z: Zone): Window {
    Window(z.dayStart(workDate), z.dayEnd(workDate))
  }

  function BuildWorkDay(workDate: int, z: Zone, policy: Policy, template: Option<ShiftTemplate>, isHoliday: bool,
                        hasSchedule: bool): WorkDayContext {
    var shift := if template.Some? then Some(ResolveShift(template.value, workDate, z, policy)) else None;
    var dayType := if isHoliday then HOLIDAY else if hasSchedule && template == None then REST_DAY else WORKDAY;
    var window :=
      if shift.Some? && !shift.value.flexible then
        Window(shift.value.start - policy.punchWindowBeforeShiftMinutes * MINUTE_MS,
               shift.value.end + policy.punchWindowAfterShiftMinutes * MINUTE_MS)
      else CalendarDay(workDate, z);
    WorkDayContext(workDate, dayType, if dayType == HOLIDAY then None else shift, hasSchedule, window)
  }

  predicate InWindow(at: int, day: WorkDayContext) {
    day.window.from <= at < day.window.to
  }

  function DistanceToShift(at: int, shift: ResolvedShift): int {
    Max(Max(shift.start - at, at - shift.end), 0)
  }

  /** A day competes for a punch with its shift, and only inside its window. */
  predicate Claims(day: WorkDayContext, at: int) {
    day.shift.Some? && InWindow(at, day)
  }

  function DistanceTo(day: WorkDayContext, at: int): int {
    if day.shift.Some? then DistanceToShift(at, day.shift.value) else 0
  }

  /** Day `i` claims the punch, no day claims it from nearer, and none before it from as near. */
  predicate IsNearest(at: int, days: seq<WorkDayContext>, i: nat)
    requires i < |days|
  {
    && Claims(days[i], at)
    && (forall j :: 0 <= j < |days| && Claims(days[j], at) ==> DistanceTo(days[i], at) <= DistanceTo(days[j], at))
    && (forall j :: 0 <= j < i && Claims(days[j], at) ==> DistanceTo(days[i], at) < DistanceTo(days[j], at))
  }

  /** What ownership promises: the nearest claim, the earlier of two as near, else the day at hand. */
  predicate IsOwner(at: int, days: seq<WorkDayContext>, current: WorkDayContext, owner: int) {
    if forall i :: 0 <= i < |days| ==> !Claims(days[i], at) then owner == current.workDate
    else exists i :: 0 <= i < |days| && IsNearest(at, days, i) && owner == days[i].workDate
  }

  /** The nearest claim so far, as an index. */
  function Nearest(at: int, days: seq<WorkDayContext>): (r: Option<nat>)
    ensures r.Some? ==> r.value < |days|
  {
    if days == [] then None
    else
      var best := Nearest(at, days[..|days| - 1]);
      var day := days[|days| - 1];
      if !Claims(day, at) then best
      else if best.Some? && DistanceTo(days[best.value], at) <= DistanceTo(day, at) then best
      else Some(|days| - 1)
  }

  function AssignedWorkDate(at: int, days: seq<WorkDayContext>, current: WorkDayContext): int {
    var best := Nearest(at, days);
    if best.Some? then days[best.value].workDate else current.workDate
  }

  method AssignWorkDate(at: int, previousDay: WorkDayContext, currentDay: WorkDayContext,
                        nextDay: Option<WorkDayContext>) returns (workDate: int)
    ensures var days := [previousDay, currentDay] + if nextDay.Some? then [nextDay.value] else [];
            workDate == AssignedWorkDate(at, days, currentDay)
  {
    var owner := currentDay;
    var nearest: Option<int> := None; // infinitely far
    var days := [previousDay, currentDay] + if nextDay.Some? then [nextDay.value] else [];
    for i := 0 to |days|
      invariant nearest == None <==> Nearest(at, days[..i]) == None
      invariant nearest == None ==> owner == currentDay
      invariant nearest.Some? ==>
          owner == days[Nearest(at, days[..i]).value] && owner.shift.Some? && nearest.value == DistanceTo(owner, at)
    {
      assert days[..i + 1][..i] == days[..i];
      var day := days[i];
      if day.shift == None || !InWindow(at, day) {
        continue;
      }
      var distance := DistanceToShift(at, day.shift.value);
      if nearest == None || distance < nearest.value {
        owner, nearest := day, Some(distance);
      }
    }
    assert days[..|days|] == days;
    workDate := owner.workDate;
  }

  lemma {:induction false} NearestIsNearest(at: int, days: seq<WorkDayContext>)
    ensures var r := Nearest(at, days);
            && (r == None <==> forall i :: 0 <= i < |days| ==> !Claims(days[i], at))
            && (r.Some? ==> IsNearest(at, days, r.value))
  {
    if days != [] {
      var n := |days| - 1;
      NearestIsNearest(at, days[..n]);
      hide Claims, DistanceTo;
      assert forall i :: 0 <= i < n ==> days[..n][i] == days[i];
    }
  }

  /** The choice made is the one promised. */
  lemma AssignedIsOwner(at: int, days: seq<WorkDayContext>, current: WorkDayContext)
    ensures IsOwner(at, days, current, AssignedWorkDate(at, days, current))
  {
    NearestIsNearest(at, days);
  }
}
