/**
 The day an employee's schedule makes of a date, told from the assignments, the weekday and the
 holidays; and the owner of a punch, told from the hours of the three days around it.
 */
module CalendarDays {
  import opened AttendanceTypes
  import opened ShiftTimes
  import opened WorkCalendar
  import opened WorkDay
  import WorkSchedules
  import opened Wrappers

  // ---------------------------------------------------------------- weekdays

  /** 1 January 1970 was a Thursday, and weekdays follow one another from Monday, 1, to Sunday, 7. */
  lemma WeekdaysGoRound(d: int)
    ensures IsoWeekday(0) == 4
    ensures IsoWeekday(d + 1) == if IsoWeekday(d) == 7 then 1 else IsoWeekday(d) + 1
  {
  }

  /** Whether a date is that weekday: a whole number of weeks from the first one. */
  predicate IsWeekday(d: int, w: int) {
    1 <= w <= 7 && (d - (w - 4)) % 7 == 0
  }

  lemma WeekdayExactly(d: int, w: int)
    ensures IsWeekday(d, w) <==> IsoWeekday(d) == w
  {
  }

  // ---------------------------------------------------------------- the day of a date

  /** In force on that date, from its first day to its last, both included. */
  predicate InForceOn(a: Assignment, d: int) {
    a.effectiveFrom <= d && (a.effectiveTo.Some? ==> d <= a.effectiveTo.value)
  }

  /** With an assignment in force: its shift of that weekday, hidden by a holiday; a rest day when it has none. */
  lemma DayUnderSchedule(t: Tables, employeeId: string, a: Assignment, d: int, w: int)
    requires OneSchedule(AssignmentsOf(t, employeeId)) && a in AssignmentsOf(t, employeeId)
    requires InForceOn(a, d) && IsWeekday(d, w)
    ensures var day := EvaluateDay(t, employeeId, d);
            && day.workDate == d && day.hasSchedule
            && (day.dayType == HOLIDAY <==> d in t.holidays)
            && (day.dayType == REST_DAY <==> d !in t.holidays && w !in a.shifts)
            && (day.shift.Some? <==> d !in t.holidays && w in a.shifts)
            && (day.shift.Some? ==> day.shift.value == ResolveShift(a.shifts[w], d, t.zone, t.policy))
            && (w in a.shifts ==> day == BuildWorkDay(d, t.zone, t.policy, Some(a.shifts[w]), d in t.holidays, true))
  {
    FindFinds(AssignmentsOf(t, employeeId), d);
    WeekdayExactly(d, w);
    hide Find, ResolveShift, CalendarDay;
    assert Covers(a, d);
    assert Find(AssignmentsOf(t, employeeId), d) == Some(a);
  }

  /** Without one in force: no schedule, no shift, the calendar's day. */
  lemma DayWithoutSchedule(t: Tables, employeeId: string, d: int)
    requires forall a :: a in AssignmentsOf(t, employeeId) ==> !InForceOn(a, d)
    ensures var day := EvaluateDay(t, employeeId, d);
            && day.workDate == d && !day.hasSchedule && day.shift == None
            && day.dayType == (if d in t.holidays then HOLIDAY else WORKDAY)
            && day.window == Window(t.zone.dayStart(d), t.zone.dayEnd(d))
  {
    FindFinds(AssignmentsOf(t, employeeId), d);
    hide Find, ResolveShift;
    assert forall a :: Covers(a, d) <==> InForceOn(a, d);
  }

  /** The schedule of a contiguous history on a date is the one its rows say, and none before the first. */
  lemma ScheduleOfHistory(h: seq<WorkSchedules.Row>, assignments: seq<Assignment>, d: int)
    requires WorkSchedules.Contiguous(h) && |assignments| == |h|
    requires forall i :: 0 <= i < |h| ==>
                           assignments[i].effectiveFrom == h[i].from && assignments[i].effectiveTo == h[i].to
    ensures forall i :: 0 <= i < |h| && WorkSchedules.Covers(h[i], d) ==> Find(assignments, d) == Some(assignments[i])
    ensures (forall i :: 0 <= i < |h| ==> !WorkSchedules.Covers(h[i], d)) ==> Find(assignments, d) == None
  {
    HistoryIsOneSchedule(h, assignments);
    FindFinds(assignments, d);
    hide Find, WorkSchedules.Contiguous;
    assert forall i :: 0 <= i < |h| ==> (WorkSchedules.Covers(h[i], d) <==> Covers(assignments[i], d));
    assert forall i :: 0 <= i < |h| ==> assignments[i] in assignments;
    if Find(assignments, d).Some? {
      var a := Find(assignments, d).value;
      var i :| 0 <= i < |assignments| && assignments[i] == a;
    }
  }

  /** What is loaded for a range: every assignment in force on some day of it, and no other. */
  lemma LoadedExactly(a: Assignment, from: int, to: int)
    requires from <= to && (a.effectiveTo.Some? ==> a.effectiveFrom <= a.effectiveTo.value)
    ensures Overlaps(a, from, to) <==> exists d :: from <= d <= to && InForceOn(a, d)
  {
    if Overlaps(a, from, to) {
      var d := if a.effectiveFrom < from then from else a.effectiveFrom;
      assert InForceOn(a, d);
    }
  }

  // ---------------------------------------------------------------- the owner of a punch

  /** A date's day and its neighbours, in order. */
  function Around(t: Tables, employeeId: string, d: int): seq<WorkDayContext> {
    [EvaluateDay(t, employeeId, d - 1), EvaluateDay(t, employeeId, d), EvaluateDay(t, employeeId, d + 1)]
  }

  /** The three days whose hours decide: of the punch's local date and its neighbours. */
  lemma OwnerByHours(t: Tables, employeeId: string, at: int, d: int)
    requires ValidZone(t.zone) && t.zone.dayStart(d) <= at < t.zone.dayStart(d + 1)
    requires Lasting(Around(t, employeeId, d))
    ensures OwnedByHours(at, Around(t, employeeId, d), EvaluateDay(t, employeeId, d), OwnerOf(t, employeeId, at))
  {
    assert InDay(t.zone, at, d) && t.zone.dateOf(at) == d;
    hide EvaluateDay, OwnedByHours, AssignedWorkDate, Lasting, ValidZone;
    AssignedByHours(at, Candidates(t, employeeId, at), EvaluateDay(t, employeeId, d));
  }

  /** A day reaches over its window and its date. */
  lemma ReachSpelled(t: Tables, day: WorkDayContext, at: int)
    ensures var r := ReachOf(t, day);
            && (day.window.from <= at < day.window.to ==> r.from <= at < r.to)
            && (t.zone.dayStart(day.workDate) <= at < t.zone.dayEnd(day.workDate) ==> r.from <= at < r.to)
            && (r.from == day.window.from || r.from == t.zone.dayStart(day.workDate))
            && (r.to == day.window.to || r.to == t.zone.dayEnd(day.workDate))
  {
  }
}
