/**
 A shift's times on a date and the day they make, read off the clock; and whose a punch is, told
 by the hours of the shifts alone.
 */
module ShiftTimes {
  import opened AttendanceTypes
  import opened WorkDay
  import opened Wrappers

  // ---------------------------------------------------------------- the owner, by hours worked

  /** A day open for a punch: it has a shift, and its window holds the instant. */
  predicate OpenAt(day: WorkDayContext, at: int) {
    day.shift.Some? && day.window.from <= at && at < day.window.to
  }

  predicate AtWork(s: ResolvedShift, t: int) {
    s.start <= t <= s.end
  }

  function Apart(t: int, u: int): nat {
    if t < u then u - t else t - u
  }

  /** Each moment of the other's hours has one of these hours at least as near. */
  ghost predicate AsNear(at: int, s: ResolvedShift, other: ResolvedShift) {
    forall t :: AtWork(other, t) ==> exists u :: AtWork(s, u) && Apart(u, at) <= Apart(t, at)
  }

  ghost predicate Nearer(at: int, s: ResolvedShift, other: ResolvedShift) {
    forall t :: AtWork(other, t) ==> exists u :: AtWork(s, u) && Apart(u, at) < Apart(t, at)
  }

  /** The moment of the shift nearest to an instant. */
  function NearestMoment(at: int, s: ResolvedShift): int {
    if at < s.start then s.start else if s.end < at then s.end else at
  }

  lemma DistanceIsNearest(at: int, s: ResolvedShift)
    requires s.start <= s.end
    ensures AtWork(s, NearestMoment(at, s)) && Apart(NearestMoment(at, s), at) == DistanceToShift(at, s)
    ensures forall t :: AtWork(s, t) ==> DistanceToShift(at, s) <= Apart(t, at)
  {
  }

  /**
   A punch no day is open for stays where it is; else it belongs to an open day whose hours come at
   least as near as those of any other open day, and nearer than those of any before it.
   */
  ghost predicate OwnedByHours(at: int, days: seq<WorkDayContext>, current: WorkDayContext, owner: int) {
    if forall i :: 0 <= i < |days| ==> !OpenAt(days[i], at) then owner == current.workDate
    else exists i :: 0 <= i < |days| && OwnerAmong(at, days, i) && owner == days[i].workDate
  }

  ghost predicate OwnerAmong(at: int, days: seq<WorkDayContext>, i: nat)
    requires i < |days|
  {
    && OpenAt(days[i], at)
    && (forall j :: 0 <= j < |days| && OpenAt(days[j], at) ==> AsNear(at, days[i].shift.value, days[j].shift.value))
    && (forall j :: 0 <= j < i && OpenAt(days[j], at) ==> Nearer(at, days[i].shift.value, days[j].shift.value))
  }

  /** No shift ends before it starts. */
  predicate Lasting(days: seq<WorkDayContext>) {
    forall i :: 0 <= i < |days| && days[i].shift.Some? ==> days[i].shift.value.start <= days[i].shift.value.end
  }

  lemma AssignedByHours(at: int, days: seq<WorkDayContext>, current: WorkDayContext)
    requires Lasting(days)
    ensures OwnedByHours(at, days, current, AssignedWorkDate(at, days, current))
  {
    AssignedIsOwner(at, days, current);
    assert forall i :: 0 <= i < |days| ==> (OpenAt(days[i], at) <==> Claims(days[i], at));
    if exists i :: 0 <= i < |days| && OpenAt(days[i], at) {
      var i :| 0 <= i < |days| && IsNearest(at, days, i) && AssignedWorkDate(at, days, current) == days[i].workDate;
      hide AssignedWorkDate;
      NearestComesNear(at, days, i);
    }
  }

  lemma NearestComesNear(at: int, days: seq<WorkDayContext>, i: nat)
    requires Lasting(days) && i < |days| && IsNearest(at, days, i)
    ensures OwnerAmong(at, days, i)
  {
    var s := days[i].shift.value;
    DistanceIsNearest(at, s);
    forall j | 0 <= j < |days| && OpenAt(days[j], at)
      ensures AsNear(at, s, days[j].shift.value) && (j < i ==> Nearer(at, s, days[j].shift.value))
    {
      assert Claims(days[j], at);
      DistanceIsNearest(at, days[j].shift.value);
      hide DistanceToShift, NearestMoment;
      assert AtWork(s, NearestMoment(at, s));
    }
  }

  lemma SomeOwner(at: int, days: seq<WorkDayContext>, current: WorkDayContext, i: nat) returns (k: nat)
    requires Lasting(days) && i < |days| && OpenAt(days[i], at)
    ensures k < |days| && OwnerAmong(at, days, k) && AssignedWorkDate(at, days, current) == days[k].workDate
  {
    AssignedByHours(at, days, current);
    hide AssignedWorkDate, OwnerAmong, OpenAt, Lasting;
    k :| 0 <= k < |days| && OwnerAmong(at, days, k) && AssignedWorkDate(at, days, current) == days[k].workDate;
  }

  lemma NearWhenInside(at: int, s: ResolvedShift, other: ResolvedShift)
    requires AsNear(at, s, other) && AtWork(other, at)
    ensures AtWork(s, at)
  {
    var u :| AtWork(s, u) && Apart(u, at) <= Apart(at, at);
  }

  /** Inside one open day's hours and no other's: that day's. */
  lemma InsideOneShift(at: int, days: seq<WorkDayContext>, current: WorkDayContext, i: nat)
    requires Lasting(days) && i < |days| && OpenAt(days[i], at) && AtWork(days[i].shift.value, at)
    requires forall j :: 0 <= j < |days| && j != i && OpenAt(days[j], at) ==> !AtWork(days[j].shift.value, at)
    ensures AssignedWorkDate(at, days, current) == days[i].workDate
  {
    hide AssignedWorkDate, Lasting, AsNear, Nearer, AtWork;
    var k := SomeOwner(at, days, current, i);
    NearWhenInside(at, days[k].shift.value, days[i].shift.value);
  }

  lemma EndAsNear(at: int, before: ResolvedShift, after: ResolvedShift)
    requires before.end <= at <= after.start <= after.end && AsNear(at, before, after)
    ensures at - before.end <= after.start - at
  {
    assert AtWork(after, after.start);
    var u :| AtWork(before, u) && Apart(u, at) <= Apart(after.start, at);
    hide AsNear;
  }

  lemma StartNearer(at: int, before: ResolvedShift, after: ResolvedShift)
    requires before.start <= before.end <= at <= after.start && Nearer(at, after, before)
    ensures after.start - at < at - before.end
  {
    assert AtWork(before, before.end);
    var u :| AtWork(after, u) && Apart(u, at) < Apart(before.end, at);
    hide Nearer;
  }

  /** After one shift and before the next: that of the nearer end or start, the earlier when both are as near. */
  lemma BetweenTwoShifts(at: int, days: seq<WorkDayContext>, current: WorkDayContext, i: nat, j: nat)
    requires Lasting(days) && i < j < |days| && OpenAt(days[i], at) && OpenAt(days[j], at)
    requires forall k :: 0 <= k < |days| && OpenAt(days[k], at) ==> k == i || k == j
    requires days[i].shift.value.end <= at <= days[j].shift.value.start
    ensures AssignedWorkDate(at, days, current)
         == days[if at - days[i].shift.value.end <= days[j].shift.value.start - at then i else j].workDate
  {
    var before, after := days[i].shift.value, days[j].shift.value;
    assert before.start <= before.end && after.start <= after.end;
    hide AssignedWorkDate, Lasting, AsNear, Nearer;
    var k := SomeOwner(at, days, current, i);
    if k == i {
      EndAsNear(at, before, after);
    } else {
      StartNearer(at, before, after);
    }
  }

  // ---------------------------------------------------------------- a shift on a date

  /** On that date and the next no clock changes: each minute shows so long after midnight. */
  ghost predicate PlainDays(z: Zone, d: int) {
    forall m :: 0 <= m < 1440 ==>
                  && z.at(d, m) == z.dayStart(d) + 60_000 * m
                  && z.atNext(d, m) == z.dayStart(d) + 60_000 * (m + 1440)
  }

  /** The first instant from `from` on at which the clock shows that minute of the day. */
  predicate FirstShown(midnight: int, from: int, minute: nat, t: int) {
    from <= t < from + 86_400_000 && (t - midnight - 60_000 * minute) % 86_400_000 == 0
  }

  predicate ShownOrNone(midnight: int, from: int, minute: Option<nat>, t: Option<int>) {
    if minute.None? then t.None? else t.Some? && FirstShown(midnight, from, minute.value, t.value)
  }

  /**
   A shift starts when the clock of its date shows its start; it ends, and its break starts and
   ends, when the clock next shows those times, a whole day later for an end equal to the start.
   Its tolerances are its own, or else the company's.
   */
  lemma ResolvedTimes(template: ShiftTemplate, d: int, z: Zone, policy: Policy)
    requires PlainDays(z, d) && ValidTemplate(template)
    requires template.breakStart.Some? ==> template.breakStart.value < 1440
    requires template.breakEnd.Some? ==> template.breakEnd.value < 1440
    ensures var s, midnight := ResolveShift(template, d, z, policy), z.dayStart(d);
            && s.start == midnight + 60_000 * template.startTime
            && FirstShown(midnight, s.start + 1, template.endTime, s.end)
            && ShownOrNone(midnight, s.start, template.breakStart, s.breakStart)
            && ShownOrNone(midnight, s.start, template.breakEnd, s.breakEnd)
            && s.shiftId == template.id && s.flexible == template.flexible
  {
    var midnight := z.dayStart(d);
    AnchoredShows(template, d, z, template.startTime);
    AnchoredShows(template, d, z, template.endTime);
    if template.breakStart.Some? {
      AnchoredShows(template, d, z, template.breakStart.value);
    }
    if template.breakEnd.Some? {
      AnchoredShows(template, d, z, template.breakEnd.value);
    }
    assert z.at(d, template.startTime) == midnight + 60_000 * template.startTime;
  }

  lemma AnchoredShows(template: ShiftTemplate, d: int, z: Zone, time: nat)
    requires PlainDays(z, d) && ValidTemplate(template) && time < 1440
    ensures FirstShown(z.dayStart(d), z.dayStart(d) + 60_000 * template.startTime, time, Anchored(z, d, template, time))
    ensures time == template.startTime ==> Anchored(z, d, template, time) == z.dayStart(d) + 60_000 * time
    ensures time != template.startTime ==> Anchored(z, d, template, time) > z.dayStart(d) + 60_000 * template.startTime
  {
    assert z.at(d, time) == z.dayStart(d) + 60_000 * time;
    assert z.atNext(d, time) == z.dayStart(d) + 60_000 * (time + 1440);
    assert (86_400_000 - 0) % 86_400_000 == 0;
  }

  lemma ResolvedTolerances(template: ShiftTemplate, d: int, z: Zone, policy: Policy)
    ensures var s := ResolveShift(template, d, z, policy);
            && (forall own: nat :: template.lateToleranceMinutes == Some(own) ==> s.lateToleranceMinutes == own)
            && (template.lateToleranceMinutes == None ==> s.lateToleranceMinutes == policy.lateToleranceMinutes)
            && (forall own: nat :: template.earlyLeaveToleranceMinutes == Some(own) ==>
                                     s.earlyLeaveToleranceMinutes == own)
            && (template.earlyLeaveToleranceMinutes == None ==>
                  s.earlyLeaveToleranceMinutes == policy.earlyLeaveToleranceMinutes)
            && (forall own: nat :: template.overtimeThresholdMinutes == Some(own) ==> s.overtimeThresholdMinutes == own)
            && (template.overtimeThresholdMinutes == None ==>
                  s.overtimeThresholdMinutes == policy.overtimeThresholdMinutes)
  {
  }

  /** Over a change of clocks too: the date's own reading of each time, or the next date's for one before the start. */
  lemma ResolvedAnyDate(template: ShiftTemplate, d: int, z: Zone, policy: Policy)
    ensures var s := ResolveShift(template, d, z, policy);
            && s.start == z.at(d, template.startTime)
            && var shown := if template.endTime < template.startTime then z.atNext(d, template.endTime)
                            else z.at(d, template.endTime);
            && (shown != s.start ==> s.end == shown)
            && s.end != s.start
  {
  }

  // ---------------------------------------------------------------- the day it makes

  /**
   Fixed hours are surrounded by the policy's minutes; without them the day is the calendar's. A
   holiday hides the shift.
   */
  lemma DayMade(d: int, z: Zone, policy: Policy, template: Option<ShiftTemplate>, isHoliday: bool, hasSchedule: bool)
    ensures var day := BuildWorkDay(d, z, policy, template, isHoliday, hasSchedule);
            && day.workDate == d && day.hasSchedule == hasSchedule
            && (day.dayType == HOLIDAY <==> isHoliday)
            && (day.dayType == REST_DAY <==> !isHoliday && hasSchedule && template.None?)
            && (day.shift.Some? <==> template.Some? && !isHoliday)
            && (day.shift.Some? ==> day.shift.value == ResolveShift(template.value, d, z, policy))
            && (template.None? || template.value.flexible ==>
                  day.window.from == z.dayStart(d) && day.window.to == z.dayEnd(d))
            && (template.Some? && !template.value.flexible ==>
                  var s := ResolveShift(template.value, d, z, policy);
                  && s.start - day.window.from == 60_000 * policy.punchWindowBeforeShiftMinutes
                  && day.window.to - s.end == 60_000 * policy.punchWindowAfterShiftMinutes)
  {
  }

  /**
   A night shift and the office hours after it, on 1 and 2 January 1970 in UTC: half past six is
   still the night's.
   */
  lemma NightShiftExit()
    ensures var hour := 3_600_000;
            var night := ShiftTemplate("night", 22 * 60, 6 * 60, None, None, None, None, None, false);
            var office := ShiftTemplate("office", 9 * 60, 18 * 60, None, None, None, None, None, false);
            var first := BuildWorkDay(0, Utc(), DEFAULT_POLICY, Some(night), false, true);
            var second := BuildWorkDay(1, Utc(), DEFAULT_POLICY, Some(office), false, true);
            AssignedWorkDate(30 * hour + 30 * 60_000, [first, second], second) == 0
  {
    var hour := 3_600_000;
    var night := ShiftTemplate("night", 22 * 60, 6 * 60, None, None, None, None, None, false);
    var office := ShiftTemplate("office", 9 * 60, 18 * 60, None, None, None, None, None, false);
    var first := BuildWorkDay(0, Utc(), DEFAULT_POLICY, Some(night), false, true);
    var second := BuildWorkDay(1, Utc(), DEFAULT_POLICY, Some(office), false, true);
    assert first.shift.value.start == 22 * hour && first.shift.value.end == 30 * hour;
    assert second.shift.value.start == 33 * hour && second.shift.value.end == 42 * hour;
    BetweenTwoShifts(30 * hour + 30 * 60_000, [first, second], second, 0, 1);
  }
}
