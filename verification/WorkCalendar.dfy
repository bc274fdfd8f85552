/**
 The snapshot of schedules and holidays a recomputation reads: a memo of evaluated days, the
 owner of each punch, and why a snapshot of a few days answers like the whole tables.
 */
module WorkCalendar {
  import opened AttendanceTypes
  import opened WorkDay
  import WorkSchedules
  import opened Wrappers

  /** One assignment of a schedule: weekday (1 Monday to 7 Sunday) to shift. */
  datatype Assignment = Assignment(effectiveFrom: int, effectiveTo: Option<int>, shifts: map<int, ShiftTemplate>)

  datatype Tables = Tables(assignments: map<string, seq<Assignment>>, holidays: set<int>, zone: Zone, policy: Policy)

  /** Day 0 is 1970-01-01, a Thursday. */
  function IsoWeekday(workDate: int): (w: int)
    ensures 1 <= w <= 7
  {
    (workDate + 3) % 7 + 1
  }

  predicate Covers(a: Assignment, workDate: int) {
    a.effectiveFrom <= workDate && (a.effectiveTo == None || a.effectiveTo.value >= workDate)
  }

  /** The first assignment that covers the day. */
  function Find(assignments: seq<Assignment>, workDate: int): Option<Assignment> {
    if assignments == [] then None
    else if Covers(assignments[0], workDate) then Some(assignments[0])
    else Find(assignments[1..], workDate)
  }

  function AssignmentsOf(t: Tables, employeeId: string): seq<Assignment> {
    if employeeId in t.assignments then t.assignments[employeeId] else []
  }

  function TemplateOn(a: Option<Assignment>, workDate: int): Option<ShiftTemplate> {
    if a.Some? && IsoWeekday(workDate) in a.value.shifts then Some(a.value.shifts[IsoWeekday(workDate)]) else None
  }

  function EvaluateDay(t: Tables, employeeId: string, workDate: int): WorkDayContext {
    var assignment := Find(AssignmentsOf(t, employeeId), workDate);
    BuildWorkDay(workDate, t.zone, t.policy, TemplateOn(assignment, workDate), workDate in t.holidays, assignment.Some?)
  }

  /** The days that may claim a punch: the one before its local date, that date, the one after. */
  function Candidates(t: Tables, employeeId: string, at: int): (days: seq<WorkDayContext>)
    ensures |days| == 3
  {
    var local := t.zone.dateOf(at);
    [EvaluateDay(t, employeeId, local - 1), EvaluateDay(t, employeeId, local), EvaluateDay(t, employeeId, local + 1)]
  }

  function OwnerOf(t: Tables, employeeId: string, at: int): int {
    AssignedWorkDate(at, Candidates(t, employeeId, at), EvaluateDay(t, employeeId, t.zone.dateOf(at)))
  }

  function ReachOf(t: Tables, day: WorkDayContext): Window {
    var calendar := CalendarDay(day.workDate, t.zone);
    Window(Min(day.window.from, calendar.from), Max(day.window.to, calendar.to))
  }

  datatype Division = Division(counted: seq<Punch>, strays: seq<Punch>)

  /** Where one more punch goes: nowhere when another day owns it. */
  function Place(d: Division, p: Punch, owned: bool, inside: bool): Division {
    if !owned then d
    else if inside then d.(counted := d.counted + [p])
    else d.(strays := d.strays + [p])
  }

  function Split(t: Tables, employeeId: string, day: WorkDayContext, punches: seq<Punch>): Division {
    if punches == [] then Division([], [])
    else
      var d := Split(t, employeeId, day, punches[..|punches| - 1]);
      var p := punches[|punches| - 1];
      Place(d, p, OwnerOf(t, employeeId, p.at) == day.workDate, InWindow(p.at, day))
  }

  // ---------------------------------------------------------------- the memoising snapshot

  class WorkCalendar {
    const tables: Tables
    var days: map<(string, int), WorkDayContext>

    constructor (tables: Tables)
      ensures Valid() && this.tables == tables
    {
      this.tables, days := tables, map[];
    }

    /** Whatever was looked up before, in whatever order, the memo only holds what the tables say. */
    ghost predicate Valid()
      reads this
    {
      forall k :: k in days ==> days[k] == EvaluateDay(tables, k.0, k.1)
    }

    method DayFor(employeeId: string, workDate: int) returns (day: WorkDayContext)
      requires Valid()
      modifies this`days
      ensures Valid() && day == EvaluateDay(tables, employeeId, workDate)
    {
      var key := (employeeId, workDate);
      if key in days {
        return days[key];
      }
      day := EvaluateDay(tables, employeeId, workDate);
      days := days[key := day];
    }

    method WorkDateOf(employeeId: string, at: int) returns (workDate: int)
      requires Valid()
      modifies this`days
      ensures Valid() && workDate == OwnerOf(tables, employeeId, at)
    {
      var local := tables.zone.dateOf(at);
      var previous := DayFor(employeeId, local - 1);
      var current := DayFor(employeeId, local);
      var next := DayFor(employeeId, local + 1);
      workDate := AssignWorkDate(at, previous, current, Some(next));
      assert [previous, current] + [next] == Candidates(tables, employeeId, at);
    }

    method SplitPunches(employeeId: string, day: WorkDayContext,
                        punches: seq<Punch>) returns (counted: seq<Punch>, strays: seq<Punch>)
      requires Valid()
      modifies this`days
      ensures Valid() && Division(counted, strays) == Split(tables, employeeId, day, punches)
    {
      counted, strays := [], [];
      for i := 0 to |punches|
        invariant Valid()
        invariant Division(counted, strays) == Split(tables, employeeId, day, punches[..i])
      {
        assert punches[..i + 1][..i] == punches[..i];
        var p := punches[i];
        var owner := WorkDateOf(employeeId, p.at);
        if owner != day.workDate {
          continue;
        }
        if InWindow(p.at, day) {
          counted := counted + [p];
        } else {
          strays := strays + [p];
        }
      }
      assert punches[..|punches|] == punches;
    }
  }

  // ---------------------------------------------------------------- every punch has one home

  ghost predicate ValidTables(t: Tables) {
    && ValidZone(t.zone)
    && forall e, i, w :: e in t.assignments && 0 <= i < |t.assignments[e]| && w in t.assignments[e][i].shifts ==>
                           ValidTemplate(t.assignments[e][i].shifts[w])
  }

  lemma DayIsItsDate(t: Tables, employeeId: string, workDate: int)
    ensures EvaluateDay(t, employeeId, workDate).workDate == workDate
  {
  }

  /** A day without a shift of its own keeps its calendar day, or a holiday its shift's window. */
  lemma OwnerIsCandidate(t: Tables, employeeId: string, at: int)
    ensures var local, owner := t.zone.dateOf(at), OwnerOf(t, employeeId, at);
            && local - 1 <= owner <= local + 1
            && IsOwner(at, Candidates(t, employeeId, at), EvaluateDay(t, employeeId, local), owner)
            && (owner != local ==> Claims(EvaluateDay(t, employeeId, owner), at))
            && (!Claims(EvaluateDay(t, employeeId, owner), at) ==>
                  owner == local && forall d :: local - 1 <= d <= local + 1 ==>
                                                  !Claims(EvaluateDay(t, employeeId, d), at))
  {
    var days := Candidates(t, employeeId, at);
    var local := t.zone.dateOf(at);
    NearestIsNearest(at, days);
    AssignedIsOwner(at, days, EvaluateDay(t, employeeId, local));
    DayIsItsDate(t, employeeId, local - 1);
    DayIsItsDate(t, employeeId, local);
    DayIsItsDate(t, employeeId, local + 1);
    hide EvaluateDay, Claims, IsOwner;
    assert days[0] == EvaluateDay(t, employeeId, local - 1);
    assert days[1] == EvaluateDay(t, employeeId, local);
    assert days[2] == EvaluateDay(t, employeeId, local + 1);
  }

  /** An owner's reach holds the punch, so loading by reach misses none that the day owns. */
  lemma InReachOfOwner(t: Tables, employeeId: string, at: int)
    requires ValidZone(t.zone)
    ensures var reach := ReachOf(t, EvaluateDay(t, employeeId, OwnerOf(t, employeeId, at)));
            reach.from <= at < reach.to
  {
    var owner := OwnerOf(t, employeeId, at);
    OwnerIsCandidate(t, employeeId, at);
    DayIsItsDate(t, employeeId, owner);
    hide EvaluateDay, OwnerOf, IsOwner, Candidates;
    if owner == t.zone.dateOf(at) {
      InItsCalendarDay(t.zone, at);
    }
  }

  lemma InItsCalendarDay(z: Zone, at: int)
    requires ValidZone(z)
    ensures var day := CalendarDay(z.dateOf(at), z); day.from <= at < day.to
  {
    var d := z.dateOf(at);
    assert InDay(z, at, d) && DayFits(z, d);
  }

  lemma PlaceCounts(d: Division, q: Punch, owned: bool, inside: bool, p: Punch)
    ensures var r := Place(d, q, owned, inside);
            && multiset(r.counted)[p] == multiset(d.counted)[p] + (if p == q && owned && inside then 1 else 0)
            && multiset(r.strays)[p] == multiset(d.strays)[p] + (if p == q && owned && !inside then 1 else 0)
  {
  }

  /** How often each punch is counted by a day, and how often it is its stray. */
  lemma {:induction false} SplitCounts(t: Tables, employeeId: string, day: WorkDayContext, punches: seq<Punch>,
                                       p: Punch)
    ensures var d := Split(t, employeeId, day, punches);
            var home := OwnerOf(t, employeeId, p.at) == day.workDate;
            && multiset(d.counted)[p] == (if home && InWindow(p.at, day) then multiset(punches)[p] else 0)
            && multiset(d.strays)[p] == (if home && !InWindow(p.at, day) then multiset(punches)[p] else 0)
  {
    if punches != [] {
      var n := |punches| - 1;
      SplitCounts(t, employeeId, day, punches[..n], p);
      hide OwnerOf, InWindow, Place;
      PlaceCounts(Split(t, employeeId, day, punches[..n]), punches[n],
                  OwnerOf(t, employeeId, punches[n].at) == day.workDate, InWindow(punches[n].at, day), p);
      assert punches == punches[..n] + [punches[n]];
    }
  }

  /**
   One home: of all work days, exactly the owner has the punch, as often as it was made, counted
   inside its window and as a stray outside; it can only be a stray of its local date, when no
   shift of the days around claims it; and the owner's reach holds it.
   */
  lemma OneHome(t: Tables, employeeId: string, punches: seq<Punch>, p: Punch, workDate: int)
    requires ValidZone(t.zone)
    ensures var owner := OwnerOf(t, employeeId, p.at);
            var local := t.zone.dateOf(p.at);
            var home := EvaluateDay(t, employeeId, owner);
            var d := Split(t, employeeId, EvaluateDay(t, employeeId, workDate), punches);
            && multiset(d.counted)[p] + multiset(d.strays)[p] == (if workDate == owner then multiset(punches)[p] else 0)
            && (p in d.counted ==> workDate == owner && InWindow(p.at, home))
            && (p in d.strays ==>
                  workDate == local
                  && forall n :: local - 1 <= n <= local + 1 ==> !Claims(EvaluateDay(t, employeeId, n), p.at))
            && ReachOf(t, home).from <= p.at < ReachOf(t, home).to
            && IsOwner(p.at, Candidates(t, employeeId, p.at), EvaluateDay(t, employeeId, local), owner)
  {
    var day := EvaluateDay(t, employeeId, workDate);
    SplitCounts(t, employeeId, day, punches, p);
    OwnerIsCandidate(t, employeeId, p.at);
    InReachOfOwner(t, employeeId, p.at);
    DayIsItsDate(t, employeeId, workDate);
    var d := Split(t, employeeId, day, punches);
    assert p in d.counted <==> p in multiset(d.counted);
    assert p in d.strays <==> p in multiset(d.strays);
    hide EvaluateDay, OwnerOf, IsOwner, Candidates, Split, ReachOf;
  }

  // ---------------------------------------------------------------- could another day claim it?

  /** No shift and its after-window pass the end of the following local day. */
  ghost predicate WindowsEndInTime(t: Tables, employeeId: string) {
    forall d :: EvaluateDay(t, employeeId, d).shift.Some? ==>
                  EvaluateDay(t, employeeId, d).window.to <= t.zone.dayStart(d + 2)
  }

  /** Looking at three days is enough. */
  ghost predicate NoOtherClaim(t: Tables, employeeId: string) {
    forall at, d :: Claims(EvaluateDay(t, employeeId, d), at) ==> t.zone.dateOf(at) - 1 <= d <= t.zone.dateOf(at) + 1
  }

  /** Clock changes never halve a day. */
  ghost predicate LongDays(z: Zone) {
    forall d {:trigger LongDay(z, d)} :: LongDay(z, d)
  }

  predicate LongDay(z: Zone, d: int) {
    z.dayStart(d) + 720 * MINUTE_MS <= z.dayStart(d + 1)
  }

  /** Where a window lies, as far as choosing among three days needs to know. */
  lemma WindowPlace(t: Tables, employeeId: string, d: int)
    requires ValidTables(t) && t.policy.punchWindowBeforeShiftMinutes <= 720
    ensures var day := EvaluateDay(t, employeeId, d);
            day.shift.Some? ==> t.zone.dayStart(d) - 720 * MINUTE_MS <= day.window.from < t.zone.dayStart(d + 2)
  {
    var assignment := Find(AssignmentsOf(t, employeeId), d);
    var template := TemplateOn(assignment, d);
    if template.Some? {
      FindFinds(AssignmentsOf(t, employeeId), d);
      var i :| 0 <= i < |t.assignments[employeeId]| && t.assignments[employeeId][i] == assignment.value;
      assert ValidTemplate(template.value);
      WindowFromStart(t.zone, t.policy, template.value, d);
    }
  }

  lemma WindowFromStart(z: Zone, policy: Policy, template: ShiftTemplate, d: int)
    requires ValidZone(z) && ValidTemplate(template) && policy.punchWindowBeforeShiftMinutes <= 720
    ensures var opens := ResolveShift(template, d, z, policy).start - policy.punchWindowBeforeShiftMinutes * MINUTE_MS;
            z.dayStart(d) - 720 * MINUTE_MS <= opens < z.dayStart(d + 2)
    ensures z.dayStart(d) < z.dayStart(d + 2)
  {
    assert DayFits(z, d);
  }

  lemma {:induction false} FindFinds(assignments: seq<Assignment>, workDate: int)
    ensures var r := Find(assignments, workDate);
            && (r.Some? ==> r.value in assignments && Covers(r.value, workDate))
            && (r == None ==> forall a :: a in assignments ==> !Covers(a, workDate))
  {
    if assignments != [] {
      FindFinds(assignments[1..], workDate);
      assert assignments == [assignments[0]] + assignments[1..];
    }
  }

  lemma {:induction false} DayStartGrows(z: Zone, a: int, b: int)
    requires ValidZone(z) && a <= b
    ensures z.dayStart(a) <= z.dayStart(b)
    decreases b - a
  {
    if a < b {
      DayStartGrows(z, a, b - 1);
      assert DayFits(z, b - 1);
    }
  }

  /** Three days are enough exactly when no window passes the end of the day after its own. */
  lemma ThreeDaysAreEnough(t: Tables, employeeId: string)
    requires ValidTables(t) && t.policy.punchWindowBeforeShiftMinutes <= 720 && LongDays(t.zone)
    ensures NoOtherClaim(t, employeeId) <==> WindowsEndInTime(t, employeeId)
  {
    if WindowsEndInTime(t, employeeId) {
      forall at, d | Claims(EvaluateDay(t, employeeId, d), at)
        ensures t.zone.dateOf(at) - 1 <= d <= t.zone.dateOf(at) + 1
      {
        ClaimIsNear(t, employeeId, d, at);
      }
    }
    if NoOtherClaim(t, employeeId) {
      forall d | EvaluateDay(t, employeeId, d).shift.Some?
        ensures EvaluateDay(t, employeeId, d).window.to <= t.zone.dayStart(d + 2)
      {
        LateWindowIsClaimed(t, employeeId, d);
      }
    }
  }

  lemma ClaimIsNear(t: Tables, employeeId: string, d: int, at: int)
    requires ValidTables(t) && t.policy.punchWindowBeforeShiftMinutes <= 720 && LongDays(t.zone)
    requires EvaluateDay(t, employeeId, d).window.to <= t.zone.dayStart(d + 2)
    requires Claims(EvaluateDay(t, employeeId, d), at)
    ensures t.zone.dateOf(at) - 1 <= d <= t.zone.dateOf(at) + 1
  {
    WindowPlace(t, employeeId, d);
    hide EvaluateDay, ValidTables;
    var z, local := t.zone, t.zone.dateOf(at);
    assert InDay(z, at, local);
    if d + 2 <= local {
      DayStartGrows(z, d + 2, local);
    }
    assert LongDay(z, d - 1);
    if local + 2 <= d {
      DayStartGrows(z, local + 1, d - 1);
    }
  }

  lemma LateWindowIsClaimed(t: Tables, employeeId: string, d: int)
    requires ValidTables(t) && t.policy.punchWindowBeforeShiftMinutes <= 720
    requires NoOtherClaim(t, employeeId) && EvaluateDay(t, employeeId, d).shift.Some?
    ensures EvaluateDay(t, employeeId, d).window.to <= t.zone.dayStart(d + 2)
  {
    WindowPlace(t, employeeId, d);
    var day := EvaluateDay(t, employeeId, d);
    var at := t.zone.dayStart(d + 2);
    hide EvaluateDay;
    assert DayFits(t.zone, d + 2) && InDay(t.zone, at, d + 2);
    assert t.zone.dateOf(at) == d + 2;
    assert Claims(day, at) ==> t.zone.dateOf(at) - 1 <= d;
  }

  function LongShift(): ShiftTemplate {
    ShiftTemplate("long", 1200, 1140, None, None, None, None, None, false)
  }

  /** Someone with a shift from 20:00 to 19:00 on day 0 and six hours of window after it. */
  function LongShiftTables(): Tables {
    var policy := DEFAULT_POLICY;
    Tables(map["e" := [Assignment(0, Some(0), map[4 := LongShift()])]], {}, Utc(), policy)
  }

  lemma LongShiftDay()
    ensures var day := EvaluateDay(LongShiftTables(), "e", 0);
            day.shift.Some? && day.window == Window(960 * MINUTE_MS, 2940 * MINUTE_MS)
  {
    var t := LongShiftTables();
    assert AssignmentsOf(t, "e") == [Assignment(0, Some(0), map[4 := LongShift()])];
    assert IsoWeekday(0) == 4;
    assert TemplateOn(Find(AssignmentsOf(t, "e"), 0), 0) == Some(LongShift());
  }

  lemma LongShiftFreeDays(d: int)
    requires d > 0
    ensures EvaluateDay(LongShiftTables(), "e", d).shift == None
  {
    var assignments := AssignmentsOf(LongShiftTables(), "e");
    FindFinds(assignments, d);
  }

  /** A window that ends too late: its own shift claims half past midnight two days on, but is not asked. */
  lemma LongShiftMissed()
    ensures var at := 2880 * MINUTE_MS + 30 * MINUTE_MS;
            Claims(EvaluateDay(LongShiftTables(), "e", 0), at) && OwnerOf(LongShiftTables(), "e", at) == 2
  {
    var t, at := LongShiftTables(), 2880 * MINUTE_MS + 30 * MINUTE_MS;
    LongShiftDay();
    LongShiftFreeDays(1);
    LongShiftFreeDays(2);
    LongShiftFreeDays(3);
    assert t.zone.dateOf(at) == 2;
    OwnerIsCandidate(t, "e", at);
    hide EvaluateDay, OwnerOf, IsOwner, Candidates;
  }

  // ---------------------------------------------------------------- the snapshot and the tables

  datatype ScheduleRow = ScheduleRow(employeeId: string, assignment: Assignment)

  predicate Overlaps(a: Assignment, from: int, to: int) {
    a.effectiveFrom <= to && (a.effectiveTo == None || a.effectiveTo.value >= from)
  }

  function RowsOf(rows: seq<ScheduleRow>, employeeId: string): seq<Assignment> {
    if rows == [] then []
    else
      var before := RowsOf(rows[..|rows| - 1], employeeId);
      var row := rows[|rows| - 1];
      if row.employeeId == employeeId then before + [row.assignment] else before
  }

  /** At any time, an employee has one schedule at most. */
  ghost predicate OneSchedule(assignments: seq<Assignment>) {
    forall a, b, d :: a in assignments && b in assignments && Covers(a, d) && Covers(b, d) ==> a == b
  }

  /** Which holds in every state the schedule service reaches, its history being contiguous. */
  lemma HistoryIsOneSchedule(h: seq<WorkSchedules.Row>, assignments: seq<Assignment>)
    requires WorkSchedules.Contiguous(h) && |assignments| == |h|
    requires forall i :: 0 <= i < |h| ==>
                           assignments[i].effectiveFrom == h[i].from && assignments[i].effectiveTo == h[i].to
    ensures OneSchedule(assignments)
  {
    forall a, b, d | a in assignments && b in assignments && Covers(a, d) && Covers(b, d) ensures a == b {
      var i :| 0 <= i < |assignments| && assignments[i] == a;
      var j :| 0 <= j < |assignments| && assignments[j] == b;
      WorkSchedules.AtMostOneCovers(h, i, j, d);
    }
  }

  /** What a snapshot of [from, to] holds of the whole tables, its rows in any order. */
  ghost predicate Snapshot(s: Tables, t: Tables, employeeId: string, from: int, to: int) {
    && s.zone == t.zone && s.policy == t.policy
    && (forall d :: from - 2 <= d <= to + 2 ==> (d in s.holidays <==> d in t.holidays))
    && (forall a ::
          a in AssignmentsOf(s, employeeId) <==> a in AssignmentsOf(t, employeeId) && Overlaps(a, from - 2, to + 2))
  }

  lemma EvaluateAgrees(s: Tables, t: Tables, employeeId: string, from: int, to: int, d: int)
    requires Snapshot(s, t, employeeId, from, to) && OneSchedule(AssignmentsOf(t, employeeId))
    requires from - 2 <= d <= to + 2
    ensures EvaluateDay(s, employeeId, d) == EvaluateDay(t, employeeId, d)
  {
    var mine, all := AssignmentsOf(s, employeeId), AssignmentsOf(t, employeeId);
    FindFinds(mine, d);
    FindFinds(all, d);
    hide Find;
    assert forall a :: Covers(a, d) ==> Overlaps(a, from - 2, to + 2);
    assert Find(mine, d) == Find(all, d);
  }

  lemma OwnerAgrees(s: Tables, t: Tables, employeeId: string, from: int, to: int, at: int)
    requires Snapshot(s, t, employeeId, from, to) && OneSchedule(AssignmentsOf(t, employeeId))
    requires from - 1 <= t.zone.dateOf(at) <= to + 1
    ensures OwnerOf(s, employeeId, at) == OwnerOf(t, employeeId, at)
  {
    var local := t.zone.dateOf(at);
    EvaluateAgrees(s, t, employeeId, from, to, local - 1);
    EvaluateAgrees(s, t, employeeId, from, to, local);
    EvaluateAgrees(s, t, employeeId, from, to, local + 1);
  }

  /** A punch the snapshot can judge for that day: a neighbour of it, and so of the loaded range. */
  predicate Judged(z: Zone, at: int, from: int, to: int, workDate: int) {
    var local := z.dateOf(at);
    workDate - 1 <= local <= workDate + 1 ==> from - 1 <= local <= to + 1
  }

  /** For a day of the range or next to it, the snapshot splits punches it can judge like the whole tables. */
  lemma {:induction false} SnapshotAgreesNear(s: Tables, t: Tables, employeeId: string, from: int, to: int,
                                              workDate: int, punches: seq<Punch>)
    requires Snapshot(s, t, employeeId, from, to) && OneSchedule(AssignmentsOf(t, employeeId))
    requires from - 2 <= workDate <= to + 2
    requires forall i :: 0 <= i < |punches| ==> Judged(t.zone, punches[i].at, from, to, workDate)
    ensures var day := EvaluateDay(t, employeeId, workDate);
            && EvaluateDay(s, employeeId, workDate) == day
            && ReachOf(s, day) == ReachOf(t, day)
            && Split(s, employeeId, day, punches) == Split(t, employeeId, day, punches)
  {
    EvaluateAgrees(s, t, employeeId, from, to, workDate);
    if punches != [] {
      var n := |punches| - 1;
      SnapshotAgreesNear(s, t, employeeId, from, to, workDate, punches[..n]);
      OwnedAlike(s, t, employeeId, from, to, workDate, punches[n].at);
      DayIsItsDate(t, employeeId, workDate);
      hide EvaluateDay, OwnerOf, Snapshot, OneSchedule, InWindow;
    }
  }

  lemma OwnedAlike(s: Tables, t: Tables, employeeId: string, from: int, to: int, workDate: int, at: int)
    requires Snapshot(s, t, employeeId, from, to) && OneSchedule(AssignmentsOf(t, employeeId))
    requires Judged(t.zone, at, from, to, workDate)
    ensures OwnerOf(s, employeeId, at) == workDate <==> OwnerOf(t, employeeId, at) == workDate
  {
    OwnerIsCandidate(s, employeeId, at);
    OwnerIsCandidate(t, employeeId, at);
    if from - 1 <= t.zone.dateOf(at) <= to + 1 {
      OwnerAgrees(s, t, employeeId, from, to, at);
    }
    hide OwnerOf, EvaluateDay, IsOwner, Candidates, OneSchedule;
  }

  /** The margin is enough: within [from, to] the snapshot splits any punches like the whole tables. */
  lemma SnapshotAgrees(s: Tables, t: Tables, employeeId: string, from: int, to: int, workDate: int, punches: seq<Punch>)
    requires Snapshot(s, t, employeeId, from, to) && OneSchedule(AssignmentsOf(t, employeeId))
    requires from <= workDate <= to
    ensures var day := EvaluateDay(t, employeeId, workDate);
            && EvaluateDay(s, employeeId, workDate) == day
            && ReachOf(s, day) == ReachOf(t, day)
            && Split(s, employeeId, day, punches) == Split(t, employeeId, day, punches)
  {
    SnapshotAgreesNear(s, t, employeeId, from, to, workDate, punches);
  }

  /** The query's answer: the rows of these people that overlap the range, in any order. */
  ghost predicate Answers(answer: seq<ScheduleRow>, rows: seq<ScheduleRow>, employeeIds: set<string>, from: int,
                          to: int) {
    forall r :: r in answer <==> r in rows && r.employeeId in employeeIds && Overlaps(r.assignment, from, to)
  }

  /** Everything the database holds. */
  function WholeTables(rows: seq<ScheduleRow>, holidays: set<int>, zone: Zone, policy: Policy): Tables {
    Tables((map r | r in rows :: r.employeeId := RowsOf(rows, r.employeeId)), holidays, zone, policy)
  }

  lemma {:induction false} RowsMembers(rows: seq<ScheduleRow>, employeeId: string)
    ensures forall a :: a in RowsOf(rows, employeeId) <==> ScheduleRow(employeeId, a) in rows
  {
    if rows != [] {
      RowsMembers(rows[..|rows| - 1], employeeId);
      assert rows == rows[..|rows| - 1] + [rows[|rows| - 1]];
    }
  }

  lemma WholeAssignments(rows: seq<ScheduleRow>, holidays: set<int>, zone: Zone, policy: Policy, employeeId: string)
    ensures AssignmentsOf(WholeTables(rows, holidays, zone, policy), employeeId) == RowsOf(rows, employeeId)
  {
    RowsMembers(rows, employeeId);
    if RowsOf(rows, employeeId) != [] {
      assert ScheduleRow(employeeId, RowsOf(rows, employeeId)[0]) in rows;
    }
  }

  lemma LoadedIsSnapshot(s: Tables, answer: seq<ScheduleRow>, t: Tables, rows: seq<ScheduleRow>,
                         employeeIds: set<string>, employeeId: string, from: int, to: int)
    requires s.zone == t.zone && s.policy == t.policy && employeeId in employeeIds
    requires AssignmentsOf(s, employeeId) == RowsOf(answer, employeeId)
    requires AssignmentsOf(t, employeeId) == RowsOf(rows, employeeId)
    requires Answers(answer, rows, employeeIds, from - 2, to + 2)
    requires forall d :: d in s.holidays <==> d in t.holidays && from - 2 <= d <= to + 2
    ensures Snapshot(s, t, employeeId, from, to)
  {
    RowsMembers(answer, employeeId);
    RowsMembers(rows, employeeId);
    forall a ensures a in AssignmentsOf(s, employeeId)
                <==> a in AssignmentsOf(t, employeeId) && Overlaps(a, from - 2, to + 2) {
      var r := ScheduleRow(employeeId, a);
      assert r in answer <==> r in rows && Overlaps(r.assignment, from - 2, to + 2);
    }
  }

  lemma AllLoaded(s: Tables, answer: seq<ScheduleRow>, rows: seq<ScheduleRow>, holidays: set<int>,
                  employeeIds: set<string>, from: int, to: int)
    requires forall e :: AssignmentsOf(s, e) == RowsOf(answer, e)
    requires Answers(answer, rows, employeeIds, from - 2, to + 2)
    requires forall d :: d in s.holidays <==> d in holidays && from - 2 <= d <= to + 2
    ensures forall e :: e in employeeIds ==> Snapshot(s, WholeTables(rows, holidays, s.zone, s.policy), e, from, to)
  {
    forall e | e in employeeIds ensures Snapshot(s, WholeTables(rows, holidays, s.zone, s.policy), e, from, to) {
      WholeAssignments(rows, holidays, s.zone, s.policy, e);
      LoadedIsSnapshot(s, answer, WholeTables(rows, holidays, s.zone, s.policy), rows, employeeIds, e, from, to);
    }
  }

  /** `query` is the database's answer to the schedule query. */
  method Load(employeeIds: set<string>, from: int, to: int, zone: Zone, policy: Policy,
              ghost rows: seq<ScheduleRow>, holidays: set<int>, query: (set<string>, int, int) -> seq<ScheduleRow>)
    returns (calendar: WorkCalendar)
    requires forall f, u :: Answers(query(employeeIds, f, u), rows, employeeIds, f, u)
    ensures fresh(calendar) && calendar.Valid() && calendar.tables.zone == zone && calendar.tables.policy == policy
    ensures forall e :: e in employeeIds ==>
                          Snapshot(calendar.tables, WholeTables(rows, holidays, zone, policy), e, from, to)
  {
    var first, last := from - 2, to + 2;
    var answer := query(employeeIds, first, last);
    var assignments: map<string, seq<Assignment>> := map[];
    for i := 0 to |answer|
      invariant forall e :: (if e in assignments then assignments[e] else []) == RowsOf(answer[..i], e)
    {
      assert answer[..i + 1][..i] == answer[..i];
      var row := answer[i];
      var list := if row.employeeId in assignments then assignments[row.employeeId] else [];
      assignments := assignments[row.employeeId := list + [row.assignment]];
    }
    assert answer[..|answer|] == answer;
    var loaded := Tables(assignments, (set d | d in holidays && first <= d <= last), zone, policy);
    AllLoaded(loaded, answer, rows, holidays, employeeIds, from, to);
    calendar := new WorkCalendar(loaded);
  }
}
