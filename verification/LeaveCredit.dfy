/** What approved leave takes off a flexible day: the exact shifts for which it stays in bounds. */
module LeaveCredit {
  import opened Arith
  import opened AttendanceCalculator
  import opened AttendanceLaws
  import opened AttendanceTypes
  import opened LeaveRequests
  import opened OvertimeBounds
  import opened PunchPairing
  import opened Sorting
  import WorkDay
  import WorkSchedules
  import opened Wrappers

  // ---------------------------------------------------------------- disjoint leaves

  /** What the leaves cover of [from, to). */
  function CoveredMs(leaves: seq<LeaveInterval>, from: int, to: int): nat {
    if leaves == [] then 0
    else OverlapMs(leaves[0].start, leaves[0].end, from, to) + CoveredMs(leaves[1..], from, to)
  }

  /** Around a leave they do not touch, other leaves lie before it or after it. */
  lemma {:induction false} CoveredAround(leaves: seq<LeaveInterval>, l: LeaveInterval, from: int, to: int)
    requires forall i :: 0 <= i < |leaves| ==> leaves[i].end <= l.start || l.end <= leaves[i].start
    requires l.start < l.end
    ensures CoveredMs(leaves, from, to)
         == CoveredMs(leaves, from, Min(to, l.start)) + CoveredMs(leaves, Max(from, l.end), to)
  {
    if leaves != [] {
      assert leaves[0].end <= l.start || l.end <= leaves[0].start;
      assert forall i :: 0 <= i < |leaves[1..]| ==> leaves[1..][i] == leaves[i + 1];
      CoveredAround(leaves[1..], l, from, to);
    }
  }

  /** Disjoint leaves cover no more of a stretch than it lasts. */
  lemma {:induction false} DisjointFit(leaves: seq<LeaveInterval>, from: int, to: int)
    requires PairwiseDisjoint(leaves)
    ensures CoveredMs(leaves, from, to) <= Max(0, to - from)
    decreases |leaves|
  {
    if leaves != [] {
      var l, rest := leaves[0], leaves[1..];
      RestDisjoint(leaves);
      CoveredAround(rest, l, from, to);
      DisjointFit(rest, from, Min(to, l.start));
      DisjointFit(rest, Max(from, l.end), to);
      hide PairwiseDisjoint;
    }
  }

  lemma RestDisjoint(leaves: seq<LeaveInterval>)
    requires PairwiseDisjoint(leaves) && leaves != []
    ensures PairwiseDisjoint(leaves[1..]) && leaves[0].start < leaves[0].end
    ensures forall i :: 0 <= i < |leaves[1..]| ==>
                          leaves[1..][i].end <= leaves[0].start || leaves[0].end <= leaves[1..][i].start
  {
    assert forall i :: 0 <= i < |leaves[1..]| ==> leaves[1..][i] == leaves[i + 1];
  }

  // ---------------------------------------------------------------- the part of the break outside the shift

  /** The last instant of the break before the shift, and the first one after it. */
  function EarlyEnd(shift: ResolvedShift): int
    requires HasBreak(shift)
  {
    if shift.start <= shift.end then Min(shift.breakEnd.value, shift.start) else shift.breakEnd.value
  }

  function LateStart(shift: ResolvedShift): int
    requires HasBreak(shift)
  {
    if shift.start <= shift.end then Max(shift.breakStart.value, shift.end) else shift.breakEnd.value
  }

  /** How much of the break lies outside the shift: before it and after it. */
  function OutsideMs(shift: ResolvedShift): nat {
    if !HasBreak(shift) then 0
    else Max(0, EarlyEnd(shift) - shift.breakStart.value) + Max(0, shift.breakEnd.value - LateStart(shift))
  }

  /** No leave takes away more than it covers of the break outside the shift. */
  lemma LeaveLeast(shift: ResolvedShift, l: LeaveInterval)
    ensures !HasBreak(shift) ==> LeaveMs(shift, l) >= 0
    ensures HasBreak(shift) ==>
              LeaveMs(shift, l) >= 0 - OverlapMs(l.start, l.end, shift.breakStart.value, EarlyEnd(shift))
              - OverlapMs(l.start, l.end, LateStart(shift), shift.breakEnd.value)
  {
  }

  lemma {:induction false} OnLeaveByParts(shift: ResolvedShift, leaves: seq<LeaveInterval>)
    ensures !HasBreak(shift) ==> OnLeaveMs(shift, leaves) >= 0
    ensures HasBreak(shift) ==>
              OnLeaveMs(shift, leaves) >= 0 - CoveredMs(leaves, shift.breakStart.value, EarlyEnd(shift))
              - CoveredMs(leaves, LateStart(shift), shift.breakEnd.value)
  {
    if leaves != [] {
      LeaveLeast(shift, leaves[0]);
      OnLeaveByParts(shift, leaves[1..]);
      hide LeaveMs, OverlapMs, EarlyEnd, LateStart;
    }
  }

  /** Disjoint leaves never take away more than lies outside. */
  lemma OnLeaveLeast(shift: ResolvedShift, leaves: seq<LeaveInterval>)
    requires PairwiseDisjoint(leaves)
    ensures OnLeaveMs(shift, leaves) >= 0 - OutsideMs(shift)
  {
    OnLeaveByParts(shift, leaves);
    if HasBreak(shift) {
      DisjointFit(leaves, shift.breakStart.value, EarlyEnd(shift));
      DisjointFit(leaves, LateStart(shift), shift.breakEnd.value);
    }
    hide OnLeaveMs, CoveredMs, PairwiseDisjoint;
  }

  // ---------------------------------------------------------------- the credit

  /** The scheduled time before it is cut to minutes. */
  function ScheduledMs(shift: ResolvedShift): int {
    shift.end - shift.start - if HasBreak(shift) then shift.breakEnd.value - shift.breakStart.value else 0
  }

  /** The whole break lies in the shift, and the scheduled time is not negative. */
  predicate CreditSafe(shift: ResolvedShift) {
    OutsideMs(shift) == 0 && ScheduledWorkMinutes(shift) >= 0
  }

  /** For a shift that does not end before it starts, with a break that lasts: the break lies inside. */
  lemma SafeMeansInside(shift: ResolvedShift)
    requires shift.start <= shift.end && HasBreak(shift) && shift.breakStart.value < shift.breakEnd.value
    ensures CreditSafe(shift) <==> BreakInside(shift)
  {
  }

  /** Without a break that lasts, a shift that does not end before it starts is always safe. */
  lemma NoBreakIsSafe(shift: ResolvedShift)
    requires shift.start <= shift.end && (HasBreak(shift) ==> shift.breakEnd.value <= shift.breakStart.value)
    ensures CreditSafe(shift)
  {
  }

  predicate BreakLasts(shift: ResolvedShift) {
    HasBreak(shift) && shift.breakStart.value < shift.breakEnd.value
  }

  /** What a leave covers of a safe shift, its break apart, is at most what it covers around the break. */
  lemma LeaveAround(shift: ResolvedShift, l: LeaveInterval)
    requires OutsideMs(shift) == 0 && l.start < l.end
    ensures BreakLasts(shift) ==>
              LeaveMs(shift, l) == OverlapMs(l.start, l.end, shift.start, shift.breakStart.value)
              + OverlapMs(l.start, l.end, shift.breakEnd.value, shift.end)
    ensures !BreakLasts(shift) ==> LeaveMs(shift, l) == OverlapMs(l.start, l.end, shift.start, shift.end)
  {
  }

  lemma {:induction false} OnLeaveAround(shift: ResolvedShift, leaves: seq<LeaveInterval>)
    requires OutsideMs(shift) == 0 && forall i :: 0 <= i < |leaves| ==> leaves[i].start < leaves[i].end
    ensures OnLeaveMs(shift, leaves) ==
            if BreakLasts(shift) then
              CoveredMs(leaves, shift.start, shift.breakStart.value)
              + CoveredMs(leaves, shift.breakEnd.value, shift.end)
            else CoveredMs(leaves, shift.start, shift.end)
  {
    if leaves != [] {
      assert leaves[0].start < leaves[0].end;
      assert forall i :: 0 <= i < |leaves[1..]| ==> leaves[1..][i] == leaves[i + 1];
      LeaveAround(shift, leaves[0]);
      OnLeaveAround(shift, leaves[1..]);
      hide LeaveMs, OverlapMs, OutsideMs;
    }
  }

  /** What leave credits a day with. */
  predicate CreditFits(shift: ResolvedShift, leaves: seq<LeaveInterval>) {
    0 <= OnLeaveMs(shift, leaves) / 60_000 <= ScheduledWorkMinutes(shift)
  }

  lemma OnLeaveMost(shift: ResolvedShift, leaves: seq<LeaveInterval>)
    requires CreditSafe(shift) && PairwiseDisjoint(leaves)
    ensures OnLeaveMs(shift, leaves) <= Max(0, ScheduledMs(shift))
  {
    OnLeaveAround(shift, leaves);
    if BreakLasts(shift) {
      DisjointFit(leaves, shift.start, shift.breakStart.value);
      DisjointFit(leaves, shift.breakEnd.value, shift.end);
    } else {
      DisjointFit(leaves, shift.start, shift.end);
    }
    hide OnLeaveMs, CoveredMs, PairwiseDisjoint;
  }

  lemma ScheduledFloor(shift: ResolvedShift)
    ensures ScheduledWorkMinutes(shift) == ScheduledMs(shift) / 60_000
    ensures ScheduledWorkMinutes(shift) >= 0 <==> ScheduledMs(shift) >= 0
  {
  }

  /** Approved leave never credits a safe day with less than nothing or more than its scheduled minutes. */
  lemma LeaveCreditFits(shift: ResolvedShift, leaves: seq<LeaveInterval>)
    requires CreditSafe(shift) && PairwiseDisjoint(leaves)
    ensures CreditFits(shift, leaves)
  {
    OnLeaveLeast(shift, leaves);
    OnLeaveMost(shift, leaves);
    ScheduledFloor(shift);
    FloorMonotone(OnLeaveMs(shift, leaves), ScheduledMs(shift), 60_000);
    hide OnLeaveMs, ScheduledMs, PairwiseDisjoint, ScheduledWorkMinutes, OutsideMs;
  }

  /** Leaves on the parts of the break outside the shift. */
  function OnTheOutside(shift: ResolvedShift): seq<LeaveInterval>
    requires HasBreak(shift)
  {
    (if shift.breakStart.value < EarlyEnd(shift) then [LeaveInterval(0, shift.breakStart.value, EarlyEnd(shift))]
     else [])
    + (if LateStart(shift) < shift.breakEnd.value then [LeaveInterval(1, LateStart(shift), shift.breakEnd.value)]
       else [])
  }

  lemma OneLeave(shift: ResolvedShift, l: LeaveInterval)
    ensures OnLeaveMs(shift, [l]) == LeaveMs(shift, l)
  {
    assert [l][1..] == [];
  }

  /** Such a leave takes away as much as it lasts. */
  lemma PartTakesAway(shift: ResolvedShift)
    requires HasBreak(shift)
    ensures shift.breakStart.value < EarlyEnd(shift) ==>
              LeaveMs(shift, LeaveInterval(0, shift.breakStart.value, EarlyEnd(shift)))
              == shift.breakStart.value - EarlyEnd(shift)
    ensures LateStart(shift) < shift.breakEnd.value ==>
              LeaveMs(shift, LeaveInterval(1, LateStart(shift), shift.breakEnd.value))
              == LateStart(shift) - shift.breakEnd.value
    ensures EarlyEnd(shift) <= LateStart(shift)
  {
  }

  lemma OutsideTakesAway(shift: ResolvedShift)
    requires HasBreak(shift)
    ensures PairwiseDisjoint(OnTheOutside(shift))
    ensures OnLeaveMs(shift, OnTheOutside(shift)) == 0 - OutsideMs(shift)
  {
    hide OnLeaveMs, LeaveMs, EarlyEnd, LateStart;
    var early, late := LeaveInterval(0, shift.breakStart.value, EarlyEnd(shift)),
                       LeaveInterval(1, LateStart(shift), shift.breakEnd.value);
    PartTakesAway(shift);
    OneLeave(shift, early);
    OneLeave(shift, late);
    NoLeave(shift);
    OnLeaveConcat(shift, [early], [late]);
    assert [] + [late] == [late] && [early] + [] == [early];
  }

  lemma NoLeave(shift: ResolvedShift)
    ensures OnLeaveMs(shift, []) == 0
  {
  }

  /** The condition is exact: every disjoint leave is credited within bounds if and only if it holds. */
  lemma LeaveCreditExactly(shift: ResolvedShift)
    ensures (forall leaves :: PairwiseDisjoint(leaves) ==> CreditFits(shift, leaves)) <==> CreditSafe(shift)
  {
    if CreditSafe(shift) {
      forall leaves | PairwiseDisjoint(leaves) ensures CreditFits(shift, leaves) {
        LeaveCreditFits(shift, leaves);
      }
    } else if ScheduledWorkMinutes(shift) < 0 {
      assert PairwiseDisjoint([]) && !CreditFits(shift, []);
    } else {
      OutsideTakesAway(shift);
      assert !CreditFits(shift, OnTheOutside(shift));
    }
  }

  /** In every state the requests reach undisturbed, for any listing of what was approved. */
  lemma LeaveCreditAlwaysFits(worlds: seq<World>, actions: seq<Action>, k: nat, employeeId: int,
                              leaves: seq<LeaveInterval>, shift: ResolvedShift)
    requires IsRun(worlds, actions) && Undisturbed(worlds, actions) && k < |worlds|
    requires ApprovedListing(worlds[k].requests, employeeId, leaves) && CreditSafe(shift)
    ensures CreditFits(shift, leaves)
  {
    ReachableDisjoint(worlds, actions, k);
    ApprovedAreDisjoint(worlds[k].requests, employeeId, leaves);
    LeaveCreditFits(shift, leaves);
  }

  // ---------------------------------------------------------------- what a day is short of

  /** Nothing outside, or so little that the tolerance hides it. */
  predicate ShortSafe(shift: ResolvedShift) {
    ScheduledWorkMinutes(shift) >= 0
    && (OutsideMs(shift) == 0
        || ScheduledWorkMinutes(shift) - (0 - OutsideMs(shift)) / 60_000 <= shift.earlyLeaveToleranceMinutes)
  }

  predicate ShortWithin(shift: ResolvedShift, leaves: seq<LeaveInterval>, workedMinutes: int) {
    0 <= MissingMinutes(shift, leaves, workedMinutes) <= ScheduledWorkMinutes(shift)
  }

  lemma MissingFits(shift: ResolvedShift, leaves: seq<LeaveInterval>, workedMinutes: nat)
    requires ShortSafe(shift) && PairwiseDisjoint(leaves)
    ensures ShortWithin(shift, leaves, workedMinutes)
  {
    OnLeaveLeast(shift, leaves);
    FloorMonotone(0 - OutsideMs(shift), OnLeaveMs(shift, leaves), 60_000);
    hide OnLeaveMs, OutsideMs, ScheduledWorkMinutes, PairwiseDisjoint;
  }

  /** The condition is exact. */
  lemma ShortExactly(shift: ResolvedShift)
    ensures (forall leaves, worked: nat :: PairwiseDisjoint(leaves) ==> ShortWithin(shift, leaves, worked))
       <==> ShortSafe(shift)
  {
    if ShortSafe(shift) {
      forall leaves, worked: nat | PairwiseDisjoint(leaves) ensures ShortWithin(shift, leaves, worked) {
        MissingFits(shift, leaves, worked);
      }
    } else if ScheduledWorkMinutes(shift) < 0 {
      assert PairwiseDisjoint([]) && !ShortWithin(shift, [], 0);
    } else {
      OutsideTakesAway(shift);
      assert !ShortWithin(shift, OnTheOutside(shift), 0);
    }
  }

  /** What a day is short of lies between nothing and its scheduled minutes. */
  lemma ShortFits(input: CalculationInput)
    requires input.day.shift.Some? ==> ShortSafe(input.day.shift.value)
    requires PairwiseDisjoint(input.leaves)
    ensures 0 <= Calculation(input).shortMinutes
    ensures Calculation(input).shortMinutes <= if input.day.shift.Some? then
                                                 ScheduledWorkMinutes(input.day.shift.value) else 0
  {
    var kept := Selected(input.day, input.punches, input.policy).kept;
    if kept != [] {
      PairedSome(kept, input.policy.punchPairing);
      ClampNeverFires(input);
      if input.day.shift.Some? {
        MissingFits(input.day.shift.value, input.leaves, Calculation(input).workedMinutes);
      }
    }
    hide Selected, Deducted, Paired, Expected, ComputeOvertime, Missing, OutOfSchedule, OnLeaveMs,
      StatusWithoutPunches, LateBy, EarlyBy,
      PairwiseDisjoint, ScheduledWorkMinutes, MissingMinutes, OutsideMs;
  }

  // ---------------------------------------------------------------- the company's own shift

  /** On that date no clock change falls between two of its clock times. */
  ghost predicate RegularDay(z: WorkDay.Zone, workDate: int) {
    forall m :: 0 <= m < 1440 ==> z.at(workDate, m) == z.at(workDate, 0) + m * 60_000
  }

  /** The shift the quick setup writes is safe exactly without a lunch, or from five hours a day on. */
  lemma ReferenceDayIsSafe(dailyMinutes: nat, lunchMinutes: nat, workDate: int, z: WorkDay.Zone, policy: Policy)
    requires 60 <= dailyMinutes <= 720 && lunchMinutes <= 180 && RegularDay(z, workDate)
    ensures var shift := WorkDay.ResolveShift(WorkSchedules.ReferenceDay(dailyMinutes, lunchMinutes), workDate, z,
                                              policy);
            && ScheduledWorkMinutes(shift) == dailyMinutes
            && (CreditSafe(shift) <==> lunchMinutes == 0 || dailyMinutes >= 300)
  {
    var shift := WorkDay.ResolveShift(WorkSchedules.ReferenceDay(dailyMinutes, lunchMinutes), workDate, z, policy);
    var midnight := z.at(workDate, 0);
    assert shift.start == midnight + 480 * 60_000;
    assert shift.end == midnight + (480 + dailyMinutes + lunchMinutes) * 60_000;
    assert lunchMinutes > 0 ==> shift.breakStart == Some(midnight + 780 * 60_000);
    assert lunchMinutes > 0 ==> shift.breakEnd == Some(midnight + (780 + lunchMinutes) * 60_000);
    assert ScheduledMs(shift) == dailyMinutes * 60_000;
    DivModUnique(ScheduledMs(shift), 60_000, dailyMinutes, 0);
  }

  lemma UtcIsRegular(workDate: int)
    ensures RegularDay(WorkDay.Utc(), workDate)
  {
  }

  /** Four hours a day with an hour of lunch, on 1 January 1970 in UTC. */
  function FourHours(policy: Policy): ResolvedShift {
    WorkDay.ResolveShift(WorkSchedules.ReferenceDay(240, 60), 0, WorkDay.Utc(), policy)
  }

  lemma FourHoursShift(policy: Policy)
    ensures var hour := 3_600_000;
            var shift := FourHours(policy);
            && shift.start == 8 * hour && shift.end == 13 * hour && HasBreak(shift)
            && shift.breakStart.value == 13 * hour && shift.breakEnd.value == 14 * hour
            && shift.flexible && shift.earlyLeaveToleranceMinutes == 10 && ScheduledWorkMinutes(shift) == 240
  {
  }

  /** Its lunch lies after its end: leave over the whole shift is credited with five hours of the four. */
  lemma FourHoursOverCredited(policy: Policy)
    ensures var shift := FourHours(policy);
            OnLeaveMs(shift, [LeaveInterval(1, shift.start, shift.end)]) / 60_000 == 300
            && ScheduledWorkMinutes(shift) == 240
  {
    FourHoursShift(policy);
    OneLeave(FourHours(policy), LeaveInterval(1, FourHours(policy).start, FourHours(policy).end));
    hide FourHours, ScheduledWorkMinutes, OnLeaveMs;
  }

  /** The work day of someone on that shift. */
  function FourHoursDay(policy: Policy): WorkDayContext {
    WorkDay.BuildWorkDay(0, WorkDay.Utc(), policy, Some(WorkSchedules.ReferenceDay(240, 60)), false, true)
  }

  lemma FourHoursContext(policy: Policy)
    ensures FourHoursDay(policy) == WorkDayContext(0, WORKDAY, Some(FourHours(policy)), true, Window(0, 24 * 3_600_000))
  {
  }

  /** That day, closed, with two punches a minute apart and leave over the lunch. */
  function LunchLeave(policy: Policy): CalculationInput {
    var hour := 3_600_000;
    CalculationInput(
      FourHoursDay(policy),
      [Punch("in", 9 * hour, CHECK_IN), Punch("out", 9 * hour + 60_000, CHECK_OUT)], [],
      [LeaveInterval(1, 13 * hour, 14 * hour)], policy, 24 * hour)
  }

  /** The leave takes an hour away: with a minute worked the day is short of 299 of its 240 minutes. */
  lemma FourHoursShort()
    ensures var policy := DEFAULT_POLICY;
            var input := LunchLeave(policy);
            && PairwiseDisjoint(input.leaves)
            && Calculation(input).shortMinutes == 299 && ScheduledWorkMinutes(FourHours(policy)) == 240
  {
    hide Calculation, FourHours, FourHoursDay, ScheduledWorkMinutes, OnLeaveMs, MissingMinutes, Deducted,
      PairwiseDisjoint, Selected, Paired;
    var policy := DEFAULT_POLICY;
    var input, hour := LunchLeave(policy), 3_600_000;
    var entry, exit := 9 * hour, 9 * hour + 60_000;
    FourHoursShift(policy);
    FourHoursContext(policy);
    TwoPunches(input.day, Punch("in", entry, CHECK_IN), Punch("out", exit, CHECK_OUT), policy);
    ShortOfOneStretch(input, FourHours(policy), Segment(Some(entry), Some(exit)));
    MinuteWorked(policy, entry, exit);
    LunchMissing(policy);
    OneIsDisjoint(LeaveInterval(1, 13 * hour, 14 * hour));
  }

  lemma OneIsDisjoint(l: LeaveInterval)
    requires l.start < l.end
    ensures PairwiseDisjoint([l])
  {
  }

  lemma MinuteWorked(policy: Policy, entry: int, exit: int)
    requires exit == entry + 60_000 && exit < 13 * 3_600_000
    ensures Deducted(Some(FourHours(policy)), policy, [Segment(Some(entry), Some(exit))]).workedMs == 60_000
  {
    FourHoursShift(policy);
    OneSegment(FourHours(policy), policy, entry, exit);
    hide FourHours, WorkedMs, Gaps, WorkedThrough;
  }

  lemma LunchMissing(policy: Policy)
    ensures MissingMinutes(FourHours(policy), [LeaveInterval(1, 13 * 3_600_000, 14 * 3_600_000)], 1) == 299
  {
    FourHoursShift(policy);
    OneLeave(FourHours(policy), LeaveInterval(1, 13 * 3_600_000, 14 * 3_600_000));
    hide FourHours, ScheduledWorkMinutes, OnLeaveMs;
  }

  /** A closed flexible day of one complete segment. */
  lemma ShortOfOneStretch(input: CalculationInput, shift: ResolvedShift, segment: Segment)
    requires input.day.shift == Some(shift) && shift.flexible && input.day.dayType == WORKDAY && IsComplete(segment)
    requires Selected(input.day, input.punches, input.policy).kept != []
    requires ToSegments(Paired(Selected(input.day, input.punches, input.policy).kept, input.policy.punchPairing))
          == [segment]
    requires input.now >= input.day.window.to
    ensures var worked := Max(0, Deducted(Some(shift), input.policy, [segment]).workedMs / 60_000);
            Calculation(input).shortMinutes == MissingMinutes(shift, input.leaves, worked)
  {
    var s := Selected(input.day, input.punches, input.policy);
    hide Calculation, Selected, Paired, Deducted, Marks, MissingMinutes;
    CalculationOfSegments(input);
    MarksTell(s.ignored != [], input.strays != []);
    ShortOfSummary(input.day, shift, input.policy, input.leaves, EndPassed(input.day, input.leaves, input.now), segment,
                   Keys(s.kept, At), Ids(s.ignored), Marks(s.ignored != [], input.strays != []));
  }

  lemma ShortOfSummary(day: WorkDayContext, shift: ResolvedShift, policy: Policy, leaves: seq<LeaveInterval>,
                       endPassed: bool, segment: Segment, times: seq<int>, ids: seq<string>, marks: seq<Anomaly>)
    requires day.shift == Some(shift) && shift.flexible && day.dayType == WORKDAY && IsComplete(segment)
    requires NoRepeats(marks) && Unmarked(marks)
    ensures var worked := Max(0, Deducted(Some(shift), policy, [segment]).workedMs / 60_000);
            Summary(day, policy, leaves, true, endPassed, [segment], times, ids, marks).shortMinutes
            == MissingMinutes(shift, leaves, worked)
  {
    BaseTells(day, policy, true, [segment], ids, marks);
    var base := Base(day, policy, true, [segment], ids, marks);
    ScheduledTells(shift, policy, leaves, endPassed, times, base);
    hide Deducted, Expected, ComputeOvertime, Missing, OutOfSchedule, LateBy, EarlyBy, MissingMinutes, FindingsTold,
      SameMarks, Unmarked, NoRepeats, ShortBreak;
  }

  /** Two overlapping leaves would be credited twice. */
  lemma OverlappingLeavesExceed()
    ensures var shift := ResolvedShift("s", true, 0, 3_600_000, None, None, 0, 0, 0);
            var leaves := [LeaveInterval(1, 0, 3_600_000), LeaveInterval(2, 0, 3_600_000)];
            OnLeaveMs(shift, leaves) / 60_000 == 120 && ScheduledWorkMinutes(shift) == 60
  {
    var leaves := [LeaveInterval(1, 0, 3_600_000), LeaveInterval(2, 0, 3_600_000)];
    assert leaves[1..] == [leaves[1]] && leaves[1..][1..] == [];
  }
}
