/**
 The attendance summary of one person's work day: what `calculateAttendance` makes of the punches,
 the shift, the approved leave, the policy and the clock.
 */
module AttendanceCalculator {
  import opened AttendanceTypes
  import opened LeaveRequests
  import opened PunchPairing
  import opened Sorting
  import opened Wrappers

  const MINUTE_MS := 60_000

  datatype Status = PRESENT | LATE | INCOMPLETE | ABSENT | ON_LEAVE | REST_DAY | HOLIDAY | NO_SCHEDULE

  datatype OvertimeKind = REGULAR | ON_HOLIDAY | ON_REST_DAY

  datatype Anomaly =
    | DUPLICATE_PUNCH | STRAY_PUNCH | MISSING_CHECK_IN | MISSING_CHECK_OUT | SHORT_BREAK
    | WORKED_ON_HOLIDAY | WORKED_ON_REST_DAY | OVERTIME | LATE_ARRIVAL | EARLY_LEAVE
    | OUT_OF_SCHEDULE_PUNCH | SHORT_HOURS

  datatype CalculationInput = CalculationInput(
    day: WorkDayContext,
    punches: seq<Punch>,
    strays: seq<Punch>,
    leaves: seq<LeaveInterval>,
    policy: Policy,
    now: int
  )

  datatype CalculationResult = CalculationResult(
    status: Status,
    anomalies: seq<Anomaly>,
    segments: seq<Segment>,
    firstIn: Option<int>,
    lastOut: Option<int>,
    workedMinutes: int,
    breakMinutes: int,
    lateMinutes: int,
    earlyLeaveMinutes: int,
    overtimeMinutes: int,
    overtimeKind: Option<OvertimeKind>,
    shortMinutes: int,
    ignoredPunchIds: seq<string>,
    isFinal: bool
  )

  /** A set that remembers the order of insertion. */
  function Add(anomalies: seq<Anomaly>, a: Anomaly, when: bool): seq<Anomaly> {
    if when && a !in anomalies then anomalies + [a] else anomalies
  }

  function Ids(punches: seq<Punch>): (ids: seq<string>)
    ensures |ids| == |punches|
  {
    seq(|punches|, i requires 0 <= i < |punches| => punches[i].id)
  }

  // ---------------------------------------------------------------- steps

  /** After the first `k` segments; only the last one of an open day may still be going on. */
  function Missing(anomalies: seq<Anomaly>, segments: seq<Segment>, isFinal: bool, k: nat): seq<Anomaly>
    requires k <= |segments|
  {
    if k == 0 then anomalies
    else
      var s := segments[k - 1];
      var ongoing := k == |segments| && !isFinal;
      Add(Add(Missing(anomalies, segments, isFinal, k - 1), MISSING_CHECK_IN, s.entry == None),
          MISSING_CHECK_OUT, s.exit == None && !ongoing)
  }

  predicate HasBreak(shift: ResolvedShift) {
    shift.breakStart.Some? && shift.breakEnd.Some?
  }

  predicate WorkedThrough(segments: seq<Segment>, from: int, to: int) {
    exists i :: 0 <= i < |segments| && IsComplete(segments[i]) && segments[i].entry.value <= from
                && segments[i].exit.value >= to
  }

  datatype Totals = Totals(workedMs: int, breakMs: int)

  /** What is missing of a break worked through is taken from the work. */
  function Deducted(shift: Option<ResolvedShift>, policy: Policy, segments: seq<Segment>): Totals {
    var worked, paused := WorkedMs(segments), Gaps(segments);
    if shift.Some? && HasBreak(shift.value) && policy.autoDeductUnpunchedBreak
       && WorkedThrough(segments, shift.value.breakStart.value, shift.value.breakEnd.value)
    then
      var unpunched := Max(0, shift.value.breakEnd.value - shift.value.breakStart.value - paused);
      Totals(worked - unpunched, paused + unpunched)
    else Totals(worked, paused)
  }

  function CompleteCount(segments: seq<Segment>): nat {
    if segments == [] then 0 else (if IsComplete(segments[0]) then 1 else 0) + CompleteCount(segments[1..])
  }

  function FirstIn(segments: seq<Segment>): Option<int> {
    if segments == [] then None
    else if segments[0].entry.Some? then segments[0].entry else FirstIn(segments[1..])
  }

  function LastOut(segments: seq<Segment>): Option<int> {
    if segments == [] then None
    else if segments[|segments| - 1].exit.Some? then segments[|segments| - 1].exit
    else LastOut(segments[..|segments| - 1])
  }

  function MinutesBetween(from: int, to: int): int {
    (to - from) / 60_000
  }

  datatype Presence = Presence(start: int, end: int)

  /** One leave more: it may move the arrival, the departure, or both. */
  function Shifted(p: Presence, shift: ResolvedShift, leave: LeaveInterval): Presence {
    Presence(
      if leave.start <= shift.start && leave.end > shift.start then Min(leave.end, shift.end) else p.start,
      if leave.start < shift.end && leave.end >= shift.end then Max(leave.start, shift.start) else p.end)
  }

  function Expected(shift: ResolvedShift, leaves: seq<LeaveInterval>): Presence {
    if leaves == [] then Presence(shift.start, shift.end)
    else Shifted(Expected(shift, leaves[..|leaves| - 1]), shift, leaves[|leaves| - 1])
  }

  method ExpectedPresence(shift: ResolvedShift,
                          leaves: seq<LeaveInterval>) returns (expectedStart: int, expectedEnd: int)
    ensures Presence(expectedStart, expectedEnd) == Expected(shift, leaves)
  {
    expectedStart, expectedEnd := shift.start, shift.end;
    for i := 0 to |leaves|
      invariant Presence(expectedStart, expectedEnd) == Expected(shift, leaves[..i])
    {
      assert leaves[..i + 1][..i] == leaves[..i];
      var leave := leaves[i];
      if leave.start <= shift.start && leave.end > shift.start {
        expectedStart := Min(leave.end, shift.end);
      }
      if leave.start < shift.end && leave.end >= shift.end {
        expectedEnd := Max(leave.start, shift.start);
      }
    }
    assert leaves[..|leaves|] == leaves;
  }

  function OverlapMs(start: int, end: int, from: int, to: int): (ms: nat)
  {
    Max(0, Min(end, to) - Max(start, from))
  }

  /** What one leave covers of the shift, its break left out. */
  function LeaveMs(shift: ResolvedShift, l: LeaveInterval): int {
    OverlapMs(l.start, l.end, shift.start, shift.end)
    - (if HasBreak(shift) then OverlapMs(l.start, l.end, shift.breakStart.value, shift.breakEnd.value) else 0)
  }

  function OnLeaveMs(shift: ResolvedShift, leaves: seq<LeaveInterval>): int {
    if leaves == [] then 0 else LeaveMs(shift, leaves[0]) + OnLeaveMs(shift, leaves[1..])
  }

  function ScheduledWorkMinutes(shift: ResolvedShift): int {
    (shift.end - shift.start - (if HasBreak(shift) then shift.breakEnd.value - shift.breakStart.value else 0)) / 60_000
  }

  /** Only a closed flexible day with all its punches can be short. */
  function MissingMinutes(shift: ResolvedShift, leaves: seq<LeaveInterval>, workedMinutes: int): int {
    var missing := ScheduledWorkMinutes(shift) - OnLeaveMs(shift, leaves) / 60_000 - workedMinutes;
    if missing > shift.earlyLeaveToleranceMinutes then missing else 0
  }

  /** Milliseconds of the complete segments before `end`. */
  function BeforeMs(segments: seq<Segment>, end: int): nat {
    if segments == [] then 0
    else (if IsComplete(segments[0]) then Max(0, Min(segments[0].exit.value, end) - segments[0].entry.value) else 0)
         + BeforeMs(segments[1..], end)
  }

  function AfterMs(segments: seq<Segment>, start: int): nat {
    if segments == [] then 0
    else (if IsComplete(segments[0]) then Max(0, segments[0].exit.value - Max(segments[0].entry.value, start)) else 0)
         + AfterMs(segments[1..], start)
  }

  function Extra(policy: Policy, shift: ResolvedShift, segments: seq<Segment>, workedMinutes: int): int {
    if shift.flexible || policy.overtimeBasis == EXCESS_WORKED_TIME then workedMinutes - ScheduledWorkMinutes(shift)
    else AfterMs(segments, shift.end) / 60_000
         + if policy.countEarlyArrivalAsOvertime then BeforeMs(segments, shift.start) / 60_000 else 0
  }

  function ComputeOvertime(policy: Policy, shift: ResolvedShift, segments: seq<Segment>, workedMinutes: int): int {
    var extra := Extra(policy, shift, segments, workedMinutes);
    if policy.overtimeEnabled && extra >= Max(1, shift.overtimeThresholdMinutes) then extra else 0
  }

  predicate OutOfSchedule(shift: ResolvedShift, times: seq<int>, marginMs: int) {
    && !shift.flexible
    && exists i :: 0 <= i < |times| && (times[i] < shift.start - marginMs || times[i] > shift.end + marginMs)
  }

  function StatusWithoutPunches(day: WorkDayContext, leaves: seq<LeaveInterval>): Status {
    if day.dayType == DayType.HOLIDAY then Status.HOLIDAY
    else if day.dayType == DayType.REST_DAY then Status.REST_DAY
    else if day.shift == None then NO_SCHEDULE
    else
      var start, end := day.shift.value.start, day.shift.value.end;
      if exists i :: 0 <= i < |leaves| && leaves[i].start <= start && leaves[i].end >= end then ON_LEAVE else ABSENT
  }

  // ---------------------------------------------------------------- the summary

  predicate ShortBreak(day: WorkDayContext, policy: Policy, segments: seq<Segment>, breakMinutes: int) {
    && day.shift.Some? && day.shift.value.breakStart.Some? && policy.minBreakMinutes > 0
    && CompleteCount(segments) >= 2 && breakMinutes < policy.minBreakMinutes
  }

  /** What does not depend on the shift: times, minutes and what is missing. */
  function Base(day: WorkDayContext, policy: Policy, isFinal: bool, segments: seq<Segment>, ignoredIds: seq<string>,
                marks: seq<Anomaly>): CalculationResult {
    var totals := Deducted(day.shift, policy, segments);
    var workedMinutes, breakMinutes := Max(0, totals.workedMs / 60_000), totals.breakMs / 60_000;
    CalculationResult(
      PRESENT, Add(Missing(marks, segments, isFinal, |segments|), SHORT_BREAK,
                   ShortBreak(day, policy, segments, breakMinutes)), segments,
      FirstIn(segments), LastOut(segments), workedMinutes, breakMinutes, 0, 0, 0, None, 0, ignoredIds, isFinal)
  }

  function UnscheduledStatusOf(dayType: DayType): Status {
    match dayType
    case WORKDAY => NO_SCHEDULE
    case HOLIDAY => Status.HOLIDAY
    case REST_DAY => Status.REST_DAY
  }

  /** A rest day, a holiday, or someone without a schedule. */
  function Unscheduled(day: WorkDayContext, policy: Policy, base: CalculationResult): CalculationResult {
    var a1 := Add(base.anomalies, WORKED_ON_HOLIDAY, day.dayType == DayType.HOLIDAY);
    var a2 := Add(a1, WORKED_ON_REST_DAY, day.dayType == DayType.REST_DAY);
    var overtime :=
      if policy.overtimeEnabled && day.dayType != WORKDAY && base.workedMinutes >= policy.overtimeThresholdMinutes
      then base.workedMinutes else 0;
    var kind := if day.dayType == DayType.HOLIDAY then ON_HOLIDAY else ON_REST_DAY;
    base.(
    status := UnscheduledStatusOf(day.dayType),
    anomalies := Add(a2, OVERTIME, overtime > 0),
    overtimeMinutes := overtime,
    overtimeKind := if overtime > 0 then Some(kind) else None)
  }

  function LateBy(shift: ResolvedShift, expectedStart: int, first: Segment): int {
    if first.entry.Some? && !shift.flexible
       && MinutesBetween(expectedStart, first.entry.value) > shift.lateToleranceMinutes
    then MinutesBetween(expectedStart, first.entry.value) else 0
  }

  /** Judged only once the expected end has passed. */
  function EarlyBy(shift: ResolvedShift, expectedEnd: int, endPassed: bool, last: Segment): int {
    if last.exit.Some? && endPassed && !shift.flexible
       && MinutesBetween(last.exit.value, expectedEnd) > shift.earlyLeaveToleranceMinutes
    then MinutesBetween(last.exit.value, expectedEnd) else 0
  }

  function Scheduled(shift: ResolvedShift, policy: Policy, leaves: seq<LeaveInterval>, endPassed: bool, times: seq<int>,
                     base: CalculationResult): CalculationResult
    requires base.segments != []
  {
    var segments := base.segments;
    var expected := Expected(shift, leaves);
    var late := LateBy(shift, expected.start, segments[0]);
    var early := EarlyBy(shift, expected.end, endPassed, segments[|segments| - 1]);
    var overtime := ComputeOvertime(policy, shift, segments, base.workedMinutes);
    var a1 := Add(base.anomalies, LATE_ARRIVAL, late != 0);
    var a2 := Add(a1, EARLY_LEAVE, early != 0);
    var a3 := Add(a2, OVERTIME, overtime > 0);
    var a4 := Add(a3, OUT_OF_SCHEDULE_PUNCH,
                  OutOfSchedule(shift, times, policy.outOfScheduleMarginMinutes * MINUTE_MS));
    var status :=
      if MISSING_CHECK_IN in a4 || MISSING_CHECK_OUT in a4 then INCOMPLETE
      else if late > 0 then LATE
      else PRESENT;
    var short :=
      if shift.flexible && base.isFinal && status != INCOMPLETE then MissingMinutes(shift, leaves, base.workedMinutes)
      else 0;
    base.(
    status := status,
    anomalies := Add(a4, SHORT_HOURS, short > 0),
    lateMinutes := late,
    earlyLeaveMinutes := early,
    overtimeMinutes := overtime,
    overtimeKind := if overtime > 0 then Some(REGULAR) else None,
    shortMinutes := short)
  }

  function Summary(day: WorkDayContext, policy: Policy, leaves: seq<LeaveInterval>, isFinal: bool, endPassed: bool,
                   segments: seq<Segment>, times: seq<int>, ignoredIds: seq<string>,
                   marks: seq<Anomaly>): CalculationResult
    requires segments != []
  {
    var base := Base(day, policy, isFinal, segments, ignoredIds, marks);
    if day.shift == None || day.dayType != WORKDAY then Unscheduled(day, policy, base)
    else Scheduled(day.shift.value, policy, leaves, endPassed, times, base)
  }

  function Marks(anyIgnored: bool, anyStrays: bool): seq<Anomaly> {
    Add(Add([], DUPLICATE_PUNCH, anyIgnored), STRAY_PUNCH, anyStrays)
  }

  function Empty(input: CalculationInput, ignoredIds: seq<string>): CalculationResult {
    CalculationResult(
      StatusWithoutPunches(input.day, input.leaves), Marks(ignoredIds != [], input.strays != []), [],
      None, None, 0, 0, 0, 0, 0, None, 0, ignoredIds, input.now >= input.day.window.to)
  }

  predicate EndPassed(day: WorkDayContext, leaves: seq<LeaveInterval>, now: int) {
    day.shift.Some? && now >= Expected(day.shift.value, leaves).end
  }

  lemma PairedSome(punches: seq<Punch>, pairing: Pairing)
    requires punches != []
    ensures Paired(punches, pairing) != []
  {
    if pairing == DEVICE_TYPE {
      ByTypeKeepsPunches(punches);
    }
  }

  function Calculation(input: CalculationInput): CalculationResult {
    var s := Selected(input.day, input.punches, input.policy);
    if s.kept == [] then Empty(input, Ids(s.ignored))
    else
      PairedSome(s.kept, input.policy.punchPairing);
      Summary(
        input.day, input.policy, input.leaves, input.now >= input.day.window.to,
        EndPassed(input.day, input.leaves, input.now),
        ToSegments(Paired(s.kept, input.policy.punchPairing)), Keys(s.kept, At), Ids(s.ignored),
        Marks(s.ignored != [], input.strays != []))
  }

  method MarkMissing(marks: seq<Anomaly>, segments: seq<Segment>, isFinal: bool) returns (anomalies: seq<Anomaly>)
    ensures anomalies == Missing(marks, segments, isFinal, |segments|)
  {
    anomalies := marks;
    for i := 0 to |segments|
      invariant anomalies == Missing(marks, segments, isFinal, i)
    {
      var s := segments[i];
      anomalies := Add(anomalies, MISSING_CHECK_IN, s.entry == None);
      var ongoing := i == |segments| - 1 && !isFinal;
      anomalies := Add(anomalies, MISSING_CHECK_OUT, s.exit == None && !ongoing);
    }
  }

  /** Times, minutes, the break deduction and what is missing. */
  method Measure(day: WorkDayContext, policy: Policy, isFinal: bool, segments: seq<Segment>, ignoredIds: seq<string>,
                 marks: seq<Anomaly>)
    returns (base: CalculationResult)
    ensures base == Base(day, policy, isFinal, segments, ignoredIds, marks)
  {
    hide Missing, Gaps, WorkedMs, FirstIn, LastOut, CompleteCount;
    var anomalies := MarkMissing(marks, segments, isFinal);
    var workedMs: int := WorkedMs(segments);
    var paused := GapsBetween(segments);
    var breakMs: int := paused;
    if day.shift.Some? && HasBreak(day.shift.value) && policy.autoDeductUnpunchedBreak {
      var breakStart, breakEnd := day.shift.value.breakStart.value, day.shift.value.breakEnd.value;
      if WorkedThrough(segments, breakStart, breakEnd) {
        var unpunched := Max(0, breakEnd - breakStart - breakMs);
        workedMs := workedMs - unpunched;
        breakMs := breakMs + unpunched;
      }
    }
    var workedMinutes := Max(0, workedMs / 60_000);
    var breakMinutes := breakMs / 60_000;
    if day.shift.Some? && day.shift.value.breakStart.Some? && policy.minBreakMinutes > 0
       && CompleteCount(segments) >= 2 {
      if breakMinutes < policy.minBreakMinutes {
        anomalies := Add(anomalies, SHORT_BREAK, true);
      }
    }
    base := CalculationResult(
      PRESENT, anomalies, segments, FirstIn(segments), LastOut(segments), workedMinutes, breakMinutes,
      0, 0, 0, None, 0, ignoredIds, isFinal);
  }

  method FinishUnscheduled(day: WorkDayContext, policy: Policy, base: CalculationResult) returns (r: CalculationResult)
    ensures r == Unscheduled(day, policy, base)
  {
    var anomalies := base.anomalies;
    if day.dayType == DayType.HOLIDAY {
      anomalies := Add(anomalies, WORKED_ON_HOLIDAY, true);
    }
    if day.dayType == DayType.REST_DAY {
      anomalies := Add(anomalies, WORKED_ON_REST_DAY, true);
    }
    var overtime := 0;
    if policy.overtimeEnabled && day.dayType != WORKDAY && base.workedMinutes >= policy.overtimeThresholdMinutes {
      overtime := base.workedMinutes;
    }
    var kind := None;
    if overtime > 0 {
      anomalies := Add(anomalies, OVERTIME, true);
      kind := if day.dayType == DayType.HOLIDAY then Some(ON_HOLIDAY) else Some(ON_REST_DAY);
    }
    var status := UnscheduledStatusOf(day.dayType);
    r := base.(status := status, anomalies := anomalies, overtimeMinutes := overtime, overtimeKind := kind);
  }

  method FinishScheduled(shift: ResolvedShift, policy: Policy, leaves: seq<LeaveInterval>, now: int, times: seq<int>,
                         base: CalculationResult)
    returns (r: CalculationResult)
    requires base.segments != []
    ensures r == Scheduled(shift, policy, leaves, now >= Expected(shift, leaves).end, times, base)
  {
    hide Expected, Extra, OutOfSchedule, OnLeaveMs, ScheduledWorkMinutes;
    var expectedStart, expectedEnd := ExpectedPresence(shift, leaves);
    var anomalies := base.anomalies;

    var lateMinutes := 0;
    var first := base.segments[0];
    if first.entry.Some? && !shift.flexible {
      var lateBy := MinutesBetween(expectedStart, first.entry.value);
      if lateBy > shift.lateToleranceMinutes {
        lateMinutes := lateBy;
        anomalies := Add(anomalies, LATE_ARRIVAL, true);
      }
    }

    var earlyLeaveMinutes := 0;
    var last := base.segments[|base.segments| - 1];
    if last.exit.Some? && now >= expectedEnd && !shift.flexible {
      var earlyBy := MinutesBetween(last.exit.value, expectedEnd);
      if earlyBy > shift.earlyLeaveToleranceMinutes {
        earlyLeaveMinutes := earlyBy;
        anomalies := Add(anomalies, EARLY_LEAVE, true);
      }
    }

    var overtimeMinutes := ComputeOvertime(policy, shift, base.segments, base.workedMinutes);
    anomalies := Add(anomalies, OVERTIME, overtimeMinutes > 0);
    anomalies := Add(anomalies, OUT_OF_SCHEDULE_PUNCH,
                     OutOfSchedule(shift, times, policy.outOfScheduleMarginMinutes * MINUTE_MS));

    var status := PRESENT;
    if MISSING_CHECK_IN in anomalies || MISSING_CHECK_OUT in anomalies {
      status := INCOMPLETE;
    } else if lateMinutes > 0 {
      status := LATE;
    }

    var shortMinutes := 0;
    if shift.flexible && base.isFinal && status != INCOMPLETE {
      shortMinutes := MissingMinutes(shift, leaves, base.workedMinutes);
    }
    anomalies := Add(anomalies, SHORT_HOURS, shortMinutes > 0);
    var kind := if overtimeMinutes > 0 then Some(REGULAR) else None;
    r := base.(
    status := status, anomalies := anomalies, lateMinutes := lateMinutes, earlyLeaveMinutes := earlyLeaveMinutes,
    overtimeMinutes := overtimeMinutes, overtimeKind := kind, shortMinutes := shortMinutes);
  }

  method CalculateAttendance(input: CalculationInput) returns (result: CalculationResult)
    ensures result == Calculation(input)
  {
    hide Empty, Expected, Dropped, Alternating, ByType, SortBy, Base, Unscheduled, Scheduled;
    var day, policy := input.day, input.policy;
    var isFinal := input.now >= day.window.to;
    var kept, ignored := DropDoublePresses(SortBy(Within(input.punches, day.window), At),
                                           policy.duplicatePunchWindowSeconds);
    var anomalies := Add(Add([], DUPLICATE_PUNCH, ignored != []), STRAY_PUNCH, input.strays != []);
    if kept == [] {
      return Empty(input, Ids(ignored));
    }
    var pairs;
    if policy.punchPairing == SEQUENTIAL {
      pairs := PairSequentially(kept);
    } else {
      pairs := PairByPunchType(kept);
    }
    PairedSome(kept, policy.punchPairing);
    var segments := ToSegments(pairs);
    BaseSegments(day, policy, isFinal, segments, Ids(ignored), anomalies);
    var base := Measure(day, policy, isFinal, segments, Ids(ignored), anomalies);
    if day.shift == None || day.dayType != WORKDAY {
      result := FinishUnscheduled(day, policy, base);
    } else {
      result := FinishScheduled(day.shift.value, policy, input.leaves, input.now, Keys(kept, At), base);
    }
  }

  lemma BaseSegments(day: WorkDayContext, policy: Policy, isFinal: bool, segments: seq<Segment>,
                     ignoredIds: seq<string>, marks: seq<Anomaly>)
    ensures Base(day, policy, isFinal, segments, ignoredIds, marks).segments == segments
  {
  }
}
