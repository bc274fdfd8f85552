/**
 How late an arrival and how early a departure are, told from the segments of a calculation, the
 shift and the leave.
 */
module Punctuality {
  import opened AttendanceCalculator
  import opened AttendanceLaws
  import opened AttendanceTypes
  import opened LeaveRequests
  import opened OvertimeBounds
  import opened PunchPairing
  import opened Sorting
  import opened Wrappers

  /** A working day with a shift. */
  predicate OnShift(input: CalculationInput) {
    input.day.shift.Some? && input.day.dayType == WORKDAY
  }

  predicate FixedHours(input: CalculationInput) {
    OnShift(input) && !input.day.shift.value.flexible
  }

  lemma WithPunches(input: CalculationInput)
    requires Calculation(input).segments != []
    ensures Selected(input.day, input.punches, input.policy).kept != []
    ensures Calculation(input) == Summary(
                                    input.day, input.policy, input.leaves, input.now >= input.day.window.to,
                                    EndPassed(input.day, input.leaves, input.now), Calculation(input).segments,
                                    Keys(Selected(input.day, input.punches, input.policy).kept, At),
                                    Ids(Selected(input.day, input.punches, input.policy).ignored),
                                    Marks(Selected(input.day, input.punches, input.policy).ignored != [],
                                          input.strays != []))
  {
    CalculationOfSegments(input);
    hide Summary, Selected, Marks;
  }

  // ---------------------------------------------------------------- lateness and early leave

  /** Whole minutes from one instant to another, when they exceed the tolerance. */
  predicate MinutesOver(minutes: int, from: int, to: int, tolerance: int) {
    if to - from < 60_000 * (tolerance + 1) then minutes == 0
    else 60_000 * minutes <= to - from < 60_000 * (minutes + 1)
  }

  /** Leave that covers the start of the shift puts the arrival off to its end, or to the shift's. */
  ghost predicate ArrivalDue(s: ResolvedShift, leaves: seq<LeaveInterval>, due: int) {
    if exists l :: l in leaves && l.start <= s.start && s.start < l.end
    then exists l :: l in leaves && l.start <= s.start && s.start < l.end
                     && due == if l.end < s.end then l.end else s.end
    else due == s.start
  }

  /** Leave that covers the end of the shift brings the departure forward to its start, or to the shift's. */
  ghost predicate DepartureDue(s: ResolvedShift, leaves: seq<LeaveInterval>, due: int) {
    if exists l :: l in leaves && l.start < s.end && s.end <= l.end
    then exists l :: l in leaves && l.start < s.end && s.end <= l.end
                     && due == if l.start < s.start then s.start else l.start
    else due == s.end
  }

  lemma ExpectedIsDue(s: ResolvedShift, leaves: seq<LeaveInterval>)
    requires PairwiseDisjoint(leaves)
    ensures ArrivalDue(s, leaves, Expected(s, leaves).start) && DepartureDue(s, leaves, Expected(s, leaves).end)
  {
    ExpectedArrival(s, leaves);
    ExpectedDeparture(s, leaves);
  }

  lemma ExpectedArrival(s: ResolvedShift, leaves: seq<LeaveInterval>)
    requires PairwiseDisjoint(leaves)
    ensures ArrivalDue(s, leaves, Expected(s, leaves).start)
  {
    hide Expected, PairwiseDisjoint;
    StartByMembers(s, leaves);
    if l :| l in leaves && l.start <= s.start && s.start < l.end {
      var i :| 0 <= i < |leaves| && leaves[i] == l;
      assert MovesStart(s, leaves[i]);
    } else {
      assert forall i :: 0 <= i < |leaves| ==> leaves[i] in leaves;
    }
  }

  lemma ExpectedDeparture(s: ResolvedShift, leaves: seq<LeaveInterval>)
    requires PairwiseDisjoint(leaves)
    ensures DepartureDue(s, leaves, Expected(s, leaves).end)
  {
    hide Expected, PairwiseDisjoint;
    EndByMembers(s, leaves);
    if l :| l in leaves && l.start < s.end && s.end <= l.end {
      var i :| 0 <= i < |leaves| && leaves[i] == l;
      assert MovesEnd(s, leaves[i]);
    } else {
      assert forall i :: 0 <= i < |leaves| ==> leaves[i] in leaves;
    }
  }

  /** Disjoint leaves leave one answer. */
  lemma OneDue(s: ResolvedShift, leaves: seq<LeaveInterval>, a: int, b: int)
    requires PairwiseDisjoint(leaves)
    ensures ArrivalDue(s, leaves, a) && ArrivalDue(s, leaves, b) ==> a == b
    ensures DepartureDue(s, leaves, a) && DepartureDue(s, leaves, b) ==> a == b
  {
    forall l, m | l in leaves && m in leaves && l != m ensures l.end <= m.start || m.end <= l.start {
      var i :| 0 <= i < |leaves| && leaves[i] == l;
      var j :| 0 <= j < |leaves| && leaves[j] == m;
    }
    assert forall l :: l in leaves ==> l.start < l.end;
    hide PairwiseDisjoint;
  }

  lemma LateBySpelled(s: ResolvedShift, due: int, first: Segment)
    requires !s.flexible
    ensures if first.entry.Some? then MinutesOver(LateBy(s, due, first), due, first.entry.value, s.lateToleranceMinutes)
            else LateBy(s, due, first) == 0
  {
  }

  lemma EarlyBySpelled(s: ResolvedShift, due: int, passed: bool, last: Segment)
    requires !s.flexible
    ensures if last.exit.Some? && passed
            then MinutesOver(EarlyBy(s, due, passed, last), last.exit.value, due, s.earlyLeaveToleranceMinutes)
            else EarlyBy(s, due, passed, last) == 0
  {
  }

  lemma ScheduledMinutes(day: WorkDayContext, policy: Policy, leaves: seq<LeaveInterval>, isFinal: bool, passed: bool,
                         segments: seq<Segment>, times: seq<int>, ids: seq<string>, marks: seq<Anomaly>)
    requires segments != [] && day.shift.Some? && day.dayType == WORKDAY
    ensures var s := day.shift.value;
            var r := Summary(day, policy, leaves, isFinal, passed, segments, times, ids, marks);
            && r.segments == segments && r.isFinal == isFinal
            && r.lateMinutes == LateBy(s, Expected(s, leaves).start, segments[0])
            && r.earlyLeaveMinutes == EarlyBy(s, Expected(s, leaves).end, passed, segments[|segments| - 1])
            && r.overtimeMinutes == ComputeOvertime(policy, s, segments, r.workedMinutes)
            && r.overtimeKind == (if r.overtimeMinutes > 0 then Some(REGULAR) else None)
  {
    hide Expected, LateBy, EarlyBy, ComputeOvertime, OutOfSchedule, Missing, Deducted, MissingMinutes, Add, ShortBreak,
      FirstIn, LastOut;
  }

  /** Lateness is what the first entry comes after the arrival due, in whole minutes past the tolerance. */
  lemma LateIsMeasured(input: CalculationInput, due: int)
    requires FixedHours(input) && PairwiseDisjoint(input.leaves) && ArrivalDue(input.day.shift.value, input.leaves, due)
    ensures var r := Calculation(input);
            r.segments != [] ==>
              if r.segments[0].entry.Some?
              then MinutesOver(r.lateMinutes, due, r.segments[0].entry.value,
                               input.day.shift.value.lateToleranceMinutes)
              else r.lateMinutes == 0
  {
    hide Calculation, Summary, Selected, PairwiseDisjoint, ArrivalDue, DepartureDue, LateBy, MinutesOver, EndPassed,
      Marks;
    var r, s := Calculation(input), input.day.shift.value;
    if r.segments != [] {
      WithPunches(input);
      ScheduledMinutes(input.day, input.policy, input.leaves, input.now >= input.day.window.to,
                       EndPassed(input.day, input.leaves, input.now), r.segments,
                       Keys(Selected(input.day, input.punches, input.policy).kept, At),
                       Ids(Selected(input.day, input.punches, input.policy).ignored),
                       Marks(Selected(input.day, input.punches, input.policy).ignored != [], input.strays != []));
      ExpectedIsDue(s, input.leaves);
      OneDue(s, input.leaves, due, Expected(s, input.leaves).start);
      LateBySpelled(s, due, r.segments[0]);
    }
  }

  /** Early leave is what the last exit comes before the departure due, once that has passed. */
  lemma EarlyIsMeasured(input: CalculationInput, due: int)
    requires FixedHours(input) && PairwiseDisjoint(input.leaves)
             && DepartureDue(input.day.shift.value, input.leaves, due)
    ensures var r := Calculation(input);
            r.segments != [] ==>
              var last := r.segments[|r.segments| - 1];
              if last.exit.Some? && due <= input.now
              then MinutesOver(r.earlyLeaveMinutes, last.exit.value, due,
                               input.day.shift.value.earlyLeaveToleranceMinutes)
              else r.earlyLeaveMinutes == 0
  {
    hide Calculation, Summary, Selected, PairwiseDisjoint, ArrivalDue, DepartureDue, EarlyBy, MinutesOver, Marks,
      Expected;
    var r, s := Calculation(input), input.day.shift.value;
    if r.segments != [] {
      WithPunches(input);
      ScheduledMinutes(input.day, input.policy, input.leaves, input.now >= input.day.window.to,
                       EndPassed(input.day, input.leaves, input.now), r.segments,
                       Keys(Selected(input.day, input.punches, input.policy).kept, At),
                       Ids(Selected(input.day, input.punches, input.policy).ignored),
                       Marks(Selected(input.day, input.punches, input.policy).ignored != [], input.strays != []));
      ExpectedIsDue(s, input.leaves);
      OneDue(s, input.leaves, due, Expected(s, input.leaves).end);
      EarlyBySpelled(s, due, input.now >= due, r.segments[|r.segments| - 1]);
    }
  }

  /** Nobody is late or early on a day without fixed hours. */
  lemma NeverLateOtherwise(input: CalculationInput)
    requires !FixedHours(input)
    ensures Calculation(input).lateMinutes == 0 == Calculation(input).earlyLeaveMinutes
  {
    hide Selected, Deducted, Paired, Expected, ComputeOvertime, Missing, OutOfSchedule, MissingMinutes, Add, ShortBreak,
      FirstIn, LastOut, StatusWithoutPunches;
    if Selected(input.day, input.punches, input.policy).kept != [] {
      CalculationOfSegments(input);
    }
  }
}
