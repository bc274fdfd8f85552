/**
 The rest of a calculation, told from its segments, the shift and the policy: the break taken off,
 overtime, what a day is short of, its marks and its status.
 */
module DayNumbers {
  import opened AttendanceCalculator
  import opened AttendanceLaws
  import opened AttendanceTypes
  import opened LeaveRequests
  import opened OvertimeBounds
  import opened Punctuality
  import opened PunchOrder
  import opened PunchPairing
  import opened Sorting
  import opened Wrappers

  // ---------------------------------------------------------------- what every day with punches shows

  /** The first of the segments that has an entry is where the day starts. */
  predicate StartsAt(segments: seq<Segment>, t: Option<int>) {
    if forall i :: 0 <= i < |segments| ==> segments[i].entry == None then t == None
    else exists i :: 0 <= i < |segments| && segments[i].entry.Some? && segments[i].entry == t
                     && forall j :: 0 <= j < i ==> segments[j].entry == None
  }

  predicate EndsAt(segments: seq<Segment>, t: Option<int>) {
    if forall i :: 0 <= i < |segments| ==> segments[i].exit == None then t == None
    else exists i :: 0 <= i < |segments| && segments[i].exit.Some? && segments[i].exit == t
                     && forall j :: i < j < |segments| ==> segments[j].exit == None
  }

  lemma {:induction false} FirstInStarts(segments: seq<Segment>)
    ensures StartsAt(segments, FirstIn(segments))
  {
    if segments != [] && segments[0].entry == None {
      var rest := segments[1..];
      FirstInStarts(rest);
      assert forall i :: 0 <= i < |rest| ==> rest[i] == segments[i + 1];
      if i :| 0 <= i < |rest| && rest[i].entry.Some? && rest[i].entry == FirstIn(rest)
              && forall j :: 0 <= j < i ==> rest[j].entry == None {
        assert segments[i + 1].entry == FirstIn(segments);
        assert forall j :: 0 < j < i + 1 ==> segments[j] == rest[j - 1];
      } else {
        assert forall i :: 0 < i < |segments| ==> segments[i] == rest[i - 1];
      }
    } else if segments != [] {
      assert segments[0].entry == FirstIn(segments);
    }
  }

  lemma {:induction false} LastOutEnds(segments: seq<Segment>)
    ensures EndsAt(segments, LastOut(segments))
  {
    if segments != [] {
      var n := |segments| - 1;
      if segments[n].exit == None {
        LastOutEnds(segments[..n]);
        assert forall i :: 0 <= i < n ==> segments[..n][i] == segments[i];
      } else {
        assert segments[n].exit == LastOut(segments);
      }
    }
  }

  /** The day is closed once its window is; its ends are read off the segments. */
  lemma DayEnds(input: CalculationInput)
    ensures var r := Calculation(input);
            && r.isFinal == (input.now >= input.day.window.to)
            && StartsAt(r.segments, r.firstIn) && EndsAt(r.segments, r.lastOut)
  {
    hide Selected, Paired, Deducted, Expected, ComputeOvertime, Missing, OutOfSchedule, MissingMinutes, Add, ShortBreak,
      FirstIn, LastOut, StatusWithoutPunches, StartsAt, EndsAt;
    FirstInStarts([]);
    LastOutEnds([]);
    NoEnds();
    if Selected(input.day, input.punches, input.policy).kept != [] {
      CalculationOfSegments(input);
      FirstInStarts(Calculation(input).segments);
      LastOutEnds(Calculation(input).segments);
    }
  }

  lemma NoEnds()
    ensures FirstIn([]) == None == LastOut([])
  {
  }

  // ---------------------------------------------------------------- the break

  /** Some stretch of work goes on from the start of the break to its end. */
  predicate WorkedOver(segments: seq<Segment>, from: int, to: int) {
    exists i :: 0 <= i < |segments| && SpansOver(segments[i], from, to)
  }

  predicate SpansOver(s: Segment, from: int, to: int) {
    s.entry.Some? && s.exit.Some? && s.entry.value <= from && to <= s.exit.value
  }

  /**
   With a break worked through and the policy taking it off, the pauses count for at least what the
   break lasts, at the expense of the work; otherwise work and pauses are as punched.
   */
  lemma BreakTakenOff(input: CalculationInput)
    ensures var r := Calculation(input);
            var work, pauses := WorkedMs(r.segments), Gaps(r.segments);
            r.segments != [] ==>
              var s := input.day.shift;
              if s.Some? && s.value.breakStart.Some? && s.value.breakEnd.Some? && input.policy.autoDeductUnpunchedBreak
                 && WorkedOver(r.segments, s.value.breakStart.value, s.value.breakEnd.value)
              then
                var rest := s.value.breakEnd.value - s.value.breakStart.value;
                && r.breakMinutes == (if pauses < rest then rest else pauses) / 60_000
                && r.workedMinutes == Max(0, (work + pauses - if pauses < rest then rest else pauses) / 60_000)
              else r.breakMinutes == pauses / 60_000 && r.workedMinutes == Max(0, work / 60_000)
  {
    hide Calculation, Selected, Summary, Marks, EndPassed, WorkedMs, Gaps;
    var r := Calculation(input);
    if r.segments != [] {
      WithPunches(input);
      TotalsOf(input.day, input.policy, input.leaves, input.now >= input.day.window.to,
               EndPassed(input.day, input.leaves, input.now), r.segments,
               Keys(Selected(input.day, input.punches, input.policy).kept, At),
               Ids(Selected(input.day, input.punches, input.policy).ignored),
               Marks(Selected(input.day, input.punches, input.policy).ignored != [], input.strays != []));
      DeductedSpelled(input.day.shift, input.policy, r.segments);
    }
  }

  lemma TotalsOf(day: WorkDayContext, policy: Policy, leaves: seq<LeaveInterval>, isFinal: bool, passed: bool,
                 segments: seq<Segment>, times: seq<int>, ids: seq<string>, marks: seq<Anomaly>)
    requires segments != []
    ensures var r := Summary(day, policy, leaves, isFinal, passed, segments, times, ids, marks);
            var totals := Deducted(day.shift, policy, segments);
            && r.workedMinutes == Max(0, totals.workedMs / 60_000) && r.breakMinutes == totals.breakMs / 60_000
            && r.isFinal == isFinal && r.ignoredPunchIds == ids
  {
    hide Expected, LateBy, EarlyBy, ComputeOvertime, OutOfSchedule, Missing, Deducted, MissingMinutes, Add, ShortBreak,
      FirstIn, LastOut;
  }

  lemma DeductedSpelled(shift: Option<ResolvedShift>, policy: Policy, segments: seq<Segment>)
    ensures var work, pauses, d := WorkedMs(segments), Gaps(segments), Deducted(shift, policy, segments);
            if shift.Some? && shift.value.breakStart.Some? && shift.value.breakEnd.Some?
               && policy.autoDeductUnpunchedBreak
               && WorkedOver(segments, shift.value.breakStart.value, shift.value.breakEnd.value)
            then
              var rest := shift.value.breakEnd.value - shift.value.breakStart.value;
              var counted := if pauses < rest then rest else pauses;
              d == Totals(work + pauses - counted, counted)
            else d == Totals(work, pauses)
  {
    hide WorkedMs, Gaps;
    if shift.Some? && HasBreak(shift.value) {
      var from, to := shift.value.breakStart.value, shift.value.breakEnd.value;
      if WorkedOver(segments, from, to) {
        var i :| 0 <= i < |segments| && SpansOver(segments[i], from, to);
        assert IsComplete(segments[i]);
      }
      if i :| 0 <= i < |segments| && IsComplete(segments[i]) && segments[i].entry.value <= from
              && segments[i].exit.value >= to {
        assert SpansOver(segments[i], from, to);
      }
    }
  }

  // ---------------------------------------------------------------- overtime

  /** Every segment lies between these instants. */
  predicate Between(segments: seq<Segment>, first: int, last: int) {
    forall i :: 0 <= i < |segments| && IsComplete(segments[i]) ==>
                  first <= segments[i].entry.value && segments[i].exit.value <= last
  }

  lemma {:induction false} PartsAreInside(segments: seq<Segment>, t: int, first: int, last: int)
    requires Between(segments, first, last)
    ensures AfterMs(segments, t) == InsideMs(segments, t, last)
    ensures BeforeMs(segments, t) == InsideMs(segments, first, t)
  {
    if segments != [] {
      assert forall i :: 0 <= i < |segments[1..]| ==> segments[1..][i] == segments[i + 1];
      PartsAreInside(segments[1..], t, first, last);
    }
  }

  /** The minutes a shift asks for: all of it but its break. */
  function AskedMinutes(s: ResolvedShift): int {
    var rest := if s.breakStart.Some? && s.breakEnd.Some? then s.breakEnd.value - s.breakStart.value else 0;
    (s.end - s.start - rest) / 60_000
  }

  /**
   What a working day offers as overtime: the excess over the shift, or the work after it and, if
   that counts, before it.
   */
  function OfferedMinutes(s: ResolvedShift, policy: Policy, segments: seq<Segment>, worked: int, first: int,
                          last: int): int {
    if s.flexible || policy.overtimeBasis == EXCESS_WORKED_TIME then worked - AskedMinutes(s)
    else InsideMs(segments, s.end, last) / 60_000
         + if policy.countEarlyArrivalAsOvertime then InsideMs(segments, first, s.start) / 60_000 else 0
  }

  /** Overtime is what is offered, once it comes to a minute and to the threshold, where the company pays it. */
  lemma OvertimeIs(input: CalculationInput, first: int, last: int)
    requires OnShift(input) && Between(Calculation(input).segments, first, last)
    ensures var r, s := Calculation(input), input.day.shift.value;
            var offered := OfferedMinutes(s, input.policy, r.segments, r.workedMinutes, first, last);
            r.segments != [] ==>
              && r.overtimeMinutes == (if input.policy.overtimeEnabled && Max(1, s.overtimeThresholdMinutes) <= offered
                                       then offered else 0)
              && r.overtimeKind == if r.overtimeMinutes > 0 then Some(REGULAR) else None
  {
    hide Calculation, Summary, Selected, EndPassed, Marks, AfterMs, BeforeMs, InsideMs;
    var r, s := Calculation(input), input.day.shift.value;
    if r.segments != [] {
      WithPunches(input);
      ScheduledMinutes(input.day, input.policy, input.leaves, input.now >= input.day.window.to,
                       EndPassed(input.day, input.leaves, input.now), r.segments,
                       Keys(Selected(input.day, input.punches, input.policy).kept, At),
                       Ids(Selected(input.day, input.punches, input.policy).ignored),
                       Marks(Selected(input.day, input.punches, input.policy).ignored != [], input.strays != []));
      PartsAreInside(r.segments, s.end, first, last);
      PartsAreInside(r.segments, s.start, first, last);
    }
  }

  /**
   On a holiday or a rest day all the work is overtime, from the company's threshold on; without a
   schedule none is.
   */
  lemma RestIsOvertime(input: CalculationInput)
    requires !OnShift(input)
    ensures var r := Calculation(input);
            r.segments != [] ==>
              && r.overtimeMinutes == (if input.policy.overtimeEnabled && input.day.dayType != WORKDAY
                                          && input.policy.overtimeThresholdMinutes <= r.workedMinutes
                                       then r.workedMinutes else 0)
              && r.overtimeKind == (if r.overtimeMinutes == 0 then None
                                    else if input.day.dayType == DayType.HOLIDAY then Some(ON_HOLIDAY)
                                    else Some(ON_REST_DAY))
              && r.shortMinutes == 0
  {
    hide Calculation, Selected, Deducted, Missing, Add, ShortBreak, FirstIn, LastOut, EndPassed, Marks;
    var r := Calculation(input);
    if r.segments != [] {
      WithPunches(input);
    }
  }

  // ---------------------------------------------------------------- what a day is short of

  /**
   A closed flexible day without a punch missing is short of what the shift asks for past work and
   leave, beyond the tolerance.
   */
  lemma ShortIs(input: CalculationInput)
    requires OnShift(input)
    ensures var r, s := Calculation(input), input.day.shift.value;
            var missing := AskedMinutes(s) - OnLeaveMs(s, input.leaves) / 60_000 - r.workedMinutes;
            r.segments != [] ==>
              r.shortMinutes == (if s.flexible && input.day.window.to <= input.now
                                    && (forall i :: 0 <= i < |r.segments| ==> IsComplete(r.segments[i]))
                                    && s.earlyLeaveToleranceMinutes < missing
                                 then missing else 0)
  {
    hide Calculation, Selected, EndPassed, Marks, OnLeaveMs, Summary;
    var r, s := Calculation(input), input.day.shift.value;
    if r.segments != [] {
      var ignored := Selected(input.day, input.punches, input.policy).ignored;
      WithPunches(input);
      MarksTell(ignored != [], input.strays != []);
      ShortOf(input.day, input.policy, input.leaves, input.now >= input.day.window.to,
              EndPassed(input.day, input.leaves, input.now), r.segments,
              Keys(Selected(input.day, input.punches, input.policy).kept, At), Ids(ignored),
              Marks(ignored != [], input.strays != []));
    }
  }

  lemma ShortOf(day: WorkDayContext, policy: Policy, leaves: seq<LeaveInterval>, isFinal: bool, passed: bool,
                segments: seq<Segment>, times: seq<int>, ids: seq<string>, marks: seq<Anomaly>)
    requires segments != [] && day.shift.Some? && day.dayType == WORKDAY && NoRepeats(marks) && Unmarked(marks)
    ensures var s, r := day.shift.value, Summary(day, policy, leaves, isFinal, passed, segments, times, ids, marks);
            var all := forall i :: 0 <= i < |segments| ==> IsComplete(segments[i]);
            && r.segments == segments
            && r.shortMinutes == if s.flexible && isFinal && all then MissingMinutes(s, leaves, r.workedMinutes) else 0
  {
    var base := Base(day, policy, isFinal, segments, ids, marks);
    BaseTells(day, policy, isFinal, segments, ids, marks);
    ScheduledTells(day.shift.value, policy, leaves, passed, times, base);
    assert isFinal ==> (NoEntry(segments, |segments|) || NoExit(segments, isFinal, |segments|)
                        <==> exists i :: 0 <= i < |segments| && !IsComplete(segments[i]));
    ScheduledShort(day.shift.value, policy, leaves, passed, times, base);
    hide Base, Scheduled, MissingMinutes, NoRepeats, Unmarked, NoEntry, NoExit, FindingsTold, SameMarks;
  }

  lemma ScheduledShort(shift: ResolvedShift, policy: Policy, leaves: seq<LeaveInterval>, passed: bool, times: seq<int>,
                       base: CalculationResult)
    requires base.segments != []
    ensures var r := Scheduled(shift, policy, leaves, passed, times, base);
            && r.segments == base.segments && r.isFinal == base.isFinal && r.workedMinutes == base.workedMinutes
            && r.shortMinutes == if shift.flexible && base.isFinal && r.status != INCOMPLETE
                                 then MissingMinutes(shift, leaves, base.workedMinutes) else 0
  {
    hide Add, OutOfSchedule, Expected, ComputeOvertime, MissingMinutes, LateBy, EarlyBy;
  }

  // ---------------------------------------------------------------- marks and status, spelled out

  /** Two stretches of work at least. */
  predicate TwoStretches(segments: seq<Segment>) {
    exists i, j :: 0 <= i < j < |segments| && IsComplete(segments[i]) && IsComplete(segments[j])
  }

  lemma {:induction false} CountsTwo(segments: seq<Segment>)
    ensures CompleteCount(segments) >= 1 <==> exists i :: 0 <= i < |segments| && IsComplete(segments[i])
    ensures CompleteCount(segments) >= 2 <==> TwoStretches(segments)
  {
    if segments != [] {
      var rest := segments[1..];
      CountsTwo(rest);
      assert forall i :: 0 <= i < |rest| ==> rest[i] == segments[i + 1];
      if CompleteCount(rest) >= 1 {
        var j :| 0 <= j < |rest| && IsComplete(rest[j]);
        assert IsComplete(segments[j + 1]);
      }
      if CompleteCount(rest) >= 2 {
        var i, j :| 0 <= i < j < |rest| && IsComplete(rest[i]) && IsComplete(rest[j]);
        assert IsComplete(segments[i + 1]) && IsComplete(segments[j + 1]);
      }
      if i, j :| 0 <= i < j < |segments| && IsComplete(segments[i]) && IsComplete(segments[j]) {
        assert IsComplete(rest[j - 1]);
        assert i > 0 ==> IsComplete(rest[i - 1]);
      }
    }
  }

  /** A punch kept on a shift with fixed hours, earlier than its start or later than its end by more than the margin. */
  ghost predicate FarFromShift(input: CalculationInput) {
    var margin := 60_000 * input.policy.outOfScheduleMarginMinutes;
    FixedHours(input) && exists p :: p in Selected(input.day, input.punches, input.policy).kept
                                     && !CloseToShift(input.day.shift.value, margin, p.at)
  }

  predicate CloseToShift(s: ResolvedShift, margin: int, t: int) {
    s.start - margin <= t <= s.end + margin
  }

  lemma MarksSpelled(input: CalculationInput)
    ensures var r, day := Calculation(input), input.day;
            r.segments != [] ==>
              && (WORKED_ON_HOLIDAY in r.anomalies <==> day.dayType == DayType.HOLIDAY)
              && (WORKED_ON_REST_DAY in r.anomalies <==> day.dayType == DayType.REST_DAY)
              && (SHORT_BREAK in r.anomalies <==>
                  && day.shift.Some? && day.shift.value.breakStart.Some? && TwoStretches(r.segments)
                  && r.breakMinutes < input.policy.minBreakMinutes && input.policy.minBreakMinutes > 0)
              && (OUT_OF_SCHEDULE_PUNCH in r.anomalies <==> FarFromShift(input))
  {
    var r := Calculation(input);
    AnomaliesTell(input);
    CountsTwo(r.segments);
    hide Calculation, FindingsTold, StatusTold, Marks, StatusWithoutPunches, CompleteCount, TwoStretches;
    if r.segments != [] {
      WithPunches(input);
      FarSpelled(input);
      hide Selected, OutOfSchedule, FarFromShift, Summary, EndPassed;
    }
  }

  lemma FarSpelled(input: CalculationInput)
    ensures FarFromShift(input) <==>
            && OnShift(input)
            && OutOfSchedule(input.day.shift.value, Keys(Selected(input.day, input.punches, input.policy).kept, At),
                             input.policy.outOfScheduleMarginMinutes * MINUTE_MS)
  {
    hide Selected;
    if FixedHours(input) {
      var kept := Selected(input.day, input.punches, input.policy).kept;
      var margin := 60_000 * input.policy.outOfScheduleMarginMinutes;
      var times := Keys(kept, At);
      if FarFromShift(input) {
        var p :| p in kept && !CloseToShift(input.day.shift.value, margin, p.at);
        var i :| 0 <= i < |kept| && kept[i] == p;
        assert times[i] == p.at;
      } else {
        forall i | 0 <= i < |times| ensures CloseToShift(input.day.shift.value, margin, times[i]) {
          assert kept[i] in kept && times[i] == kept[i].at;
        }
      }
    }
  }

  /**
   A day without punches: the holiday or rest day it is, nothing without a shift, leave when one
   leave covers the shift, else absence.
   */
  lemma StatusUnpunched(input: CalculationInput)
    ensures var r, day := Calculation(input), input.day;
            r.segments == [] ==>
              && (r.status == AttendanceCalculator.Status.HOLIDAY <==> day.dayType == DayType.HOLIDAY)
              && (r.status == AttendanceCalculator.Status.REST_DAY <==> day.dayType == DayType.REST_DAY)
              && (r.status == NO_SCHEDULE <==> day.dayType == WORKDAY && day.shift == None)
              && (r.status == ON_LEAVE <==> OnShift(input) && WholeShiftOff(day.shift.value, input.leaves))
              && (r.status == ABSENT <==> OnShift(input) && !WholeShiftOff(day.shift.value, input.leaves))
  {
    AnomaliesTell(input);
    hide FindingsTold, StatusTold, Marks, DayTold, Tells;
    if Selected(input.day, input.punches, input.policy).kept != [] {
      CalculationOfSegments(input);
    }
    hide Calculation, Selected;
    if OnShift(input) {
      CoveredByMember(input.leaves, input.day.shift.value.start, input.day.shift.value.end);
    }
  }

  /** And no minutes of anything. */
  lemma NothingUnpunched(input: CalculationInput)
    ensures var r := Calculation(input);
            r.segments == [] ==>
              && r.workedMinutes == 0 == r.breakMinutes && r.lateMinutes == 0 == r.earlyLeaveMinutes
              && r.overtimeMinutes == 0 == r.shortMinutes && r.overtimeKind == None
              && r.firstIn == None == r.lastOut
  {
    hide Selected;
    if Selected(input.day, input.punches, input.policy).kept != [] {
      CalculationOfSegments(input);
    }
  }

  ghost predicate WholeShiftOff(s: ResolvedShift, leaves: seq<LeaveInterval>) {
    exists l :: l in leaves && l.start <= s.start && s.end <= l.end
  }
}
