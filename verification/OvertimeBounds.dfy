/** When overtime fits in the minutes worked: the exact condition on the shift and the policy. */
module OvertimeBounds {
  import opened Arith
  import opened AttendanceCalculator
  import opened AttendanceLaws
  import opened AttendanceTypes
  import opened PunchOrder
  import opened PunchPairing
  import opened Wrappers

  // ---------------------------------------------------------------- the parts of the work

  /** Work is what lies before any instant and what lies after it. */
  lemma {:induction false} TwoParts(segments: seq<Segment>, cut: int)
    requires Forward(segments)
    ensures WorkedMs(segments) == BeforeMs(segments, cut) + AfterMs(segments, cut)
  {
    if segments != [] {
      assert Length(segments[0]) >= 0;
      assert forall i :: 0 <= i < |segments[1..]| ==> segments[1..][i] == segments[i + 1];
      TwoParts(segments[1..], cut);
      hide Forward;
    }
  }

  function Inside(s: Segment, from: int, to: int): nat {
    if IsComplete(s) then Max(0, Min(s.exit.value, to) - Max(s.entry.value, from)) else 0
  }

  function InsideMs(segments: seq<Segment>, from: int, to: int): nat {
    if segments == [] then 0 else Inside(segments[0], from, to) + InsideMs(segments[1..], from, to)
  }

  /** Work is what lies before, inside and after the shift. */
  lemma {:induction false} PartsAddUp(segments: seq<Segment>, start: int, end: int)
    requires Forward(segments) && start <= end
    ensures WorkedMs(segments) == BeforeMs(segments, start) + InsideMs(segments, start, end) + AfterMs(segments, end)
  {
    if segments != [] {
      assert Length(segments[0]) >= 0;
      assert forall i :: 0 <= i < |segments[1..]| ==> segments[1..][i] == segments[i + 1];
      PartsAddUp(segments[1..], start, end);
      hide Forward;
    }
  }

  lemma {:induction false} ThroughIsInside(segments: seq<Segment>, start: int, end: int, from: int, to: int)
    requires WorkedThrough(segments, from, to) && start <= from <= to <= end
    ensures InsideMs(segments, start, end) >= to - from
  {
    var i :| 0 <= i < |segments| && IsComplete(segments[i]) && segments[i].entry.value <= from
             && segments[i].exit.value >= to;
    if i > 0 {
      assert segments[1..][i - 1] == segments[i];
      ThroughIsInside(segments[1..], start, end, from, to);
    }
  }

  lemma {:induction false} ThroughIsBefore(segments: seq<Segment>, cut: int, from: int, to: int)
    requires WorkedThrough(segments, from, to) && from <= to <= cut
    ensures BeforeMs(segments, cut) >= to - from
  {
    var i :| 0 <= i < |segments| && IsComplete(segments[i]) && segments[i].entry.value <= from
             && segments[i].exit.value >= to;
    if i > 0 {
      assert segments[1..][i - 1] == segments[i];
      ThroughIsBefore(segments[1..], cut, from, to);
    }
  }

  // ---------------------------------------------------------------- the condition

  /** The policy takes unpunched breaks from the work, and there is one to take. */
  predicate Deducts(shift: ResolvedShift, policy: Policy) {
    policy.autoDeductUnpunchedBreak && HasBreak(shift) && shift.breakStart.value < shift.breakEnd.value
  }

  /** Overtime is what passes the expected hours, and not what lies outside the shift. */
  predicate ByExcess(shift: ResolvedShift, policy: Policy) {
    shift.flexible || policy.overtimeBasis == EXCESS_WORKED_TIME
  }

  /**
   By excess: the expected hours are not negative. Outside the shift: what is deducted does not
   count as overtime, so no part of the break lies after the end of the shift, nor before its
   start where early arrivals count, and early and late work never overlap.
   */
  predicate OvertimeSafe(shift: ResolvedShift, policy: Policy) {
    if !policy.overtimeEnabled then true
    else if ByExcess(shift, policy) then ScheduledWorkMinutes(shift) >= 0
    else
      && (policy.countEarlyArrivalAsOvertime ==> shift.start <= shift.end)
      && (Deducts(shift, policy) ==>
            shift.breakEnd.value <= shift.end
            && (policy.countEarlyArrivalAsOvertime ==> shift.start <= shift.breakStart.value))
  }

  /** The shift does not end before it starts, and its break lies inside it. */
  predicate BreakInside(shift: ResolvedShift) {
    shift.start <= shift.end
    && (HasBreak(shift) ==> shift.start <= shift.breakStart.value <= shift.breakEnd.value <= shift.end)
  }

  lemma BreakInsideIsSafe(shift: ResolvedShift, policy: Policy)
    requires BreakInside(shift)
    ensures OvertimeSafe(shift, policy)
  {
  }

  // ---------------------------------------------------------------- it is enough

  lemma DeductedOnly(shift: ResolvedShift, policy: Policy, segments: seq<Segment>)
    ensures var worked := Deducted(Some(shift), policy, segments).workedMs;
            && (!Deducts(shift, policy) ==> worked == WorkedMs(segments))
            && (Deducts(shift, policy) && !WorkedThrough(segments, shift.breakStart.value, shift.breakEnd.value) ==>
                  worked == WorkedMs(segments))
            && (Deducts(shift, policy) ==>
                  worked >= WorkedMs(segments) - (shift.breakEnd.value - shift.breakStart.value))
            && worked <= WorkedMs(segments)
  {
  }

  lemma AfterIsWorked(shift: ResolvedShift, policy: Policy, segments: seq<Segment>)
    requires Forward(segments) && (Deducts(shift, policy) ==> shift.breakEnd.value <= shift.end)
    ensures AfterMs(segments, shift.end) <= Deducted(Some(shift), policy, segments).workedMs
  {
    TwoParts(segments, shift.end);
    DeductedOnly(shift, policy, segments);
    if Deducts(shift, policy) && WorkedThrough(segments, shift.breakStart.value, shift.breakEnd.value) {
      ThroughIsBefore(segments, shift.end, shift.breakStart.value, shift.breakEnd.value);
    }
    hide Deducted, BeforeMs, AfterMs, WorkedMs, Forward, WorkedThrough;
  }

  lemma OutsideIsWorked(shift: ResolvedShift, policy: Policy, segments: seq<Segment>)
    requires Forward(segments) && shift.start <= shift.end
    requires Deducts(shift, policy) ==> shift.start <= shift.breakStart.value && shift.breakEnd.value <= shift.end
    ensures BeforeMs(segments, shift.start) + AfterMs(segments, shift.end) <= Deducted(Some(shift), policy,
                                                                                       segments).workedMs
  {
    PartsAddUp(segments, shift.start, shift.end);
    DeductedOnly(shift, policy, segments);
    if Deducts(shift, policy) && WorkedThrough(segments, shift.breakStart.value, shift.breakEnd.value) {
      ThroughIsInside(segments, shift.start, shift.end, shift.breakStart.value, shift.breakEnd.value);
    }
    hide Deducted, BeforeMs, AfterMs, InsideMs, WorkedMs, Forward, WorkedThrough;
  }

  lemma SafeFits(shift: ResolvedShift, policy: Policy, segments: seq<Segment>)
    requires Forward(segments) && OvertimeSafe(shift, policy)
    ensures var worked := Deducted(Some(shift), policy, segments).workedMs;
            worked >= 0 && ComputeOvertime(policy, shift, segments, worked / 60_000) <= worked / 60_000
  {
    var worked := Deducted(Some(shift), policy, segments).workedMs;
    DeductedIsPositive(Some(shift), policy, segments);
    if policy.overtimeEnabled && !ByExcess(shift, policy) {
      if policy.countEarlyArrivalAsOvertime {
        OutsideIsWorked(shift, policy, segments);
        var before, after := BeforeMs(segments, shift.start), AfterMs(segments, shift.end);
        FloorsAddUp(after, before, 60_000);
        FloorMonotone(after + before, worked, 60_000);
      } else {
        AfterIsWorked(shift, policy, segments);
        FloorMonotone(AfterMs(segments, shift.end), worked, 60_000);
      }
    }
    hide Deducted, BeforeMs, AfterMs, Forward, OvertimeSafe, ScheduledWorkMinutes;
  }

  // ---------------------------------------------------------------- and needed

  lemma OneSegment(shift: ResolvedShift, policy: Policy, entry: int, exit: int)
    requires entry <= exit
    ensures var segments := [Segment(Some(entry), Some(exit))];
            && WorkedMs(segments) == exit - entry && Gaps(segments) == 0
            && AfterMs(segments, shift.end) == Max(0, exit - Max(entry, shift.end))
            && BeforeMs(segments, shift.start) == Max(0, Min(exit, shift.start) - entry)
            && (forall from, to :: WorkedThrough(segments, from, to) <==> entry <= from && exit >= to)
  {
    var segments := [Segment(Some(entry), Some(exit))];
    assert segments[1..] == [];
    forall from, to ensures WorkedThrough(segments, from, to) <==> entry <= from && exit >= to {
      assert segments[0] == Segment(Some(entry), Some(exit));
    }
  }

  /** One segment, at least that long, whose overtime exceeds its work. */
  ghost predicate Exceeds(shift: ResolvedShift, policy: Policy, entry: int, exit: int) {
    var segments := [Segment(Some(entry), Some(exit))];
    var worked := Deducted(Some(shift), policy, segments).workedMs / 60_000;
    ComputeOvertime(policy, shift, segments, worked) > worked
  }

  lemma WholeMinutes(n: int, less: int)
    requires less < n * 60_000
    ensures n * 60_000 / 60_000 == n && less / 60_000 < n
  {
    DivModUnique(n * 60_000, 60_000, n, 0);
    FloorMonotone(less, n * 60_000 - 1, 60_000);
    DivModUnique(n * 60_000 - 1, 60_000, n - 1, 59_999);
  }

  /** Negative expected hours make any long enough stretch of work exceed itself. */
  lemma ExcessExceeds(shift: ResolvedShift, policy: Policy, atLeast: nat) returns (entry: int, exit: int)
    requires policy.overtimeEnabled && ByExcess(shift, policy) && ScheduledWorkMinutes(shift) < 0
    ensures exit - entry >= atLeast && Exceeds(shift, policy, entry, exit)
  {
    var n := atLeast + shift.overtimeThresholdMinutes + 1;
    entry := if HasBreak(shift) then shift.breakStart.value + 1 else 0;
    exit := entry + n * 60_000;
    OneSegment(shift, policy, entry, exit);
    WholeMinutes(n, n * 60_000 - 1);
    hide WorkedMs, Gaps, WorkedThrough, ScheduledWorkMinutes;
  }

  /** A break after the end: work from its start on, long enough. */
  lemma LateBreakExceeds(shift: ResolvedShift, policy: Policy, atLeast: nat) returns (entry: int, exit: int)
    requires policy.overtimeEnabled && !ByExcess(shift, policy)
    requires Deducts(shift, policy) && shift.breakEnd.value > shift.end
    ensures exit - entry >= atLeast && Exceeds(shift, policy, entry, exit)
  {
    var bs, be := shift.breakStart.value, shift.breakEnd.value;
    var n := atLeast + shift.overtimeThresholdMinutes + 1 + (be - Min(bs, shift.end)) + (Max(bs, shift.end) - bs);
    entry := bs;
    exit := Max(bs, shift.end) + n * 60_000;
    OneSegment(shift, policy, entry, exit);
    WholeMinutes(n, exit - be);
    hide WorkedMs, Gaps, WorkedThrough, BeforeMs, AfterMs;
  }

  /** A break before the start, where early arrivals count: work until its end, long enough. */
  lemma EarlyBreakExceeds(shift: ResolvedShift, policy: Policy, atLeast: nat) returns (entry: int, exit: int)
    requires policy.overtimeEnabled && !ByExcess(shift, policy) && policy.countEarlyArrivalAsOvertime
    requires Deducts(shift, policy) && shift.breakStart.value < shift.start
    ensures exit - entry >= atLeast && Exceeds(shift, policy, entry, exit)
  {
    var bs, be := shift.breakStart.value, shift.breakEnd.value;
    var n := atLeast + shift.overtimeThresholdMinutes + 1 + (Min(be, shift.start) - bs);
    entry := Min(be, shift.start) - n * 60_000;
    exit := be;
    OneSegment(shift, policy, entry, exit);
    WholeMinutes(n, bs - entry);
    hide WorkedMs, Gaps, WorkedThrough, BeforeMs, AfterMs;
  }

  /** A shift that ends before it starts: work around it counts twice in between. */
  lemma InvertedExceeds(shift: ResolvedShift, policy: Policy, atLeast: nat) returns (entry: int, exit: int)
    requires policy.overtimeEnabled && !ByExcess(shift, policy) && policy.countEarlyArrivalAsOvertime
    requires shift.start > shift.end
    ensures exit - entry >= atLeast && Exceeds(shift, policy, entry, exit)
  {
    var n := atLeast + shift.overtimeThresholdMinutes + 1 + (shift.start - shift.end);
    entry := shift.start - n * 60_000;
    exit := shift.end + n * 60_000;
    var segments := [Segment(Some(entry), Some(exit))];
    OneSegment(shift, policy, entry, exit);
    DeductedOnly(shift, policy, segments);
    WholeMinutes(n, n * 60_000 - 1);
    WholeMinutes(2 * n, exit - entry);
    FloorMonotone(Deducted(Some(shift), policy, segments).workedMs, exit - entry, 60_000);
    hide WorkedMs, Gaps, WorkedThrough, BeforeMs, AfterMs, Deducted;
  }

  lemma UnsafeExceeds(shift: ResolvedShift, policy: Policy, atLeast: nat) returns (entry: int, exit: int)
    requires !OvertimeSafe(shift, policy)
    ensures exit - entry >= atLeast && Exceeds(shift, policy, entry, exit)
  {
    if ByExcess(shift, policy) {
      entry, exit := ExcessExceeds(shift, policy, atLeast);
    } else if policy.countEarlyArrivalAsOvertime && shift.start > shift.end {
      entry, exit := InvertedExceeds(shift, policy, atLeast);
    } else if shift.breakEnd.value > shift.end {
      entry, exit := LateBreakExceeds(shift, policy, atLeast);
    } else {
      entry, exit := EarlyBreakExceeds(shift, policy, atLeast);
    }
  }

  // ---------------------------------------------------------------- over all inputs

  predicate WithinWork(input: CalculationInput) {
    0 <= Calculation(input).overtimeMinutes <= Calculation(input).workedMinutes
  }

  /** Overtime never exceeds the minutes worked, in either pairing, for a safe shift or none. */
  lemma OvertimeFits(input: CalculationInput)
    requires input.day.shift.Some? ==> OvertimeSafe(input.day.shift.value, input.policy)
    ensures WithinWork(input)
  {
    var kept := Selected(input.day, input.punches, input.policy).kept;
    if kept != [] {
      ClampNeverFires(input);
      KeptAscend(input.day, input.punches, input.policy);
      PairedForward(kept, input.policy.punchPairing);
      PairedSome(kept, input.policy.punchPairing);
      if input.day.shift.Some? {
        SafeFits(input.day.shift.value, input.policy, ToSegments(Paired(kept, input.policy.punchPairing)));
      }
    }
    hide Selected, Deducted, Paired, Expected, Extra, Missing, OutOfSchedule, MissingMinutes, StatusWithoutPunches,
      LateBy, EarlyBy, OvertimeSafe;
  }

  /** A worked day of that shift with one entry and one exit. */
  function OneStretch(shift: ResolvedShift, policy: Policy, entry: int, exit: int): CalculationInput {
    CalculationInput(
      WorkDayContext(0, WORKDAY, Some(shift), true, Window(entry, exit + 1)),
      [Punch("in", entry, CHECK_IN), Punch("out", exit, CHECK_OUT)], [], [], policy, exit + 1)
  }

  lemma StretchResult(shift: ResolvedShift, policy: Policy, entry: int, exit: int)
    requires entry <= exit && exit - entry >= policy.duplicatePunchWindowSeconds * 1000
    ensures var r := Calculation(OneStretch(shift, policy, entry, exit));
            var segments := [Segment(Some(entry), Some(exit))];
            && r.workedMinutes == Deducted(Some(shift), policy, segments).workedMs / 60_000
            && r.overtimeMinutes == ComputeOvertime(policy, shift, segments, r.workedMinutes)
  {
    var input := OneStretch(shift, policy, entry, exit);
    var a, b := Punch("in", entry, CHECK_IN), Punch("out", exit, CHECK_OUT);
    TwoPunches(input.day, a, b, policy);
    ClampNeverFires(input);
    PairedSome([a, b], policy.punchPairing);
    hide Selected, Deducted, Paired, Expected, Extra, Missing, OutOfSchedule, MissingMinutes, LateBy, EarlyBy;
  }

  /** The condition is exact: every day of the shift fits if and only if it holds. */
  lemma OvertimeFitsExactly(shift: ResolvedShift, policy: Policy)
    ensures (forall input: CalculationInput :: input.policy == policy && input.day.shift == Some(shift) ==>
                                                 WithinWork(input)) <==> OvertimeSafe(shift, policy)
  {
    if OvertimeSafe(shift, policy) {
      forall input: CalculationInput | input.policy == policy && input.day.shift == Some(shift)
        ensures WithinWork(input)
      {
        OvertimeFits(input);
      }
    } else {
      var entry, exit := UnsafeExceeds(shift, policy, policy.duplicatePunchWindowSeconds * 1000);
      StretchResult(shift, policy, entry, exit);
      assert !WithinWork(OneStretch(shift, policy, entry, exit));
    }
    hide OvertimeSafe, Calculation, Deducted, ComputeOvertime;
  }

  /** An instance: a shift to 17:00 with its break at 18:00, worked from 17:00 to 20:00. */
  lemma BreakOutsideExceeds()
    ensures var hour := 3_600_000;
            var shift := ResolvedShift("s", false, 8 * hour, 17 * hour, Some(18 * hour), Some(19 * hour), 0, 0, 0);
            var policy := DEFAULT_POLICY;
            var r := Calculation(OneStretch(shift, policy, 17 * hour, 20 * hour));
            r.overtimeMinutes == 180 && r.workedMinutes == 120
  {
    var hour := 3_600_000;
    var shift := ResolvedShift("s", false, 8 * hour, 17 * hour, Some(18 * hour), Some(19 * hour), 0, 0, 0);
    var policy := DEFAULT_POLICY;
    StretchResult(shift, policy, 17 * hour, 20 * hour);
    OneSegment(shift, policy, 17 * hour, 20 * hour);
    hide Calculation, WorkedMs, Gaps, AfterMs, BeforeMs, WorkedThrough;
  }
}
