/**
 What the attendance summary keeps: a closed day depends on its punches and not on the clock or
 their order, time is conserved, overtime fits in the work, and leave credit in the schedule.
 */
module AttendanceLaws {
  import opened Arith
  import opened AttendanceCalculator
  import opened AttendanceTypes
  import opened LeaveRequests
  import opened PunchOrder
  import opened PunchPairing
  import opened Sorting
  import WorkDay
  import opened Wrappers

  // ---------------------------------------------------------------- a closed day

  /** A shift with fixed hours is over by the end of the day's window. */
  predicate ShiftInWindow(day: WorkDayContext) {
    day.shift.Some? && !day.shift.value.flexible ==>
      day.shift.value.start <= day.window.to && day.shift.value.end <= day.window.to
  }

  /** The window a day is built with ends after the shift; a shift turned around by a clock change may start past it. */
  lemma BuiltDayHoldsShift(workDate: int, z: WorkDay.Zone, policy: Policy, template: Option<WorkDay.ShiftTemplate>,
                           isHoliday: bool, hasSchedule: bool)
    ensures ShiftInWindow(WorkDay.BuildWorkDay(workDate, z, policy, template, isHoliday, hasSchedule))
       <==> (template.Some? && !template.value.flexible && !isHoliday ==>
               var shift := WorkDay.ResolveShift(template.value, workDate, z, policy);
               shift.start <= shift.end + policy.punchWindowAfterShiftMinutes * 60_000)
  {
  }

  lemma {:induction false} ExpectedEndNoLater(shift: ResolvedShift, leaves: seq<LeaveInterval>, t: int)
    requires shift.start <= t && shift.end <= t
    ensures Expected(shift, leaves).end <= t
  {
    if leaves != [] {
      ExpectedEndNoLater(shift, leaves[..|leaves| - 1], t);
    }
  }

  predicate MovesStart(shift: ResolvedShift, l: LeaveInterval) {
    l.start <= shift.start && l.end > shift.start
  }

  predicate MovesEnd(shift: ResolvedShift, l: LeaveInterval) {
    l.start < shift.end && l.end >= shift.end
  }

  /** Disjoint leaves: at most one moves the arrival. */
  lemma {:induction false} StartByMembers(shift: ResolvedShift, leaves: seq<LeaveInterval>)
    requires PairwiseDisjoint(leaves)
    ensures forall i :: 0 <= i < |leaves| && MovesStart(shift, leaves[i]) ==>
                          Expected(shift, leaves).start == Min(leaves[i].end, shift.end)
    ensures (forall i :: 0 <= i < |leaves| ==> !MovesStart(shift, leaves[i])) ==>
              Expected(shift, leaves).start == shift.start
  {
    if leaves != [] {
      var n := |leaves| - 1;
      StartByMembers(shift, leaves[..n]);
      assert forall i :: 0 <= i < n ==> leaves[i] == leaves[..n][i];
      assert MovesStart(shift, leaves[n]) ==> forall i :: 0 <= i < n ==> !MovesStart(shift, leaves[i]);
      hide PairwiseDisjoint;
    }
  }

  /** And at most one the departure. */
  lemma {:induction false} EndByMembers(shift: ResolvedShift, leaves: seq<LeaveInterval>)
    requires PairwiseDisjoint(leaves)
    ensures forall i :: 0 <= i < |leaves| && MovesEnd(shift, leaves[i]) ==>
                          Expected(shift, leaves).end == Max(leaves[i].start, shift.start)
    ensures (forall i :: 0 <= i < |leaves| ==> !MovesEnd(shift, leaves[i])) ==> Expected(shift, leaves).end == shift.end
  {
    if leaves != [] {
      var n := |leaves| - 1;
      EndByMembers(shift, leaves[..n]);
      assert forall i :: 0 <= i < n ==> leaves[i] == leaves[..n][i];
      assert MovesEnd(shift, leaves[n]) ==> forall i :: 0 <= i < n ==> !MovesEnd(shift, leaves[i]);
      hide PairwiseDisjoint;
    }
  }

  lemma ExpectedOrderFree(shift: ResolvedShift, a: seq<LeaveInterval>, b: seq<LeaveInterval>)
    requires multiset(a) == multiset(b) && PairwiseDisjoint(a) && PairwiseDisjoint(b)
    ensures Expected(shift, a) == Expected(shift, b)
  {
    SameMembers(a, b);
    StartByMembers(shift, a);
    StartByMembers(shift, b);
    EndByMembers(shift, a);
    EndByMembers(shift, b);
    hide Expected, PairwiseDisjoint, MovesStart, MovesEnd;
    if i :| 0 <= i < |a| && MovesStart(shift, a[i]) {
      assert a[i] in b;
    }
    if i :| 0 <= i < |a| && MovesEnd(shift, a[i]) {
      assert a[i] in b;
    }
    assert forall i :: 0 <= i < |b| ==> b[i] in a;
  }

  lemma SameMembers<T>(a: seq<T>, b: seq<T>)
    requires multiset(a) == multiset(b)
    ensures forall x :: x in a <==> x in b
  {
    assert forall x :: x in a <==> x in multiset(a);
    assert forall x :: x in b <==> x in multiset(b);
  }

  lemma {:induction false} OnLeaveConcat(shift: ResolvedShift, a: seq<LeaveInterval>, b: seq<LeaveInterval>)
    ensures OnLeaveMs(shift, a + b) == OnLeaveMs(shift, a) + OnLeaveMs(shift, b)
  {
    if a == [] {
      assert a + b == b;
    } else {
      OnLeaveConcat(shift, a[1..], b);
      assert (a + b)[1..] == a[1..] + b;
    }
  }

  lemma {:induction false} OnLeaveOrderFree(shift: ResolvedShift, a: seq<LeaveInterval>, b: seq<LeaveInterval>)
    requires multiset(a) == multiset(b)
    ensures OnLeaveMs(shift, a) == OnLeaveMs(shift, b)
  {
    assert |a| == |multiset(a)| == |multiset(b)| == |b|;
    if a != [] {
      var i := TakeOut(a, b);
      var before, after := b[..i], b[i + 1..];
      OnLeaveOrderFree(shift, a[1..], before + after);
      OnLeaveConcat(shift, before, [b[i]] + after);
      OnLeaveConcat(shift, before, after);
      assert ([b[i]] + after)[1..] == after;
      hide LeaveMs;
    }
  }

  /** Everything but which punches were ignored. */
  function Settled(r: CalculationResult): CalculationResult {
    r.(ignoredPunchIds := [])
  }

  /** The same leaves, or the same in another order where no two share an instant. */
  ghost predicate SameLeaves(a: seq<LeaveInterval>, b: seq<LeaveInterval>) {
    a == b || (multiset(a) == multiset(b) && PairwiseDisjoint(a) && PairwiseDisjoint(b))
  }

  /** The same clock, or two at which the day is closed. */
  predicate SameClock(day: WorkDayContext, a: int, b: int) {
    a == b || (ShiftInWindow(day) && a >= day.window.to && b >= day.window.to)
  }

  lemma EmptyAlike(a: CalculationInput, b: CalculationInput, x: seq<string>, y: seq<string>)
    requires a.day == b.day && SameLeaves(a.leaves, b.leaves) && SameClock(a.day, a.now, b.now)
    requires (a.strays == [] <==> b.strays == []) && |x| == |y|
    ensures Settled(Empty(a, x)) == Settled(Empty(b, y))
  {
    assert multiset(a.leaves) == multiset(b.leaves);
    SameMembers(a.leaves, b.leaves);
    if a.day.shift.Some? {
      var start, end := a.day.shift.value.start, a.day.shift.value.end;
      assert (exists l :: l in a.leaves && l.start <= start && l.end >= end)
        <==> (exists l :: l in b.leaves && l.start <= start && l.end >= end);
      CoveredByMember(a.leaves, start, end);
      CoveredByMember(b.leaves, start, end);
    }
  }

  lemma CoveredByMember(leaves: seq<LeaveInterval>, start: int, end: int)
    ensures (exists i :: 0 <= i < |leaves| && leaves[i].start <= start && leaves[i].end >= end)
       <==> (exists l :: l in leaves && l.start <= start && l.end >= end)
  {
    if l :| l in leaves && l.start <= start && l.end >= end {
      var i :| 0 <= i < |leaves| && leaves[i] == l;
    }
  }

  lemma LeavesAlike(shift: ResolvedShift, a: seq<LeaveInterval>, b: seq<LeaveInterval>)
    requires SameLeaves(a, b)
    ensures Expected(shift, a) == Expected(shift, b) && OnLeaveMs(shift, a) == OnLeaveMs(shift, b)
  {
    if a != b {
      ExpectedOrderFree(shift, a, b);
      OnLeaveOrderFree(shift, a, b);
    }
  }

  lemma EndPassedAlike(day: WorkDayContext, a: seq<LeaveInterval>, b: seq<LeaveInterval>, aNow: int, bNow: int)
    requires SameLeaves(a, b) && SameClock(day, aNow, bNow)
    ensures day.shift.Some? && !day.shift.value.flexible ==> EndPassed(day, a, aNow) == EndPassed(day, b, bNow)
  {
    if day.shift.Some? && !day.shift.value.flexible {
      LeavesAlike(day.shift.value, a, b);
      if aNow != bNow {
        ExpectedEndNoLater(day.shift.value, a, day.window.to);
      }
    }
    hide Expected, SameLeaves;
  }

  lemma SummaryAlike(a: CalculationInput, b: CalculationInput, isFinal: bool, segments: seq<Segment>, times: seq<int>,
                     x: seq<string>, y: seq<string>, marks: seq<Anomaly>)
    requires a.day == b.day && a.policy == b.policy && segments != []
    requires SameLeaves(a.leaves, b.leaves) && SameClock(a.day, a.now, b.now)
    ensures Settled(Summary(a.day, a.policy, a.leaves, isFinal, EndPassed(a.day, a.leaves, a.now), segments, times, x,
                            marks))
         == Settled(Summary(b.day, b.policy, b.leaves, isFinal, EndPassed(b.day, b.leaves, b.now), segments, times, y,
                            marks))
  {
    BaseSegments(a.day, a.policy, isFinal, segments, x, marks);
    BaseSegments(b.day, b.policy, isFinal, segments, y, marks);
    BaseAlike(a.day, a.policy, isFinal, segments, x, y, marks);
    if a.day.shift.Some? {
      var shift := a.day.shift.value;
      LeavesAlike(shift, a.leaves, b.leaves);
      EndPassedAlike(a.day, a.leaves, b.leaves, a.now, b.now);
      ScheduledAlike(shift, a.policy, a.leaves, b.leaves, EndPassed(a.day, a.leaves, a.now),
                     EndPassed(b.day, b.leaves, b.now), times,
                     Base(a.day, a.policy, isFinal, segments, x, marks),
                     Base(b.day, b.policy, isFinal, segments, y, marks));
    }
    hide Base, Scheduled, EndPassed, SameLeaves, SameClock;
  }

  lemma BaseAlike(day: WorkDayContext, policy: Policy, isFinal: bool, segments: seq<Segment>, x: seq<string>,
                  y: seq<string>, marks: seq<Anomaly>)
    ensures Settled(Base(day, policy, isFinal, segments, x, marks))
         == Settled(Base(day, policy, isFinal, segments, y, marks))
  {
  }

  lemma ScheduledAlike(shift: ResolvedShift, policy: Policy, a: seq<LeaveInterval>, b: seq<LeaveInterval>,
                       aPassed: bool, bPassed: bool,
                       times: seq<int>, x: CalculationResult, y: CalculationResult)
    requires Settled(x) == Settled(y) && x.segments != []
    requires Expected(shift, a) == Expected(shift, b) && OnLeaveMs(shift, a) == OnLeaveMs(shift, b)
    requires !shift.flexible ==> aPassed == bPassed
    ensures Settled(Scheduled(shift, policy, a, aPassed, times, x))
         == Settled(Scheduled(shift, policy, b, bPassed, times, y))
  {
    hide Expected, OnLeaveMs, ComputeOvertime, OutOfSchedule, Add, MinutesBetween, LateBy;
  }

  /** A day with punches: its segments, and what they come to. */
  lemma CalculationOfSegments(input: CalculationInput)
    ensures var s := Selected(input.day, input.punches, input.policy);
            var segments := ToSegments(Paired(s.kept, input.policy.punchPairing));
            s.kept != [] ==>
              && segments != []
              && Calculation(input) == Summary(
                                         input.day, input.policy, input.leaves, input.now >= input.day.window.to,
                                         EndPassed(input.day, input.leaves, input.now), segments, Keys(s.kept, At),
                                         Ids(s.ignored),
                                         Marks(s.ignored != [], input.strays != []))
              && Calculation(input).segments == segments
  {
    var kept := Selected(input.day, input.punches, input.policy).kept;
    if kept != [] {
      PairedSome(kept, input.policy.punchPairing);
    }
    hide Selected, Paired, Deducted, Expected, ComputeOvertime, Missing, OutOfSchedule, MissingMinutes, FirstIn,
      LastOut;
  }

  /** Two listings of the same punches with the same segments. */
  lemma SameSegments(a: CalculationInput, b: CalculationInput)
    requires a.day == b.day && a.policy == b.policy
    requires multiset(a.punches) == multiset(b.punches) && (a.strays == [] <==> b.strays == [])
    requires SameLeaves(a.leaves, b.leaves) && SameClock(a.day, a.now, b.now)
    requires ToSegments(Paired(Selected(a.day, a.punches, a.policy).kept, a.policy.punchPairing))
          == ToSegments(Paired(Selected(b.day, b.punches, b.policy).kept, b.policy.punchPairing))
    ensures Settled(Calculation(a)) == Settled(Calculation(b))
  {
    var x, y := Selected(a.day, a.punches, a.policy), Selected(b.day, b.punches, b.policy);
    hide Empty, Summary, EndPassed, Selected, SameLeaves, ShiftInWindow, Paired;
    SelectedOrderFree(a.day, a.punches, b.punches, a.policy);
    if x.kept == [] {
      assert y.kept == [];
      EmptyAlike(a, b, Ids(x.ignored), Ids(y.ignored));
    } else {
      CalculationOfSegments(a);
      CalculationOfSegments(b);
      SummaryAlike(a, b, a.now >= a.day.window.to, ToSegments(Paired(x.kept, a.policy.punchPairing)), Keys(x.kept, At),
                   Ids(x.ignored), Ids(y.ignored),
                   Marks(x.ignored != [], a.strays != []));
    }
  }

  /**
   Where the order is harmless, a result is a function of the set of punches: apart from the
   ignored ids it depends neither on their order, nor on the order of leaves of which no two share
   an instant, nor, once the day is closed, on the clock.
   */
  lemma AnyOrder(a: CalculationInput, b: CalculationInput)
    requires a.day == b.day && a.policy == b.policy && OrderHarmless(a.day, a.punches, a.policy)
    requires multiset(a.punches) == multiset(b.punches) && (a.strays == [] <==> b.strays == [])
    requires SameLeaves(a.leaves, b.leaves) && SameClock(a.day, a.now, b.now)
    ensures Settled(Calculation(a)) == Settled(Calculation(b))
  {
    var x, y := Selected(a.day, a.punches, a.policy).kept, Selected(b.day, b.punches, b.policy).kept;
    hide Calculation, Selected, TiesReadAlike, SameLeaves, SameClock;
    SelectedOrderFree(a.day, a.punches, b.punches, a.policy);
    if a.policy.punchPairing == SEQUENTIAL {
      AlternatingByTime(x);
      AlternatingByTime(y);
      SameSegments(a, b);
    } else {
      TiesKeepReadings(a.day, a.punches, b.punches, a.policy);
      ReadAlikeComesToTheSame(a, b);
    }
  }

  /** Paired by key, listings whose kept punches are read alike come to the same. */
  lemma ReadAlikeComesToTheSame(a: CalculationInput, b: CalculationInput)
    requires a.day == b.day && a.policy == b.policy && a.policy.punchPairing == DEVICE_TYPE
    requires multiset(a.punches) == multiset(b.punches) && (a.strays == [] <==> b.strays == [])
    requires SameLeaves(a.leaves, b.leaves) && SameClock(a.day, a.now, b.now)
    requires Readings(Selected(a.day, a.punches, a.policy).kept) == Readings(Selected(b.day, b.punches, b.policy).kept)
    ensures Settled(Calculation(a)) == Settled(Calculation(b))
  {
    hide Calculation, Selected, SameLeaves, SameClock;
    SelectedOrderFree(a.day, a.punches, b.punches, a.policy);
    SegmentsTell(Selected(a.day, a.punches, a.policy).kept, Selected(b.day, b.punches, b.policy).kept);
    SameSegments(a, b);
  }

  /** Another listing of the same punches. */
  function Listed(input: CalculationInput, punches: seq<Punch>): CalculationInput {
    input.(punches := punches)
  }

  /** Every listing of these punches comes to the same. */
  ghost predicate AnyListing(input: CalculationInput) {
    forall punches :: multiset(punches) == multiset(input.punches) ==>
                        Settled(Calculation(Listed(input, punches))) == Settled(Calculation(input))
  }

  /**
   The condition is exact: no listing changes the result if and only if the pairing is sequential,
   or no punch made at the instant of a kept one would be read otherwise in its place.
   */
  lemma AnyOrderExactly(input: CalculationInput)
    ensures AnyListing(input) <==> OrderHarmless(input.day, input.punches, input.policy)
  {
    hide Calculation, Settled, TiesReadAlike;
    if OrderHarmless(input.day, input.punches, input.policy) {
      forall punches | multiset(punches) == multiset(input.punches)
        ensures Settled(Calculation(Listed(input, punches))) == Settled(Calculation(input))
      {
        AnyOrder(input, Listed(input, punches));
      }
    } else {
      SomeListingDiffers(input);
    }
  }

  lemma SomeListingDiffers(input: CalculationInput)
    requires !OrderHarmless(input.day, input.punches, input.policy)
    ensures !AnyListing(input)
  {
    var kept := Selected(input.day, input.punches, input.policy).kept;
    hide Calculation, Selected, ReadsLike, Fronted;
    var i, p :| 0 <= i < |kept| && p in input.punches && !ReadsLike(kept, i, p);
    TieIsSeen(input.day, input.punches, input.policy, i, p);
    var a, b := Listed(input, Fronted(input.punches, p, kept[i])), Listed(input, Fronted(input.punches, kept[i], p));
    ReadOtherwise(a, b);
    hide Settled;
    assert a == Listed(input, a.punches) && b == Listed(input, b.punches);
  }

  /** Paired by key, listings whose kept punches are read otherwise come to something else. */
  lemma ReadOtherwise(a: CalculationInput, b: CalculationInput)
    requires a.day == b.day && a.policy == b.policy && a.policy.punchPairing == DEVICE_TYPE
             && multiset(a.punches) == multiset(b.punches)
    requires Readings(Selected(a.day, a.punches, a.policy).kept) != Readings(Selected(b.day, b.punches, b.policy).kept)
    ensures Settled(Calculation(a)) != Settled(Calculation(b))
    ensures Calculation(a).segments != Calculation(b).segments
  {
    var x, y := Selected(a.day, a.punches, a.policy).kept, Selected(b.day, b.punches, b.policy).kept;
    hide Calculation, Selected;
    SelectedOrderFree(a.day, a.punches, b.punches, a.policy);
    SegmentsTell(x, y);
    assert x != [] || y != [];
    CalculationOfSegments(a);
    CalculationOfSegments(b);
  }

  /**
   A closed day: once `now` reaches the end of the window, two recomputations of the same punches
   agree, whatever the clock and the order.
   */
  lemma ClosedDay(a: CalculationInput, b: CalculationInput)
    requires a.day == b.day && a.policy == b.policy && OrderHarmless(a.day, a.punches, a.policy) && ShiftInWindow(a.day)
    requires multiset(a.punches) == multiset(b.punches) && (a.strays == [] <==> b.strays == [])
    requires SameLeaves(a.leaves, b.leaves)
    requires a.now >= a.day.window.to && b.now >= b.day.window.to
    ensures Settled(Calculation(a)) == Settled(Calculation(b))
  {
    AnyOrder(a, b);
  }

  // ---------------------------------------------------------------- a tie read two ways

  /** The default policy, but for trusting the keys. */
  const BY_KEY: Policy := DEFAULT_POLICY.(punchPairing := DEVICE_TYPE)

  /** Someone without a schedule, on 1 January 1970 in UTC. */
  function TiedDay(punches: seq<Punch>): CalculationInput {
    CalculationInput(WorkDay.BuildWorkDay(0, WorkDay.Utc(), BY_KEY, None, false, false), punches, [], [], BY_KEY,
                     24 * 3_600_000)
  }

  /** In and out in the same second at 08:00, as from two terminals, and out at 17:00: nine hours, or none. */
  lemma DevicePairingNeedsOrder()
    ensures var hour := 3_600_000;
            var x, y, z := Punch("x", 8 * hour, CHECK_IN), Punch("y", 8 * hour, CHECK_OUT),
                           Punch("z", 17 * hour, CHECK_OUT);
            && Calculation(TiedDay([x, y, z])).workedMinutes == 540
            && Calculation(TiedDay([y, x, z])).workedMinutes == 0
  {
    var hour := 3_600_000;
    var x, y, z := Punch("x", 8 * hour, CHECK_IN), Punch("y", 8 * hour, CHECK_OUT), Punch("z", 17 * hour, CHECK_OUT);
    TiedResult(x, y, z);
    TiedResult(y, x, z);
  }

  /** The second of the two is a double press of the first. */
  lemma TiedSelected(a: Punch, b: Punch, z: Punch)
    requires a.at == b.at == 8 * 3_600_000 && z.at == 17 * 3_600_000
    ensures Selected(TiedDay([a, b, z]).day, [a, b, z], BY_KEY) == Selection([a, z], [b])
  {
    var all := [a, b, z];
    hide Within, SortBy, Dropped;
    AllBefore(all, 0, 24 * 3_600_000);
    SortedAlready(all, At);
    FirstOfTwoKept(a, b, z, 60);
  }

  lemma TiedResult(a: Punch, b: Punch, z: Punch)
    requires a.at == b.at == 8 * 3_600_000 && z.at == 17 * 3_600_000 && z.kind == CHECK_OUT
    requires a.kind == CHECK_IN || a.kind == CHECK_OUT
    ensures Calculation(TiedDay([a, b, z])).workedMinutes == if a.kind == CHECK_IN then 540 else 0
  {
    TiedSelected(a, b, z);
    CalculationOfSegments(TiedDay([a, b, z]));
    TiedPairs(a, z);
    hide Selected, Paired, Missing, FirstIn, LastOut;
  }

  lemma TiedPairs(a: Punch, z: Punch)
    requires z.kind == CHECK_OUT && (a.kind == CHECK_IN || a.kind == CHECK_OUT)
    ensures var segments := ToSegments(Paired([a, z], DEVICE_TYPE));
            WorkedMs(segments) == if a.kind == CHECK_IN then z.at - a.at else 0
  {
    assert [a, z][..1] == [a] && [a][..0] == [];
    assert PressedAll([a]) == Pressed(Pressing([], None), a);
    assert PressedAll([a, z]) == Pressed(PressedAll([a]), z);
    var segments := ToSegments(Paired([a, z], DEVICE_TYPE));
    if a.kind == CHECK_IN {
      var one := Segment(Some(a.at), Some(z.at));
      assert segments == [one] && segments[1..] == [];
      assert WorkedMs(segments) == Length(one) + WorkedMs([]);
    } else {
      var one, two := Segment(None, Some(a.at)), Segment(None, Some(z.at));
      assert segments == [one, two] && segments[1..] == [two] && [two][1..] == [];
      assert WorkedMs(segments) == Length(one) + WorkedMs([two]) && WorkedMs([two]) == Length(two) + WorkedMs([]);
    }
  }

  // ---------------------------------------------------------------- time is conserved

  /** Whether or not the break was deducted, work and pauses fill the time from first to last punch. */
  lemma TimeIsConserved(input: CalculationInput)
    requires input.policy.punchPairing == SEQUENTIAL
    requires Selected(input.day, input.punches, input.policy).kept != []
    ensures var kept := Selected(input.day, input.punches, input.policy).kept;
            var totals := Deducted(input.day.shift, input.policy, ToSegments(Paired(kept, SEQUENTIAL)));
            && totals.workedMs + totals.breakMs == kept[|kept| - 1].at - kept[0].at
            && 0 <= totals.workedMs && 0 <= totals.breakMs
            && Calculation(input).workedMinutes == totals.workedMs / 60_000
            && Calculation(input).breakMinutes == totals.breakMs / 60_000
  {
    var kept := Selected(input.day, input.punches, input.policy).kept;
    KeptAscend(input.day, input.punches, input.policy);
    AlternatingByTime(kept);
    WorkAndPausesFillTheDay(Keys(kept, At));
    ClampNeverFires(input);
    hide Selected, Alternating, Keys;
  }

  predicate ForwardBreaks(segments: seq<Segment>, from: int, to: int) {
    Forward(segments) && WorkedThrough(segments, from, to)
  }

  lemma {:induction false} ForwardWorks(segments: seq<Segment>)
    requires Forward(segments)
    ensures WorkedMs(segments) >= 0
  {
    if segments != [] {
      assert Length(segments[0]) >= 0;
      assert forall i :: 0 <= i < |segments[1..]| ==> segments[1..][i] == segments[i + 1];
      ForwardWorks(segments[1..]);
    }
  }

  /** Of a break worked through, never more is deducted than was worked. */
  lemma {:induction false} WorkedThroughIsLong(segments: seq<Segment>, from: int, to: int)
    requires ForwardBreaks(segments, from, to)
    ensures WorkedMs(segments) >= to - from
  {
    assert Length(segments[0]) >= 0;
    assert forall i :: 0 <= i < |segments[1..]| ==> segments[1..][i] == segments[i + 1];
    ForwardWorks(segments[1..]);
    var i :| 0 <= i < |segments| && IsComplete(segments[i]) && segments[i].entry.value <= from
             && segments[i].exit.value >= to;
    if i > 0 {
      assert segments[1..][i - 1] == segments[i];
      WorkedThroughIsLong(segments[1..], from, to);
    }
  }

  lemma DeductedIsPositive(shift: Option<ResolvedShift>, policy: Policy, segments: seq<Segment>)
    requires Forward(segments)
    ensures Deducted(shift, policy, segments).workedMs >= 0
  {
    ForwardWorks(segments);
    if shift.Some? && HasBreak(shift.value)
       && WorkedThrough(segments, shift.value.breakStart.value, shift.value.breakEnd.value) {
      WorkedThroughIsLong(segments, shift.value.breakStart.value, shift.value.breakEnd.value);
    }
    hide WorkedMs, Gaps, Forward, WorkedThrough;
  }

  /** In either pairing the clamp at zero changes nothing. */
  lemma ClampNeverFires(input: CalculationInput)
    requires Selected(input.day, input.punches, input.policy).kept != []
    ensures var kept := Selected(input.day, input.punches, input.policy).kept;
            var totals := Deducted(input.day.shift, input.policy, ToSegments(Paired(kept, input.policy.punchPairing)));
            totals.workedMs >= 0 && Calculation(input).workedMinutes == totals.workedMs / 60_000
            && Calculation(input).breakMinutes == totals.breakMs / 60_000
  {
    var kept := Selected(input.day, input.punches, input.policy).kept;
    KeptAscend(input.day, input.punches, input.policy);
    PairedForward(kept, input.policy.punchPairing);
    PairedSome(kept, input.policy.punchPairing);
    DeductedIsPositive(input.day.shift, input.policy, ToSegments(Paired(kept, input.policy.punchPairing)));
    hide Selected, Deducted, Paired, Expected, ComputeOvertime, Missing, OutOfSchedule, MissingMinutes;
  }

  lemma {:induction false} EvenEndsWithExit(times: seq<int>)
    requires |times| > 0 && |times| % 2 == 0
    ensures var s := SegmentsOf(times); s != [] && s[|s| - 1].exit == Some(times[|times| - 1])
  {
    if |times| > 2 {
      EvenEndsWithExit(times[2..]);
    }
  }

  lemma {:induction false} OddEndsOpen(times: seq<int>)
    requires |times| % 2 == 1
    ensures SegmentsOf(times) == SegmentsOf(times[..|times| - 1]) + [Segment(Some(times[|times| - 1]), None)]
  {
    if |times| > 2 {
      OddEndsOpen(times[2..]);
      assert times[2..][..|times| - 3] == times[..|times| - 1][2..];
    }
  }

  /** Alternating, the day starts at the first kept punch and ends at the last one with an entry before it. */
  lemma FirstAndLast(input: CalculationInput)
    requires input.policy.punchPairing == SEQUENTIAL
    requires Selected(input.day, input.punches, input.policy).kept != []
    ensures var kept := Selected(input.day, input.punches, input.policy).kept;
            var r := Calculation(input);
            && r.firstIn == Some(kept[0].at)
            && r.lastOut == if |kept| == 1 then None else Some(kept[|kept| - 1 - |kept| % 2].at)
  {
    var kept := Selected(input.day, input.punches, input.policy).kept;
    hide Selected, FirstIn, LastOut, SegmentsOf, Alternating;
    ReadFromSegments(input);
    AlternatingByTime(kept);
    TimesFirstAndLast(Keys(kept, At));
  }

  lemma ReadFromSegments(input: CalculationInput)
    requires Selected(input.day, input.punches, input.policy).kept != []
    ensures var segments := ToSegments(Paired(Selected(input.day, input.punches, input.policy).kept,
                                              input.policy.punchPairing));
            Calculation(input).firstIn == FirstIn(segments) && Calculation(input).lastOut == LastOut(segments)
  {
    CalculationOfSegments(input);
    hide Selected, Paired, Deducted, Expected, ComputeOvertime, Missing, OutOfSchedule, MissingMinutes, FirstIn,
      LastOut;
  }

  lemma TimesFirstAndLast(times: seq<int>)
    requires times != []
    ensures FirstIn(SegmentsOf(times)) == Some(times[0])
    ensures LastOut(SegmentsOf(times)) == if |times| == 1 then None else Some(times[|times| - 1 - |times| % 2])
  {
    hide SegmentsOf, FirstIn, LastOut;
    StartsWithEntry(times);
    if |times| % 2 == 0 {
      EvenEndsWithExit(times);
      EndsWithExit(SegmentsOf(times));
    } else {
      var before := times[..|times| - 1];
      OddEndsOpen(times);
      OpenLast(SegmentsOf(before), times[|times| - 1]);
      NoTimes(before);
      if |times| > 1 {
        EvenEndsWithExit(before);
        EndsWithExit(SegmentsOf(before));
      }
    }
  }

  lemma StartsWithEntry(times: seq<int>)
    requires times != []
    ensures FirstIn(SegmentsOf(times)) == Some(times[0])
  {
  }

  lemma EndsWithExit(segments: seq<Segment>)
    requires segments != [] && segments[|segments| - 1].exit.Some?
    ensures LastOut(segments) == segments[|segments| - 1].exit
  {
  }

  lemma NoTimes(times: seq<int>)
    ensures times == [] ==> LastOut(SegmentsOf(times)) == None
  {
  }

  lemma OpenLast(segments: seq<Segment>, t: int)
    ensures LastOut(segments + [Segment(Some(t), None)]) == LastOut(segments)
  {
    assert (segments + [Segment(Some(t), None)])[..|segments|] == segments;
  }

  /** An entry and an exit far enough apart make one segment, in either pairing. */
  lemma TwoPunches(day: WorkDayContext, a: Punch, b: Punch, policy: Policy)
    requires a.kind == CHECK_IN && b.kind == CHECK_OUT
    requires day.window.from <= a.at <= b.at < day.window.to
    requires b.at - a.at >= policy.duplicatePunchWindowSeconds * 1000
    ensures Selected(day, [a, b], policy) == Selection([a, b], [])
    ensures ToSegments(Paired([a, b], policy.punchPairing)) == [Segment(Some(a.at), Some(b.at))]
  {
    assert [a, b][1..] == [b];
    assert Within([b], day.window) == [b];
    assert Within([a, b], day.window) == [a, b];
    assert SortBy([b], At) == [b];
    assert SortBy([a, b], At) == [a, b];
    assert [a, b][..1] == [a];
    assert [a][..0] == [];
    assert Dropped([a], policy.duplicatePunchWindowSeconds) == Selection([a], []);
    TwoPaired(a, b, policy.punchPairing);
  }

  lemma TwoPaired(a: Punch, b: Punch, pairing: Pairing)
    requires a.kind == CHECK_IN && b.kind == CHECK_OUT
    ensures Paired([a, b], pairing) == [PunchPair(Some(a), Some(b))]
  {
    assert [a, b][2..] == [];
    assert [a, b][..1] == [a];
    assert [a][..0] == [];
    assert PressedAll([a]) == Pressing([], Some(a));
    assert PressedAll([a, b]) == Pressed(PressedAll([a]), b);
    assert Alternating([a, b]) == [PunchPair(Some(a), Some(b))] + Alternating([a, b][2..]);
    assert [PunchPair(Some(a), Some(b))] + [] == [PunchPair(Some(a), Some(b))];
  }

  // ---------------------------------------------------------------- the anomalies tell what was found

  predicate NoRepeats(s: seq<Anomaly>) {
    forall i, j :: 0 <= i < j < |s| ==> s[i] != s[j]
  }

  /** An anomaly is there once, and exactly when its finding is. */
  predicate Tells(s: seq<Anomaly>, a: Anomaly, found: bool) {
    a in s <==> found
  }

  lemma AddTells(s: seq<Anomaly>, a: Anomaly, when: bool)
    ensures forall x :: x in Add(s, a, when) <==> x in s || (when && x == a)
    ensures NoRepeats(s) ==> NoRepeats(Add(s, a, when))
  {
  }

  predicate NoEntry(segments: seq<Segment>, k: nat)
    requires k <= |segments|
  {
    exists i :: 0 <= i < k && segments[i].entry == None
  }

  predicate NoExit(segments: seq<Segment>, isFinal: bool, k: nat)
    requires k <= |segments|
  {
    exists i :: 0 <= i < k && segments[i].exit == None && (isFinal || i < |segments| - 1)
  }

  lemma {:induction false} MissingTells(marks: seq<Anomaly>, segments: seq<Segment>, isFinal: bool, k: nat)
    requires k <= |segments| && NoRepeats(marks)
    ensures var s := Missing(marks, segments, isFinal, k);
            && NoRepeats(s)
            && forall x :: x in s <==>
                           || x in marks
                           || (x == MISSING_CHECK_IN && NoEntry(segments, k))
                           || (x == MISSING_CHECK_OUT && NoExit(segments, isFinal, k))
  {
    if k > 0 {
      MissingTells(marks, segments, isFinal, k - 1);
      var s := segments[k - 1];
      var ongoing := k == |segments| && !isFinal;
      var before := Missing(marks, segments, isFinal, k - 1);
      AddTells(before, MISSING_CHECK_IN, s.entry == None);
      AddTells(Add(before, MISSING_CHECK_IN, s.entry == None), MISSING_CHECK_OUT, s.exit == None && !ongoing);
      assert NoEntry(segments, k) <==> NoEntry(segments, k - 1) || s.entry == None;
      assert NoExit(segments, isFinal, k) <==> NoExit(segments, isFinal, k - 1) || (s.exit == None && !ongoing);
      hide Add, NoRepeats, NoEntry, NoExit;
    }
  }

  /** What the findings behind the anomalies are. */
  predicate FindingsTold(r: CalculationResult) {
    && NoRepeats(r.anomalies)
    && Tells(r.anomalies, LATE_ARRIVAL, r.lateMinutes > 0) && r.lateMinutes >= 0
    && Tells(r.anomalies, EARLY_LEAVE, r.earlyLeaveMinutes > 0) && r.earlyLeaveMinutes >= 0
    && Tells(r.anomalies, OVERTIME, r.overtimeMinutes > 0) && r.overtimeMinutes >= 0
    && Tells(r.anomalies, SHORT_HOURS, r.shortMinutes > 0) && r.shortMinutes >= 0
    && Tells(r.anomalies, MISSING_CHECK_IN, NoEntry(r.segments, |r.segments|))
    && Tells(r.anomalies, MISSING_CHECK_OUT, NoExit(r.segments, r.isFinal, |r.segments|))
    && (r.overtimeKind.Some? <==> r.overtimeMinutes > 0)
  }

  predicate Unmarked(s: seq<Anomaly>) {
    forall a :: a in s ==> a == DUPLICATE_PUNCH || a == STRAY_PUNCH
  }

  lemma BaseMembers(day: WorkDayContext, policy: Policy, isFinal: bool, segments: seq<Segment>, ids: seq<string>,
                    marks: seq<Anomaly>)
    requires NoRepeats(marks)
    ensures var base := Base(day, policy, isFinal, segments, ids, marks);
            && NoRepeats(base.anomalies)
            && forall x :: x in base.anomalies <==>
                           || x in marks
                           || (x == MISSING_CHECK_IN && NoEntry(segments, |segments|))
                           || (x == MISSING_CHECK_OUT && NoExit(segments, isFinal, |segments|))
                           || (x == SHORT_BREAK && ShortBreak(day, policy, segments, base.breakMinutes))
  {
    hide NoRepeats, NoEntry, NoExit, Missing, Deducted, ShortBreak, Add;
    MissingTells(marks, segments, isFinal, |segments|);
    AddTells(Missing(marks, segments, isFinal, |segments|), SHORT_BREAK,
             ShortBreak(day, policy, segments, Base(day, policy, isFinal, segments, ids, marks).breakMinutes));
  }

  lemma BaseTells(day: WorkDayContext, policy: Policy, isFinal: bool, segments: seq<Segment>, ids: seq<string>,
                  marks: seq<Anomaly>)
    requires NoRepeats(marks) && Unmarked(marks)
    ensures var base := Base(day, policy, isFinal, segments, ids, marks);
            && FindingsTold(base) && base.segments == segments && base.ignoredPunchIds == ids && base.workedMinutes >= 0
            && (forall a :: a in marks <==> a in base.anomalies && (a == DUPLICATE_PUNCH || a == STRAY_PUNCH))
            && base.lateMinutes == base.earlyLeaveMinutes == base.overtimeMinutes == base.shortMinutes == 0
  {
    hide NoRepeats, NoEntry, NoExit, Missing, Deducted, ShortBreak, Add, FirstIn, LastOut;
    BaseMembers(day, policy, isFinal, segments, ids, marks);
  }

  predicate SameMarks(r: CalculationResult, base: CalculationResult) {
    r.segments == base.segments && r.ignoredPunchIds == base.ignoredPunchIds
    && Tells(r.anomalies, DUPLICATE_PUNCH, DUPLICATE_PUNCH in base.anomalies)
    && Tells(r.anomalies, STRAY_PUNCH, STRAY_PUNCH in base.anomalies)
  }

  lemma UnscheduledTells(day: WorkDayContext, policy: Policy, base: CalculationResult)
    requires FindingsTold(base) && base.workedMinutes >= 0
    requires base.lateMinutes == base.earlyLeaveMinutes == base.overtimeMinutes == base.shortMinutes == 0
    ensures FindingsTold(Unscheduled(day, policy, base)) && SameMarks(Unscheduled(day, policy, base), base)
  {
    var r := Unscheduled(day, policy, base);
    var a1 := Add(base.anomalies, WORKED_ON_HOLIDAY, day.dayType == DayType.HOLIDAY);
    var a2 := Add(a1, WORKED_ON_REST_DAY, day.dayType == DayType.REST_DAY);
    AddTells(base.anomalies, WORKED_ON_HOLIDAY, day.dayType == DayType.HOLIDAY);
    AddTells(a1, WORKED_ON_REST_DAY, day.dayType == DayType.REST_DAY);
    AddTells(a2, OVERTIME, r.overtimeMinutes > 0);
    hide Add, NoRepeats, NoEntry, NoExit;
  }

  function Four(s: seq<Anomaly>, late: bool, early: bool, overtime: bool, out: bool): seq<Anomaly> {
    Add(Add(Add(Add(s, LATE_ARRIVAL, late), EARLY_LEAVE, early), OVERTIME, overtime), OUT_OF_SCHEDULE_PUNCH, out)
  }

  predicate Found(x: Anomaly, late: bool, early: bool, overtime: bool, out: bool) {
    (late && x == LATE_ARRIVAL) || (early && x == EARLY_LEAVE) || (overtime && x == OVERTIME)
    || (out && x == OUT_OF_SCHEDULE_PUNCH)
  }

  lemma FiveTell(s: seq<Anomaly>, late: bool, early: bool, overtime: bool, out: bool, short: bool)
    requires NoRepeats(s)
    ensures var four := Four(s, late, early, overtime, out);
            var all := Add(four, SHORT_HOURS, short);
            && NoRepeats(all)
            && (forall x :: x in four <==> x in s || Found(x, late, early, overtime, out))
            && (forall x :: x in all <==> x in four || (short && x == SHORT_HOURS))
  {
    hide Add, NoRepeats;
    AddTells(s, LATE_ARRIVAL, late);
    AddTells(Add(s, LATE_ARRIVAL, late), EARLY_LEAVE, early);
    AddTells(Add(Add(s, LATE_ARRIVAL, late), EARLY_LEAVE, early), OVERTIME, overtime);
    AddTells(Add(Add(Add(s, LATE_ARRIVAL, late), EARLY_LEAVE, early), OVERTIME, overtime), OUT_OF_SCHEDULE_PUNCH, out);
    AddTells(Four(s, late, early, overtime, out), SHORT_HOURS, short);
  }

  lemma ScheduledTells(shift: ResolvedShift, policy: Policy, leaves: seq<LeaveInterval>, endPassed: bool,
                       times: seq<int>, base: CalculationResult)
    requires FindingsTold(base) && base.segments != []
    requires base.lateMinutes == base.earlyLeaveMinutes == base.overtimeMinutes == base.shortMinutes == 0
    ensures var r := Scheduled(shift, policy, leaves, endPassed, times, base);
            && FindingsTold(r) && SameMarks(r, base)
            && r.status == WorkedStatus(r)
  {
    hide FindingsTold, SameMarks, NoEntry, NoExit;
    ScheduledFindings(shift, policy, leaves, endPassed, times, base);
    ScheduledStatus(shift, policy, leaves, endPassed, times, base);
    hide Scheduled;
  }

  /** Punches are missing, or else the person was late, or else present. */
  function WorkedStatus(r: CalculationResult): AttendanceCalculator.Status {
    if NoEntry(r.segments, |r.segments|) || NoExit(r.segments, r.isFinal, |r.segments|) then INCOMPLETE
    else if r.lateMinutes > 0 then LATE
    else PRESENT
  }

  lemma ScheduledFindings(shift: ResolvedShift, policy: Policy, leaves: seq<LeaveInterval>, endPassed: bool,
                          times: seq<int>, base: CalculationResult)
    requires FindingsTold(base) && base.segments != []
    requires base.lateMinutes == base.earlyLeaveMinutes == base.overtimeMinutes == base.shortMinutes == 0
    ensures var r := Scheduled(shift, policy, leaves, endPassed, times, base); FindingsTold(r) && SameMarks(r, base)
  {
    hide Add, NoRepeats, NoEntry, NoExit, OutOfSchedule, Expected, Extra, OnLeaveMs, MinutesBetween,
      ScheduledWorkMinutes;
    var r := Scheduled(shift, policy, leaves, endPassed, times, base);
    FiveTell(base.anomalies, r.lateMinutes != 0, r.earlyLeaveMinutes != 0, r.overtimeMinutes > 0,
             OutOfSchedule(shift, times, policy.outOfScheduleMarginMinutes * MINUTE_MS), r.shortMinutes > 0);
  }

  lemma ScheduledStatus(shift: ResolvedShift, policy: Policy, leaves: seq<LeaveInterval>, endPassed: bool,
                        times: seq<int>, base: CalculationResult)
    requires FindingsTold(base) && base.segments != []
    ensures var r := Scheduled(shift, policy, leaves, endPassed, times, base); r.status == WorkedStatus(r)
  {
    hide Add, NoRepeats, NoEntry, NoExit, OutOfSchedule, Expected, ComputeOvertime, MissingMinutes, LateBy, EarlyBy;
    var r := Scheduled(shift, policy, leaves, endPassed, times, base);
    FiveTell(base.anomalies, r.lateMinutes != 0, r.earlyLeaveMinutes != 0, r.overtimeMinutes > 0,
             OutOfSchedule(shift, times, policy.outOfScheduleMarginMinutes * MINUTE_MS), r.shortMinutes > 0);
  }

  /** The status of a day with punches. */
  predicate StatusTold(day: WorkDayContext, r: CalculationResult) {
    r.status ==
    if day.dayType == DayType.HOLIDAY then AttendanceCalculator.Status.HOLIDAY
    else if day.dayType == DayType.REST_DAY then AttendanceCalculator.Status.REST_DAY
    else if day.shift == None then NO_SCHEDULE
    else WorkedStatus(r)
  }

  /** The marks that tell of the day itself, for a day with punches. */
  predicate DayTold(day: WorkDayContext, policy: Policy, segments: seq<Segment>, times: seq<int>,
                    r: CalculationResult) {
    && Tells(r.anomalies, WORKED_ON_HOLIDAY, day.dayType == DayType.HOLIDAY)
    && Tells(r.anomalies, WORKED_ON_REST_DAY, day.dayType == DayType.REST_DAY)
    && Tells(r.anomalies, SHORT_BREAK, ShortBreak(day, policy, segments, r.breakMinutes))
    && Tells(r.anomalies, OUT_OF_SCHEDULE_PUNCH,
             day.shift.Some? && day.dayType == WORKDAY
             && OutOfSchedule(day.shift.value, times, policy.outOfScheduleMarginMinutes * MINUTE_MS))
  }

  lemma UnscheduledTellsDay(day: WorkDayContext, policy: Policy, segments: seq<Segment>, times: seq<int>,
                            base: CalculationResult)
    requires day.shift == None || day.dayType != WORKDAY
    requires forall x :: x == WORKED_ON_HOLIDAY || x == WORKED_ON_REST_DAY || x == OUT_OF_SCHEDULE_PUNCH ==>
                           x !in base.anomalies
    requires Tells(base.anomalies, SHORT_BREAK, ShortBreak(day, policy, segments, base.breakMinutes))
    ensures DayTold(day, policy, segments, times, Unscheduled(day, policy, base))
  {
    hide Add, ShortBreak, OutOfSchedule;
    var r := Unscheduled(day, policy, base);
    var a1 := Add(base.anomalies, WORKED_ON_HOLIDAY, day.dayType == DayType.HOLIDAY);
    var a2 := Add(a1, WORKED_ON_REST_DAY, day.dayType == DayType.REST_DAY);
    AddTells(base.anomalies, WORKED_ON_HOLIDAY, day.dayType == DayType.HOLIDAY);
    AddTells(a1, WORKED_ON_REST_DAY, day.dayType == DayType.REST_DAY);
    AddTells(a2, OVERTIME, r.overtimeMinutes > 0);
  }

  lemma ScheduledTellsDay(day: WorkDayContext, policy: Policy, leaves: seq<LeaveInterval>, endPassed: bool,
                          times: seq<int>, base: CalculationResult)
    requires day.shift.Some? && day.dayType == WORKDAY && base.segments != [] && NoRepeats(base.anomalies)
    requires forall x :: x == WORKED_ON_HOLIDAY || x == WORKED_ON_REST_DAY || x == OUT_OF_SCHEDULE_PUNCH ==>
                           x !in base.anomalies
    requires Tells(base.anomalies, SHORT_BREAK, ShortBreak(day, policy, base.segments, base.breakMinutes))
    ensures DayTold(day, policy, base.segments, times,
                    Scheduled(day.shift.value, policy, leaves, endPassed, times, base))
  {
    hide Add, NoRepeats, ShortBreak, OutOfSchedule, Expected, Extra, OnLeaveMs, MinutesBetween, ScheduledWorkMinutes;
    var shift := day.shift.value;
    var r := Scheduled(shift, policy, leaves, endPassed, times, base);
    FiveTell(base.anomalies, r.lateMinutes != 0, r.earlyLeaveMinutes != 0, r.overtimeMinutes > 0,
             OutOfSchedule(shift, times, policy.outOfScheduleMarginMinutes * MINUTE_MS), r.shortMinutes > 0);
  }

  lemma SummaryTellsDay(day: WorkDayContext, policy: Policy, leaves: seq<LeaveInterval>, isFinal: bool, endPassed: bool,
                        segments: seq<Segment>, times: seq<int>, ids: seq<string>, marks: seq<Anomaly>)
    requires segments != [] && NoRepeats(marks) && Unmarked(marks)
    ensures DayTold(day, policy, segments, times,
                    Summary(day, policy, leaves, isFinal, endPassed, segments, times, ids, marks))
  {
    hide NoRepeats, DayTold, Unscheduled, Scheduled, ShortBreak;
    var base := Base(day, policy, isFinal, segments, ids, marks);
    BaseMembers(day, policy, isFinal, segments, ids, marks);
    BaseSegments(day, policy, isFinal, segments, ids, marks);
    hide Base;
    if day.shift == None || day.dayType != WORKDAY {
      UnscheduledTellsDay(day, policy, segments, times, base);
    } else {
      ScheduledTellsDay(day, policy, leaves, endPassed, times, base);
    }
  }

  /** Those marks, the breaks too short and the status, on any input. */
  predicate OthersTold(input: CalculationInput, r: CalculationResult) {
    var kept := Selected(input.day, input.punches, input.policy).kept;
    if kept == [] then
      r.anomalies == Marks(r.ignoredPunchIds != [], input.strays != [])
      && r.status == StatusWithoutPunches(input.day, input.leaves)
    else DayTold(input.day, input.policy, r.segments, Keys(kept, At), r) && StatusTold(input.day, r)
  }

  /**
   The anomalies are exactly the findings: each appears once, and if and only if the minutes, the
   open segments, the ignored punches or the strays behind it are there; and the status is the one
   they call for.
   */
  lemma AnomaliesTell(input: CalculationInput)
    ensures var r := Calculation(input);
            && FindingsTold(r)
            && Tells(r.anomalies, DUPLICATE_PUNCH, r.ignoredPunchIds != [])
            && Tells(r.anomalies, STRAY_PUNCH, input.strays != [])
            && OthersTold(input, r)
  {
    hide Selected, Paired, Summary, EndPassed, Empty, FindingsTold, Marks;
    var s := Selected(input.day, input.punches, input.policy);
    var marks := Marks(s.ignored != [], input.strays != []);
    MarksTell(s.ignored != [], input.strays != []);
    EmptyTells(input, Ids(s.ignored));
    hide DayTold, StatusTold, StatusWithoutPunches;
    if s.kept != [] {
      PairedSome(s.kept, input.policy.punchPairing);
      SummaryTells(input.day, input.policy, input.leaves, input.now >= input.day.window.to,
                   EndPassed(input.day, input.leaves, input.now),
                   ToSegments(Paired(s.kept, input.policy.punchPairing)), Keys(s.kept, At), Ids(s.ignored), marks);
      SummaryTellsDay(input.day, input.policy, input.leaves, input.now >= input.day.window.to,
                      EndPassed(input.day, input.leaves, input.now),
                      ToSegments(Paired(s.kept, input.policy.punchPairing)), Keys(s.kept, At), Ids(s.ignored), marks);
    }
  }

  lemma MarksTell(anyIgnored: bool, anyStrays: bool)
    ensures var marks := Marks(anyIgnored, anyStrays);
            NoRepeats(marks) && Unmarked(marks) && Tells(marks, DUPLICATE_PUNCH, anyIgnored)
            && Tells(marks, STRAY_PUNCH, anyStrays)
  {
    AddTells([], DUPLICATE_PUNCH, anyIgnored);
    AddTells(Add([], DUPLICATE_PUNCH, anyIgnored), STRAY_PUNCH, anyStrays);
  }

  lemma EmptyTells(input: CalculationInput, ids: seq<string>)
    ensures var r := Empty(input, ids);
            && FindingsTold(r) && r.ignoredPunchIds == ids && r.anomalies == Marks(ids != [], input.strays != [])
            && Tells(r.anomalies, DUPLICATE_PUNCH, ids != []) && Tells(r.anomalies, STRAY_PUNCH, input.strays != [])
            && r.status == StatusWithoutPunches(input.day, input.leaves)
  {
    MarksTell(ids != [], input.strays != []);
    hide Marks, NoRepeats;
  }

  lemma SummaryTells(day: WorkDayContext, policy: Policy, leaves: seq<LeaveInterval>, isFinal: bool, endPassed: bool,
                     segments: seq<Segment>, times: seq<int>, ids: seq<string>, marks: seq<Anomaly>)
    requires segments != [] && NoRepeats(marks) && Unmarked(marks)
    ensures var r := Summary(day, policy, leaves, isFinal, endPassed, segments, times, ids, marks);
            && FindingsTold(r) && r.ignoredPunchIds == ids && r.segments == segments
            && Tells(r.anomalies, DUPLICATE_PUNCH, DUPLICATE_PUNCH in marks)
            && Tells(r.anomalies, STRAY_PUNCH, STRAY_PUNCH in marks)
            && StatusTold(day, r)
  {
    var base := Base(day, policy, isFinal, segments, ids, marks);
    BaseTells(day, policy, isFinal, segments, ids, marks);
    if day.shift == None || day.dayType != WORKDAY {
      UnscheduledTells(day, policy, base);
      UnscheduledStatus(day, policy, base);
    } else {
      ScheduledTells(day.shift.value, policy, leaves, endPassed, times, base);
    }
    hide Base, Unscheduled, Scheduled, NoRepeats, NoEntry, NoExit, WorkedStatus;
  }

  lemma UnscheduledStatus(day: WorkDayContext, policy: Policy, base: CalculationResult)
    requires day.shift == None || day.dayType != WORKDAY
    ensures StatusTold(day, Unscheduled(day, policy, base))
  {
  }
}
