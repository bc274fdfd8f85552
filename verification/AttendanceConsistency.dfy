/**
 What stored attendance depends on: not the order the punches were listed in, exactly when; and a
 day on which a stored proposal goes stale.
 */
module AttendanceConsistency {
  import opened AttendanceCalculator
  import opened AttendanceLaws
  import opened AttendanceProcessing
  import opened AttendanceTypes
  import opened PunchOrder
  import opened PunchPairing
  import opened Sorting
  import opened WorkCalendar
  import opened WorkDay
  import opened Wrappers

  // ---------------------------------------------------------------- the order of a listing

  lemma {:induction false} LoadedConcat(a: seq<Event>, b: seq<Event>, employeeId: string, reach: Window)
    ensures Loaded(a + b, employeeId, reach) == Loaded(a, employeeId, reach) + Loaded(b, employeeId, reach)
  {
    if b == [] {
      assert a + b == a;
    } else {
      var n := |b| - 1;
      LoadedConcat(a, b[..n], employeeId, reach);
      assert (a + b)[..|a + b| - 1] == a + b[..n];
    }
  }

  lemma {:induction false} LoadedAnyOrder(a: seq<Event>, b: seq<Event>, employeeId: string, reach: Window)
    requires multiset(a) == multiset(b)
    ensures multiset(Loaded(a, employeeId, reach)) == multiset(Loaded(b, employeeId, reach))
    decreases |a|
  {
    hide Loaded;
    assert |a| == |multiset(a)| == |multiset(b)| == |b|;
    if a != [] {
      var i := TakeOut(a, b);
      var before, after := b[..i], b[i + 1..];
      assert a == [a[0]] + a[1..];
      LoadedAnyOrder(a[1..], before + after, employeeId, reach);
      LoadedConcat([a[0]], a[1..], employeeId, reach);
      LoadedConcat(before, [b[i]] + after, employeeId, reach);
      LoadedConcat([b[i]], after, employeeId, reach);
      LoadedConcat(before, after, employeeId, reach);
    }
  }

  lemma SplitAnyOrder(t: Tables, employeeId: string, day: WorkDayContext, a: seq<Punch>, b: seq<Punch>)
    requires multiset(a) == multiset(b)
    ensures var x, y := Split(t, employeeId, day, a), Split(t, employeeId, day, b);
            multiset(x.counted) == multiset(y.counted) && multiset(x.strays) == multiset(y.strays)
  {
    var x, y := Split(t, employeeId, day, a), Split(t, employeeId, day, b);
    forall p ensures multiset(x.counted)[p] == multiset(y.counted)[p]
                     && multiset(x.strays)[p] == multiset(y.strays)[p] {
      SplitCounts(t, employeeId, day, a, p);
      SplitCounts(t, employeeId, day, b, p);
    }
  }

  lemma EmptyAnyOrder<T>(a: seq<T>, b: seq<T>)
    requires multiset(a) == multiset(b)
    ensures a == [] <==> b == []
  {
    assert |a| == |multiset(a)| == |multiset(b)| == |b|;
  }

  lemma StoredFromSettled(x: Computed, y: Computed, cell: Cell)
    requires x.day == y.day && (x.counted == [] <==> y.counted == []) && Settled(x.result) == Settled(y.result)
    ensures CellAfter(x, cell) == CellAfter(y, cell)
  {
  }

  lemma StoredSegments(x: Computed, y: Computed, cell: Cell)
    requires CellAfter(x, cell) == CellAfter(y, cell) && x.counted != [] && y.counted != []
    ensures x.result.segments == y.result.segments
  {
    assert ToRecord(x) == ToRecord(y);
  }

  /** How the punches kept of a computed day were read. */
  function ReadingsIn(ctx: Context, c: Computed): seq<bool> {
    Readings(Selected(c.day, c.counted, ctx.tables.policy).kept)
  }

  /** The counted punches and the strays, as bags, do not depend on the listing. */
  lemma CountedAnyOrder(ctx: Context, a: seq<Event>, b: seq<Event>, k: Key)
    requires multiset(a) == multiset(b)
    ensures var x, y := ComputeDay(ctx, a, k), ComputeDay(ctx, b, k);
            && x.day == y.day && multiset(x.counted) == multiset(y.counted) && (x.counted == [] <==> y.counted == [])
    ensures DivisionOf(ctx, a, k).strays == [] <==> DivisionOf(ctx, b, k).strays == []
  {
    var t, day := ctx.tables, EvaluateDay(ctx.tables, k.employeeId, k.workDate);
    var reach := ReachOf(t, day);
    var la, lb := Loaded(a, k.employeeId, reach), Loaded(b, k.employeeId, reach);
    LoadedAnyOrder(a, b, k.employeeId, reach);
    SplitAnyOrder(t, k.employeeId, day, la, lb);
    hide EvaluateDay, ReachOf, Loaded, Split, ResultOf;
    EmptyAnyOrder(DivisionOf(ctx, a, k).counted, DivisionOf(ctx, b, k).counted);
    EmptyAnyOrder(DivisionOf(ctx, a, k).strays, DivisionOf(ctx, b, k).strays);
  }

  /**
   The query of a day's punches sets no order. Two listings store the same record and the same
   proposal if and only if the pairing is sequential, or the kept punches are read alike in both.
   */
  lemma ListedExactly(ctx: Context, a: seq<Event>, b: seq<Event>, k: Key, cell: Cell)
    requires multiset(a) == multiset(b)
    ensures CellAfter(ComputeDay(ctx, a, k), cell) == CellAfter(ComputeDay(ctx, b, k), cell)
       <==> ctx.tables.policy.punchPairing == SEQUENTIAL
            || ReadingsIn(ctx, ComputeDay(ctx, a, k)) == ReadingsIn(ctx, ComputeDay(ctx, b, k))
  {
    var x, y := ComputeDay(ctx, a, k), ComputeDay(ctx, b, k);
    CountedAnyOrder(ctx, a, b, k);
    ComputedIsCalculated(ctx, a, k);
    ComputedIsCalculated(ctx, b, k);
    hide ComputeDay, DivisionOf, Calculation, LeavesDuring, EvaluateDay, CellAfter, Selected, Settled, TiesReadAlike;
    var u, v := InputOf(ctx, a, k), InputOf(ctx, b, k);
    if ctx.tables.policy.punchPairing == SEQUENTIAL {
      AnyOrder(u, v);
      StoredFromSettled(x, y, cell);
    } else if ReadingsIn(ctx, x) == ReadingsIn(ctx, y) {
      ReadAlikeComesToTheSame(u, v);
      StoredFromSettled(x, y, cell);
    } else if CellAfter(x, cell) == CellAfter(y, cell) && x.counted != [] {
      StoredSegments(x, y, cell);
      ReadOtherwise(u, v);
    }
  }

  /** So in any order where the order is harmless. */
  lemma ListedInAnyOrder(ctx: Context, a: seq<Event>, b: seq<Event>, k: Key, cell: Cell)
    requires multiset(a) == multiset(b)
    requires OrderHarmless(ComputeDay(ctx, a, k).day, ComputeDay(ctx, a, k).counted, ctx.tables.policy)
    ensures CellAfter(ComputeDay(ctx, a, k), cell) == CellAfter(ComputeDay(ctx, b, k), cell)
  {
    CountedAnyOrder(ctx, a, b, k);
    ListedExactly(ctx, a, b, k, cell);
    hide ComputeDay, CellAfter, TiesReadAlike;
    if ctx.tables.policy.punchPairing == DEVICE_TYPE {
      TiesKeepReadings(ComputeDay(ctx, a, k).day, ComputeDay(ctx, a, k).counted, ComputeDay(ctx, b, k).counted,
                       ctx.tables.policy);
    }
  }

  /** A closed day stores the same whatever the clock says by then. */
  lemma ClosedWhateverTheClock(ctx: Context, events: seq<Event>, k: Key, now: int, cell: Cell)
    requires var day := EvaluateDay(ctx.tables, k.employeeId, k.workDate);
             ShiftInWindow(day) && ctx.now >= day.window.to && now >= day.window.to
    ensures CellAfter(ComputeDay(ctx.(now := now), events, k), cell) == CellAfter(ComputeDay(ctx, events, k), cell)
  {
    var later := ctx.(now := now);
    ComputedIsCalculated(ctx, events, k);
    ComputedIsCalculated(later, events, k);
    assert DivisionOf(later, events, k) == DivisionOf(ctx, events, k);
    hide ComputeDay, DivisionOf, Calculation, LeavesDuring, EvaluateDay, CellAfter, Selected, Settled;
    SameSegments(InputOf(later, events, k), InputOf(ctx, events, k));
    StoredFromSettled(ComputeDay(later, events, k), ComputeDay(ctx, events, k), cell);
  }

  // ---------------------------------------------------------------- a stale proposal

  const HOUR := 3_600_000

  /** Someone whose schedule has no shift on any day, so day 0 is a rest day. */
  function RestTables(): Tables {
    var policy := DEFAULT_POLICY;
    Tables(map["e" := [Assignment(0, None, map[])]], {}, Utc(), policy)
  }

  /** Noon of that day. */
  function RestContext(): Context {
    Context(RestTables(), map[], 12 * HOUR)
  }

  function RestPunches(): seq<Event> {
    [Event("a", Some("e"), 8 * HOUR, CHECK_IN, false), Event("b", Some("e"), 10 * HOUR, CHECK_OUT, false)]
  }

  function Voiding(): seq<Change> {
    [Voided(0)] + [Voided(1)]
  }

  lemma RestDays(d: int)
    ensures EvaluateDay(RestTables(), "e", d).shift == None
    ensures EvaluateDay(RestTables(), "e", 0) == WorkDayContext(0, DayType.REST_DAY, None, true, Window(0, 24 * HOUR))
  {
    var a := Assignment(0, None, map[]);
    assert AssignmentsOf(RestTables(), "e") == [a];
    assert Find([a], 0) == Some(a);
    FindFinds([a], d);
  }

  lemma RestOwner(at: int)
    requires 0 <= at < 24 * HOUR
    ensures OwnerOf(RestTables(), "e", at) == 0
  {
    RestDays(-1);
    RestDays(0);
    RestDays(1);
    assert RestTables().zone.dateOf(at) == 0;
    OwnerIsCandidate(RestTables(), "e", at);
    hide EvaluateDay, OwnerOf, IsOwner, Candidates;
  }

  lemma RestLoaded()
    ensures Loaded(RestPunches(), "e", Window(0, 24 * HOUR))
         == [Punch("a", 8 * HOUR, CHECK_IN), Punch("b", 10 * HOUR, CHECK_OUT)]
  {
    var e, w := RestPunches(), Window(0, 24 * HOUR);
    assert e[..1] == [e[0]] && [e[0]][..0] == [];
    assert Loaded([], "e", w) == [];
    assert Loaded([e[0]], "e", w) == [Punch("a", 8 * HOUR, CHECK_IN)];
    assert Loaded(e, "e", w) == Loaded(e[..1], "e", w) + [ToPunch(e[1])];
  }

  lemma RestSplit()
    ensures var punches := [Punch("a", 8 * HOUR, CHECK_IN), Punch("b", 10 * HOUR, CHECK_OUT)];
            Split(RestTables(), "e", EvaluateDay(RestTables(), "e", 0), punches) == Division(punches, [])
  {
    var punches := [Punch("a", 8 * HOUR, CHECK_IN), Punch("b", 10 * HOUR, CHECK_OUT)];
    RestDays(0);
    RestOwner(8 * HOUR);
    RestOwner(10 * HOUR);
    hide EvaluateDay, OwnerOf;
    var t, day := RestTables(), EvaluateDay(RestTables(), "e", 0);
    assert punches[..1] == [punches[0]] && [punches[0]][..0] == [];
    assert Split(t, "e", day, []) == Division([], []);
    assert Split(t, "e", day, [punches[0]]) == Division([punches[0]], []);
    assert Split(t, "e", day, punches) == Place(Split(t, "e", day, punches[..1]), punches[1], true, true);
  }

  /** Two hours worked on a rest day that is still open: all of it is overtime. */
  lemma RestWorked()
    ensures var c := ComputeDay(RestContext(), RestPunches(), Key("e", 0));
            !c.result.isFinal && c.result.overtimeMinutes == 120 && c.result.overtimeKind == Some(ON_REST_DAY)
  {
    RestDays(0);
    RestLoaded();
    RestSplit();
    var day := WorkDayContext(0, DayType.REST_DAY, None, true, Window(0, 24 * HOUR));
    assert ReachOf(RestTables(), day) == Window(0, 24 * HOUR);
    var a, b := Punch("a", 8 * HOUR, CHECK_IN), Punch("b", 10 * HOUR, CHECK_OUT);
    RestDayOf(day, a, b, RestTables().policy, 12 * HOUR);
    hide EvaluateDay, Split, Loaded, Calculation;
  }

  lemma RestDayOf(day: WorkDayContext, a: Punch, b: Punch, policy: Policy, now: int)
    requires day.dayType == DayType.REST_DAY && day.shift == None
    requires a.kind == CHECK_IN && b.kind == CHECK_OUT && day.window.from <= a.at && b.at < day.window.to
             && now < day.window.to
    requires b.at == a.at + 2 * HOUR && policy.duplicatePunchWindowSeconds <= 600
    requires policy.overtimeEnabled && policy.overtimeThresholdMinutes <= 120
    ensures var r := Calculation(CalculationInput(day, [a, b], [], [], policy, now));
            !r.isFinal && r.overtimeMinutes == 120 && r.overtimeKind == Some(ON_REST_DAY)
  {
    var input := CalculationInput(day, [a, b], [], [], policy, now);
    TwoPunches(day, a, b, policy);
    ClampNeverFires(input);
    PairedSome([a, b], policy.punchPairing);
    var segments := [Segment(Some(a.at), Some(b.at))];
    assert segments[1..] == [];
    assert WorkedMs(segments) == 2 * HOUR;
    hide Selected, Paired, Missing, Gaps, WorkedMs, MissingMinutes, LateBy, EarlyBy, OutOfSchedule;
  }

  lemma RestVoided()
    ensures AllApply(RestPunches(), Voiding())
    ensures OwnedPunches(RestTables(), ChangedAll(RestPunches(), Voiding()), Key("e", 0)) == []
  {
    var e, changes := RestPunches(), Voiding();
    assert changes[1..] == [Voided(1)] && changes[1..][1..] == [];
    var e1 := Changed(e, changes[0]);
    var e2 := Changed(e1, Voided(1));
    assert ChangedAll(e, changes) == e2;
    assert e2[..1] == [e2[0]] && e2[..1][..0] == [];
    hide OwnerOf;
  }

  /** Both punches voided before the day closes: its record goes, the proposal of two hours stays. */
  lemma RestDayGoesStale()
    ensures AllApply(RestPunches(), Voiding())
    ensures var c := ComputeDay(RestContext(), RestPunches(), Key("e", 0));
            CellAfter(ComputeDay(RestContext(), ChangedAll(RestPunches(), Voiding()), Key("e", 0)),
                      CellAfter(c, Cell(None, None)))
            == Cell(None, Some(OvertimeRecord(PENDING, 120, ON_REST_DAY)))
  {
    RestWorked();
    RestVoided();
    UtcIsValid();
    hide ComputeDay, CellAfter, ChangedAll, OwnedPunches;
    StaleProposal(RestContext(), RestPunches(), ChangedAll(RestPunches(), Voiding()), Key("e", 0));
  }
}
