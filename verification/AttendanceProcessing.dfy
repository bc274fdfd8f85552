/**
 Attendance records and overtime proposals kept up to date with the punches: recomputing a day,
 and why recomputing only the days some changes touch is as good as recomputing every day.
 */
module AttendanceProcessing {
  import opened AttendanceCalculator
  import opened AttendanceTypes
  import LeaveRequests
  import opened Sorting
  import opened WorkCalendar
  import opened WorkDay
  import opened Wrappers

  datatype Event = Event(id: string, employeeId: Option<string>, occurredAt: int, kind: PunchType, voided: bool)

  /** One employee's work day. */
  datatype Key = Key(employeeId: string, workDate: int)

  datatype AttendanceRecord = AttendanceRecord(
    dayType: DayType,
    shiftId: Option<string>,
    scheduledStart: Option<int>,
    scheduledEnd: Option<int>,
    status: Status,
    firstIn: Option<int>,
    lastOut: Option<int>,
    workedMinutes: int,
    breakMinutes: int,
    lateMinutes: int,
    earlyLeaveMinutes: int,
    overtimeMinutes: int,
    shortMinutes: int,
    anomalies: seq<Anomaly>,
    segments: seq<PunchPairing.Segment>,
    isFinal: bool
  )

  datatype Review = PENDING | APPROVED | REJECTED

  datatype OvertimeRecord = OvertimeRecord(status: Review, minutes: int, kind: OvertimeKind)

  /** What a recomputation reads besides the punches: fixed while it runs. */
  datatype Context = Context(tables: Tables, approvedLeave: map<string, seq<LeaveRequests.LeaveInterval>>, now: int)

  // ---------------------------------------------------------------- one day

  /** Approved leave overlapping a window. */
  function LeavesDuring(leaves: seq<LeaveRequests.LeaveInterval>, w: Window): seq<LeaveRequests.LeaveInterval> {
    if leaves == [] then []
    else if leaves[0].start < w.to && leaves[0].end > w.from then [leaves[0]] + LeavesDuring(leaves[1..], w)
    else LeavesDuring(leaves[1..], w)
  }

  predicate Of(e: Event, employeeId: string) {
    e.employeeId == Some(employeeId) && !e.voided
  }

  function ToPunch(e: Event): Punch {
    Punch(e.id, e.occurredAt, e.kind)
  }

  /** The query by reach. */
  function Loaded(events: seq<Event>, employeeId: string, reach: Window): seq<Punch> {
    if events == [] then []
    else
      var before := Loaded(events[..|events| - 1], employeeId, reach);
      var e := events[|events| - 1];
      if Of(e, employeeId) && reach.from <= e.occurredAt < reach.to then before + [ToPunch(e)] else before
  }

  datatype Computed = Computed(day: WorkDayContext, counted: seq<Punch>, result: CalculationResult)

  function ResultOf(ctx: Context, k: Key, day: WorkDayContext, d: Division): CalculationResult {
    var leaves := if k.employeeId in ctx.approvedLeave then ctx.approvedLeave[k.employeeId] else [];
    Calculation(CalculationInput(day, d.counted, d.strays, LeavesDuring(leaves, day.window), ctx.tables.policy,
                                 ctx.now))
  }

  function ComputeDay(ctx: Context, events: seq<Event>, k: Key): Computed {
    var day := EvaluateDay(ctx.tables, k.employeeId, k.workDate);
    var d := Split(ctx.tables, k.employeeId, day, Loaded(events, k.employeeId, ReachOf(ctx.tables, day)));
    Computed(day, d.counted, ResultOf(ctx, k, day, d))
  }

  function ToRecord(c: Computed): AttendanceRecord {
    var r, shift := c.result, c.day.shift;
    var shown := shift.Some? && !shift.value.flexible;
    AttendanceRecord(
      c.day.dayType,
      if shift.Some? then Some(shift.value.shiftId) else None,
      if shown then Some(shift.value.start) else None,
      if shown then Some(shift.value.end) else None,
      r.status, r.firstIn, r.lastOut, r.workedMinutes, r.breakMinutes, r.lateMinutes, r.earlyLeaveMinutes,
      r.overtimeMinutes, r.shortMinutes, r.anomalies, r.segments, r.isFinal)
  }

  /** Nobody punched and the day is still open: it has no record yet. */
  predicate NothingYet(c: Computed) {
    c.counted == [] && !c.result.isFinal
  }

  /** What is stored about one day. */
  datatype Cell = Cell(record: Option<AttendanceRecord>, overtime: Option<OvertimeRecord>)

  /** Only a pending proposal follows the calculation. */
  function Proposed(existing: Option<OvertimeRecord>, r: CalculationResult): Option<OvertimeRecord> {
    if r.overtimeMinutes > 0 && r.overtimeKind.Some? then
      if existing == None || existing.value.status == PENDING then
        Some(OvertimeRecord(PENDING, r.overtimeMinutes, r.overtimeKind.value))
      else existing
    else if existing.Some? && existing.value.status == PENDING then None
    else existing
  }

  function CellAfter(c: Computed, cell: Cell): Cell {
    if NothingYet(c) then
      cell.(record := if cell.record.Some? && !cell.record.value.isFinal then None else cell.record)
    else Cell(Some(ToRecord(c)), Proposed(cell.overtime, c.result))
  }

  // ---------------------------------------------------------------- the tables

  datatype Store = Store(records: map<Key, AttendanceRecord>, overtime: map<Key, OvertimeRecord>)

  function Get<T>(m: map<Key, T>, k: Key): Option<T> {
    if k in m then Some(m[k]) else None
  }

  function Set<T>(m: map<Key, T>, k: Key, v: Option<T>): map<Key, T> {
    if v.Some? then m[k := v.value] else m - {k}
  }

  function CellOf(s: Store, k: Key): Cell {
    Cell(Get(s.records, k), Get(s.overtime, k))
  }

  function Recomputed(ctx: Context, events: seq<Event>, s: Store, k: Key): Store {
    var cell := CellAfter(ComputeDay(ctx, events, k), CellOf(s, k));
    Store(Set(s.records, k, cell.record), Set(s.overtime, k, cell.overtime))
  }

  function RecomputedAll(ctx: Context, events: seq<Event>, s: Store, keys: seq<Key>): Store {
    if keys == [] then s
    else Recomputed(ctx, events, RecomputedAll(ctx, events, s, keys[..|keys| - 1]), keys[|keys| - 1])
  }

  /** What is stored about a day is what recomputing it would store. */
  predicate UpToDate(ctx: Context, events: seq<Event>, s: Store, k: Key) {
    CellAfter(ComputeDay(ctx, events, k), CellOf(s, k)) == CellOf(s, k)
  }

  lemma RecomputedCell(ctx: Context, events: seq<Event>, s: Store, k: Key, other: Key)
    ensures CellOf(Recomputed(ctx, events, s, k), other)
         == if other == k then CellAfter(ComputeDay(ctx, events, k), CellOf(s, k)) else CellOf(s, other)
  {
    hide CellAfter, ComputeDay;
  }

  /** Recomputing twice changes nothing more. */
  lemma CellSettles(c: Computed, cell: Cell)
    ensures CellAfter(c, CellAfter(c, cell)) == CellAfter(c, cell)
  {
  }

  lemma {:induction false} RecomputedAllCell(ctx: Context, events: seq<Event>, s: Store, keys: seq<Key>, k: Key)
    ensures CellOf(RecomputedAll(ctx, events, s, keys), k)
         == if k in keys then CellAfter(ComputeDay(ctx, events, k), CellOf(s, k)) else CellOf(s, k)
  {
    if keys != [] {
      var n := |keys| - 1;
      hide CellOf, CellAfter, ComputeDay, Recomputed;
      RecomputedAllCell(ctx, events, s, keys[..n], k);
      RecomputedCell(ctx, events, RecomputedAll(ctx, events, s, keys[..n]), keys[n], k);
      CellSettles(ComputeDay(ctx, events, k), CellOf(s, k));
      assert k in keys <==> k in keys[..n] || k == keys[n];
    }
  }

  lemma SameCells(a: Store, b: Store)
    requires forall k :: CellOf(a, k) == CellOf(b, k)
    ensures a == b
  {
    forall k ensures Get(a.records, k) == Get(b.records, k) && Get(a.overtime, k) == Get(b.overtime, k) {
      assert CellOf(a, k) == CellOf(b, k);
    }
    SameMap(a.records, b.records);
    SameMap(a.overtime, b.overtime);
  }

  lemma SameMap<T>(a: map<Key, T>, b: map<Key, T>)
    requires forall k :: Get(a, k) == Get(b, k)
    ensures a == b
  {
    forall k ensures k in a <==> k in b {
      assert Get(a, k) == Get(b, k);
    }
    forall k | k in a ensures a[k] == b[k] {
      assert Get(a, k) == Get(b, k);
    }
  }

  // ---------------------------------------------------------------- what a day depends on

  predicate Owned(t: Tables, e: Event, k: Key) {
    Of(e, k.employeeId) && OwnerOf(t, k.employeeId, e.occurredAt) == k.workDate
  }

  /** The punches a day owns, among all there are. */
  function OwnedPunches(t: Tables, events: seq<Event>, k: Key): seq<Punch> {
    if events == [] then []
    else
      var before := OwnedPunches(t, events[..|events| - 1], k);
      var e := events[|events| - 1];
      if Owned(t, e, k) then before + [ToPunch(e)] else before
  }

  /** Loading by reach misses nothing, and what else it loads the split leaves out. */
  lemma {:induction false} SplitOfLoaded(t: Tables, events: seq<Event>, k: Key)
    requires ValidZone(t.zone)
    ensures var day := EvaluateDay(t, k.employeeId, k.workDate);
            var loaded := Loaded(events, k.employeeId, ReachOf(t, day));
            Split(t, k.employeeId, day, loaded) == Split(t, k.employeeId, day, OwnedPunches(t, events, k))
  {
    if events != [] {
      var n := |events| - 1;
      SplitOfLoaded(t, events[..n], k);
      var day := EvaluateDay(t, k.employeeId, k.workDate);
      var e := events[n];
      DayIsItsDate(t, k.employeeId, k.workDate);
      InReachOfOwner(t, k.employeeId, e.occurredAt);
      hide EvaluateDay, OwnerOf, ReachOf, ValidZone;
      SplitAppend(t, k.employeeId, day, Loaded(events[..n], k.employeeId, ReachOf(t, day)), ToPunch(e));
      SplitAppend(t, k.employeeId, day, OwnedPunches(t, events[..n], k), ToPunch(e));
      hide Split;
    }
  }

  lemma SplitAppend(t: Tables, employeeId: string, day: WorkDayContext, punches: seq<Punch>, p: Punch)
    ensures Split(t, employeeId, day, punches + [p])
         == Place(Split(t, employeeId, day, punches), p, OwnerOf(t, employeeId, p.at) == day.workDate,
                  InWindow(p.at, day))
  {
    assert (punches + [p])[..|punches|] == punches;
  }

  lemma ComputedFromOwned(ctx: Context, a: seq<Event>, b: seq<Event>, k: Key)
    requires ValidZone(ctx.tables.zone) && OwnedPunches(ctx.tables, a, k) == OwnedPunches(ctx.tables, b, k)
    ensures ComputeDay(ctx, a, k) == ComputeDay(ctx, b, k)
  {
    SplitOfLoaded(ctx.tables, a, k);
    SplitOfLoaded(ctx.tables, b, k);
    hide Split, Loaded, EvaluateDay, ResultOf, OwnedPunches, ReachOf;
  }

  // ---------------------------------------------------------------- changes

  datatype Change = Added(event: Event) | Voided(index: nat)

  predicate Applies(events: seq<Event>, c: Change) {
    c.Voided? ==> c.index < |events|
  }

  function Changed(events: seq<Event>, c: Change): seq<Event>
    requires Applies(events, c)
  {
    match c
    case Added(e) => events + [e]
    case Voided(i) => events[i := events[i].(voided := true)]
  }

  function Subject(events: seq<Event>, c: Change): Event
    requires Applies(events, c)
  {
    if c.Added? then c.event else events[c.index]
  }

  /** The day the changed punch belongs to. */
  predicate Touches(t: Tables, events: seq<Event>, c: Change, k: Key)
    requires Applies(events, c)
  {
    var e := Subject(events, c);
    e.employeeId == Some(k.employeeId) && OwnerOf(t, k.employeeId, e.occurredAt) == k.workDate
  }

  predicate AllApply(events: seq<Event>, changes: seq<Change>)
    decreases |changes|
  {
    changes != [] ==> Applies(events, changes[0]) && AllApply(Changed(events, changes[0]), changes[1..])
  }

  function ChangedAll(events: seq<Event>, changes: seq<Change>): seq<Event>
    requires AllApply(events, changes)
    decreases |changes|
  {
    if changes == [] then events else ChangedAll(Changed(events, changes[0]), changes[1..])
  }

  predicate TouchedBy(t: Tables, events: seq<Event>, changes: seq<Change>, k: Key)
    requires AllApply(events, changes)
    decreases |changes|
  {
    changes != [] && (Touches(t, events, changes[0], k) || TouchedBy(t, Changed(events, changes[0]), changes[1..], k))
  }

  lemma {:induction false} OwnedReplaced(t: Tables, events: seq<Event>, i: nat, e: Event, k: Key)
    requires i < |events| && !Owned(t, events[i], k) && !Owned(t, e, k)
    ensures OwnedPunches(t, events[i := e], k) == OwnedPunches(t, events, k)
  {
    var n := |events| - 1;
    if i < n {
      OwnedReplaced(t, events[..n], i, e, k);
      assert events[i := e][..n] == events[..n][i := e];
    } else {
      assert events[i := e][..n] == events[..n];
    }
  }

  lemma UntouchedOwns(t: Tables, events: seq<Event>, c: Change, k: Key)
    requires Applies(events, c) && !Touches(t, events, c, k)
    ensures OwnedPunches(t, Changed(events, c), k) == OwnedPunches(t, events, k)
  {
    match c
    case Added(e) => assert (events + [e])[..|events|] == events;
    case Voided(i) => OwnedReplaced(t, events, i, events[i].(voided := true), k);
  }

  lemma {:induction false} UntouchedOwnsAll(t: Tables, events: seq<Event>, changes: seq<Change>, k: Key)
    requires AllApply(events, changes) && !TouchedBy(t, events, changes, k)
    ensures OwnedPunches(t, ChangedAll(events, changes), k) == OwnedPunches(t, events, k)
    decreases |changes|
  {
    if changes != [] {
      UntouchedOwns(t, events, changes[0], k);
      hide OwnedPunches, Touches, Changed;
      UntouchedOwnsAll(t, Changed(events, changes[0]), changes[1..], k);
    }
  }

  // ---------------------------------------------------------------- incremental is full

  /**
   If every day that was not recomputed was up to date before some punches were added or voided,
   and every day they touch was recomputed, then recomputing those days, in any order and any
   number of times, leaves what recomputing every day would: nothing else has to change.
   */
  lemma IncrementalIsFull(ctx: Context, before: seq<Event>, changes: seq<Change>, s: Store, done: seq<Key>,
                          all: seq<Key>)
    requires ValidZone(ctx.tables.zone) && AllApply(before, changes)
    requires forall k :: k in done ==> k in all
    requires forall k :: k in all && k !in done ==>
                           UpToDate(ctx, before, s, k) && !TouchedBy(ctx.tables, before, changes, k)
    ensures var after := ChangedAll(before, changes);
            && RecomputedAll(ctx, after, s, done) == RecomputedAll(ctx, after, s, all)
            && forall k :: k in all ==> UpToDate(ctx, after, RecomputedAll(ctx, after, s, done), k)
  {
    var after := ChangedAll(before, changes);
    var partial, full := RecomputedAll(ctx, after, s, done), RecomputedAll(ctx, after, s, all);
    forall k ensures CellOf(partial, k) == CellOf(full, k) && (k in all ==> UpToDate(ctx, after, partial, k)) {
      OneDayEither(ctx, before, changes, s, done, all, k);
    }
    SameCells(partial, full);
  }

  lemma OneDayEither(ctx: Context, before: seq<Event>, changes: seq<Change>, s: Store, done: seq<Key>, all: seq<Key>,
                     k: Key)
    requires ValidZone(ctx.tables.zone) && AllApply(before, changes)
    requires k in done ==> k in all
    requires k in all && k !in done ==> UpToDate(ctx, before, s, k) && !TouchedBy(ctx.tables, before, changes, k)
    ensures var after := ChangedAll(before, changes);
            var partial, full := RecomputedAll(ctx, after, s, done), RecomputedAll(ctx, after, s, all);
            CellOf(partial, k) == CellOf(full, k) && (k in all ==> UpToDate(ctx, after, partial, k))
  {
    var after := ChangedAll(before, changes);
    RecomputedAllCell(ctx, after, s, done, k);
    RecomputedAllCell(ctx, after, s, all, k);
    CellSettles(ComputeDay(ctx, after, k), CellOf(s, k));
    hide CellOf, CellAfter, RecomputedAll, ChangedAll, TouchedBy;
    if k in all && k !in done {
      UntouchedOwnsAll(ctx.tables, before, changes, k);
      ComputedFromOwned(ctx, before, after, k);
    }
    hide ComputeDay;
  }

  // ---------------------------------------------------------------- what is stored, field by field

  /** The counted punches of a day and its strays, as listed. */
  function DivisionOf(ctx: Context, events: seq<Event>, k: Key): Division {
    var day := EvaluateDay(ctx.tables, k.employeeId, k.workDate);
    Split(ctx.tables, k.employeeId, day, Loaded(events, k.employeeId, ReachOf(ctx.tables, day)))
  }

  /** The input a day is calculated from. */
  function InputOf(ctx: Context, events: seq<Event>, k: Key): CalculationInput {
    var day, d := EvaluateDay(ctx.tables, k.employeeId, k.workDate), DivisionOf(ctx, events, k);
    var leaves := if k.employeeId in ctx.approvedLeave then ctx.approvedLeave[k.employeeId] else [];
    CalculationInput(day, d.counted, d.strays, LeavesDuring(leaves, day.window), ctx.tables.policy, ctx.now)
  }

  lemma ComputedIsCalculated(ctx: Context, events: seq<Event>, k: Key)
    ensures var c, input := ComputeDay(ctx, events, k), InputOf(ctx, events, k);
            c == Computed(input.day, input.punches, Calculation(input))
  {
    hide Calculation, Split, Loaded, LeavesDuring, EvaluateDay;
  }

  /** A record with everything the calculation found under its own name; hours only where the shift fixes them. */
  predicate Records(a: AttendanceRecord, day: WorkDayContext, r: CalculationResult) {
    && a.dayType == day.dayType && a.status == r.status && a.isFinal == r.isFinal
    && a.firstIn == r.firstIn && a.lastOut == r.lastOut
    && a.workedMinutes == r.workedMinutes && a.breakMinutes == r.breakMinutes
    && a.lateMinutes == r.lateMinutes && a.earlyLeaveMinutes == r.earlyLeaveMinutes
    && a.overtimeMinutes == r.overtimeMinutes && a.shortMinutes == r.shortMinutes
    && a.anomalies == r.anomalies && a.segments == r.segments
    && (a.shiftId.Some? <==> day.shift.Some?) && (day.shift.Some? ==> a.shiftId.value == day.shift.value.shiftId)
    && (a.scheduledStart.Some? <==> day.shift.Some? && !day.shift.value.flexible)
    && (a.scheduledEnd.Some? <==> a.scheduledStart.Some?)
    && (a.scheduledStart.Some? ==>
          a.scheduledStart.value == day.shift.value.start && a.scheduledEnd.value == day.shift.value.end)
  }

  /** What a recomputation leaves stored of its day. */
  predicate StoredAfter(before: Option<AttendanceRecord>, after: Option<AttendanceRecord>, input: CalculationInput) {
    var r := Calculation(input);
    if input.punches != [] || input.day.window.to <= input.now then after.Some? && Records(after.value, input.day, r)
    else if before.Some? && before.value.isFinal then after == before
    else after == None
  }

  lemma FinalIsClosed(input: CalculationInput)
    ensures Calculation(input).isFinal <==> input.day.window.to <= input.now
  {
    hide PunchPairing.Selected, PunchPairing.Paired, Deducted, Expected, ComputeOvertime, Missing, OutOfSchedule,
      MissingMinutes, Add, ShortBreak,
      FirstIn, LastOut, StatusWithoutPunches;
  }

  /** A day with punches, or closed, is stored as calculated; of an open one without any, only what was final stays. */
  lemma StoredAsCalculated(ctx: Context, events: seq<Event>, s: Store, k: Key)
    ensures StoredAfter(Get(s.records, k), Get(Recomputed(ctx, events, s, k).records, k), InputOf(ctx, events, k))
  {
    RecomputedCell(ctx, events, s, k, k);
    ComputedIsCalculated(ctx, events, k);
    FinalIsClosed(InputOf(ctx, events, k));
    hide ComputeDay, InputOf, Calculation, Recomputed;
    var cell := CellAfter(ComputeDay(ctx, events, k), CellOf(s, k));
    assert CellOf(Recomputed(ctx, events, s, k), k) == cell;
  }

  /** The punch an event of the day stands for: the employee's, not voided, owned by the day. */
  predicate IsPunchOf(t: Tables, e: Event, k: Key, p: Punch) {
    && e.employeeId == Some(k.employeeId) && !e.voided && OwnerOf(t, k.employeeId, e.occurredAt) == k.workDate
    && p == Punch(e.id, e.occurredAt, e.kind)
  }

  lemma {:induction false} OwnedMembers(t: Tables, events: seq<Event>, k: Key, p: Punch)
    ensures p in OwnedPunches(t, events, k) <==> exists e :: e in events && IsPunchOf(t, e, k, p)
  {
    if events != [] {
      var n := |events| - 1;
      var e := events[n];
      OwnedMembers(t, events[..n], k, p);
      hide OwnerOf;
      assert forall d :: d in events <==> d in events[..n] || d == e;
      assert Owned(t, e, k) ==> IsPunchOf(t, e, k, ToPunch(e));
      assert IsPunchOf(t, e, k, p) ==> Owned(t, e, k) && p == ToPunch(e);
      hide OwnedPunches, IsPunchOf, Owned;
      var before := OwnedPunches(t, events[..n], k);
      OwnedOneMore(t, events, k);
      assert p in OwnedPunches(t, events, k) <==> p in before || (Owned(t, e, k) && p == ToPunch(e));
    }
  }

  lemma OwnedOneMore(t: Tables, events: seq<Event>, k: Key)
    requires events != []
    ensures var n := |events| - 1;
            OwnedPunches(t, events, k)
            == OwnedPunches(t, events[..n], k) + if Owned(t, events[n], k) then [ToPunch(events[n])] else []
  {
  }

  lemma {:induction false} SplitMembers(t: Tables, employeeId: string, day: WorkDayContext, punches: seq<Punch>,
                                        p: Punch)
    ensures p in Split(t, employeeId, day, punches).counted <==>
            p in punches && OwnerOf(t, employeeId, p.at) == day.workDate && InWindow(p.at, day)
    ensures p in Split(t, employeeId, day, punches).strays <==>
            p in punches && OwnerOf(t, employeeId, p.at) == day.workDate && !InWindow(p.at, day)
  {
    if punches != [] {
      var n := |punches| - 1;
      SplitMembers(t, employeeId, day, punches[..n], p);
      hide OwnerOf, InWindow;
      assert punches == punches[..n] + [punches[n]];
    }
  }

  lemma {:induction false} DuringMembers(leaves: seq<LeaveRequests.LeaveInterval>, w: Window,
                                         l: LeaveRequests.LeaveInterval)
    ensures multiset(LeavesDuring(leaves, w))[l] == if l.start < w.to && w.from < l.end then multiset(leaves)[l] else 0
  {
    if leaves != [] {
      DuringMembers(leaves[1..], w, l);
      assert leaves == [leaves[0]] + leaves[1..];
    }
  }

  /**
   What a day is calculated from: its punches inside its window, those outside, and the approved
   leave that meets the window.
   */
  lemma InputMembers(ctx: Context, events: seq<Event>, k: Key, p: Punch, l: LeaveRequests.LeaveInterval)
    requires ValidZone(ctx.tables.zone)
    ensures var input, w := InputOf(ctx, events, k), InputOf(ctx, events, k).day.window;
            var approved := if k.employeeId in ctx.approvedLeave then ctx.approvedLeave[k.employeeId] else [];
            var owned := exists e :: e in events && IsPunchOf(ctx.tables, e, k, p);
            && input.day == EvaluateDay(ctx.tables, k.employeeId, k.workDate)
            && input.policy == ctx.tables.policy && input.now == ctx.now
            && (p in input.punches <==> owned && w.from <= p.at && p.at < w.to)
            && (p in input.strays <==> owned && !(w.from <= p.at && p.at < w.to))
            && multiset(input.leaves)[l] == if l.start < w.to && w.from < l.end then multiset(approved)[l] else 0
  {
    var day := EvaluateDay(ctx.tables, k.employeeId, k.workDate);
    SplitOfLoaded(ctx.tables, events, k);
    SplitMembers(ctx.tables, k.employeeId, day, OwnedPunches(ctx.tables, events, k), p);
    OwnedMembers(ctx.tables, events, k, p);
    DayIsItsDate(ctx.tables, k.employeeId, k.workDate);
    DuringMembers(if k.employeeId in ctx.approvedLeave then ctx.approvedLeave[k.employeeId] else [], day.window, l);
    hide Split, Loaded, ReachOf, EvaluateDay, OwnerOf, OwnedPunches, LeavesDuring;
  }

  // ---------------------------------------------------------------- overtime proposals

  /** A reviewed proposal stays as decided; without one, what the day computes is what is proposed. */
  predicate OvertimeMatches(o: Option<OvertimeRecord>, r: CalculationResult) {
    if o.Some? && o.value.status != PENDING then true
    else if r.overtimeMinutes > 0 && r.overtimeKind.Some? then
      o == Some(OvertimeRecord(PENDING, r.overtimeMinutes, r.overtimeKind.value))
    else o == None
  }

  lemma ReviewedIsKept(c: Computed, cell: Cell)
    requires cell.overtime.Some? && cell.overtime.value.status != PENDING
    ensures CellAfter(c, cell).overtime == cell.overtime
  {
  }

  /**
   Recomputing leaves the proposal the day computes, except exactly when the day has no punches
   left and is still open while a proposal is pending: that proposal stays.
   */
  lemma ProposalFollows(ctx: Context, events: seq<Event>, k: Key, cell: Cell)
    ensures var c := ComputeDay(ctx, events, k);
            OvertimeMatches(CellAfter(c, cell).overtime, c.result)
            <==> !(NothingYet(c) && cell.overtime.Some? && cell.overtime.value.status == PENDING)
  {
    NothingComputed(ctx, events, k);
    hide ComputeDay;
  }

  lemma NothingComputed(ctx: Context, events: seq<Event>, k: Key)
    ensures var c := ComputeDay(ctx, events, k); c.counted == [] ==>
              c.result.overtimeMinutes == 0 && c.result.overtimeKind == None
  {
    hide Split, Loaded, EvaluateDay, ReachOf, LeavesDuring, Summary, StatusWithoutPunches;
  }

  /** How that comes about: overtime was proposed while the day was open, then its punches were voided. */
  lemma StaleProposal(ctx: Context, before: seq<Event>, after: seq<Event>, k: Key)
    requires ValidZone(ctx.tables.zone) && OwnedPunches(ctx.tables, after, k) == []
    requires var c := ComputeDay(ctx, before, k);
             !c.result.isFinal && c.result.overtimeMinutes > 0 && c.result.overtimeKind.Some?
    ensures var c := ComputeDay(ctx, before, k);
            CellAfter(ComputeDay(ctx, after, k), CellAfter(c, Cell(None, None)))
            == Cell(None, Some(OvertimeRecord(PENDING, c.result.overtimeMinutes, c.result.overtimeKind.value)))
  {
    NothingComputed(ctx, before, k);
    OpenWithout(ctx, before, after, k);
    hide ComputeDay;
  }

  lemma OpenWithout(ctx: Context, before: seq<Event>, after: seq<Event>, k: Key)
    requires ValidZone(ctx.tables.zone) && OwnedPunches(ctx.tables, after, k) == []
    ensures ComputeDay(ctx, after, k).counted == []
    ensures ComputeDay(ctx, after, k).result.isFinal == ComputeDay(ctx, before, k).result.isFinal
  {
    SplitOfLoaded(ctx.tables, after, k);
    hide Loaded, EvaluateDay, ReachOf, LeavesDuring, StatusWithoutPunches, OwnedPunches, Missing, Deducted;
  }

  // ---------------------------------------------------------------- the service

  datatype Employee = Employee(id: string, hireDate: int, terminatedAt: Option<int>)

  const MAX_FILLED_DAYS := 93

  predicate IsEmployed(e: Employee, date: int) {
    date >= e.hireDate && (e.terminatedAt == None || date <= e.terminatedAt.value)
  }

  /** A punch as `processEvents` is told about it: who, if anybody, and when. */
  datatype Notice = Notice(employeeId: Option<string>, occurredAt: int)

  /** The days since `from`, at most 93 back, that a late punch completes. */
  predicate ToFill(e: Employee, from: int, today: int, k: Key) {
    k.employeeId == e.id && from < today - 1 && Max(from, today - MAX_FILLED_DAYS) <= k.workDate < today
    && IsEmployed(e, k.workDate)
  }

  /**
   Nothing is filled since yesterday; else from that day, or 93 days back, to yesterday, while the
   person was employed.
   */
  lemma FilledDays(e: Employee, from: int, today: int, d: int)
    ensures ToFill(e, from, today, Key(e.id, d)) <==>
            && from + 1 < today && from <= d && today - 93 <= d && d + 1 <= today
            && e.hireDate <= d && (e.terminatedAt.Some? ==> d <= e.terminatedAt.value)
  {
  }

  lemma RecomputedNone(ctx: Context, events: seq<Event>, s: Store)
    ensures RecomputedAll(ctx, events, s, []) == s
  {
  }

  lemma RecomputedOneMore(ctx: Context, events: seq<Event>, s: Store, keys: seq<Key>, k: Key)
    ensures RecomputedAll(ctx, events, s, keys + [k]) == Recomputed(ctx, events, RecomputedAll(ctx, events, s, keys), k)
  {
    assert (keys + [k])[..|keys|] == keys;
  }

  lemma {:induction false} RecomputedInTwo(ctx: Context, events: seq<Event>, s: Store, a: seq<Key>, b: seq<Key>)
    ensures RecomputedAll(ctx, events, s, a + b) == RecomputedAll(ctx, events, RecomputedAll(ctx, events, s, a), b)
  {
    hide Recomputed, RecomputedAll;
    var first := RecomputedAll(ctx, events, s, a);
    if b == [] {
      assert a + b == a;
      RecomputedNone(ctx, events, first);
    } else {
      var n := |b| - 1;
      RecomputedInTwo(ctx, events, s, a, b[..n]);
      assert a + b == (a + b[..n]) + [b[n]] && b == b[..n] + [b[n]];
      RecomputedOneMore(ctx, events, s, a + b[..n], b[n]);
      RecomputedOneMore(ctx, events, first, b[..n], b[n]);
    }
  }

  /** A day some notice is about. */
  predicate Noticed(t: Tables, notices: seq<Notice>, k: Key) {
    exists i :: 0 <= i < |notices| && IsAbout(t, notices[i], k)
  }

  predicate IsAbout(t: Tables, n: Notice, k: Key) {
    n.employeeId == Some(k.employeeId) && OwnerOf(t, k.employeeId, n.occurredAt) == k.workDate
  }

  /** A day recomputed for these notices: one they are about, or one to fill since such a day. */
  predicate Due(t: Tables, notices: seq<Notice>, e: Employee, today: int, k: Key) {
    Noticed(t, notices, k) || exists i :: 0 <= i < |notices| && FillsSince(t, notices[i], e, today, k)
  }

  predicate FillsSince(t: Tables, n: Notice, e: Employee, today: int, k: Key) {
    n.employeeId == Some(e.id) && ToFill(e, OwnerOf(t, e.id, n.occurredAt), today, k)
  }

  /** Only such days, and only of people there are. */
  predicate AllDue(t: Tables, notices: seq<Notice>, done: seq<Key>, employees: map<string, Employee>, today: int) {
    forall i :: 0 <= i < |done| ==>
                  done[i].employeeId in employees && Due(t, notices, employees[done[i].employeeId], today, done[i])
  }

  lemma AllDueConcat(t: Tables, notices: seq<Notice>, a: seq<Key>, b: seq<Key>, employees: map<string, Employee>,
                     today: int)
    requires AllDue(t, notices, a, employees, today) && AllDue(t, notices, b, employees, today)
    ensures AllDue(t, notices, a + b, employees, today)
  {
    hide Due;
  }

  lemma AllNoticed(t: Tables, notices: seq<Notice>, pairs: seq<Key>, employees: map<string, Employee>, today: int)
    requires forall k :: k in pairs ==> Noticed(t, notices, k) && k.employeeId in employees
    ensures AllDue(t, notices, pairs, employees, today)
  {
    hide Noticed, FillsSince;
    assert forall i :: 0 <= i < |pairs| ==> pairs[i] in pairs;
  }

  lemma FilledAreDue(t: Tables, notices: seq<Notice>, p: string, employees: map<string, Employee>, from: int,
                     today: int, filled: seq<Key>)
    requires p in employees && employees[p].id == p && Noticed(t, notices, Key(p, from))
    requires forall k :: k in filled ==> ToFill(employees[p], from, today, k)
    ensures AllDue(t, notices, filled, employees, today)
  {
    var i :| 0 <= i < |notices| && IsAbout(t, notices[i], Key(p, from));
    forall j | 0 <= j < |filled|
      ensures filled[j].employeeId in employees && Due(t, notices, employees[filled[j].employeeId], today, filled[j])
    {
      assert filled[j] in filled;
      assert ToFill(employees[p], from, today, filled[j]);
      assert FillsSince(t, notices[i], employees[p], today, filled[j]);
    }
  }

  lemma NoticedNext(t: Tables, notices: seq<Notice>, i: nat)
    requires i < |notices|
    ensures forall k :: Noticed(t, notices[..i + 1], k) <==> Noticed(t, notices[..i], k) || IsAbout(t, notices[i], k)
  {
    forall k ensures Noticed(t, notices[..i + 1], k) <==> Noticed(t, notices[..i], k) || IsAbout(t, notices[i], k) {
      assert notices[..i + 1][i] == notices[i];
      assert forall j :: 0 <= j < i ==> notices[..i + 1][j] == notices[..i][j];
      hide IsAbout;
    }
  }

  /** What `processEvents` is told after some changes. */
  function NoticesOf(events: seq<Event>, changes: seq<Change>): seq<Notice>
    requires AllApply(events, changes)
    decreases |changes|
  {
    if changes == [] then []
    else
      var e := Subject(events, changes[0]);
      [Notice(e.employeeId, e.occurredAt)] + NoticesOf(Changed(events, changes[0]), changes[1..])
  }

  lemma {:induction false} TouchedIsNoticed(t: Tables, events: seq<Event>, changes: seq<Change>, k: Key)
    requires AllApply(events, changes) && TouchedBy(t, events, changes, k)
    ensures Noticed(t, NoticesOf(events, changes), k)
    decreases |changes|
  {
    var notices := NoticesOf(events, changes);
    var rest := NoticesOf(Changed(events, changes[0]), changes[1..]);
    if Touches(t, events, changes[0], k) {
      assert IsAbout(t, notices[0], k);
    } else {
      TouchedIsNoticed(t, Changed(events, changes[0]), changes[1..], k);
      var i :| 0 <= i < |rest| && IsAbout(t, rest[i], k);
      assert notices[i + 1] == rest[i];
    }
  }

  /** So the days processed after any changes leave nothing for a full recomputation to do. */
  lemma ProcessedIsFull(ctx: Context, before: seq<Event>, changes: seq<Change>, s: Store, done: seq<Key>, all: seq<Key>)
    requires ValidZone(ctx.tables.zone) && AllApply(before, changes)
    requires forall k :: k in all && Noticed(ctx.tables, NoticesOf(before, changes), k) ==> k in done
    requires forall k :: k in done ==> k in all
    requires forall k :: k in all && k !in done ==> UpToDate(ctx, before, s, k)
    ensures var after := ChangedAll(before, changes);
            && RecomputedAll(ctx, after, s, done) == RecomputedAll(ctx, after, s, all)
            && forall k :: k in all ==> UpToDate(ctx, after, RecomputedAll(ctx, after, s, done), k)
  {
    forall k | k in all && k !in done ensures !TouchedBy(ctx.tables, before, changes, k) {
      if TouchedBy(ctx.tables, before, changes, k) {
        TouchedIsNoticed(ctx.tables, before, changes, k);
      }
    }
    IncrementalIsFull(ctx, before, changes, s, done, all);
  }

  // ---------------------------------------------------------------- the snapshot and the whole tables

  /** The employee's punches the snapshot can judge for that day. */
  predicate EventsJudged(z: Zone, events: seq<Event>, k: Key, from: int, to: int) {
    forall i :: 0 <= i < |events| && Of(events[i], k.employeeId) ==>
                  Judged(z, events[i].occurredAt, from, to, k.workDate)
  }

  /** The context of the whole tables, and the one of a snapshot of [from, to] good for that day. */
  ghost predicate GoodFor(snap: Context, whole: Context, events: seq<Event>, k: Key, from: int, to: int) {
    && snap.approvedLeave == whole.approvedLeave && snap.now == whole.now
    && Snapshot(snap.tables, whole.tables, k.employeeId, from, to)
    && OneSchedule(AssignmentsOf(whole.tables, k.employeeId))
    && from - 2 <= k.workDate <= to + 2
    && EventsJudged(whole.tables.zone, events, k, from, to)
  }

  predicate AllJudged(z: Zone, punches: seq<Punch>, k: Key, from: int, to: int) {
    forall i :: 0 <= i < |punches| ==> Judged(z, punches[i].at, from, to, k.workDate)
  }

  lemma {:induction false} LoadedJudged(z: Zone, events: seq<Event>, k: Key, reach: Window, from: int, to: int)
    requires EventsJudged(z, events, k, from, to)
    ensures AllJudged(z, Loaded(events, k.employeeId, reach), k, from, to)
  {
    if events != [] {
      var n := |events| - 1;
      hide Judged, Of;
      forall i | 0 <= i < n && Of(events[..n][i], k.employeeId)
        ensures Judged(z, events[..n][i].occurredAt, from, to, k.workDate)
      {
        assert events[..n][i] == events[i];
      }
      LoadedJudged(z, events[..n], k, reach, from, to);
      var loaded, before := Loaded(events, k.employeeId, reach), Loaded(events[..n], k.employeeId, reach);
      forall i | 0 <= i < |loaded| ensures Judged(z, loaded[i].at, from, to, k.workDate) {
        if i < |before| {
          assert loaded[i] == before[i];
        } else {
          assert loaded[i] == ToPunch(events[n]) && Of(events[n], k.employeeId);
        }
      }
    }
  }

  /** A day computed from the snapshot is the day the whole tables give. */
  lemma ComputedAlike(snap: Context, whole: Context, events: seq<Event>, k: Key, from: int, to: int)
    requires GoodFor(snap, whole, events, k, from, to)
    ensures ComputeDay(snap, events, k) == ComputeDay(whole, events, k)
  {
    var day := EvaluateDay(whole.tables, k.employeeId, k.workDate);
    var loaded := Loaded(events, k.employeeId, ReachOf(whole.tables, day));
    LoadedJudged(whole.tables.zone, events, k, ReachOf(whole.tables, day), from, to);
    assert forall i :: 0 <= i < |loaded| ==> Judged(whole.tables.zone, loaded[i].at, from, to, k.workDate);
    SnapshotAgreesNear(snap.tables, whole.tables, k.employeeId, from, to, k.workDate, loaded);
    hide EvaluateDay, Split, Loaded, ReachOf, Calculation, OneSchedule, EventsJudged;
  }

  lemma {:induction false} RecomputedAlike(snap: Context, whole: Context, events: seq<Event>, s: Store, keys: seq<Key>,
                                           from: int, to: int)
    requires forall i :: 0 <= i < |keys| ==> GoodFor(snap, whole, events, keys[i], from, to)
    ensures RecomputedAll(snap, events, s, keys) == RecomputedAll(whole, events, s, keys)
  {
    hide GoodFor, ComputeDay, CellAfter;
    if keys != [] {
      var n := |keys| - 1;
      RecomputedAlike(snap, whole, events, s, keys[..n], from, to);
      ComputedAlike(snap, whole, events, keys[n], from, to);
    }
  }

  /**
   What processing some changes through a snapshot stores is what a full recomputation from the
   whole tables would store, and every day is up to date against them.
   */
  lemma ProcessedAgainstWhole(snap: Context, whole: Context, before: seq<Event>, changes: seq<Change>, s: Store,
                              done: seq<Key>, all: seq<Key>, from: int, to: int)
    requires ValidZone(whole.tables.zone) && AllApply(before, changes)
    requires forall i :: 0 <= i < |done| ==> GoodFor(snap, whole, ChangedAll(before, changes), done[i], from, to)
    requires forall k :: k in all && Noticed(whole.tables, NoticesOf(before, changes), k) ==> k in done
    requires forall k :: k in done ==> k in all
    requires forall k :: k in all && k !in done ==> UpToDate(whole, before, s, k)
    ensures var after := ChangedAll(before, changes);
            && RecomputedAll(snap, after, s, done) == RecomputedAll(whole, after, s, all)
            && forall k :: k in all ==> UpToDate(whole, after, RecomputedAll(snap, after, s, done), k)
  {
    RecomputedAlike(snap, whole, ChangedAll(before, changes), s, done, from, to);
    hide GoodFor, RecomputedAll, ChangedAll, Noticed, UpToDate;
    ProcessedIsFull(whole, before, changes, s, done, all);
  }

  /** The notices that name someone. */
  function Linked(notices: seq<Notice>): seq<Notice> {
    if notices == [] then []
    else
      var n := |notices| - 1;
      Linked(notices[..n]) + if notices[n].employeeId.Some? then [notices[n]] else []
  }

  lemma {:induction false} LinkedMembers(notices: seq<Notice>)
    ensures forall n :: n in Linked(notices) <==> n in notices && n.employeeId.Some?
  {
    if notices != [] {
      var n := |notices| - 1;
      LinkedMembers(notices[..n]);
      assert notices == notices[..n] + [notices[n]];
    }
  }

  lemma LinkedNotice(t: Tables, notices: seq<Notice>, k: Key)
    ensures Noticed(t, Linked(notices), k) <==> Noticed(t, notices, k)
  {
    var linked := Linked(notices);
    LinkedMembers(notices);
    hide OwnerOf, Linked;
    if i :| 0 <= i < |linked| && IsAbout(t, linked[i], k) {
      assert linked[i] in notices;
      var j :| 0 <= j < |notices| && notices[j] == linked[i];
      assert IsAbout(t, notices[j], k);
    }
    if i :| 0 <= i < |notices| && IsAbout(t, notices[i], k) {
      assert notices[i] in linked;
      var j :| 0 <= j < |linked| && linked[j] == notices[i];
      assert IsAbout(t, linked[j], k);
    }
  }

  function Date(d: int): int {
    d
  }

  /** The local dates of some notices, in order. */
  function DatesOf(z: Zone, notices: seq<Notice>): (d: seq<int>)
    ensures |d| == |notices|
  {
    SortBy(seq(|notices|, i requires 0 <= i < |notices| => z.dateOf(notices[i].occurredAt)), Date)
  }

  /** From the day before the first punch to its last date, or today if that is later. */
  function RangeFrom(z: Zone, linked: seq<Notice>): int
    requires linked != []
  {
    DatesOf(z, linked)[0] - 1
  }

  function RangeTo(z: Zone, linked: seq<Notice>, today: int): int
    requires linked != []
  {
    Max(DatesOf(z, linked)[|linked| - 1], today)
  }

  lemma DateInRange(z: Zone, linked: seq<Notice>, today: int, i: nat)
    requires i < |linked|
    ensures RangeFrom(z, linked) + 1 <= z.dateOf(linked[i].occurredAt) <= RangeTo(z, linked, today)
  {
    var dates := seq(|linked|, i requires 0 <= i < |linked| => z.dateOf(linked[i].occurredAt));
    hide SortBy;
    BetweenEnds(dates, i);
  }

  lemma BetweenEnds(dates: seq<int>, i: nat)
    requires i < |dates|
    ensures var sorted := SortBy(dates, Date); sorted[0] <= dates[i] <= sorted[|sorted| - 1]
  {
    var sorted := SortBy(dates, Date);
    SortMultiset(dates, Date);
    SortOrdered(dates, Date);
    hide SortBy;
    assert dates[i] in multiset(dates);
    assert dates[i] in multiset(sorted);
    var j :| 0 <= j < |sorted| && sorted[j] == dates[i];
    assert j > 0 ==> Date(sorted[0]) <= Date(sorted[j]);
    assert j < |sorted| - 1 ==> Date(sorted[j]) <= Date(sorted[|sorted| - 1]);
  }

  /** No punch of anybody lies two days or more after the range. */
  predicate NoneFarAhead(z: Zone, events: seq<Event>, to: int) {
    forall i :: 0 <= i < |events| && !events[i].voided && events[i].employeeId.Some? ==>
                  z.dateOf(events[i].occurredAt) <= to + 1
  }

  lemma OwnerNearby(t: Tables, employeeId: string, at: int)
    ensures t.zone.dateOf(at) - 1 <= OwnerOf(t, employeeId, at) <= t.zone.dateOf(at) + 1
  {
    OwnerIsCandidate(t, employeeId, at);
    hide OwnerOf, EvaluateDay;
  }

  /** A day due for some notices lies in the range they are loaded for, or is the one after it. */
  lemma DueInRange(t: Tables, linked: seq<Notice>, e: Employee, today: int, k: Key)
    requires linked != [] && Due(t, linked, e, today, k)
    ensures RangeFrom(t.zone, linked) <= k.workDate <= RangeTo(t.zone, linked, today) + 1
  {
    hide OwnerOf, RangeFrom, RangeTo;
    if Noticed(t, linked, k) {
      var i :| 0 <= i < |linked| && IsAbout(t, linked[i], k);
      OwnerNearby(t, k.employeeId, linked[i].occurredAt);
      DateInRange(t.zone, linked, today, i);
    } else {
      var i :| 0 <= i < |linked| && FillsSince(t, linked[i], e, today, k);
      OwnerNearby(t, e.id, linked[i].occurredAt);
      DateInRange(t.zone, linked, today, i);
      TodayInRange(t.zone, linked, today);
    }
  }

  lemma TodayInRange(z: Zone, linked: seq<Notice>, today: int)
    requires linked != []
    ensures today <= RangeTo(z, linked, today)
  {
  }

  /** So a snapshot of that range is good for every day due. */
  lemma RangeIsGood(snap: Context, whole: Context, events: seq<Event>, linked: seq<Notice>, e: Employee, today: int,
                    k: Key)
    requires linked != [] && Due(snap.tables, linked, e, today, k)
    requires snap.approvedLeave == whole.approvedLeave && snap.now == whole.now
    requires var z := whole.tables.zone;
             && Snapshot(snap.tables, whole.tables, k.employeeId, RangeFrom(z, linked), RangeTo(z, linked, today))
             && NoneFarAhead(z, events, RangeTo(z, linked, today))
    requires OneSchedule(AssignmentsOf(whole.tables, k.employeeId))
    ensures GoodFor(snap, whole, events, k, RangeFrom(whole.tables.zone, linked),
                    RangeTo(whole.tables.zone, linked, today))
  {
    DueInRange(snap.tables, linked, e, today, k);
    hide Due, RangeFrom, RangeTo, OneSchedule;
  }

  /** The days due are the same by such a snapshot. */
  lemma DueAlike(snap: Tables, whole: Tables, linked: seq<Notice>, e: Employee, today: int, k: Key)
    requires linked != [] && OneSchedule(AssignmentsOf(whole, k.employeeId)) && e.id == k.employeeId
    requires Snapshot(snap, whole, k.employeeId, RangeFrom(whole.zone, linked), RangeTo(whole.zone, linked, today))
    ensures Noticed(snap, linked, k) <==> Noticed(whole, linked, k)
    ensures Due(snap, linked, e, today, k) <==> Due(whole, linked, e, today, k)
  {
    forall i | 0 <= i < |linked|
      ensures OwnerOf(snap, k.employeeId, linked[i].occurredAt) == OwnerOf(whole, k.employeeId, linked[i].occurredAt)
    {
      DateInRange(whole.zone, linked, today, i);
      OwnerAgrees(snap, whole, k.employeeId, RangeFrom(whole.zone, linked), RangeTo(whole.zone, linked, today),
                  linked[i].occurredAt);
    }
    hide OwnerOf, OneSchedule, RangeFrom, RangeTo, Snapshot, ToFill;
    assert forall i :: 0 <= i < |linked| ==> (IsAbout(snap, linked[i], k) <==> IsAbout(whole, linked[i], k));
    assert forall i :: 0 <= i < |linked| ==>
                         (FillsSince(snap, linked[i], e, today, k) <==> FillsSince(whole, linked[i], e, today, k));
  }

  function Named(linked: seq<Notice>): set<string> {
    set n | n in linked && n.employeeId.Some? :: n.employeeId.value
  }

  /** In the database, nobody has two schedules at once. */
  ghost predicate OneScheduleEach(rows: seq<ScheduleRow>) {
    forall e :: OneSchedule(RowsOf(rows, e))
  }

  lemma OneScheduleWhole(rows: seq<ScheduleRow>, holidays: set<int>, zone: Zone, policy: Policy)
    requires OneScheduleEach(rows)
    ensures forall e :: OneSchedule(AssignmentsOf(WholeTables(rows, holidays, zone, policy), e))
  {
    forall e ensures OneSchedule(AssignmentsOf(WholeTables(rows, holidays, zone, policy), e)) {
      WholeAssignments(rows, holidays, zone, policy, e);
    }
  }

  lemma RangeIs(z: Zone, linked: seq<Notice>, today: int)
    requires linked != []
    ensures var dates := DatesOf(z, linked);
            && RangeFrom(z, linked) == dates[0] - 1
            && RangeTo(z, linked, today) == if dates[|dates| - 1] > today then dates[|dates| - 1] else today
  {
  }

  lemma DueIsNamed(t: Tables, linked: seq<Notice>, e: Employee, today: int, k: Key)
    requires Due(t, linked, e, today, k) && e.id == k.employeeId
    ensures k.employeeId in Named(linked)
  {
    hide OwnerOf, ToFill;
    if Noticed(t, linked, k) {
      var i :| 0 <= i < |linked| && IsAbout(t, linked[i], k);
      assert linked[i] in linked;
    } else {
      var i :| 0 <= i < |linked| && FillsSince(t, linked[i], e, today, k);
      assert linked[i] in linked;
    }
  }

  /** What is recomputed from the snapshot of the range is what the whole tables give. */
  lemma ProcessedFromRange(snap: Context, whole: Context, events: seq<Event>, linked: seq<Notice>,
                           employees: map<string, Employee>, today: int, done: seq<Key>, s: Store)
    requires linked != [] && forall p :: p in employees ==> employees[p].id == p
    requires snap.approvedLeave == whole.approvedLeave && snap.now == whole.now
    requires forall e :: OneSchedule(AssignmentsOf(whole.tables, e))
    requires var z := whole.tables.zone;
             && NoneFarAhead(z, events, RangeTo(z, linked, today))
             && forall e :: e in Named(linked) ==>
                              Snapshot(snap.tables, whole.tables, e, RangeFrom(z, linked), RangeTo(z, linked, today))
    requires forall k :: Noticed(snap.tables, linked, k) && k.employeeId in employees ==> k in done
    requires AllDue(snap.tables, linked, done, employees, today)
    ensures RecomputedAll(snap, events, s, done) == RecomputedAll(whole, events, s, done)
    ensures forall k :: Noticed(whole.tables, linked, k) && k.employeeId in employees ==> k in done
    ensures AllDue(whole.tables, linked, done, employees, today)
  {
    var z := whole.tables.zone;
    var from, to := RangeFrom(z, linked), RangeTo(z, linked, today);
    hide RangeFrom, RangeTo, Noticed, Due, OneSchedule, Snapshot, NoneFarAhead, GoodFor, RecomputedAll;
    forall i | 0 <= i < |done|
      ensures GoodFor(snap, whole, events, done[i], from, to)
              && Due(whole.tables, linked, employees[done[i].employeeId], today, done[i])
    {
      var e := employees[done[i].employeeId];
      DueIsNamed(snap.tables, linked, e, today, done[i]);
      RangeIsGood(snap, whole, events, linked, e, today, done[i]);
      DueAlike(snap.tables, whole.tables, linked, e, today, done[i]);
    }
    RecomputedAlike(snap, whole, events, s, done, from, to);
    forall k | Noticed(whole.tables, linked, k) && k.employeeId in employees ensures k in done {
      DueWhenNoticed(whole.tables, linked, employees[k.employeeId], today, k);
      DueIsNamed(whole.tables, linked, employees[k.employeeId], today, k);
      DueAlike(snap.tables, whole.tables, linked, employees[k.employeeId], today, k);
    }
  }

  /** And so of what the database holds, where nothing stands in the way. */
  lemma FromRange(snap: Context, rows: seq<ScheduleRow>, holidays: set<int>, events: seq<Event>, notices: seq<Notice>,
                  employees: map<string, Employee>, today: int, done: seq<Key>, s: Store)
    requires Linked(notices) != [] && forall p :: p in employees ==> employees[p].id == p
    requires var z, linked := snap.tables.zone, Linked(notices);
             var whole := WholeTables(rows, holidays, z, snap.tables.policy);
             forall e :: e in Named(linked) ==>
                           Snapshot(snap.tables, whole, e, RangeFrom(z, linked), RangeTo(z, linked, today))
    requires forall k :: Noticed(snap.tables, Linked(notices), k) && k.employeeId in employees ==> k in done
    requires AllDue(snap.tables, Linked(notices), done, employees, today)
    ensures
      var z := snap.tables.zone;
      OneScheduleEach(rows) && NoneFarAhead(z, events, RangeTo(z, Linked(notices), today)) ==>
        var whole := snap.(tables := WholeTables(rows, holidays, snap.tables.zone, snap.tables.policy));
        && RecomputedAll(snap, events, s, done) == RecomputedAll(whole, events, s, done)
        && (forall k :: Noticed(whole.tables, notices, k) && k.employeeId in employees ==> k in done)
        && AllDue(whole.tables, Linked(notices), done, employees, today)
  {
    var linked, z := Linked(notices), snap.tables.zone;
    var whole := snap.(tables := WholeTables(rows, holidays, z, snap.tables.policy));
    assert whole.tables.zone == z;
    hide RecomputedAll, Noticed, AllDue, RangeFrom, RangeTo, Linked, Snapshot, NoneFarAhead, WholeTables, Named;
    if OneScheduleEach(rows) && NoneFarAhead(z, events, RangeTo(z, linked, today)) {
      OneScheduleWhole(rows, holidays, z, snap.tables.policy);
      hide OneSchedule, OneScheduleEach;
      ProcessedFromRange(snap, whole, events, linked, employees, today, done, s);
      forall k ensures Noticed(whole.tables, notices, k) <==> Noticed(whole.tables, linked, k) {
        LinkedNotice(whole.tables, notices, k);
      }
    }
  }

  lemma DueWhenNoticed(t: Tables, linked: seq<Notice>, e: Employee, today: int, k: Key)
    requires Noticed(t, linked, k)
    ensures Due(t, linked, e, today, k)
  {
  }

  class AttendanceProcessingService {
    var events: seq<Event>
    var records: map<Key, AttendanceRecord>
    var overtime: map<Key, OvertimeRecord>
    var approvedLeave: map<string, seq<LeaveRequests.LeaveInterval>>
    const employees: map<string, Employee>

    constructor (employees: map<string, Employee>)
      ensures this.employees == employees && events == [] && approvedLeave == map[] && State() == Store(map[], map[])
    {
      this.employees := employees;
      events, records, overtime, approvedLeave := [], map[], map[], map[];
    }

    function State(): Store
      reads this`records, this`overtime
    {
      Store(records, overtime)
    }

    ghost function ContextOf(calendar: WorkCalendar, now: int): Context
      reads this`approvedLeave
    {
      Context(calendar.tables, approvedLeave, now)
    }

    method SyncOvertime(k: Key, result: CalculationResult)
      modifies this`overtime
      ensures overtime == Set(old(overtime), k, Proposed(Get(old(overtime), k), result))
    {
      if result.overtimeMinutes > 0 && result.overtimeKind.Some? {
        if k !in overtime || overtime[k].status == PENDING {
          overtime := overtime[k := OvertimeRecord(PENDING, result.overtimeMinutes, result.overtimeKind.value)];
        }
      } else if k in overtime && overtime[k].status == PENDING {
        overtime := overtime - {k};
      }
    }

    /** What the day comes to now, as far as the snapshot has it. */
    method Compute(calendar: WorkCalendar, k: Key, now: int) returns (c: Computed)
      requires calendar.Valid()
      modifies calendar`days
      ensures calendar.Valid() && c == ComputeDay(ContextOf(calendar, now), events, k)
    {
      hide Calculation, EvaluateDay, Split, Loaded, LeavesDuring;
      var day := calendar.DayFor(k.employeeId, k.workDate);
      var loaded := Loaded(events, k.employeeId, ReachOf(calendar.tables, day));
      var leaves := LeavesDuring(if k.employeeId in approvedLeave then approvedLeave[k.employeeId] else [], day.window);
      var counted, strays := calendar.SplitPunches(k.employeeId, day, loaded);
      var result := CalculateAttendance(CalculationInput(day, counted, strays, leaves, calendar.tables.policy, now));
      c := Computed(day, counted, result);
      assert Division(counted, strays).counted == counted;
    }

    method RecomputeWith(calendar: WorkCalendar, k: Key, now: int)
      requires calendar.Valid()
      modifies this`records, this`overtime, calendar`days
      ensures calendar.Valid()
      ensures State() == Recomputed(ContextOf(calendar, now), events, old(State()), k)
      ensures StoredAfter(Get(old(records), k), Get(records, k), InputOf(ContextOf(calendar, now), events, k))
    {
      hide ComputeDay, Calculation, ToRecord, Proposed, InputOf, StoredAfter;
      StoredAsCalculated(ContextOf(calendar, now), events, State(), k);
      var c := Compute(calendar, k, now);
      if c.counted == [] && !c.result.isFinal {
        if k in records && !records[k].isFinal {
          records := records - {k};
        }
        return;
      }
      records := records[k := ToRecord(c)];
      SyncOvertime(k, c.result);
    }

    /** The days nobody punched between the first touched one and yesterday: those it recomputes. */
    method CompleteDaysSince(calendar: WorkCalendar, employee: Employee, from: int, today: int,
                             now: int) returns (filled: seq<Key>)
      requires calendar.Valid()
      modifies this`records, this`overtime, calendar`days
      ensures calendar.Valid()
      ensures State() == RecomputedAll(ContextOf(calendar, now), events, old(State()), filled)
      ensures forall k :: k in filled <==> ToFill(employee, from, today, k) && k !in old(records)
    {
      hide Recomputed, RecomputedAll, IsEmployed, StoredAfter, InputOf;
      filled := [];
      RecomputedNone(ContextOf(calendar, now), events, State());
      var yesterday := today - 1;
      if from >= yesterday {
        return;
      }
      ghost var ctx := ContextOf(calendar, now);
      var start := Max(from, today - MAX_FILLED_DAYS);
      var known := records;
      var date := start;
      while date <= yesterday
        invariant start <= date <= Max(start, yesterday + 1)
        invariant calendar.Valid()
        invariant State() == RecomputedAll(ctx, events, old(State()), filled)
        invariant forall k :: k in filled <==>
                              && k.employeeId == employee.id && start <= k.workDate < date
                              && k !in known && IsEmployed(employee, k.workDate)
      {
        var k := Key(employee.id, date);
        if k !in known && IsEmployed(employee, date) {
          RecomputeWith(calendar, k, now);
          RecomputedOneMore(ctx, events, old(State()), filled, k);
          filled := filled + [k];
        }
        date := date + 1;
      }
    }

    /** The days some notices touch: each known person's, once. */
    method TouchedDays(calendar: WorkCalendar, notices: seq<Notice>) returns (pairs: seq<Key>)
      requires calendar.Valid()
      modifies calendar`days
      ensures calendar.Valid()
      ensures forall k :: k in pairs <==> Noticed(calendar.tables, notices, k) && k.employeeId in employees
    {
      pairs := [];
      for i := 0 to |notices|
        invariant calendar.Valid()
        invariant forall k :: k in pairs <==> Noticed(calendar.tables, notices[..i], k) && k.employeeId in employees
      {
        NoticedNext(calendar.tables, notices, i);
        var e := notices[i];
        if e.employeeId == None || e.employeeId.value !in employees {
          continue;
        }
        var workDate := calendar.WorkDateOf(e.employeeId.value, e.occurredAt);
        if Key(e.employeeId.value, workDate) !in pairs {
          pairs := pairs + [Key(e.employeeId.value, workDate)];
        }
      }
      assert notices[..|notices|] == notices;
    }

    method RecomputeEach(calendar: WorkCalendar, pairs: seq<Key>, now: int)
      requires calendar.Valid()
      modifies this`records, this`overtime, calendar`days
      ensures calendar.Valid()
      ensures State() == RecomputedAll(ContextOf(calendar, now), events, old(State()), pairs)
    {
      hide Recomputed, RecomputedAll, StoredAfter, InputOf;
      ghost var ctx := ContextOf(calendar, now);
      RecomputedNone(ctx, events, State());
      assert pairs[..0] == [];
      for i := 0 to |pairs|
        invariant calendar.Valid()
        invariant State() == RecomputedAll(ctx, events, old(State()), pairs[..i])
      {
        RecomputeWith(calendar, pairs[i], now);
        RecomputedOneMore(ctx, events, old(State()), pairs[..i], pairs[i]);
        assert pairs[..i] + [pairs[i]] == pairs[..i + 1];
      }
      assert pairs[..|pairs|] == pairs;
    }

    /** The people of these days and the earliest day of each. */
    method EarliestDays(pairs: seq<Key>) returns (earliest: map<string, int>, people: seq<string>)
      ensures forall p :: p in people ==> p in earliest
      ensures forall p :: p in earliest ==> Key(p, earliest[p]) in pairs
      ensures forall i :: 0 <= i < |pairs| ==>
                            pairs[i].employeeId in earliest && earliest[pairs[i].employeeId] <= pairs[i].workDate
    {
      earliest, people := map[], [];
      for i := 0 to |pairs|
        invariant forall p :: p in people ==> p in earliest
        invariant forall p :: p in earliest ==> Key(p, earliest[p]) in pairs
        invariant forall j :: 0 <= j < i ==>
                                pairs[j].employeeId in earliest && earliest[pairs[j].employeeId] <= pairs[j].workDate
      {
        var k := pairs[i];
        assert k in pairs && k == Key(k.employeeId, k.workDate);
        if k.employeeId !in earliest {
          people := people + [k.employeeId];
        }
        if k.employeeId !in earliest || k.workDate < earliest[k.employeeId] {
          earliest := earliest[k.employeeId := k.workDate];
        }
      }
    }

    /**
     Recomputes every work day the notices touch, and the days since then that have no record. The
     calendar it loads reaches from the day before the first punch to the later of the last and
     today; `query` is the database's answer to the schedule query. Where nobody has two schedules
     at once and no punch lies two days past that range, what is stored is what the whole tables give.
     */
    method ProcessEvents(notices: seq<Notice>, now: int, zone: Zone, policy: Policy,
                         ghost rows: seq<ScheduleRow>, holidays: set<int>,
                         query: (set<string>, int, int) -> seq<ScheduleRow>)
      returns (done: seq<Key>)
      requires forall ids, f, u :: Answers(query(ids, f, u), rows, ids, f, u)
      requires forall p :: p in employees ==> employees[p].id == p
      modifies this`records, this`overtime
      ensures Linked(notices) == [] ==> State() == old(State()) && done == []
      ensures var linked, whole, today := Linked(notices), WholeTables(rows, holidays, zone, policy), zone.dateOf(now);
              linked != [] && OneScheduleEach(rows) && NoneFarAhead(zone, events, RangeTo(zone, linked, today)) ==>
                && State() == RecomputedAll(Context(whole, approvedLeave, now), events, old(State()), done)
                && (forall k :: Noticed(whole, notices, k) && k.employeeId in employees ==> k in done)
                && AllDue(whole, linked, done, employees, today)
    {
      hide Linked, Answers, Recomputed, RecomputedAll, Noticed, Due, AllDue, RangeFrom, RangeTo, Snapshot, WholeTables,
        NoneFarAhead, OneScheduleEach, DatesOf, Named;
      var linked := Linked(notices);
      if linked == [] {
        return [];
      }
      var today := zone.dateOf(now);
      var dates := DatesOf(zone, linked);
      var lastDate := if dates[|dates| - 1] > today then dates[|dates| - 1] else today;
      var employeeIds := Named(linked);
      var calendar := Load(employeeIds, dates[0] - 1, lastDate, zone, policy, rows, holidays, query);
      done := RecomputeTouched(calendar, linked, now);
      RangeIs(zone, linked, today);
      FromRange(Context(calendar.tables, approvedLeave, now), rows, holidays, events, notices, employees, today, done,
                old(State()));
    }

    /** What `ProcessEvents` does once the calendar is loaded. */
    method RecomputeTouched(calendar: WorkCalendar, notices: seq<Notice>, now: int) returns (done: seq<Key>)
      requires calendar.Valid() && forall p :: p in employees ==> employees[p].id == p
      modifies this`records, this`overtime, calendar`days
      ensures calendar.Valid()
      ensures State() == RecomputedAll(ContextOf(calendar, now), events, old(State()), done)
      ensures forall k :: Noticed(calendar.tables, notices, k) && k.employeeId in employees ==> k in done
      ensures AllDue(calendar.tables, notices, done, employees, calendar.tables.zone.dateOf(now))
    {
      hide Noticed, ToFill, Due, AllDue, Recomputed, RecomputedAll;
      ghost var ctx := ContextOf(calendar, now);
      var today := calendar.tables.zone.dateOf(now);
      var pairs := TouchedDays(calendar, notices);
      RecomputeEach(calendar, pairs, now);
      var earliest, people := EarliestDays(pairs);
      AllNoticed(calendar.tables, notices, pairs, employees, today);
      done := pairs;
      for i := 0 to |people|
        invariant calendar.Valid()
        invariant State() == RecomputedAll(ctx, events, old(State()), done)
        invariant forall k :: k in pairs ==> k in done
        invariant AllDue(calendar.tables, notices, done, employees, today)
      {
        var p := people[i];
        assert p in people && Key(p, earliest[p]) in pairs;
        var filled := CompleteDaysSince(calendar, employees[p], earliest[p], today, now);
        FilledAreDue(calendar.tables, notices, p, employees, earliest[p], today, filled);
        AllDueConcat(calendar.tables, notices, done, filled, employees, today);
        RecomputedInTwo(ctx, events, old(State()), done, filled);
        done := done + filled;
      }
    }
  }
}
