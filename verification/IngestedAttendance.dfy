/**
 Ingests and the days they touch, over whole runs: an ingest can fail at its insert, or after it,
 before every day it touches was recomputed. What is up to date then, and that syncing again does
 not mend the rest.
 */
module IngestedAttendance {
  import opened AttendanceCalculator
  import opened AttendanceConsistency
  import opened AttendanceProcessing
  import opened AttendanceTypes
  import opened Ingestion
  import opened PunchPairing
  import opened Sorting
  import opened Text
  import opened WorkCalendar
  import opened WorkDay
  import opened Wrappers

  // ---------------------------------------------------------------- from logs to events

  /** Who a biometric id belongs to, and the identifiers the database gives the rows. */
  datatype Directory = Directory(enrolled: map<string, string>, rowId: DedupKey -> string)

  function KindOf(punchType: string): PunchType {
    if punchType == "CHECK_IN" then CHECK_IN
    else if punchType == "CHECK_OUT" then CHECK_OUT
    else if punchType == "BREAK_OUT" then BREAK_OUT
    else if punchType == "BREAK_IN" then BREAK_IN
    else UNKNOWN
  }

  function EventOf(d: Directory, row: NormalizedLog): Event {
    Event(
      d.rowId(row.dedupKey),
      if row.deviceUserId in d.enrolled then Some(d.enrolled[row.deviceUserId]) else None,
      row.occurredAt, KindOf(row.punchType), false)
  }

  function EventsOf(d: Directory, rows: seq<NormalizedLog>): (e: seq<Event>)
    ensures |e| == |rows|
  {
    seq(|rows|, i requires 0 <= i < |rows| => EventOf(d, rows[i]))
  }

  /** Each event as a punch added, in order. */
  function Additions(events: seq<Event>): seq<Change> {
    if events == [] then [] else [Added(events[0])] + Additions(events[1..])
  }

  lemma {:induction false} AdditionsApply(before: seq<Event>, events: seq<Event>)
    ensures AllApply(before, Additions(events)) && ChangedAll(before, Additions(events)) == before + events
    decreases |events|
  {
    if events == [] {
      assert before + [] == before;
    } else {
      OneAddition(before, events);
      hide AllApply, ChangedAll, Additions;
      AdditionsApply(before + [events[0]], events[1..]);
      assert (before + [events[0]]) + events[1..] == before + events;
    }
  }

  lemma OneAddition(before: seq<Event>, events: seq<Event>)
    requires events != []
    ensures var rest := Additions(events[1..]);
            AllApply(before + [events[0]], rest) ==>
              && AllApply(before, Additions(events))
              && ChangedAll(before, Additions(events)) == ChangedAll(before + [events[0]], rest)
  {
    assert Additions(events)[1..] == Additions(events[1..]);
  }

  /** The days these punches belong to. */
  function DaysOf(t: Tables, events: seq<Event>): set<Key> {
    set i | 0 <= i < |events| && events[i].employeeId.Some? ::
      Key(events[i].employeeId.value, OwnerOf(t, events[i].employeeId.value, events[i].occurredAt))
  }

  lemma {:induction false} TouchedAreDays(t: Tables, before: seq<Event>, events: seq<Event>, k: Key)
    requires AllApply(before, Additions(events)) && TouchedBy(t, before, Additions(events), k)
    ensures k in DaysOf(t, events)
    decreases |events|
  {
    hide OwnerOf;
    var changes := Additions(events);
    assert changes[1..] == Additions(events[1..]);
    if Touches(t, before, changes[0], k) {
      assert events[0].employeeId == Some(k.employeeId);
    } else {
      TouchedAreDays(t, before + [events[0]], events[1..], k);
      var i :| 0 <= i < |events[1..]| && events[1..][i].employeeId.Some?
               && k == Key(events[1..][i].employeeId.value,
                           OwnerOf(t, events[1..][i].employeeId.value, events[1..][i].occurredAt));
      assert events[i + 1] == events[1..][i];
    }
  }

  // ---------------------------------------------------------------- runs

  /** `behind`: days a failed ingest touched that nothing has recomputed since. */
  datatype World = World(rows: seq<NormalizedLog>, events: seq<Event>, store: Store, behind: set<Key>)

  const EMPTY := World([], [], Store(map[], map[]), {})

  /** How an ingest ends, and the days recomputed by then. */
  datatype Ending = Completed(done: seq<Key>) | InsertFailed | RecomputeFailed(done: seq<Key>)

  datatype Step =
    | Ingesting(logs: seq<AttendanceLog>, deviceId: int, now: int, ending: Ending)
    | Recomputing(keys: seq<Key>)

  /** The events an ingest adds. */
  function NewEvents(d: Directory, w: World, logs: seq<AttendanceLog>, deviceId: int, now: int): seq<Event> {
    EventsOf(d, Inserted(w.rows, Pipeline(logs, deviceId, now).accepted))
  }

  /** A completed ingest has recomputed every day it touched. */
  predicate Enabled(ctx: Context, d: Directory, w: World, s: Step) {
    s.Ingesting? && s.ending.Completed? ==>
      forall k :: k in DaysOf(ctx.tables, NewEvents(d, w, s.logs, s.deviceId, s.now)) ==> k in s.ending.done
  }

  function Done(keys: seq<Key>): set<Key> {
    set k | k in keys
  }

  function Apply(ctx: Context, d: Directory, w: World, s: Step): World {
    match s
    case Recomputing(keys) => w.(store := RecomputedAll(ctx, w.events, w.store, keys), behind := w.behind - Done(keys))
    case Ingesting(logs, deviceId, now, ending) =>
      if ending.InsertFailed? then w
      else
        var added := NewEvents(d, w, logs, deviceId, now);
        World(
          Ingest(w.rows, logs, deviceId, now).0, w.events + added,
          RecomputedAll(ctx, w.events + added, w.store, ending.done),
          (w.behind + DaysOf(ctx.tables, added)) - Done(ending.done))
  }

  predicate StepsTo(ctx: Context, d: Directory, before: World, s: Step, after: World) {
    Enabled(ctx, d, before, s) && after == Apply(ctx, d, before, s)
  }

  predicate IsRun(ctx: Context, d: Directory, worlds: seq<World>, steps: seq<Step>) {
    && |worlds| == |steps| + 1
    && worlds[0] == EMPTY
    && forall i :: 0 <= i < |steps| ==> StepsTo(ctx, d, worlds[i], steps[i], worlds[i + 1])
  }

  /** The day of every punch is up to date, or behind. */
  predicate Inv(ctx: Context, w: World) {
    forall k :: k in DaysOf(ctx.tables, w.events) && k !in w.behind ==> UpToDate(ctx, w.events, w.store, k)
  }

  lemma DaysOfMore(t: Tables, a: seq<Event>, b: seq<Event>)
    ensures DaysOf(t, a + b) <= DaysOf(t, a) + DaysOf(t, b)
  {
    hide OwnerOf;
    forall k | k in DaysOf(t, a + b) ensures k in DaysOf(t, a) + DaysOf(t, b) {
      var i :| 0 <= i < |a + b| && (a + b)[i].employeeId.Some?
               && k == Key((a + b)[i].employeeId.value, OwnerOf(t, (a + b)[i].employeeId.value, (a + b)[i].occurredAt));
      if i < |a| {
        assert (a + b)[i] == a[i];
      } else {
        assert (a + b)[i] == b[i - |a|];
      }
    }
  }

  lemma AddedKeeps(ctx: Context, w: World, added: seq<Event>, done: seq<Key>, k: Key)
    requires ValidZone(ctx.tables.zone) && Inv(ctx, w)
    requires k in DaysOf(ctx.tables, w.events + added) && (k in done || k !in w.behind + DaysOf(ctx.tables, added))
    ensures UpToDate(ctx, w.events + added, RecomputedAll(ctx, w.events + added, w.store, done), k)
  {
    hide UpToDate, RecomputedAll, DaysOf, ValidZone;
    DaysOfMore(ctx.tables, w.events, added);
    AdditionsApply(w.events, added);
    hide Additions, ChangedAll, AllApply;
    if k !in done && TouchedBy(ctx.tables, w.events, Additions(added), k) {
      TouchedAreDays(ctx.tables, w.events, added, k);
    }
    OneDayEither(ctx, w.events, Additions(added), w.store, done, if k in done then done else done + [k], k);
  }

  lemma StepKeeps(ctx: Context, d: Directory, w: World, s: Step)
    requires ValidZone(ctx.tables.zone) && Inv(ctx, w)
    ensures Inv(ctx, Apply(ctx, d, w, s))
  {
    hide UpToDate, RecomputedAll, DaysOf, ValidZone, NewEvents, Ingest;
    var after := Apply(ctx, d, w, s);
    forall k | k in DaysOf(ctx.tables, after.events) && k !in after.behind
      ensures UpToDate(ctx, after.events, after.store, k)
    {
      match s
      case Recomputing(keys) =>
        assert w.events + [] == w.events;
        NoDays(ctx.tables);
        AddedKeeps(ctx, w, [], keys, k);
      case Ingesting(logs, deviceId, now, ending) =>
        if !ending.InsertFailed? {
          AddedKeeps(ctx, w, NewEvents(d, w, logs, deviceId, now), ending.done, k);
        }
    }
  }

  lemma NoDays(t: Tables)
    ensures DaysOf(t, []) == {}
  {
  }

  /**
   In every state of every run the day of each stored punch is up to date, unless an ingest that
   failed after its insert touched it and nothing has recomputed it since.
   */
  lemma {:induction false} ReachableUpToDate(ctx: Context, d: Directory, worlds: seq<World>, steps: seq<Step>, n: nat)
    requires IsRun(ctx, d, worlds, steps) && n < |worlds|
    requires ValidZone(ctx.tables.zone)
    ensures Inv(ctx, worlds[n])
  {
    hide UpToDate, ValidZone, Apply, Enabled;
    if n > 0 {
      ReachableUpToDate(ctx, d, worlds, steps, n - 1);
      assert StepsTo(ctx, d, worlds[n - 1], steps[n - 1], worlds[n]);
      StepKeeps(ctx, d, worlds[n - 1], steps[n - 1]);
    }
  }

  /** Whether a step left a day it touched without recomputing it. */
  predicate Leaves(ctx: Context, d: Directory, w: World, s: Step, k: Key) {
    && s.Ingesting? && !s.ending.InsertFailed? && k !in s.ending.done
    && k in DaysOf(ctx.tables, NewEvents(d, w, s.logs, s.deviceId, s.now))
  }

  predicate Recomputes(s: Step, k: Key) {
    if s.Recomputing? then k in s.keys else !s.ending.InsertFailed? && k in s.ending.done
  }

  /** An ingest failed between its insert and this day's recomputation, and no step recomputed it since. */
  predicate LeftBehind(ctx: Context, d: Directory, worlds: seq<World>, steps: seq<Step>, n: nat, k: Key)
    requires n <= |steps| <= |worlds|
  {
    n > 0 && (Leaves(ctx, d, worlds[n - 1], steps[n - 1], k)
              || (LeftBehind(ctx, d, worlds, steps, n - 1, k) && !Recomputes(steps[n - 1], k)))
  }

  /** The days behind are exactly those. */
  lemma {:induction false} BehindExactly(ctx: Context, d: Directory, worlds: seq<World>, steps: seq<Step>, n: nat,
                                         k: Key)
    requires IsRun(ctx, d, worlds, steps) && n <= |steps|
    ensures k in worlds[n].behind <==> LeftBehind(ctx, d, worlds, steps, n, k)
  {
    if n > 0 {
      BehindExactly(ctx, d, worlds, steps, n - 1, k);
      assert StepsTo(ctx, d, worlds[n - 1], steps[n - 1], worlds[n]);
      hide DaysOf, NewEvents, RecomputedAll, Ingest;
    }
  }

  // ---------------------------------------------------------------- syncing again does not help

  /**
   Once their valid logs are stored, a completed sync of the same logs adds nothing and notices
   nothing: days behind stay so.
   */
  lemma SyncAgainMendsNothing(ctx: Context, d: Directory, w: World, logs: seq<AttendanceLog>, deviceId: int, now: int)
    requires DistinctKeys(w.rows)
    requires forall log :: log in logs && Validate(log, now) == None ==> HasKey(w.rows, KeyOf(log, deviceId))
    ensures Enabled(ctx, d, w, Ingesting(logs, deviceId, now, Completed([])))
    ensures Apply(ctx, d, w, Ingesting(logs, deviceId, now, Completed([]))) == w
  {
    IngestAgain(w.rows, logs, deviceId, now);
    hide Pipeline, Validate, KeyOf, HasKey, DistinctKeys;
    var rows := Inserted(w.rows, Pipeline(logs, deviceId, now).accepted);
    assert rows == [] by {
      assert w.rows + rows == w.rows;
    }
    assert NewEvents(d, w, logs, deviceId, now) == [];
    NoDays(ctx.tables);
    assert w.events + [] == w.events;
    RecomputedNone(ctx, w.events, w.store);
  }

  /** So an ingest that failed after its insert, followed by the sync that downloads the same logs. */
  lemma FailedThenAgain(ctx: Context, d: Directory, w: World, logs: seq<AttendanceLog>, deviceId: int, now: int,
                        done: seq<Key>)
    requires DistinctKeys(w.rows)
    ensures var failed := Apply(ctx, d, w, Ingesting(logs, deviceId, now, RecomputeFailed(done)));
            && Apply(ctx, d, failed, Ingesting(logs, deviceId, now, Completed([]))) == failed
            && Enabled(ctx, d, failed, Ingesting(logs, deviceId, now, Completed([])))
            && failed.behind == (w.behind + DaysOf(ctx.tables, NewEvents(d, w, logs, deviceId, now))) - Done(done)
  {
    IngestKeeps(w.rows, logs, deviceId, now);
    hide Ingest, Validate, KeyOf, HasKey, DistinctKeys, DaysOf, NewEvents, RecomputedAll, Enabled;
    SyncAgainMendsNothing(ctx, d, Apply(ctx, d, w, Ingesting(logs, deviceId, now, RecomputeFailed(done))), logs,
                          deviceId, now);
  }

  // ---------------------------------------------------------------- a day left behind

  const HOUR := 3_600_000

  /** The day after the rest day, at noon. */
  function NextDay(): Context {
    Context(RestTables(), map[], 36 * HOUR)
  }

  function SomeoneEnrolled(): Directory {
    Directory(map["7" := "e"], key => "row")
  }

  function RestDayLog(): AttendanceLog {
    AttendanceLog(Some("7"), Some(8 * HOUR), "CHECK_IN", "CARD")
  }

  lemma LogAccepted()
    ensures var row := Normalize(RestDayLog(), 1);
            Pipeline([RestDayLog()], 1, 36 * HOUR).accepted == [row] && row.deviceUserId == "7"
            && row.occurredAt == 8 * HOUR
  {
    var log, logs := RestDayLog(), [RestDayLog()];
    assert TrimStart("7") == "7" && TrimEnd("7") == "7";
    assert UserIdOf(log) == "7" && IsUserId("7");
    assert Validate(log, 36 * HOUR) == None;
    assert logs[..0] == [];
    assert Collect([], 1, 36 * HOUR) == Batch([], [], 0);
    assert Collect(logs, 1, 36 * HOUR) == AddLog(Batch([], [], 0), log, 1, 36 * HOUR);
    assert [] + [Normalize(log, 1)] == [Normalize(log, 1)];
    SortedAlready([Normalize(log, 1)], OccurredAt);
  }

  function FailedSync(): Step {
    Ingesting([RestDayLog()], 1, 36 * HOUR, RecomputeFailed([]))
  }

  function NextSync(): Step {
    Ingesting([RestDayLog()], 1, 36 * HOUR, Completed([]))
  }

  lemma EventOfLog()
    ensures NewEvents(SomeoneEnrolled(), EMPTY, [RestDayLog()], 1, 36 * HOUR)
         == [Event("row", Some("e"), 8 * HOUR, CHECK_IN, false)]
  {
    LogAccepted();
    var row := Normalize(RestDayLog(), 1);
    hide Pipeline;
    assert [row][1..] == [] && Inserted([], [row]) == [row] + Inserted([] + [row], [row][1..]);
    assert [row] + [] == [row];
  }

  /**
   A punch is stored and its day not recomputed; the next sync succeeds, and the day, long closed,
   still has no record.
   */
  lemma LeftBehindForGood()
    ensures var ctx, d := NextDay(), SomeoneEnrolled();
            var failed := Apply(ctx, d, EMPTY, FailedSync());
            && IsRun(ctx, d, [EMPTY, failed, failed], [FailedSync(), NextSync()])
            && Key("e", 0) in DaysOf(ctx.tables, failed.events)
            && !UpToDate(ctx, failed.events, failed.store, Key("e", 0))
  {
    var ctx, d := NextDay(), SomeoneEnrolled();
    var failed := Apply(ctx, d, EMPTY, FailedSync());
    hide Apply, IsRun, DaysOf, UpToDate, EvaluateDay;
    FailedRun();
    AfterFailedSync();
    RestDays(0);
    ClosedHasRecord(ctx, failed.events, Key("e", 0));
  }

  lemma FailedRun()
    ensures var failed := Apply(NextDay(), SomeoneEnrolled(), EMPTY, FailedSync());
            IsRun(NextDay(), SomeoneEnrolled(), [EMPTY, failed, failed], [FailedSync(), NextSync()])
  {
    var ctx, d := NextDay(), SomeoneEnrolled();
    var failed := Apply(ctx, d, EMPTY, FailedSync());
    FailedThenAgain(ctx, d, EMPTY, [RestDayLog()], 1, 36 * HOUR, []);
    FailedEnabled(ctx, d);
    hide Apply, Enabled, NextDay, SomeoneEnrolled;
    assert StepsTo(ctx, d, EMPTY, FailedSync(), failed) && StepsTo(ctx, d, failed, NextSync(), failed);
  }

  lemma FailedEnabled(ctx: Context, d: Directory)
    ensures Enabled(ctx, d, EMPTY, FailedSync())
  {
  }

  lemma AfterFailedSync()
    ensures var failed := Apply(NextDay(), SomeoneEnrolled(), EMPTY, FailedSync());
            && failed.store == Store(map[], map[])
            && Key("e", 0) in DaysOf(NextDay().tables, failed.events)
  {
    var failed := Apply(NextDay(), SomeoneEnrolled(), EMPTY, FailedSync());
    var event := Event("row", Some("e"), 8 * HOUR, CHECK_IN, false);
    EventOfLog();
    RestOwner(8 * HOUR);
    RecomputedNone(NextDay(), [event], EMPTY.store);
    hide NewEvents, Ingest, RecomputedAll, OwnerOf, RestTables;
    assert [] + [event] == [event];
    assert failed.events == [event] && [event][0] == event;
  }

  lemma ClosedHasRecord(ctx: Context, events: seq<Event>, k: Key)
    requires ctx.now >= EvaluateDay(ctx.tables, k.employeeId, k.workDate).window.to
    ensures !UpToDate(ctx, events, Store(map[], map[]), k)
  {
    hide Split, Loaded, EvaluateDay, ReachOf, LeavesDuring, StatusWithoutPunches, Missing, Deducted, Selected;
    assert ComputeDay(ctx, events, k).result.isFinal;
  }
}
