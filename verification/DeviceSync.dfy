/**
 The sync service on one device: the lock, the retries, the ingest into the event table, the
 cursor written last, and the live punches grouped before they take the same path. Each call of
 the service is a run of the interleaved steps of `MockSync`.
 */
module DeviceSync {
  import opened Ingestion
  import opened MockDevice
  import opened MockSync
  import opened Wrappers

  datatype DeviceStatus = ONLINE | OFFLINE | ERROR | SYNCING | DISABLED

  datatype SyncStatus = SUCCESS | PARTIAL | FAILED

  /** Where the database or the recomputation of the days gives out, once the punches are downloaded. */
  datatype Stage = AtInsert | AtRecompute | AtStatus

  datatype Failure = FromDevice(fault: FaultKind) | Unexpected(stage: Stage)

  datatype IngestionSummary = IngestionSummary(summary: Summary, unmatched: nat)

  /** The row of the sync log once the call is over; its counters are those of `summary`, or zero. */
  datatype SyncLog = SyncLog(status: SyncStatus, summary: Option<IngestionSummary>, error: Option<Failure>)

  datatype Outcome = DeviceNotFound | DeviceDisabled | AlreadyRunning | Finished(log: SyncLog)

  const RETRY_ATTEMPTS: nat := 3

  /** How many of the stored punches belong to nobody enrolled. */
  function Unmatched(rows: seq<NormalizedLog>, enrolled: set<string>): nat {
    if rows == [] then 0
    else Unmatched(rows[..|rows| - 1], enrolled) + if rows[|rows| - 1].deviceUserId in enrolled then 0 else 1
  }

  /** What one ingest reports. */
  function Report(stored: seq<NormalizedLog>, logs: seq<AttendanceLog>, deviceId: int, now: int,
                  enrolled: set<string>): IngestionSummary {
    IngestionSummary(Ingest(stored, logs, deviceId, now).1,
                     Unmatched(Inserted(stored, Pipeline(logs, deviceId, now).accepted), enrolled))
  }

  /** Told from the table the ingest leaves, which keeps what was stored and adds its rows. */
  lemma ReportTells(stored: seq<NormalizedLog>, logs: seq<AttendanceLog>, deviceId: int, now: int,
                    enrolled: set<string>)
    ensures var (after, s) := Ingest(stored, logs, deviceId, now);
            var r := Report(stored, logs, deviceId, now, enrolled);
            && |stored| <= |after| && after[..|stored|] == stored
            && r.summary == s && r.unmatched == |Strangers(after[|stored|..], enrolled)|
  {
    var rows := Inserted(stored, Pipeline(logs, deviceId, now).accepted);
    UnmatchedCounts(rows, enrolled);
    assert (stored + rows)[|stored|..] == rows;
  }

  function StatusOf(s: Summary): SyncStatus {
    if s.rejected > 0 then PARTIAL else SUCCESS
  }

  /** Only a timeout or a lost connection means the terminal is out of reach. */
  lemma StatusSpelled(f: Failure)
    ensures StatusAfterFailure(f) == OFFLINE <==> f == FromDevice(TIMEOUT) || f == FromDevice(CONNECTION)
    ensures StatusAfterFailure(f) == OFFLINE || StatusAfterFailure(f) == ERROR
  {
  }

  /** A sync that refused something is partial. */
  lemma SyncStatusSpelled(s: Summary)
    ensures StatusOf(s) == if s.rejected == 0 then SUCCESS else PARTIAL
  {
  }

  function StatusAfterFailure(f: Failure): DeviceStatus {
    if f.FromDevice? && Retryable(f.fault) then OFFLINE else ERROR
  }

  /** One by one, the stored punches of nobody enrolled. */
  function Strangers(rows: seq<NormalizedLog>, enrolled: set<string>): set<nat> {
    set i | 0 <= i < |rows| && rows[i].deviceUserId !in enrolled
  }

  lemma {:induction false} UnmatchedCounts(rows: seq<NormalizedLog>, enrolled: set<string>)
    ensures Unmatched(rows, enrolled) == |Strangers(rows, enrolled)|
  {
    if rows == [] {
      assert Strangers(rows, enrolled) == {};
    } else {
      var n := |rows| - 1;
      UnmatchedCounts(rows[..n], enrolled);
      var before := Strangers(rows[..n], enrolled);
      assert forall i ::
          i in Strangers(rows, enrolled) <==> i in before || (i == n && rows[n].deviceUserId !in enrolled);
      if rows[n].deviceUserId in enrolled {
        assert Strangers(rows, enrolled) == before;
      } else {
        assert Strangers(rows, enrolled) == before + {n};
      }
    }
  }

  class DeviceSyncService {
    const deviceId: int
    var deleted: bool
    var status: DeviceStatus
    var lastSyncCursor: Cursor
    var syncLockedAt: Option<int>
    var events: seq<NormalizedLog>
    var buffered: Option<seq<AttendanceLog>> // live punches waiting to be flushed

    constructor (deviceId: int)
      ensures this.deviceId == deviceId && !deleted && status == OFFLINE && lastSyncCursor == NO_CURSOR
      ensures syncLockedAt == None && events == [] && buffered == None
    {
      this.deviceId, deleted, status, lastSyncCursor := deviceId, false, OFFLINE, NO_CURSOR;
      syncLockedAt, events, buffered := None, [], None;
    }

    /** One conditional update: the row counts as taken only if it is there, and free or stale. */
    method AcquireLock(now: int) returns (acquired: bool)
      modifies this`syncLockedAt
      ensures acquired <==> !deleted && (old(syncLockedAt) == None || now - old(syncLockedAt).value > STALE_LOCK_MS)
      ensures syncLockedAt == if acquired then Some(now) else old(syncLockedAt)
    {
      acquired := !deleted && (syncLockedAt == None || syncLockedAt.value < now - STALE_LOCK_MS);
      if acquired {
        syncLockedAt := Some(now);
      }
    }

    /** Rows whose key is taken are skipped. */
    method CreateManyAndReturn(accepted: seq<NormalizedLog>) returns (inserted: seq<NormalizedLog>)
      modifies this`events
      ensures events == old(events) + Inserted(old(events), accepted)
      ensures inserted == Inserted(old(events), accepted)
    {
      inserted := [];
      assert old(events) + [] == old(events);
      for i := 0 to |accepted|
        invariant events == old(events) + inserted
        invariant inserted + Inserted(events, accepted[i..]) == Inserted(old(events), accepted)
      {
        var row := accepted[i];
        assert accepted[i..][1..] == accepted[i + 1..];
        if !HasKey(events, row.dedupKey) {
          assert inserted + ([row] + Inserted(events + [row], accepted[i + 1..]))
              == (inserted + [row]) + Inserted(events + [row], accepted[i + 1..]);
          events := events + [row];
          inserted := inserted + [row];
        }
      }
    }

    /**
     `enrolled` are the biometric ids of the employees; None when the database fails at the insert,
     or what follows it does.
     */
    method IngestLogs(logs: seq<AttendanceLog>, now: int, enrolled: set<string>,
                      trouble: Option<Stage>) returns (summary: Option<IngestionSummary>)
      modifies this`events
      ensures summary == if trouble in {Some(AtInsert), Some(AtRecompute)} then None
                         else Some(Report(old(events), logs, deviceId, now, enrolled))
      ensures events == if trouble == Some(AtInsert) then old(events) else Ingest(old(events), logs, deviceId, now).0
    {
      var pipeline := RunIngestionPipeline(logs, deviceId, now);
      hide Pipeline;
      if trouble == Some(AtInsert) {
        return None;
      }
      var inserted := CreateManyAndReturn(pipeline.accepted);
      if trouble == Some(AtRecompute) {
        return None;
      }
      var unmatched := 0;
      for i := 0 to |inserted|
        invariant unmatched == Unmatched(inserted[..i], enrolled)
      {
        assert inserted[..i + 1][..i] == inserted[..i];
        if inserted[i].deviceUserId !in enrolled {
          unmatched := unmatched + 1;
        }
      }
      assert inserted[..|inserted|] == inserted;
      summary := Some(IngestionSummary(
                        Summary(|logs|, |inserted|, pipeline.duplicatesInBatch + (|pipeline.accepted| - |inserted|),
                                |pipeline.rejected|),
                        unmatched));
    }

    method WithRetry(adapter: MockDeviceAdapter, cursor: Cursor) returns (fault: Option<FaultKind>, read: ReadResult)
      modifies adapter`connected, adapter.device`online, adapter.device`pendingFaults,
               adapter.device`dropAfterOperations
      ensures Retried(old(adapter.CurrentLink()), RETRY_ATTEMPTS) == Reply(fault, adapter.CurrentLink())
      ensures fault == None ==> read == ReadFromIndex(adapter.device.State(), cursor, adapter.device.duplicateOnRead)
    {
      var attempt := 1;
      fault, read := adapter.TrySync(cursor);
      while fault.Some? && Retryable(fault.value) && attempt < RETRY_ATTEMPTS
        invariant 1 <= attempt <= RETRY_ATTEMPTS
        invariant fault == None ==>
                    read == ReadFromIndex(adapter.device.State(), cursor, adapter.device.duplicateOnRead)
        invariant Retried(old(adapter.CurrentLink()), RETRY_ATTEMPTS)
               == Continued(Reply(fault, adapter.CurrentLink()), RETRY_ATTEMPTS - attempt)
      {
        fault, read := adapter.TrySync(cursor);
        attempt := attempt + 1;
      }
    }

    /**
     A device failure, or `trouble` after the download, leaves the cursor where it was; only the
     last step moves it. A failure there comes after the log was marked as a success.
     */
    method Sync(adapter: MockDeviceAdapter, now: int, enrolled: set<string>,
                trouble: Option<Stage>) returns (outcome: Outcome)
      modifies this`status, this`lastSyncCursor, this`syncLockedAt, this`events
      modifies adapter`connected, adapter.device`online, adapter.device`pendingFaults,
               adapter.device`dropAfterOperations
      ensures outcome == DeviceNotFound <==> deleted
      ensures outcome == DeviceDisabled <==> !deleted && old(status) == DISABLED
      ensures outcome == AlreadyRunning <==>
              && !deleted && old(status) != DISABLED
              && old(syncLockedAt).Some? && now - old(syncLockedAt).value <= STALE_LOCK_MS
      ensures !outcome.Finished? ==>
                status == old(status) && lastSyncCursor == old(lastSyncCursor) && syncLockedAt == old(syncLockedAt)
                && events == old(events)
                && adapter.CurrentLink() == old(adapter.CurrentLink())
      ensures outcome.Finished? ==>
                var fault := Retried(old(adapter.CurrentLink()), RETRY_ATTEMPTS).fault;
                var read := ReadFromIndex(adapter.device.State(), old(lastSyncCursor), adapter.device.duplicateOnRead);
                var report := Report(old(events), read.logs, deviceId, now, enrolled);
                var error := if fault.Some? then Some(FromDevice(fault.value))
                             else if trouble.Some? then Some(Unexpected(trouble.value)) else None;
                var reported := fault == None && trouble !in {Some(AtInsert), Some(AtRecompute)};
                && syncLockedAt == None
                && adapter.CurrentLink() == Retried(old(adapter.CurrentLink()), RETRY_ATTEMPTS).link
                && outcome.log.error == error
                && outcome.log.summary == (if reported then Some(report) else None)
                && outcome.log.status == (if reported then StatusOf(report.summary) else FAILED)
                && status == (if error.Some? then StatusAfterFailure(error.value) else ONLINE)
                && lastSyncCursor == (if error.Some? then old(lastSyncCursor) else read.cursor)
                && events == (if fault.Some? || trouble == Some(AtInsert) then old(events)
                              else Ingest(old(events), read.logs, deviceId, now).0)
    {
      hide Ingest, Report, Retried, ReadFromIndex;
      if deleted {
        return DeviceNotFound;
      }
      var cursor := lastSyncCursor;
      if status == DISABLED {
        return DeviceDisabled;
      }
      var acquired := AcquireLock(now);
      if !acquired {
        return AlreadyRunning;
      }
      status := SYNCING;
      var syncStatus, summary, error := FAILED, None, None;
      var fault, read := WithRetry(adapter, cursor);
      if fault.Some? {
        error := Some(FromDevice(fault.value));
      } else {
        summary := IngestLogs(read.logs, now, enrolled, trouble);
        if summary.Some? {
          syncStatus := if summary.value.summary.rejected > 0 then PARTIAL else SUCCESS;
        }
        if trouble.Some? {
          error := Some(Unexpected(trouble.value));
        } else {
          status, lastSyncCursor := ONLINE, read.cursor;
        }
      }
      if error.Some? {
        status := StatusAfterFailure(error.value);
      }
      syncLockedAt := None; // however it ended
      outcome := Finished(SyncLog(syncStatus, summary, error));
    }

    method BufferRealtime(log: AttendanceLog)
      modifies this`buffered
      ensures buffered == Some(if old(buffered).Some? then old(buffered).value + [log] else [log])
    {
      buffered := Some(if buffered.Some? then buffered.value + [log] else [log]);
    }

    /** A punch at the terminal: stored there whatever happens, and buffered here if it was heard. */
    method PunchAt(adapter: MockDeviceAdapter, log: AttendanceLog, silent: bool)
      modifies this`buffered, adapter.device`logs
      ensures adapter.device.State()
           == Device(old(adapter.device.State()).generation, old(adapter.device.State()).logs + [log])
      ensures buffered ==
              if silent || !adapter.connected || !adapter.device.online then old(buffered)
              else Some(if old(buffered).Some? then old(buffered).value + [log] else [log])
    {
      var emitted := adapter.device.Punch(log, silent);
      var heard := adapter.Hear(emitted);
      if heard.Some? {
        BufferRealtime(heard.value);
      }
    }

    /**
     Everything buffered since the last flush, in order, takes the same path as a sync. What fails
     is only logged: the punches are still on the device, and no cursor moved.
     */
    method FlushRealtime(now: int, enrolled: set<string>,
                         trouble: Option<Stage>) returns (summary: Option<IngestionSummary>)
      modifies this`buffered, this`events, this`status
      ensures buffered == None
      ensures old(buffered) == None ==> summary == None && events == old(events) && status == old(status)
      ensures old(buffered).Some? ==>
                && summary == (if trouble in {Some(AtInsert), Some(AtRecompute)} then None
                               else Some(Report(old(events), old(buffered).value, deviceId, now, enrolled)))
                && events == (if trouble == Some(AtInsert) then old(events)
                              else Ingest(old(events), old(buffered).value, deviceId, now).0)
                && status == if trouble == None && old(status) in {OFFLINE, ERROR} then ONLINE else old(status)
    {
      hide Ingest, Report;
      if buffered == None {
        return None;
      }
      var logs := buffered.value;
      buffered := None;
      summary := IngestLogs(logs, now, enrolled, trouble);
      if trouble == None && status != ONLINE && status != SYNCING && status != DISABLED {
        status := ONLINE;
      }
    }
  }

  /** What is left of the retries after a try that ended this way. */
  function Continued(r: Reply, left: nat): Reply {
    if r.fault == None || !Retryable(r.fault.value) || left == 0 then r else Retried(r.link, left)
  }

  // ---------------------------------------------------------------- every call is a run

  /** The service, its device and the world of the interleaved steps show the same. */
  predicate Shows(w: World, service: DeviceSyncService, device: MockDeviceSimulator)
    reads service, device
  {
    && w.deviceId == service.deviceId && w.device == device.State()
    && w.cursor == service.lastSyncCursor && w.lock == service.syncLockedAt && w.events == service.events
  }

  /** The steps a call takes, by how it ended. */
  function StepsOf(outcome: Outcome, id: nat, duplicateOnRead: bool): seq<Action> {
    if !outcome.Finished? then [Load(id)] + [Crash(id)]
    else
      match outcome.log.error
      case None => CleanSync(id, duplicateOnRead)
      case Some(FromDevice(_)) => Opening(id, [Release(id)])
      case Some(Unexpected(AtInsert)) => Opening(id, [Download(id, duplicateOnRead)] + [Release(id)])
      case Some(Unexpected(_)) => Opening(id, [Download(id, duplicateOnRead)] + ([Store(id)] + [Release(id)]))
  }

  /** What the steps of a call that ended this way come to, by how it ended. */
  lemma StepsLead(w: World, outcome: Outcome, id: nat, dup: bool)
    requires Inv(w) && id !in w.syncs && (outcome.Finished? ==> CanLock(w))
    ensures var r := Run(w, StepsOf(outcome, id, dup));
            var read := ReadFromIndex(w.device, w.cursor, dup);
            && r.Some? && Inv(r.value) && r.value.deviceId == w.deviceId
            && (!outcome.Finished? ==> r.value == w)
            && (outcome.Finished? ==>
                  var error := outcome.log.error;
                  Ended(r.value, w.device,
                        if error == None then read.cursor else w.cursor,
                        if error.Some? && (error.value.FromDevice? || error.value.stage == AtInsert) then w.events
                        else Ingest(w.events, read.logs, w.deviceId, w.now).0))
  {
    hide Run, Inv, Ingest, ReadFromIndex, Ended;
    if outcome.Finished? {
      CleanSteps(w, id, dup);
      FailedSteps(w, id, dup);
    } else {
      TurnedAway(w, id);
    }
    RunKeeps(w, StepsOf(outcome, id, dup));
    SameDevice(w, StepsOf(outcome, id, dup));
  }

  /**
   Every call of `Sync` that no other one overlaps, however it ends, is a run of the interleaved
   steps. So whatever holds in every state of every run, nothing the cursor covers being lost among
   it, holds after the call.
   */
  method SyncInRun(service: DeviceSyncService, adapter: MockDeviceAdapter, now: int, enrolled: set<string>,
                   trouble: Option<Stage>,
                   ghost w: World, ghost id: nat) returns (outcome: Outcome)
    requires Inv(w) && w.now == now && id !in w.syncs && Shows(w, service, adapter.device)
    modifies service, adapter, adapter.device
    ensures var r := Run(w, StepsOf(outcome, id, adapter.device.duplicateOnRead));
            r.Some? && Inv(r.value) && Shows(r.value, service, adapter.device)
    ensures adapter.device.duplicateOnRead == old(adapter.device.duplicateOnRead)
  {
    hide Run, Inv, Ingest, Report, Retried, ReadFromIndex;
    outcome := service.Sync(adapter, now, enrolled, trouble);
    StepsLead(w, outcome, id, adapter.device.duplicateOnRead);
    hide StepsOf;
  }
}
