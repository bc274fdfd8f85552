/**
 A MOCK terminal, its cursor and every sync that downloads it: a state machine over whole runs,
 in which punches, memory wipes, live batches and any number of overlapping syncs interleave, and
 a sync can fail or its process die after any step.
 */
module MockSync {
  import opened Ingestion
  import opened MockDevice
  import opened Wrappers

  // ---------------------------------------------------------------- the run

  const STALE_LOCK_MS := 10 * 60_000

  /** One call of `sync`, between its steps. */
  datatype Sync =
    | Loaded(cursor: Cursor)                                     // read the device row
    | Locked(since: int, cursor: Cursor)                         // took the lock
    | Downloaded(since: int, logs: seq<AttendanceLog>, next: Cursor)
    | Stored(since: int, next: Cursor)                           // its events are in the table
    | Persisted(since: int)                                      // its cursor is on the device row

  /**
   `history` is what each memory generation held, the current one included, and `refused` the
   logs some ingest rejected: both only for stating what must hold.
   */
  datatype World = World(
    now: int,
    device: Device,
    history: map<nat, seq<AttendanceLog>>,
    deviceId: int,
    cursor: Cursor,
    lock: Option<int>,
    events: seq<NormalizedLog>,
    refused: set<AttendanceLog>,
    syncs: map<nat, Sync>
  )

  datatype Action =
    | Punch(log: AttendanceLog)
    | Wipe
    | Tick(elapsed: nat)
    | LiveBatch(logs: seq<AttendanceLog>)   // the push path: ingested, no cursor
    | Load(id: nat)
    | Lock(id: nat)
    | Download(id: nat, duplicateOnRead: bool)
    | Store(id: nat)
    | Persist(id: nat)
    | Release(id: nat)                      // the end of the call, whether it finished or failed midway
    | Crash(id: nat)                        // the process dies, or found the lock taken: the lock stays

  function Initial(now: int, deviceId: int): World {
    World(now, Device(1, []), map[1 := []], deviceId, NO_CURSOR, None, [], {}, map[])
  }

  predicate Holds(s: Sync) {
    !s.Loaded?
  }

  /** The lock is free, or older than what a live sync may take. */
  predicate CanLock(w: World) {
    w.lock == None || w.lock.value < w.now - STALE_LOCK_MS
  }

  predicate Enabled(w: World, a: Action) {
    match a
    case Load(id) => id !in w.syncs
    case Lock(id) => id in w.syncs && w.syncs[id].Loaded? && CanLock(w)
    // A retry downloads again with the cursor it started from.
    case Download(id, _) => id in w.syncs && w.syncs[id].Locked?
    case Store(id) => id in w.syncs && w.syncs[id].Downloaded?
    case Persist(id) => id in w.syncs && w.syncs[id].Stored?
    case Release(id) => id in w.syncs && Holds(w.syncs[id])
    case Crash(id) => id in w.syncs
    case _ => true
  }

  function Ingested(w: World, logs: seq<AttendanceLog>): World {
    w.(events := Ingest(w.events, logs, w.deviceId, w.now).0,
    refused := w.refused + set log | log in logs && Validate(log, w.now) != None)
  }

  function Without(syncs: map<nat, Sync>, id: nat): map<nat, Sync> {
    map k | k in syncs && k != id :: syncs[k]
  }

  function Apply(w: World, a: Action): World
    requires Enabled(w, a)
  {
    match a
    case Punch(log) =>
      var logs := w.device.logs + [log];
      w.(device := w.device.(logs := logs), history := w.history[w.device.generation := logs])
    case Wipe =>
      w.(device := Device(w.device.generation + 1, []), history := w.history[w.device.generation + 1 := []])
    case Tick(elapsed) => w.(now := w.now + elapsed)
    case LiveBatch(logs) => Ingested(w, logs)
    case Load(id) => w.(syncs := w.syncs[id := Loaded(w.cursor)])
    case Lock(id) => w.(lock := Some(w.now), syncs := w.syncs[id := Locked(w.now, w.syncs[id].cursor)])
    case Download(id, duplicateOnRead) =>
      var r := ReadFromIndex(w.device, w.syncs[id].cursor, duplicateOnRead);
      w.(syncs := w.syncs[id := Downloaded(w.syncs[id].since, r.logs, r.cursor)])
    case Store(id) =>
      Ingested(w, w.syncs[id].logs).(syncs := w.syncs[id := Stored(w.syncs[id].since, w.syncs[id].next)])
    case Persist(id) =>
      w.(cursor := w.syncs[id].next, syncs := w.syncs[id := Persisted(w.syncs[id].since)])
    case Release(id) => w.(lock := None, syncs := Without(w.syncs, id))
    case Crash(id) => w.(syncs := Without(w.syncs, id))
  }

  predicate IsRun(worlds: seq<World>, actions: seq<Action>) {
    && |worlds| == |actions| + 1
    && forall i :: 0 <= i < |actions| ==>
                     Enabled(worlds[i], actions[i]) && worlds[i + 1] == Apply(worlds[i], actions[i])
  }

  // ---------------------------------------------------------------- nothing covered is lost

  /** Stored under its key, or rejected by validation. */
  predicate Settled(w: World, log: AttendanceLog) {
    HasKey(w.events, KeyOf(log, w.deviceId)) || log in w.refused
  }

  /** Everything the cursor says was read is settled. */
  predicate Covered(w: World, c: Cursor) {
    c == NO_CURSOR ||
    (c.generation in w.history && c.index <= |w.history[c.generation]|
     && forall i :: 0 <= i < c.index ==> Settled(w, w.history[c.generation][i]))
  }

  /** Once these logs are settled too, the cursor is covered. */
  predicate CoveredWith(w: World, c: Cursor, logs: seq<AttendanceLog>) {
    c.generation in w.history && c.index <= |w.history[c.generation]|
    && forall i :: 0 <= i < c.index ==> Settled(w, w.history[c.generation][i]) || w.history[c.generation][i] in logs
  }

  predicate SyncOk(w: World, s: Sync) {
    match s
    case Loaded(c) => Covered(w, c)
    case Locked(_, c) => Covered(w, c)
    case Downloaded(_, logs, next) => CoveredWith(w, next, logs)
    case Stored(_, next) => Covered(w, next)
    case Persisted(_) => true
  }

  ghost predicate Inv(w: World) {
    && w.device.generation >= 1
    && w.device.generation in w.history && w.history[w.device.generation] == w.device.logs
    && (forall g :: g in w.history ==> 1 <= g <= w.device.generation)
    && DistinctKeys(w.events)
    && Covered(w, w.cursor)
    && (forall id :: id in w.syncs ==> SyncOk(w, w.syncs[id]))
  }

  /** Memories only grow, and what is settled stays settled. */
  ghost predicate Extends(after: World, before: World) {
    && (forall g :: g in before.history ==> g in after.history && before.history[g] <= after.history[g])
    && (forall log :: Settled(before, log) ==> Settled(after, log))
  }

  lemma CoveredExtends(after: World, before: World, c: Cursor)
    requires Extends(after, before) && Covered(before, c)
    ensures Covered(after, c)
  {
  }

  lemma SyncExtends(after: World, before: World, s: Sync)
    requires Extends(after, before) && SyncOk(before, s)
    ensures SyncOk(after, s)
  {
    match s
    case Loaded(c) => CoveredExtends(after, before, c);
    case Locked(_, c) => CoveredExtends(after, before, c);
    case Downloaded(_, logs, next) =>
    case Stored(_, next) => CoveredExtends(after, before, next);
    case Persisted(_) =>
  }

  /** What a step that only extends keeps, once the syncs and the cursor it wrote are accounted for. */
  lemma InvExtends(after: World, before: World, touched: set<nat>)
    requires Inv(before) && Extends(after, before) && DistinctKeys(after.events)
    requires after.device.generation in after.history && after.history[after.device.generation] == after.device.logs
    requires after.device.generation >= 1
    requires forall g :: g in after.history ==> 1 <= g <= after.device.generation
    requires after.cursor != before.cursor ==> Covered(after, after.cursor)
    requires forall id :: id in after.syncs && id !in touched ==>
                            id in before.syncs && after.syncs[id] == before.syncs[id]
    requires forall id :: id in after.syncs && id in touched ==> SyncOk(after, after.syncs[id])
    ensures Inv(after)
  {
    CoveredExtends(after, before, before.cursor);
    forall id | id in after.syncs ensures SyncOk(after, after.syncs[id]) {
      if id !in touched {
        SyncExtends(after, before, before.syncs[id]);
      }
    }
  }

  lemma IngestedExtends(w: World, logs: seq<AttendanceLog>)
    requires DistinctKeys(w.events)
    ensures var after := Ingested(w, logs);
            && DistinctKeys(after.events) && Extends(after, w)
            && forall log :: log in logs ==> Settled(after, log)
  {
    IngestKeeps(w.events, logs, w.deviceId, w.now);
  }

  /** A download from a covered cursor leaves nothing of the memory out. */
  lemma DownloadCovers(w: World, c: Cursor, duplicateOnRead: bool)
    requires Inv(w) && Covered(w, c)
    ensures var r := ReadFromIndex(w.device, c, duplicateOnRead); CoveredWith(w, r.cursor, r.logs)
  {
    var r := ReadFromIndex(w.device, c, duplicateOnRead);
    var start := if c.generation == w.device.generation then Min(c.index, |w.device.logs|) else 0;
    var slice := w.device.logs[start..];
    forall i | 0 <= i < |w.device.logs| ensures Settled(w, w.device.logs[i]) || w.device.logs[i] in r.logs {
      if i >= start {
        assert slice[i - start] == w.device.logs[i];
      }
    }
  }

  lemma StoreCovers(before: World, after: World, next: Cursor, logs: seq<AttendanceLog>)
    requires CoveredWith(before, next, logs) && Extends(after, before)
    requires after.history == before.history
    requires forall log :: log in logs ==> Settled(after, log)
    ensures Covered(after, next)
  {
  }

  lemma TerminalStep(w: World, a: Action)
    requires Inv(w) && (a.Punch? || a.Wipe? || a.Tick?)
    ensures Inv(Apply(w, a)) && Extends(Apply(w, a), w)
  {
    InvExtends(Apply(w, a), w, {});
  }

  lemma IngestStep(w: World, a: Action)
    requires Inv(w) && Enabled(w, a) && (a.LiveBatch? || a.Store?)
    ensures Inv(Apply(w, a)) && Extends(Apply(w, a), w)
  {
    hide Ingest;
    var logs := if a.LiveBatch? then a.logs else w.syncs[a.id].logs;
    IngestedExtends(w, logs);
    if a.LiveBatch? {
      InvExtends(Apply(w, a), w, {});
    } else {
      StoreCovers(w, Apply(w, a), w.syncs[a.id].next, logs);
      InvExtends(Apply(w, a), w, {a.id});
    }
  }

  lemma SyncStep(w: World, a: Action)
    requires Inv(w) && Enabled(w, a)
    requires a.Load? || a.Lock? || a.Download? || a.Persist? || a.Release? || a.Crash?
    ensures Inv(Apply(w, a)) && Extends(Apply(w, a), w)
  {
    if a.Download? {
      DownloadCovers(w, w.syncs[a.id].cursor, a.duplicateOnRead);
    }
    InvExtends(Apply(w, a), w, {a.id});
  }

  lemma StepInv(w: World, a: Action)
    requires Inv(w) && Enabled(w, a)
    ensures Inv(Apply(w, a)) && Extends(Apply(w, a), w)
  {
    if a.Punch? || a.Wipe? || a.Tick? {
      TerminalStep(w, a);
    } else if a.LiveBatch? || a.Store? {
      IngestStep(w, a);
    } else {
      SyncStep(w, a);
    }
  }

  lemma {:induction false} RunInv(worlds: seq<World>, actions: seq<Action>, k: nat)
    requires IsRun(worlds, actions) && k < |worlds|
    requires worlds[0] == Initial(worlds[0].now, worlds[0].deviceId)
    ensures Inv(worlds[k])
  {
    if k > 0 {
      RunInv(worlds, actions, k - 1);
      StepInv(worlds[k - 1], actions[k - 1]);
    }
  }

  /**
   Whatever fails or overlaps: in every state of every run, each record the device row's cursor
   covers, of whichever memory generation, was stored or rejected by validation, and no two
   stored events share a key.
   */
  lemma NothingCoveredIsLost(worlds: seq<World>, actions: seq<Action>, k: nat)
    requires IsRun(worlds, actions) && k < |worlds|
    requires worlds[0] == Initial(worlds[0].now, worlds[0].deviceId)
    ensures var w := worlds[k];
            && DistinctKeys(w.events)
            && (w.cursor == NO_CURSOR
                || (w.cursor.generation in w.history && w.cursor.index <= |w.history[w.cursor.generation]|
                    && forall i :: 0 <= i < w.cursor.index ==>
                                     var log := w.history[w.cursor.generation][i];
                                     HasKey(w.events, KeyOf(log, w.deviceId)) || log in w.refused))
  {
    RunInv(worlds, actions, k);
  }

  /** What is settled or held once stays so: a failure later in the run takes nothing back. */
  lemma {:induction false} RunExtends(worlds: seq<World>, actions: seq<Action>, i: nat, k: nat)
    requires IsRun(worlds, actions) && i <= k < |worlds|
    requires worlds[0] == Initial(worlds[0].now, worlds[0].deviceId)
    ensures Extends(worlds[k], worlds[i])
  {
    if i < k {
      RunExtends(worlds, actions, i, k - 1);
      RunInv(worlds, actions, k - 1);
      StepInv(worlds[k - 1], actions[k - 1]);
    }
  }

  function Run(w: World, actions: seq<Action>): Option<World>
    decreases |actions|
  {
    if actions == [] then Some(w)
    else if Enabled(w, actions[0]) then Run(Apply(w, actions[0]), actions[1..]) else None
  }

  function CleanSync(id: nat, duplicateOnRead: bool): seq<Action> {
    Opening(id, [Download(id, duplicateOnRead)] + Finish(id))
  }

  /** Every sync that gets the lock starts like this. */
  function Opening(id: nat, rest: seq<Action>): seq<Action> {
    [Load(id)] + ([Lock(id)] + rest)
  }

  function Finish(id: nat): seq<Action> {
    [Store(id)] + ([Persist(id)] + [Release(id)])
  }

  lemma {:induction false} RunKeeps(w: World, actions: seq<Action>)
    requires Inv(w)
    ensures Run(w, actions).Some? ==> Inv(Run(w, actions).value)
    decreases |actions|
  {
    if actions != [] && Enabled(w, actions[0]) {
      StepInv(w, actions[0]);
      RunKeeps(Apply(w, actions[0]), actions[1..]);
    }
  }

  lemma {:induction false} SameDevice(w: World, actions: seq<Action>)
    ensures Run(w, actions).Some? ==> Run(w, actions).value.deviceId == w.deviceId
    decreases |actions|
  {
    hide Ingest, Validate;
    if actions != [] && Enabled(w, actions[0]) {
      SameDevice(Apply(w, actions[0]), actions[1..]);
    }
  }

  lemma RunCons(w: World, a: Action, rest: seq<Action>)
    requires Enabled(w, a)
    ensures Run(w, [a] + rest) == Run(Apply(w, a), rest)
  {
    assert ([a] + rest)[1..] == rest;
  }

  predicate Ended(w: World, device: Device, cursor: Cursor, events: seq<NormalizedLog>) {
    w.lock == None && w.device == device && w.cursor == cursor && w.events == events
  }

  lemma FromStored(w: World, id: nat)
    requires id in w.syncs && w.syncs[id].Stored?
    ensures var r := Run(w, [Persist(id)] + [Release(id)]);
            r.Some? && Ended(r.value, w.device, w.syncs[id].next, w.events)
  {
    RunCons(w, Persist(id), [Release(id)]);
    Releases(Apply(w, Persist(id)), id);
  }

  lemma FromDownloaded(w: World, id: nat)
    requires id in w.syncs && w.syncs[id].Downloaded?
    ensures var r := Run(w, Finish(id));
            r.Some? && Ended(r.value, w.device, w.syncs[id].next,
                             Ingest(w.events, w.syncs[id].logs, w.deviceId, w.now).0)
  {
    hide Ingest, Validate, Run, Ended;
    RunCons(w, Store(id), [Persist(id)] + [Release(id)]);
    FromStored(Apply(w, Store(id)), id);
  }

  lemma FromLocked(w: World, id: nat, duplicateOnRead: bool)
    requires id in w.syncs && w.syncs[id].Locked?
    ensures var r := Run(w, [Download(id, duplicateOnRead)] + Finish(id));
            var read := ReadFromIndex(w.device, w.syncs[id].cursor, duplicateOnRead);
            r.Some? && Ended(r.value, w.device, read.cursor, Ingest(w.events, read.logs, w.deviceId, w.now).0)
  {
    hide Run, Ended, Ingest;
    RunCons(w, Download(id, duplicateOnRead), Finish(id));
    FromDownloaded(Apply(w, Download(id, duplicateOnRead)), id);
  }

  /** Where the six steps lead, run one after the other. */
  lemma CleanSteps(w: World, id: nat, duplicateOnRead: bool)
    requires id !in w.syncs && CanLock(w)
    ensures var r := Run(w, CleanSync(id, duplicateOnRead));
            var read := ReadFromIndex(w.device, w.cursor, duplicateOnRead);
            r.Some? && Ended(r.value, w.device, read.cursor, Ingest(w.events, read.logs, w.deviceId, w.now).0)
  {
    hide Run, Ended, Ingest, ReadFromIndex;
    Opens(w, id, [Download(id, duplicateOnRead)] + Finish(id));
    FromLocked(WithLock(w, id), id, duplicateOnRead);
  }

  function WithLock(w: World, id: nat): World {
    w.(lock := Some(w.now), syncs := w.syncs[id := Locked(w.now, w.cursor)])
  }

  lemma Opens(w: World, id: nat, rest: seq<Action>)
    requires id !in w.syncs && CanLock(w)
    ensures Run(w, Opening(id, rest)) == Run(WithLock(w, id), rest)
  {
    var w1 := Apply(w, Load(id));
    RunCons(w, Load(id), [Lock(id)] + rest);
    RunCons(w1, Lock(id), rest);
    assert w1.syncs[id := Locked(w.now, w.cursor)] == w.syncs[id := Locked(w.now, w.cursor)];
    hide Run;
  }

  lemma Releases(w: World, id: nat)
    requires id in w.syncs && Holds(w.syncs[id])
    ensures Run(w, [Release(id)]) == Some(Apply(w, Release(id)))
  {
    RunCons(w, Release(id), []);
    assert [Release(id)] + [] == [Release(id)];
  }

  /** A sync that fails before, after or between the steps frees the lock and leaves the cursor. */
  lemma FailedSteps(w: World, id: nat, duplicateOnRead: bool)
    requires id !in w.syncs && CanLock(w)
    ensures var read := ReadFromIndex(w.device, w.cursor, duplicateOnRead);
            var early, downloaded, stored :=
              Run(w, Opening(id, [Release(id)])),
              Run(w, Opening(id, [Download(id, duplicateOnRead)] + [Release(id)])),
              Run(w, Opening(id, [Download(id, duplicateOnRead)] + ([Store(id)] + [Release(id)])));
            && early.Some? && Ended(early.value, w.device, w.cursor, w.events)
            && downloaded.Some? && Ended(downloaded.value, w.device, w.cursor, w.events)
            && stored.Some? && Ended(stored.value, w.device, w.cursor, Ingest(w.events, read.logs, w.deviceId, w.now).0)
  {
    hide Run, Ingest, Validate, ReadFromIndex;
    var w2 := WithLock(w, id);
    var w3 := Apply(w2, Download(id, duplicateOnRead));
    Opens(w, id, [Release(id)]);
    Releases(w2, id);
    Opens(w, id, [Download(id, duplicateOnRead)] + [Release(id)]);
    RunCons(w2, Download(id, duplicateOnRead), [Release(id)]);
    Releases(w3, id);
    Opens(w, id, [Download(id, duplicateOnRead)] + ([Store(id)] + [Release(id)]));
    RunCons(w2, Download(id, duplicateOnRead), [Store(id)] + [Release(id)]);
    RunCons(w3, Store(id), [Release(id)]);
    Releases(Apply(w3, Store(id)), id);
  }

  /** A sync that finds the lock taken, or the device disabled, leaves everything as it was. */
  lemma TurnedAway(w: World, id: nat)
    requires id !in w.syncs
    ensures Run(w, [Load(id)] + [Crash(id)]) == Some(w)
  {
    RunCons(w, Load(id), [Crash(id)]);
    RunCons(Apply(w, Load(id)), Crash(id), []);
    assert [Crash(id)] + [] == [Crash(id)];
    assert Without(w.syncs[id := Loaded(w.cursor)], id) == w.syncs;
  }

  /** The promise the failure path relies on: after whatever went wrong, one clean sync catches up. */
  lemma CleanSyncCatchesUp(w: World, id: nat, duplicateOnRead: bool)
    requires Inv(w) && id !in w.syncs && CanLock(w)
    ensures var r := Run(w, CleanSync(id, duplicateOnRead));
            r.Some? && r.value.lock == None
            && r.value.cursor == Cursor(w.device.generation, |w.device.logs|)
            && forall i :: 0 <= i < |w.device.logs| ==> Settled(r.value, w.device.logs[i])
  {
    CleanSteps(w, id, duplicateOnRead);
    RunKeeps(w, CleanSync(id, duplicateOnRead));
    hide Run, Settled, Ingest;
  }

  // ---------------------------------------------------------------- the lock

  /** No running sync is older than a lock may get. */
  predicate NoneStale(w: World) {
    forall id :: id in w.syncs && Holds(w.syncs[id]) ==> w.syncs[id].since >= w.now - STALE_LOCK_MS
  }

  predicate OneHolder(w: World) {
    && (forall id :: id in w.syncs && Holds(w.syncs[id]) ==> w.lock == Some(w.syncs[id].since))
    && (forall i, j :: i in w.syncs && j in w.syncs && Holds(w.syncs[i]) && Holds(w.syncs[j]) ==> i == j)
  }

  lemma LockStep(w: World, a: Action)
    requires OneHolder(w) && NoneStale(w) && Enabled(w, a)
    ensures OneHolder(Apply(w, a))
  {
    hide Ingest, Validate;
    var after := Apply(w, a);
    match a
    case Lock(id) =>
      assert forall i :: i in w.syncs ==> !Holds(w.syncs[i]);
    case Download(id, duplicateOnRead) =>
      hide ReadFromIndex;
    case _ =>
  }

  /** Syncs overlap only after a takeover: none does while every sync ends within ten minutes. */
  lemma {:induction false} SyncsExclude(worlds: seq<World>, actions: seq<Action>, k: nat)
    requires IsRun(worlds, actions) && k < |worlds|
    requires worlds[0] == Initial(worlds[0].now, worlds[0].deviceId)
    requires forall i :: 0 <= i < |worlds| ==> NoneStale(worlds[i])
    ensures OneHolder(worlds[k])
  {
    if k > 0 {
      SyncsExclude(worlds, actions, k - 1);
      LockStep(worlds[k - 1], actions[k - 1]);
    }
  }
}
