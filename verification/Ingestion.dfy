/**
 The ingestion pipeline every batch of punches goes through (validate, normalize, deduplicate
 within the batch) and the insert that skips keys already stored. Instants are milliseconds; the
 dedup key is the tuple it is hashed from.
 */
module Ingestion {
  import opened Sorting
  import opened Text
  import opened Wrappers

  /** What an adapter hands over. A user id that is not text, or an unreadable time, is None. */
  datatype AttendanceLog = AttendanceLog(
    deviceUserId: Option<string>,
    timestamp: Option<int>,
    punchType: string,
    verifyMode: string
  )

  datatype DedupKey = DedupKey(scope: int, subject: string, second: int)

  datatype NormalizedLog = NormalizedLog(
    deviceUserId: string,
    occurredAt: int,
    punchType: string,
    verifyMode: string,
    dedupKey: DedupKey
  )

  datatype Reason = MissingUserId | InvalidUserId | InvalidTimestamp | FutureTimestamp | TooOld

  datatype Rejection = Rejection(reason: Reason, log: AttendanceLog)

  const PUNCH_TYPES: set<string> := {"CHECK_IN", "CHECK_OUT", "BREAK_OUT", "BREAK_IN", "UNKNOWN"}
  const VERIFY_MODES: set<string> := {"FINGERPRINT", "FACE", "CARD", "PASSWORD", "OTHER"}
  const FUTURE_SKEW_MS := 10 * 60_000
  const MAX_AGE_MS := 400 * 86_400_000

  predicate IsAlphanumeric(c: char) {
    'A' <= c <= 'Z' || 'a' <= c <= 'z' || '0' <= c <= '9'
  }

  predicate IsUserId(s: string) {
    1 <= |s| <= 24 && forall i :: 0 <= i < |s| ==> IsAlphanumeric(s[i])
  }

  function UserIdOf(log: AttendanceLog): string {
    if log.deviceUserId.Some? then Trim(log.deviceUserId.value) else ""
  }

  function Validate(log: AttendanceLog, now: int): Option<Reason> {
    var userId := UserIdOf(log);
    if userId == "" then Some(MissingUserId)
    else if !IsUserId(userId) then Some(InvalidUserId)
    else if log.timestamp == None then Some(InvalidTimestamp)
    else if log.timestamp.value > now + FUTURE_SKEW_MS then Some(FutureTimestamp)
    else if log.timestamp.value < now - MAX_AGE_MS then Some(TooOld)
    else None
  }

  /** Only meaningful for logs with a time; the fields of the key do not depend on `now`. */
  function KeyOf(log: AttendanceLog, deviceId: int): DedupKey {
    DedupKey(deviceId, UserIdOf(log), if log.timestamp.Some? then log.timestamp.value / 1000 else 0)
  }

  function Normalize(log: AttendanceLog, deviceId: int): NormalizedLog {
    var key := KeyOf(log, deviceId);
    NormalizedLog(
      key.subject, key.second * 1000,
      if log.punchType in PUNCH_TYPES then log.punchType else "UNKNOWN",
      if log.verifyMode in VERIFY_MODES then log.verifyMode else "OTHER",
      key)
  }

  // ---------------------------------------------------------------- the batch

  datatype Batch = Batch(kept: seq<NormalizedLog>, rejected: seq<Rejection>, duplicates: nat)

  predicate HasKey(logs: seq<NormalizedLog>, key: DedupKey) {
    exists i :: 0 <= i < |logs| && logs[i].dedupKey == key
  }

  /** What one log does to the batch collected so far. */
  function AddLog(b: Batch, log: AttendanceLog, deviceId: int, now: int): Batch {
    var reason := Validate(log, now);
    if reason.Some? then b.(rejected := b.rejected + [Rejection(reason.value, log)])
    else if HasKey(b.kept, KeyOf(log, deviceId)) then b.(duplicates := b.duplicates + 1)
    else b.(kept := b.kept + [Normalize(log, deviceId)])
  }

  function Collect(logs: seq<AttendanceLog>, deviceId: int, now: int): Batch {
    if logs == [] then Batch([], [], 0)
    else AddLog(Collect(logs[..|logs| - 1], deviceId, now), logs[|logs| - 1], deviceId, now)
  }

  function OccurredAt(log: NormalizedLog): int {
    log.occurredAt
  }

  datatype PipelineResult = PipelineResult(
    accepted: seq<NormalizedLog>,
    rejected: seq<Rejection>,
    duplicatesInBatch: nat
  )

  function Pipeline(logs: seq<AttendanceLog>, deviceId: int, now: int): PipelineResult {
    var b := Collect(logs, deviceId, now);
    PipelineResult(SortBy(b.kept, OccurredAt), b.rejected, b.duplicates)
  }

  method RunIngestionPipeline(logs: seq<AttendanceLog>, deviceId: int, now: int) returns (result: PipelineResult)
    ensures result == Pipeline(logs, deviceId, now)
  {
    var rejected: seq<Rejection> := [];
    var keys: set<DedupKey> := {};
    var kept: seq<NormalizedLog> := []; // the map's values, in insertion order
    var duplicatesInBatch := 0;
    for i := 0 to |logs|
      invariant Batch(kept, rejected, duplicatesInBatch) == Collect(logs[..i], deviceId, now)
      invariant forall k :: k in keys <==> HasKey(kept, k)
    {
      assert logs[..i + 1][..i] == logs[..i];
      var log := logs[i];
      var reason := Validate(log, now);
      if reason.Some? {
        rejected := rejected + [Rejection(reason.value, log)];
        continue;
      }
      var normalized := Normalize(log, deviceId);
      if normalized.dedupKey in keys {
        duplicatesInBatch := duplicatesInBatch + 1;
        continue;
      }
      AppendKey(kept, normalized);
      keys := keys + {normalized.dedupKey};
      kept := kept + [normalized];
    }
    assert logs[..|logs|] == logs;
    result := PipelineResult(SortBy(kept, OccurredAt), rejected, duplicatesInBatch);
  }

  lemma AppendKey(kept: seq<NormalizedLog>, n: NormalizedLog)
    ensures forall k :: HasKey(kept + [n], k) <==> HasKey(kept, k) || k == n.dedupKey
  {
    forall k ensures HasKey(kept + [n], k) <==> HasKey(kept, k) || k == n.dedupKey {
      var all := kept + [n];
      assert all[|kept|] == n;
      if HasKey(kept, k) {
        var i :| 0 <= i < |kept| && kept[i].dedupKey == k;
        assert all[i].dedupKey == k;
      }
    }
  }

  predicate DistinctKeys(logs: seq<NormalizedLog>) {
    forall i, j :: 0 <= i < j < |logs| ==> logs[i].dedupKey != logs[j].dedupKey
  }

  lemma MembersHaveKeys(logs: seq<NormalizedLog>)
    ensures forall i :: 0 <= i < |logs| ==> HasKey(logs, logs[i].dedupKey)
  {
  }

  lemma {:induction false} CollectSound(logs: seq<AttendanceLog>, deviceId: int, now: int)
    ensures var b := Collect(logs, deviceId, now);
            && |logs| == |b.kept| + |b.rejected| + b.duplicates
            && DistinctKeys(b.kept)
            && (forall n :: n in b.kept ==>
                              exists log :: log in logs && Validate(log, now) == None && n == Normalize(log, deviceId))
            && (forall log :: log in logs && Validate(log, now) == None ==> HasKey(b.kept, KeyOf(log, deviceId)))
  {
    if logs != [] {
      var before, log := logs[..|logs| - 1], logs[|logs| - 1];
      CollectSound(before, deviceId, now);
      assert forall l :: l in logs <==> l in before || l == log;
      assert Normalize(log, deviceId).dedupKey == KeyOf(log, deviceId);
      MembersHaveKeys(Collect(before, deviceId, now).kept);
      hide Validate, Normalize, KeyOf, HasKey;
      AppendKey(Collect(before, deviceId, now).kept, Normalize(log, deviceId));
    }
  }

  lemma KeysOfPermutation(a: seq<NormalizedLog>, b: seq<NormalizedLog>)
    requires multiset(a) == multiset(b) && DistinctKeys(a)
    ensures DistinctKeys(b)
    ensures forall k :: HasKey(a, k) <==> HasKey(b, k)
    ensures forall n :: n in a <==> n in b
  {
    assert forall n :: n in a <==> n in multiset(a);
    assert forall n :: n in b <==> n in multiset(b);
    forall i, j | 0 <= i < j < |b| ensures b[i].dedupKey != b[j].dedupKey {
      if b[i].dedupKey == b[j].dedupKey {
        assert b[i] in a && b[j] in a;
        TwiceIsTwo(b, i, j);
        OnceEach(a, b[i]);
        assert false;
      }
    }
    forall k ensures HasKey(a, k) <==> HasKey(b, k) {
      if HasKey(a, k) {
        var i :| 0 <= i < |a| && a[i].dedupKey == k;
        assert a[i] in b;
      }
      if HasKey(b, k) {
        var i :| 0 <= i < |b| && b[i].dedupKey == k;
        assert b[i] in a;
      }
    }
  }

  lemma {:induction false} OnceEach(a: seq<NormalizedLog>, n: NormalizedLog)
    requires DistinctKeys(a)
    ensures multiset(a)[n] <= 1
  {
    if a != [] {
      OnceEach(a[1..], n);
      assert a == [a[0]] + a[1..];
    }
  }

  lemma TwiceIsTwo(b: seq<NormalizedLog>, i: nat, j: nat)
    requires i < j < |b| && b[i] == b[j]
    ensures multiset(b)[b[i]] >= 2
  {
    assert b == b[..i] + [b[i]] + b[i + 1..j] + [b[j]] + b[j + 1..];
  }

  /**
   Nothing is lost and nothing is invented: every log of the batch is accepted, rejected or a
   repetition; accepted keys are distinct, come from valid logs and cover every valid log.
   */
  lemma PipelineAccounts(logs: seq<AttendanceLog>, deviceId: int, now: int)
    ensures var r := Pipeline(logs, deviceId, now);
            && |logs| == |r.accepted| + |r.rejected| + r.duplicatesInBatch
            && DistinctKeys(r.accepted) && Ordered(r.accepted, OccurredAt)
            && (forall n :: n in r.accepted ==>
                              exists log :: log in logs && Validate(log, now) == None && n == Normalize(log, deviceId))
            && (forall log :: log in logs && Validate(log, now) == None ==> HasKey(r.accepted, KeyOf(log, deviceId)))
  {
    var b := Collect(logs, deviceId, now);
    CollectSound(logs, deviceId, now);
    SortMultiset(b.kept, OccurredAt);
    SortOrdered(b.kept, OccurredAt);
    KeysOfPermutation(b.kept, SortBy(b.kept, OccurredAt));
  }

  // ---------------------------------------------------------------- the store

  /** `createMany` with `skipDuplicates` on the unique key: the rows it adds, in order. */
  function Inserted(stored: seq<NormalizedLog>, accepted: seq<NormalizedLog>): seq<NormalizedLog>
    decreases |accepted|
  {
    if accepted == [] then []
    else if HasKey(stored, accepted[0].dedupKey) then Inserted(stored, accepted[1..])
    else [accepted[0]] + Inserted(stored + [accepted[0]], accepted[1..])
  }

  datatype Summary = Summary(received: nat, processed: nat, duplicated: int, rejected: nat)

  /** One ingest: the rows stored afterwards and the counters reported. */
  function Ingest(stored: seq<NormalizedLog>, logs: seq<AttendanceLog>, deviceId: int,
                  now: int): (seq<NormalizedLog>, Summary) {
    var p := Pipeline(logs, deviceId, now);
    var rows := Inserted(stored, p.accepted);
    (stored + rows, Summary(|logs|, |rows|, p.duplicatesInBatch + (|p.accepted| - |rows|), |p.rejected|))
  }

  lemma {:induction false} InsertedKeys(stored: seq<NormalizedLog>, accepted: seq<NormalizedLog>)
    requires DistinctKeys(stored)
    ensures var all := stored + Inserted(stored, accepted);
            && DistinctKeys(all)
            && (forall k :: HasKey(all, k) <==> HasKey(stored, k) || HasKey(accepted, k))
            && |Inserted(stored, accepted)| <= |accepted|
    decreases |accepted|
  {
    if accepted == [] {
      assert stored + [] == stored;
    } else {
      var a, rest := accepted[0], accepted[1..];
      assert accepted == [a] + rest;
      KeysSplit(a, rest);
      if HasKey(stored, a.dedupKey) {
        InsertedKeys(stored, rest);
      } else {
        AppendKey(stored, a);
        InsertedKeys(stored + [a], rest);
        assert stored + ([a] + Inserted(stored + [a], rest)) == (stored + [a]) + Inserted(stored + [a], rest);
      }
    }
  }

  lemma KeysSplit(a: NormalizedLog, rest: seq<NormalizedLog>)
    ensures forall k :: HasKey([a] + rest, k) <==> k == a.dedupKey || HasKey(rest, k)
  {
    forall k ensures HasKey([a] + rest, k) <==> k == a.dedupKey || HasKey(rest, k) {
      var all := [a] + rest;
      assert all[0] == a;
      if HasKey(rest, k) {
        var i :| 0 <= i < |rest| && rest[i].dedupKey == k;
        assert all[i + 1].dedupKey == k;
      }
    }
  }

  /**
   A completed ingest: keys stay unique, every valid log of the batch ends up stored under its
   key, nothing stored is lost, and the counters add up.
   */
  lemma IngestKeeps(stored: seq<NormalizedLog>, logs: seq<AttendanceLog>, deviceId: int, now: int)
    requires DistinctKeys(stored)
    ensures var (after, s) := Ingest(stored, logs, deviceId, now);
            && DistinctKeys(after) && stored <= after
            && (forall log :: log in logs && Validate(log, now) == None ==> HasKey(after, KeyOf(log, deviceId)))
            && (forall k :: HasKey(stored, k) ==> HasKey(after, k))
            && s.duplicated >= 0 && s.received == s.processed + s.duplicated + s.rejected
  {
    PipelineAccounts(logs, deviceId, now);
    InsertedKeys(stored, Pipeline(logs, deviceId, now).accepted);
  }

  /** Downloading a batch again stores nothing more, whatever the clock says by then. */
  lemma IngestAgain(stored: seq<NormalizedLog>, logs: seq<AttendanceLog>, deviceId: int, now: int)
    requires DistinctKeys(stored)
    requires forall log :: log in logs && Validate(log, now) == None ==> HasKey(stored, KeyOf(log, deviceId))
    ensures Ingest(stored, logs, deviceId, now).0 == stored
  {
    PipelineAccounts(logs, deviceId, now);
    var accepted := Pipeline(logs, deviceId, now).accepted;
    assert forall n :: n in accepted ==> HasKey(stored, n.dedupKey);
    AllKnown(stored, accepted);
    assert stored + [] == stored;
  }

  lemma {:induction false} AllKnown(stored: seq<NormalizedLog>, accepted: seq<NormalizedLog>)
    requires forall n :: n in accepted ==> HasKey(stored, n.dedupKey)
    ensures Inserted(stored, accepted) == []
  {
    if accepted != [] {
      assert accepted[0] in accepted && forall n :: n in accepted[1..] ==> n in accepted;
      AllKnown(stored, accepted[1..]);
    }
  }
}
