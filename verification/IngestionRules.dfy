/**
 What the ingestion pipeline accepts, refuses and stores, told from the log itself: its trimmed
 identifier, its time against the clock, the names it carries.
 */
module IngestionRules {
  import opened Ingestion
  import opened Sorting
  import opened Text
  import opened Wrappers

  // ---------------------------------------------------------------- validation

  /** One to twenty-four letters and digits. */
  predicate GoodId(id: string) {
    1 <= |id| <= 24 && forall i :: 0 <= i < |id| ==> 'a' <= id[i] <= 'z' || 'A' <= id[i] <= 'Z' || '0' <= id[i] <= '9'
  }

  /** The identifier a log gives, its outer blanks gone; none at all is empty. */
  predicate Gives(log: AttendanceLog, id: string) {
    if log.deviceUserId.None? then id == "" else id == Trim(log.deviceUserId.value)
  }

  /** Not above ten minutes ahead of the clock, nor above four hundred days behind it. */
  predicate GoodTime(t: int, now: int) {
    now - 34_560_000_000 <= t <= now + 600_000
  }

  /** Exactly the logs that pass. */
  lemma ValidExactly(log: AttendanceLog, id: string, now: int)
    requires Gives(log, id)
    ensures Validate(log, now) == None <==> GoodId(id) && log.timestamp.Some? && GoodTime(log.timestamp.value, now)
  {
  }

  /** Why the others do not, the identifier first. */
  lemma ReasonsExactly(log: AttendanceLog, id: string, now: int)
    requires Gives(log, id)
    ensures Validate(log, now) == Some(MissingUserId) <==> id == ""
    ensures Validate(log, now) == Some(InvalidUserId) <==> id != "" && !GoodId(id)
    ensures Validate(log, now) == Some(InvalidTimestamp) <==> GoodId(id) && log.timestamp.None?
    ensures Validate(log, now) == Some(FutureTimestamp) <==>
            GoodId(id) && log.timestamp.Some? && now + 600_000 < log.timestamp.value
    ensures Validate(log, now) == Some(TooOld) <==>
            GoodId(id) && log.timestamp.Some? && log.timestamp.value < now - 34_560_000_000
  {
  }

  // ---------------------------------------------------------------- normalization

  /**
   A valid log is stored under its trimmed identifier, at its whole second, with the names it gives
   where they are known.
   */
  lemma NormalizedSpelled(log: AttendanceLog, id: string, deviceId: int)
    requires Gives(log, id) && log.timestamp.Some?
    ensures var n := Normalize(log, deviceId);
            && n.deviceUserId == id && n.dedupKey.subject == id && n.dedupKey.scope == deviceId
            && n.occurredAt <= log.timestamp.value < n.occurredAt + 1000 && n.occurredAt == 1000 * n.dedupKey.second
            && n.dedupKey == KeyOf(log, deviceId)
    ensures var p := Normalize(log, deviceId).punchType;
            if log.punchType == "CHECK_IN" || log.punchType == "CHECK_OUT" || log.punchType == "BREAK_OUT"
               || log.punchType == "BREAK_IN" then p == log.punchType else p == "UNKNOWN"
    ensures var v := Normalize(log, deviceId).verifyMode;
            if log.verifyMode == "FINGERPRINT" || log.verifyMode == "FACE" || log.verifyMode == "CARD"
               || log.verifyMode == "PASSWORD" then v == log.verifyMode else v == "OTHER"
  {
    var t := log.timestamp.value;
    assert t == t / 1000 * 1000 + t % 1000;
  }

  /** Two logs are the same punch exactly when terminal, identifier and second are. */
  lemma SameKeyExactly(a: AttendanceLog, b: AttendanceLog, x: string, y: string, deviceA: int, deviceB: int)
    requires Gives(a, x) && Gives(b, y) && a.timestamp.Some? && b.timestamp.Some?
    ensures KeyOf(a, deviceA) == KeyOf(b, deviceB) <==>
            deviceA == deviceB && x == y && a.timestamp.value / 1000 == b.timestamp.value / 1000
  {
  }

  // ---------------------------------------------------------------- the batch

  /** The refusals of a batch, in its order. */
  function Refusals(logs: seq<AttendanceLog>, now: int): seq<Rejection> {
    if logs == [] then []
    else
      var reason := Validate(logs[0], now);
      (if reason.Some? then [Rejection(reason.value, logs[0])] else []) + Refusals(logs[1..], now)
  }

  lemma {:induction false} RefusalsAppend(a: seq<AttendanceLog>, log: AttendanceLog, now: int)
    ensures Refusals(a + [log], now)
         == Refusals(a, now) + if Validate(log, now).Some? then [Rejection(Validate(log, now).value, log)] else []
  {
    hide Validate;
    if a == [] {
      assert [] + [log] == [log] && [log][1..] == [];
    } else {
      RefusalsAppend(a[1..], log, now);
      assert (a + [log])[1..] == a[1..] + [log];
    }
  }

  /** The first log of a key is the one kept. */
  predicate FirstOfKey(logs: seq<AttendanceLog>, deviceId: int, now: int, i: nat)
    requires i < |logs|
  {
    Validate(logs[i], now) == None
    && forall j :: 0 <= j < i && Validate(logs[j], now) == None ==> KeyOf(logs[j], deviceId) != KeyOf(logs[i], deviceId)
  }

  predicate KeptFirst(logs: seq<AttendanceLog>, deviceId: int, now: int, n: NormalizedLog) {
    exists i :: 0 <= i < |logs| && FirstOfKey(logs, deviceId, now, i) && n == Normalize(logs[i], deviceId)
  }

  lemma {:induction false} CollectFirst(logs: seq<AttendanceLog>, deviceId: int, now: int)
    ensures var b := Collect(logs, deviceId, now);
            b.rejected == Refusals(logs, now) && forall n :: n in b.kept ==> KeptFirst(logs, deviceId, now, n)
  {
    if logs != [] {
      var before, log := logs[..|logs| - 1], logs[|logs| - 1];
      assert before + [log] == logs;
      CollectFirst(before, deviceId, now);
      CollectSound(before, deviceId, now);
      RefusalsAppend(before, log, now);
      NextFirst(logs, deviceId, now);
      hide Validate, Normalize, KeyOf, KeptFirst, Refusals;
    }
  }

  lemma NextFirst(logs: seq<AttendanceLog>, deviceId: int, now: int)
    requires logs != []
    ensures var before, log := logs[..|logs| - 1], logs[|logs| - 1];
            && (forall n :: KeptFirst(before, deviceId, now, n) ==> KeptFirst(logs, deviceId, now, n))
            && (Validate(log, now) == None
                && (forall l :: l in before && Validate(l, now) == None ==> KeyOf(l, deviceId) != KeyOf(log, deviceId))
                ==> KeptFirst(logs, deviceId, now, Normalize(log, deviceId)))
  {
    hide Validate, Normalize, KeyOf;
    var before, log := logs[..|logs| - 1], logs[|logs| - 1];
    forall n | KeptFirst(before, deviceId, now, n) ensures KeptFirst(logs, deviceId, now, n) {
      var i :| 0 <= i < |before| && FirstOfKey(before, deviceId, now, i) && n == Normalize(before[i], deviceId);
      assert FirstOfKey(logs, deviceId, now, i);
    }
    if Validate(log, now) == None
       && (forall l :: l in before && Validate(l, now) == None ==> KeyOf(l, deviceId) != KeyOf(log, deviceId)) {
      assert forall j :: 0 <= j < |before| ==> logs[j] in before;
      assert FirstOfKey(logs, deviceId, now, |logs| - 1);
    }
  }

  /** A batch refuses each invalid log, in order, for its reason, and keeps of each key the log listed first. */
  lemma BatchSpelled(logs: seq<AttendanceLog>, deviceId: int, now: int)
    ensures var r := Pipeline(logs, deviceId, now);
            r.rejected == Refusals(logs, now) && forall n :: n in r.accepted ==> KeptFirst(logs, deviceId, now, n)
  {
    CollectFirst(logs, deviceId, now);
    SortMultiset(Collect(logs, deviceId, now).kept, OccurredAt);
    hide Collect, KeptFirst, Refusals, SortBy;
    var kept := Collect(logs, deviceId, now).kept;
    forall n | n in SortBy(kept, OccurredAt) ensures n in kept {
      assert n in multiset(SortBy(kept, OccurredAt));
      assert n in multiset(kept);
    }
  }

  /** The counters of an ingest: received, refused, stored, and the rest repeated. */
  lemma CountersSpelled(stored: seq<NormalizedLog>, logs: seq<AttendanceLog>, deviceId: int, now: int)
    requires DistinctKeys(stored)
    ensures var (after, s) := Ingest(stored, logs, deviceId, now);
            && s.received == |logs| && s.rejected == |Refusals(logs, now)|
            && s.processed == |after| - |stored|
            && s.duplicated == |logs| - |Refusals(logs, now)| - s.processed
  {
    IngestKeeps(stored, logs, deviceId, now);
    BatchSpelled(logs, deviceId, now);
    hide Pipeline, Refusals;
  }
}
