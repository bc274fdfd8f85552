/**
 The history of schedule assignments. One table holds the rows of every employee; assigning
 closes what is open and adds a row, undoing removes the latest row and reopens the one before.
 Days are consecutive integers.
 */
module WorkSchedules {
  import WorkDay
  import opened Wrappers

  /** `to` is the last day in force, none while open-ended. */
  datatype Row = Row(id: nat, employeeId: int, scheduleId: int, from: int, to: Option<int>)

  /** `Gone`: the row was deleted by another call before this one deleted it. */
  datatype AssignError = NotFound | DateConflict | NotLatest | TooOld | Gone
  datatype Outcome = Done | Refused(error: AssignError)

  const MAX_RETROACTIVE_DAYS := 62
  const SHORT_DAY_TOLERANCE_MINUTES := 10

  /** The shift of a day without fixed hours: from 08:00, lunch at 13:00, as long as the day takes. */
  function ReferenceDay(dailyMinutes: nat, lunchMinutes: nat): WorkDay.ShiftTemplate {
    var start, lunch := 8 * 60, 13 * 60;
    WorkDay.ShiftTemplate(
      "company", start, start + dailyMinutes + lunchMinutes,
      if lunchMinutes > 0 then Some(lunch) else None,
      if lunchMinutes > 0 then Some(lunch + lunchMinutes) else None,
      None, Some(SHORT_DAY_TOLERANCE_MINUTES), None, true)
  }

  /** It lasts the minutes to work and the lunch, which is there or not as a whole. */
  lemma ReferenceDayLasts(dailyMinutes: nat, lunchMinutes: nat)
    ensures var t := ReferenceDay(dailyMinutes, lunchMinutes);
            && t.flexible && t.startTime == 480 && t.earlyLeaveToleranceMinutes == Some(10)
            && t.lateToleranceMinutes == None && t.overtimeThresholdMinutes == None
            && t.endTime - t.startTime == dailyMinutes + lunchMinutes
            && (t.breakStart == None <==> lunchMinutes == 0) && (t.breakEnd == None <==> lunchMinutes == 0)
            && (lunchMinutes > 0 ==> t.breakStart == Some(780) && t.breakEnd.value - t.breakStart.value == lunchMinutes)
  {
  }

  // ---------------------------------------------------------------- one employee's history

  function History(rows: seq<Row>, employeeId: int): seq<Row> {
    if rows == [] then []
    else (if rows[0].employeeId == employeeId then [rows[0]] else []) + History(rows[1..], employeeId)
  }

  /** Strictly increasing, each row ending the day before the next, only the last one open. */
  predicate Contiguous(h: seq<Row>) {
    && (forall i :: 0 <= i < |h| - 1 ==> Adjacent(h, i))
    && (h != [] ==> h[|h| - 1].to == None)
  }

  predicate Adjacent(h: seq<Row>, i: int)
    requires 0 <= i < |h| - 1
  {
    h[i].from < h[i + 1].from && h[i].to == Some(h[i + 1].from - 1)
  }

  function Closed(r: Row, from: int): Row {
    if r.to == None || r.to.value >= from then r.(to := Some(from - 1)) else r
  }

  function CloseAll(h: seq<Row>, from: int): (c: seq<Row>)
    ensures |c| == |h|
    ensures forall i :: 0 <= i < |h| ==> c[i] == Closed(h[i], from)
  {
    seq(|h|, i requires 0 <= i < |h| => Closed(h[i], from))
  }

  /** What assigning does to a history. */
  function Assigned(h: seq<Row>, r: Row): seq<Row> {
    CloseAll(h, r.from) + [r]
  }

  /** What undoing the latest assignment does to it. */
  function Undone(h: seq<Row>): seq<Row> {
    if |h| <= 1 then [] else h[..|h| - 2] + [h[|h| - 2].(to := None)]
  }

  predicate StartsAfter(h: seq<Row>, from: int) {
    forall i :: 0 <= i < |h| ==> h[i].from < from
  }

  predicate Covers(r: Row, day: int) {
    r.from <= day && (r.to == None || r.to.value >= day)
  }

  /** The schedule in force on a day: the first row that covers it. */
  function InForce(h: seq<Row>, day: int): Option<int> {
    if h == [] then None
    else if Covers(h[0], day) then Some(h[0].scheduleId)
    else InForce(h[1..], day)
  }

  lemma {:induction false} IncreasingFrom(h: seq<Row>, i: nat, j: nat)
    requires Contiguous(h) && i <= j < |h|
    ensures i < j ==> h[i].from < h[j].from && h[i].to.Some? && h[i].to.value < h[j].from
    decreases j - i
  {
    if i < j {
      assert Adjacent(h, i);
      IncreasingFrom(h, i + 1, j);
    }
  }

  lemma TailContiguous(h: seq<Row>)
    requires Contiguous(h) && |h| > 1
    ensures Contiguous(h[1..]) && Adjacent(h, 0)
  {
    forall i | 0 <= i < |h[1..]| - 1 ensures Adjacent(h[1..], i) {
      assert Adjacent(h, i + 1);
    }
  }

  /** Rows never overlap: a day is covered by at most one of them. */
  lemma AtMostOneCovers(h: seq<Row>, i: nat, j: nat, day: int)
    requires Contiguous(h) && i < |h| && j < |h| && Covers(h[i], day) && Covers(h[j], day)
    ensures i == j
  {
    if i < j {
      IncreasingFrom(h, i, j);
    } else if j < i {
      IncreasingFrom(h, j, i);
    }
  }

  /** Contiguous: every day from the first assignment on is covered. */
  lemma {:induction false} EveryDayCovered(h: seq<Row>, day: int)
    requires Contiguous(h) && h != [] && h[0].from <= day
    ensures exists i :: 0 <= i < |h| && Covers(h[i], day)
    decreases |h|
  {
    if Covers(h[0], day) {
    } else {
      assert |h| > 1;
      TailContiguous(h);
      EveryDayCovered(h[1..], day);
      var i :| 0 <= i < |h[1..]| && Covers(h[1..][i], day);
      assert Covers(h[i + 1], day);
    }
  }

  lemma OnlyLatestCloses(h: seq<Row>, from: int)
    requires Contiguous(h) && StartsAfter(h, from)
    ensures CloseAll(h, from) == if h == [] then [] else h[..|h| - 1] + [h[|h| - 1].(to := Some(from - 1))]
  {
    forall i | 0 <= i < |h| - 1 ensures Closed(h[i], from) == h[i] {
      assert Adjacent(h, i) && h[i + 1].from < from;
    }
  }

  lemma AssignedContiguous(h: seq<Row>, r: Row)
    requires Contiguous(h) && StartsAfter(h, r.from) && r.to == None
    ensures Contiguous(Assigned(h, r))
  {
    OnlyLatestCloses(h, r.from);
    var after := Assigned(h, r);
    forall i | 0 <= i < |after| - 1 ensures Adjacent(after, i) {
      assert i < |h| - 1 ==> Adjacent(h, i);
    }
  }

  lemma UndoneContiguous(h: seq<Row>)
    requires Contiguous(h)
    ensures Contiguous(Undone(h))
  {
    var after := Undone(h);
    forall i | 0 <= i < |after| - 1 ensures Adjacent(after, i) {
      assert Adjacent(h, i);
    }
  }

  /** Undoing an assignment restores the exact previous history. */
  lemma UndoRestores(h: seq<Row>, r: Row)
    requires Contiguous(h) && StartsAfter(h, r.from)
    ensures Undone(Assigned(h, r)) == h
  {
    OnlyLatestCloses(h, r.from);
    if h != [] {
      assert h[..|h| - 1] + [h[|h| - 1]] == h;
      assert h[|h| - 1].(to := Some(r.from - 1)).(to := None) == h[|h| - 1];
    }
  }

  lemma {:induction false} InForceAppend(h: seq<Row>, r: Row, day: int)
    ensures InForce(h + [r], day) == if InForce(h, day).Some? then InForce(h, day)
                                     else if Covers(r, day) then Some(r.scheduleId) else None
    decreases |h|
  {
    if h == [] {
      assert h + [r] == [r];
    } else {
      assert (h + [r])[1..] == h[1..] + [r];
      InForceAppend(h[1..], r, day);
    }
  }

  lemma {:induction false} InForceClosed(h: seq<Row>, from: int, day: int)
    ensures day < from ==> InForce(CloseAll(h, from), day) == InForce(h, day)
    ensures day >= from ==> InForce(CloseAll(h, from), day) == None
    decreases |h|
  {
    if h != [] {
      assert CloseAll(h, from)[1..] == CloseAll(h[1..], from);
      InForceClosed(h[1..], from, day);
    }
  }

  /** Assigning from a date changes nothing before it and governs every day from it on. */
  lemma AssignKeepsThePast(h: seq<Row>, r: Row, day: int)
    requires r.to == None
    ensures InForce(Assigned(h, r), day) == if day < r.from then InForce(h, day) else Some(r.scheduleId)
  {
    InForceClosed(h, r.from, day);
    InForceAppend(CloseAll(h, r.from), r, day);
  }

  /** Undoing leaves the days before the removed assignment as they were. */
  lemma UndoKeepsThePast(h: seq<Row>, day: int)
    requires Contiguous(h) && h != [] && day < h[|h| - 1].from
    ensures InForce(Undone(h), day) == InForce(h, day)
  {
    var last := h[|h| - 1];
    if |h| == 1 {
      assert h[1..] == [];
    } else {
      RedoneLast(h);
      hide Assigned, Contiguous, InForce, Undone;
      AssignKeepsThePast(Undone(h), last, day);
    }
  }

  lemma UndoneStarts(h: seq<Row>)
    requires Contiguous(h) && h != []
    ensures StartsAfter(Undone(h), h[|h| - 1].from)
  {
    forall i | 0 <= i < |Undone(h)| ensures Undone(h)[i].from < h[|h| - 1].from {
      IncreasingFrom(h, i, |h| - 1);
    }
  }

  /** Assigning the undone row again gives the history back. */
  lemma RedoneLast(h: seq<Row>)
    requires Contiguous(h) && h != []
    ensures Assigned(Undone(h), h[|h| - 1]) == h
  {
    hide Contiguous, Undone, CloseAll, StartsAfter;
    UndoneContiguous(h);
    UndoneStarts(h);
    OnlyLatestCloses(Undone(h), h[|h| - 1].from);
    ReopenedAndClosed(h);
    assert h[..|h| - 1] + [h[|h| - 1]] == h;
  }

  lemma ReopenedAndClosed(h: seq<Row>)
    requires Contiguous(h) && h != []
    ensures var u := Undone(h);
            var from := h[|h| - 1].from;
            (if u == [] then [] else u[..|u| - 1] + [u[|u| - 1].(to := Some(from - 1))]) == h[..|h| - 1]
  {
    if |h| > 1 {
      var r := h[|h| - 2];
      assert Adjacent(h, |h| - 2);
      assert r.(to := None).(to := r.to) == r;
      assert Undone(h)[..|h| - 2] == h[..|h| - 2];
    }
  }

  // ---------------------------------------------------------------- what one write keeps

  /** The row of an employee that starts last, whatever order they are stored in. */
  function NewestOf(h: seq<Row>): (r: Option<Row>)
    ensures r.Some? ==> r.value in h
  {
    if h == [] then None
    else
      var rest := NewestOf(h[1..]);
      if rest.Some? && rest.value.from > h[0].from then rest else Some(h[0])
  }

  function LatestOf(h: seq<Row>): Option<Row> {
    if h == [] then None else Some(h[|h| - 1])
  }

  lemma {:induction false} NewestIsLatest(h: seq<Row>)
    requires Contiguous(h)
    ensures NewestOf(h) == LatestOf(h)
  {
    if |h| > 1 {
      TailContiguous(h);
      NewestIsLatest(h[1..]);
      IncreasingFrom(h, 0, |h| - 1);
    }
  }

  lemma LastIsGreatest(h: seq<Row>, i: nat)
    requires Contiguous(h) && i < |h|
    ensures h[i].from <= h[|h| - 1].from && (h[i].from == h[|h| - 1].from ==> i == |h| - 1)
  {
    IncreasingFrom(h, i, |h| - 1);
  }

  /** Assigning keeps a history contiguous if and only if every row starts before the new one. */
  lemma AssignExactly(h: seq<Row>, r: Row)
    requires Contiguous(h) && r.to == None
    ensures Contiguous(Assigned(h, r)) <==> StartsAfter(h, r.from)
  {
    if StartsAfter(h, r.from) {
      AssignedContiguous(h, r);
    } else {
      var i :| 0 <= i < |h| && h[i].from >= r.from;
      LastIsGreatest(h, i);
      var n := |h| - 1;
      assert !Adjacent(Assigned(h, r), n);
    }
  }

  /** The rows before `i` and after it, the one before it open again: what undoing row `i` leaves. */
  function Removed(h: seq<Row>, i: nat): seq<Row>
    requires i < |h|
  {
    (if i == 0 then [] else h[..i - 1] + [h[i - 1].(to := None)]) + h[i + 1..]
  }

  lemma RemovedLast(h: seq<Row>)
    requires h != []
    ensures Removed(h, |h| - 1) == Undone(h)
  {
  }

  /**
   Undoing a row keeps a history contiguous if and only if it is the latest or the first: in
   between, the row before it is left open beside the ones after it.
   */
  lemma UndoExactly(h: seq<Row>, i: nat)
    requires Contiguous(h) && i < |h|
    ensures Contiguous(Removed(h, i)) <==> i == 0 || i == |h| - 1
  {
    if i == |h| - 1 {
      RemovedLast(h);
      UndoneContiguous(h);
    } else if i == 0 {
      RemovedFirst(h);
    } else {
      RemovedBetween(h, i);
    }
    hide Contiguous, Removed, Undone;
  }

  lemma RemovedFirst(h: seq<Row>)
    requires Contiguous(h) && |h| > 1
    ensures Contiguous(Removed(h, 0))
  {
    TailContiguous(h);
    assert Removed(h, 0) == h[1..];
  }

  lemma RemovedBetween(h: seq<Row>, i: nat)
    requires 0 < i < |h| - 1
    ensures !Contiguous(Removed(h, i))
  {
    var r := Removed(h, i);
    assert !Adjacent(r, i - 1);
  }

  // ---------------------------------------------------------------- calls in flight

  /** A call on one employee's history, past its read. */
  datatype Call = Assigning(row: Row) | Undoing(row: Row)

  /** `disturbed`: another call wrote the history since this one read it. */
  datatype Flight = Flight(call: Call, disturbed: bool)

  datatype World = World(history: seq<Row>, flights: map<nat, Flight>)

  datatype Action =
    | Read(flight: nat, call: Call)
    | Finish(flight: nat)
    | Drop(flight: nat)

  const EMPTY := World([], map[])

  /** The checks a call makes when it reads: nothing starts on or after the new row, or after the old one. */
  predicate Passes(h: seq<Row>, c: Call) {
    match c
    case Assigning(r) => r.to == None && StartsAfter(h, r.from)
    case Undoing(r) => (exists i :: 0 <= i < |h| && h[i] == r) && StartsAfter(h, r.from + 1)
  }

  function IndexOf(h: seq<Row>, id: nat): (i: nat)
    ensures i <= |h| && (i < |h| ==> h[i].id == id)
  {
    if h == [] then 0
    else if h[0].id == id then 0
    else
      var i := IndexOf(h[1..], id);
      assert i < |h| - 1 ==> h[1..][i] == h[i + 1];
      1 + i
  }

  /** The transaction, on whatever the history is by then. Undoing a row that is gone fails. */
  function Wrote(h: seq<Row>, c: Call): seq<Row> {
    match c
    case Assigning(r) => Assigned(h, r)
    case Undoing(r) => if IndexOf(h, r.id) < |h| then Removed(h, IndexOf(h, r.id)) else h
  }

  predicate Enabled(w: World, a: Action) {
    match a
    case Read(f, c) => f !in w.flights && Passes(w.history, c) && (c.Assigning? ==> Unused(w, c.row.id))
    case Finish(f) => f in w.flights
    case Drop(f) => f in w.flights
  }

  /** Identifiers are never used twice. */
  predicate Unused(w: World, id: nat) {
    && (forall i :: 0 <= i < |w.history| ==> w.history[i].id != id)
    && (forall f :: f in w.flights && w.flights[f].call.Assigning? ==> w.flights[f].call.row.id != id)
  }

  function Apply(w: World, a: Action): World
    requires Enabled(w, a)
  {
    match a
    case Read(f, c) => w.(flights := w.flights[f := Flight(c, false)])
    case Finish(f) =>
      World(Wrote(w.history, w.flights[f].call), map g | g in w.flights && g != f :: w.flights[g].(disturbed := true))
    case Drop(f) => w.(flights := w.flights - {f})
  }

  predicate StepsTo(before: World, a: Action, after: World) {
    Enabled(before, a) && after == Apply(before, a)
  }

  predicate IsRun(worlds: seq<World>, actions: seq<Action>) {
    && |worlds| == |actions| + 1
    && worlds[0] == EMPTY
    && forall i :: 0 <= i < |actions| ==> StepsTo(worlds[i], actions[i], worlds[i + 1])
  }

  /** Each write comes from a call since whose read no other call wrote. */
  predicate Undisturbed(worlds: seq<World>, actions: seq<Action>)
    requires |worlds| == |actions| + 1
  {
    forall i :: 0 <= i < |actions| ==> UndisturbedStep(worlds[i], actions[i])
  }

  predicate UndisturbedStep(w: World, a: Action) {
    a.Finish? && a.flight in w.flights ==> !w.flights[a.flight].disturbed
  }

  predicate Inv(w: World) {
    && Contiguous(w.history) && DistinctIds(w.history)
    && (forall f :: f in w.flights && !w.flights[f].disturbed ==> Passes(w.history, w.flights[f].call))
    && (forall f :: f in w.flights && w.flights[f].call.Assigning? ==>
                      forall i :: 0 <= i < |w.history| ==> w.history[i].id != w.flights[f].call.row.id)
    && (forall f, g :: f in w.flights && g in w.flights && f != g ==>
                         w.flights[f].call.Assigning? && w.flights[g].call.Assigning? ==>
                           w.flights[f].call.row.id != w.flights[g].call.row.id)
  }

  lemma {:induction false} IndexOfRow(h: seq<Row>, i: nat)
    requires i < |h| && DistinctIds(h)
    ensures IndexOf(h, h[i].id) == i
  {
    if i > 0 {
      assert h[0].id != h[i].id;
      assert forall k :: 0 <= k < |h[1..]| ==> h[1..][k] == h[k + 1];
      IndexOfRow(h[1..], i - 1);
    }
  }

  lemma UndoingLatest(h: seq<Row>, r: Row)
    requires Contiguous(h) && DistinctIds(h) && Passes(h, Undoing(r))
    ensures Wrote(h, Undoing(r)) == Undone(h) && LatestOf(h) == Some(r)
  {
    var i :| 0 <= i < |h| && h[i] == r;
    IndexOfRow(h, i);
    LastIsGreatest(h, i);
    RemovedLast(h);
    hide Contiguous, Undone, Removed, IndexOf;
  }

  /** An undisturbed write is an assignment past the end or the undoing of the latest row. */
  lemma WroteContiguous(h: seq<Row>, c: Call)
    requires Contiguous(h) && DistinctIds(h) && Passes(h, c)
    ensures Contiguous(Wrote(h, c))
    ensures c.Undoing? ==> Wrote(h, c) == Undone(h) && LatestOf(h) == Some(c.row)
  {
    if c.Assigning? {
      AssignedContiguous(h, c.row);
    } else {
      UndoingLatest(h, c.row);
      UndoneContiguous(h);
    }
    hide Contiguous, Undone, Removed, IndexOf, LatestOf, DistinctIds;
  }

  predicate IdsOf(after: seq<Row>, h: seq<Row>, c: Call) {
    forall i :: 0 <= i < |after| ==> (c.Assigning? && after[i].id == c.row.id) || (i < |h| && after[i].id == h[i].id)
  }

  lemma AssignedIds(h: seq<Row>, r: Row)
    requires DistinctIds(h) && forall i :: 0 <= i < |h| ==> h[i].id != r.id
    ensures DistinctIds(Assigned(h, r)) && IdsOf(Assigned(h, r), h, Assigning(r))
  {
    var after := Assigned(h, r);
    assert forall i :: 0 <= i < |h| ==> after[i].id == h[i].id;
  }

  lemma UndoneIds(h: seq<Row>, r: Row)
    requires DistinctIds(h)
    ensures DistinctIds(Undone(h)) && IdsOf(Undone(h), h, Undoing(r))
  {
    var after := Undone(h);
    assert forall i :: 0 <= i < |after| ==> after[i].id == h[i].id;
  }

  lemma WroteIds(h: seq<Row>, c: Call)
    requires Contiguous(h) && DistinctIds(h) && Passes(h, c)
    requires c.Assigning? ==> forall i :: 0 <= i < |h| ==> h[i].id != c.row.id
    ensures DistinctIds(Wrote(h, c)) && IdsOf(Wrote(h, c), h, c)
  {
    WroteContiguous(h, c);
    if c.Assigning? {
      AssignedIds(h, c.row);
    } else {
      UndoneIds(h, c.row);
    }
    hide Contiguous, DistinctIds, IdsOf, Passes;
  }

  lemma FinishKeeps(w: World, f: nat)
    requires Inv(w) && f in w.flights && !w.flights[f].disturbed
    ensures Inv(Apply(w, Finish(f)))
  {
    var c := w.flights[f].call;
    WroteContiguous(w.history, c);
    WroteIds(w.history, c);
    hide Wrote, Contiguous, Passes, DistinctIds;
  }

  lemma {:induction false} RunInv(worlds: seq<World>, actions: seq<Action>, k: nat)
    requires IsRun(worlds, actions) && Undisturbed(worlds, actions) && k < |worlds|
    ensures Inv(worlds[k])
  {
    if k > 0 {
      RunInv(worlds, actions, k - 1);
      var w, a := worlds[k - 1], actions[k - 1];
      assert StepsTo(w, a, worlds[k]) && UndisturbedStep(w, a);
      if a.Finish? {
        FinishKeeps(w, a.flight);
      }
      hide Contiguous, Passes, DistinctIds, Wrote;
    }
  }

  /** While no call writes what another one has read and not yet written, the history is contiguous. */
  lemma ReachableContiguous(worlds: seq<World>, actions: seq<Action>, k: nat)
    requires IsRun(worlds, actions) && Undisturbed(worlds, actions) && k < |worlds|
    ensures Contiguous(worlds[k].history)
  {
    RunInv(worlds, actions, k);
  }

  /** As when the calls about the employee take turns. */
  lemma {:induction false} TurnsDisturbNobody(worlds: seq<World>, actions: seq<Action>, k: nat)
    requires IsRun(worlds, actions) && k < |worlds|
    requires forall i :: 0 <= i < |worlds| ==> forall f, g :: f in worlds[i].flights && g in worlds[i].flights ==>
                                                                f == g
    ensures forall f :: f in worlds[k].flights ==> !worlds[k].flights[f].disturbed
  {
    if k > 0 {
      TurnsDisturbNobody(worlds, actions, k - 1);
      assert StepsTo(worlds[k - 1], actions[k - 1], worlds[k]);
      hide Wrote, Passes;
    }
  }

  // ---------------------------------------------------------------- runs that go wrong

  function RaceActions(): seq<Action> {
    [Read(0, Assigning(Row(0, 1, 1, 20, None))), Read(1, Assigning(Row(1, 1, 2, 10, None))), Finish(0), Finish(1)]
  }

  function RaceWorlds(): seq<World> {
    var a, b := Row(0, 1, 1, 20, None), Row(1, 1, 2, 10, None);
    [EMPTY,
     World([], map[0 := Flight(Assigning(a), false)]),
     World([], map[0 := Flight(Assigning(a), false), 1 := Flight(Assigning(b), false)]),
     World([a], map[1 := Flight(Assigning(b), true)]),
     World([a.(to := Some(9)), b], map[])]
  }

  lemma RaceReads()
    ensures var w, a := RaceWorlds(), RaceActions(); StepsTo(w[0], a[0], w[1]) && StepsTo(w[1], a[1], w[2])
  {
  }

  lemma RaceFirst()
    ensures var w, a := RaceWorlds(), RaceActions(); StepsTo(w[2], a[2], w[3])
  {
    assert CloseAll([], 20) == [];
    assert Assigned([], Row(0, 1, 1, 20, None)) == [Row(0, 1, 1, 20, None)];
  }

  lemma RaceSecond()
    ensures var w, a := RaceWorlds(), RaceActions(); StepsTo(w[3], a[3], w[4])
  {
    var a := Row(0, 1, 1, 20, None);
    assert CloseAll([a], 10) == [a.(to := Some(9))];
  }

  lemma RaceLoses()
    ensures var h := RaceWorlds()[4].history; !Contiguous(h) && InForce(h, 20) == Some(2)
  {
    var h := RaceWorlds()[4].history;
    assert !Adjacent(h, 0);
    assert h[1..] == [Row(1, 1, 2, 10, None)] && InForce(h[1..], 20) == Some(2);
  }

  /** From day 20 and from day 10 both pass the count; written in that order, the first is lost. */
  lemma TwoAssignsConflict()
    ensures IsRun(RaceWorlds(), RaceActions())
    ensures var h := RaceWorlds()[4].history;
            && h == [Row(0, 1, 1, 20, Some(9)), Row(1, 1, 2, 10, None)]
            && !Contiguous(h) && InForce(h, 20) == Some(2)
  {
    RaceReads();
    RaceFirst();
    RaceSecond();
    RaceLoses();
    hide StepsTo, Contiguous, InForce;
  }

  /** Undoing a row that is no longer the latest opens the one before it, under the one after it. */
  lemma UndoneBetween(first: Row, second: Row, third: Row)
    requires Contiguous([first, second, third]) && first.id != second.id
    ensures Wrote([first, second, third], Undoing(second)) == [first.(to := None), third]
    ensures !Contiguous([first.(to := None), third]) && Covers(first.(to := None), third.from)
            && Covers(third, third.from)
  {
    var h := [first, second, third];
    assert Adjacent(h, 0) && Adjacent(h, 1);
    assert !Adjacent([first.(to := None), third], 0);
    assert h[1..] == [second, third];
    assert IndexOf(h, second.id) == 1;
    assert h[..0] == [] && h[2..] == [third];
    assert [] + [first.(to := None)] + [third] == [first.(to := None), third];
    assert Removed(h, 1) == [first.(to := None), third];
  }

  function LateUndoActions(): seq<Action> {
    [Read(0, Assigning(Row(0, 1, 1, 10, None))), Finish(0),
     Read(1, Assigning(Row(1, 1, 2, 20, None))), Finish(1),
     Read(2, Undoing(Row(1, 1, 2, 20, None))),
     Read(3, Assigning(Row(2, 1, 3, 30, None))), Finish(3),
     Finish(2)]
  }

  function LateUndoWorlds(): seq<World> {
    var a, b, c := Row(0, 1, 1, 10, None), Row(1, 1, 2, 20, None), Row(2, 1, 3, 30, None);
    var closed := a.(to := Some(19));
    var undo, late := Flight(Undoing(b), false), Flight(Undoing(b), true);
    [EMPTY,
     World([], map[0 := Flight(Assigning(a), false)]),
     World([a], map[]),
     World([a], map[1 := Flight(Assigning(b), false)]),
     World([closed, b], map[]),
     World([closed, b], map[2 := undo]),
     World([closed, b], map[2 := undo, 3 := Flight(Assigning(c), false)]),
     World([closed, b.(to := Some(29)), c], map[2 := late]),
     World([a, c], map[])]
  }

  lemma LateUndoFirst()
    ensures var w, a := LateUndoWorlds(), LateUndoActions();
            StepsTo(w[0], a[0], w[1]) && StepsTo(w[1], a[1], w[2]) && StepsTo(w[2], a[2], w[3])
  {
    assert CloseAll([], 10) == [];
    assert Assigned([], Row(0, 1, 1, 10, None)) == [Row(0, 1, 1, 10, None)];
  }

  lemma LateUndoSecond()
    ensures var w, a := LateUndoWorlds(), LateUndoActions(); StepsTo(w[3], a[3], w[4])
  {
    var a := Row(0, 1, 1, 10, None);
    assert CloseAll([a], 20) == [a.(to := Some(19))];
  }

  lemma LateUndoReads()
    ensures var w, a := LateUndoWorlds(), LateUndoActions(); StepsTo(w[4], a[4], w[5]) && StepsTo(w[5], a[5], w[6])
  {
    assert LateUndoWorlds()[4].history[1] == Row(1, 1, 2, 20, None);
  }

  lemma LateUndoThird()
    ensures var w, a := LateUndoWorlds(), LateUndoActions(); StepsTo(w[6], a[6], w[7])
  {
    var a, b := Row(0, 1, 1, 10, Some(19)), Row(1, 1, 2, 20, None);
    assert CloseAll([a, b], 30) == [a, b.(to := Some(29))];
  }

  lemma LateUndoWrites()
    ensures var w, a := LateUndoWorlds(), LateUndoActions(); StepsTo(w[7], a[7], w[8])
  {
    var h := LateUndoWorlds()[7].history;
    assert h[1..] == [h[1], h[2]] && IndexOf(h, 1) == 1;
    assert h[..0] == [] && h[2..] == [h[2]];
    assert Removed(h, 1) == LateUndoWorlds()[8].history;
  }

  /**
   The row of day 20 is read as the latest; another is assigned from day 30; then the undo is
   written: two rows are open.
   */
  lemma LateUndoLeavesTwo()
    ensures IsRun(LateUndoWorlds(), LateUndoActions())
    ensures var h := LateUndoWorlds()[8].history;
            && h == [Row(0, 1, 1, 10, None), Row(2, 1, 3, 30, None)]
            && !Contiguous(h) && Covers(h[0], 30) && Covers(h[1], 30)
  {
    LateUndoFirst();
    LateUndoSecond();
    LateUndoReads();
    LateUndoThird();
    LateUndoWrites();
    assert !Adjacent(LateUndoWorlds()[8].history, 0);
    hide StepsTo, Adjacent;
  }

  // ---------------------------------------------------------------- the table

  /** `updateMany` on the rows of an employee that reach `from`. */
  function CloseRows(rows: seq<Row>, employeeId: int, from: int): (c: seq<Row>)
    ensures |c| == |rows|
  {
    seq(|rows|, i requires 0 <= i < |rows| => if rows[i].employeeId == employeeId then Closed(rows[i], from)
      else rows[i])
  }

  function DeleteRow(rows: seq<Row>, id: nat): seq<Row> {
    if rows == [] then []
    else (if rows[0].id == id then [] else [rows[0]]) + DeleteRow(rows[1..], id)
  }

  function Reopen(rows: seq<Row>, id: nat): (c: seq<Row>)
    ensures |c| == |rows|
  {
    seq(|rows|, i requires 0 <= i < |rows| => if rows[i].id == id then rows[i].(to := None) else rows[i])
  }

  predicate DistinctIds(rows: seq<Row>) {
    forall i, j :: 0 <= i < j < |rows| ==> rows[i].id != rows[j].id
  }

  lemma {:induction false} HistoryMember(rows: seq<Row>, e: int)
    ensures forall r :: r in History(rows, e) <==> r in rows && r.employeeId == e
  {
    if rows != [] {
      HistoryMember(rows[1..], e);
      assert forall r :: r in rows <==> r == rows[0] || r in rows[1..];
    }
  }

  lemma {:induction false} HistoryOfClosed(rows: seq<Row>, employeeId: int, from: int, e: int)
    ensures History(CloseRows(rows, employeeId, from), e) == if e == employeeId then CloseAll(History(rows, e), from)
                                                             else History(rows, e)
  {
    var c := CloseRows(rows, employeeId, from);
    if rows != [] {
      assert c[1..] == CloseRows(rows[1..], employeeId, from);
      HistoryOfClosed(rows[1..], employeeId, from, e);
    }
  }

  lemma HistoryAppend(rows: seq<Row>, r: Row, e: int)
    ensures History(rows + [r], e) == History(rows, e) + (if r.employeeId == e then [r] else [])
  {
    HistoryConcat(rows, [r], e);
  }

  lemma {:induction false} HistoryDelete(rows: seq<Row>, id: nat, e: int)
    ensures History(DeleteRow(rows, id), e) == DeleteRow(History(rows, e), id)
  {
    if rows != [] {
      HistoryDelete(rows[1..], id, e);
      DeleteAppend(if rows[0].employeeId == e then [rows[0]] else [], History(rows[1..], e), id);
      HistoryConcat(if rows[0].id == id then [] else [rows[0]], DeleteRow(rows[1..], id), e);
    }
  }

  lemma {:induction false} DeleteAppend(a: seq<Row>, b: seq<Row>, id: nat)
    ensures DeleteRow(a + b, id) == DeleteRow(a, id) + DeleteRow(b, id)
  {
    if a == [] {
      assert a + b == b;
    } else {
      assert (a + b)[1..] == a[1..] + b;
      DeleteAppend(a[1..], b, id);
    }
  }

  lemma {:induction false} HistoryConcat(a: seq<Row>, b: seq<Row>, e: int)
    ensures History(a + b, e) == History(a, e) + History(b, e)
  {
    if a == [] {
      assert a + b == b;
    } else {
      var first := if a[0].employeeId == e then [a[0]] else [];
      assert (a + b)[0] == a[0] && (a + b)[1..] == a[1..] + b;
      HistoryConcat(a[1..], b, e);
      assert first + (History(a[1..], e) + History(b, e)) == (first + History(a[1..], e)) + History(b, e);
    }
  }

  lemma {:induction false} HistoryReopen(rows: seq<Row>, id: nat, e: int)
    ensures History(Reopen(rows, id), e) == Reopen(History(rows, e), id)
  {
    if rows != [] {
      assert Reopen(rows, id)[1..] == Reopen(rows[1..], id);
      HistoryReopen(rows[1..], id, e);
    }
  }

  lemma {:induction false} DeleteAbsent(h: seq<Row>, id: nat)
    requires forall r :: r in h ==> r.id != id
    ensures DeleteRow(h, id) == h
  {
    if h != [] {
      assert h[0] in h && forall r :: r in h[1..] ==> r in h;
      DeleteAbsent(h[1..], id);
    }
  }

  lemma {:induction false} HistoryDistinct(rows: seq<Row>, e: int)
    requires DistinctIds(rows)
    ensures DistinctIds(History(rows, e))
  {
    if rows != [] {
      HistoryDistinct(rows[1..], e);
      HistoryMember(rows[1..], e);
    }
  }

  lemma DeleteLast(h: seq<Row>)
    requires h != [] && DistinctIds(h)
    ensures DeleteRow(h, h[|h| - 1].id) == h[..|h| - 1]
  {
    var last := h[|h| - 1];
    assert h == h[..|h| - 1] + [last];
    DeleteAppend(h[..|h| - 1], [last], last.id);
    DeleteAbsent(h[..|h| - 1], last.id);
    assert DeleteRow([last], last.id) == [];
  }

  lemma ReopenAbsent(h: seq<Row>, id: nat)
    requires forall r :: r in h ==> r.id != id
    ensures Reopen(h, id) == h
  {
  }

  lemma ReopenLast(h: seq<Row>)
    requires h != [] && DistinctIds(h)
    ensures Reopen(h, h[|h| - 1].id) == h[..|h| - 1] + [h[|h| - 1].(to := None)]
  {
  }

  /** No other employee's row has the identifier of a row of this one. */
  lemma ForeignId(rows: seq<Row>, r: Row, e: int)
    requires DistinctIds(rows) && r in rows && r.employeeId != e
    ensures forall q :: q in History(rows, e) ==> q.id != r.id
  {
    HistoryMember(rows, e);
  }

  // ---------------------------------------------------------------- the service

  predicate AnyFrom(rows: seq<Row>, employeeId: int, from: int) {
    exists i :: 0 <= i < |rows| && rows[i].employeeId == employeeId && rows[i].from >= from
  }

  lemma AnyFromHistory(rows: seq<Row>, employeeId: int, from: int)
    ensures AnyFrom(rows, employeeId, from) <==> !StartsAfter(History(rows, employeeId), from)
  {
    HistoryMember(rows, employeeId);
    var h := History(rows, employeeId);
    if AnyFrom(rows, employeeId, from) {
      var i :| 0 <= i < |rows| && rows[i].employeeId == employeeId && rows[i].from >= from;
      assert rows[i] in h;
    }
    if !StartsAfter(h, from) {
      var i :| 0 <= i < |h| && h[i].from >= from;
      assert h[i] in rows;
    }
  }

  /** Every employee's history is contiguous and identifiers are unique. */
  ghost predicate Sound(rows: seq<Row>) {
    DistinctIds(rows) && forall e :: Contiguous(History(rows, e))
  }

  ghost predicate SameForOthers(rows: seq<Row>, before: seq<Row>, employeeId: int) {
    forall e :: e != employeeId ==> History(rows, e) == History(before, e)
  }

  /** The rows of a new assignment's transaction. */
  function AssignedRows(rows: seq<Row>, r: Row): seq<Row> {
    CloseRows(rows, r.employeeId, r.from) + [r]
  }

  lemma AssignedHistories(rows: seq<Row>, r: Row)
    ensures SameForOthers(AssignedRows(rows, r), rows, r.employeeId)
    ensures History(AssignedRows(rows, r), r.employeeId) == Assigned(History(rows, r.employeeId), r)
  {
    var closed := CloseRows(rows, r.employeeId, r.from);
    forall e ensures History(closed + [r], e) == if e == r.employeeId then Assigned(History(rows, e), r)
                                                 else History(rows, e) {
      HistoryOfClosed(rows, r.employeeId, r.from, e);
      HistoryAppend(closed, r, e);
    }
  }

  /** A sound table stays sound if and only if nothing of the employee starts on or after the date. */
  lemma AssignSound(rows: seq<Row>, r: Row)
    requires Sound(rows) && r.to == None && forall q :: q in rows ==> q.id != r.id
    ensures Sound(AssignedRows(rows, r)) <==> StartsAfter(History(rows, r.employeeId), r.from)
  {
    var after := AssignedRows(rows, r);
    AssignedHistories(rows, r);
    AssignExactly(History(rows, r.employeeId), r);
    assert forall i :: 0 <= i < |rows| ==> after[i].id == rows[i].id && rows[i] in rows;
    hide Contiguous, History, Assigned, StartsAfter;
    assert forall e :: e != r.employeeId ==> History(after, e) == History(rows, e);
  }

  /** The employee's row that starts latest before a date. */
  ghost predicate IsPrevious(table: seq<Row>, employeeId: int, from: int, previous: Option<Row>) {
    if previous.None? then forall r :: r in table && r.employeeId == employeeId ==> r.from >= from
    else
      && previous.value in table && previous.value.employeeId == employeeId && previous.value.from < from
      && forall r :: r in table && r.employeeId == employeeId && r.from < from ==> r.from <= previous.value.from
  }

  /** The rows `unassign` leaves: the latest one gone and the one before it open again. */
  function UndoneRows(rows: seq<Row>, id: nat, previous: Option<Row>): seq<Row> {
    var left := DeleteRow(rows, id);
    if previous.Some? then Reopen(left, previous.value.id) else left
  }

  /** `last` is its employee's latest row and `previous` the one before it. */
  ghost predicate LatestTwo(rows: seq<Row>, last: Row, previous: Option<Row>) {
    var h := History(rows, last.employeeId);
    last in rows && LatestOf(h) == Some(last) && previous == LatestOf(h[..|h| - 1])
  }

  lemma UndoOwnHistory(rows: seq<Row>, last: Row, previous: Option<Row>)
    requires DistinctIds(rows) && LatestTwo(rows, last, previous)
    ensures History(UndoneRows(rows, last.id, previous), last.employeeId) == Undone(History(rows, last.employeeId))
  {
    var e := last.employeeId;
    var h := History(rows, e);
    HistoryDelete(rows, last.id, e);
    HistoryDistinct(rows, e);
    DeleteLast(h);
    PrefixDistinct(h);
    hide History, DeleteRow, Reopen, DistinctIds;
    if previous.Some? {
      HistoryReopen(DeleteRow(rows, last.id), previous.value.id, e);
      ReopenLast(h[..|h| - 1]);
      assert h[..|h| - 1][..|h| - 2] == h[..|h| - 2];
    }
  }

  lemma PrefixDistinct(h: seq<Row>)
    requires DistinctIds(h) && h != []
    ensures DistinctIds(h[..|h| - 1])
  {
  }

  lemma UndoOtherHistory(rows: seq<Row>, last: Row, previous: Option<Row>, e: int)
    requires DistinctIds(rows) && LatestTwo(rows, last, previous) && e != last.employeeId
    ensures History(UndoneRows(rows, last.id, previous), e) == History(rows, e)
  {
    HistoryDelete(rows, last.id, e);
    ForeignId(rows, last, e);
    DeleteAbsent(History(rows, e), last.id);
    if previous.Some? {
      HistoryMember(rows, last.employeeId);
      assert previous.value in History(rows, last.employeeId);
      HistoryReopen(DeleteRow(rows, last.id), previous.value.id, e);
      ForeignId(rows, previous.value, e);
      ReopenAbsent(History(rows, e), previous.value.id);
    }
  }

  lemma {:induction false} DeleteKeepsOrder(rows: seq<Row>, id: nat)
    requires DistinctIds(rows)
    ensures DistinctIds(DeleteRow(rows, id))
    ensures forall r :: r in DeleteRow(rows, id) ==> r in rows && r.id != id
  {
    if rows != [] {
      DeleteKeepsOrder(rows[1..], id);
      assert forall r :: r in rows[1..] ==> r in rows;
    }
  }

  predicate IdsFrom(after: seq<Row>, rows: seq<Row>) {
    DistinctIds(after) && forall r :: r in after ==> exists q :: q in rows && q.id == r.id
  }

  lemma UndoIds(rows: seq<Row>, id: nat, previous: Option<Row>)
    requires DistinctIds(rows)
    ensures IdsFrom(UndoneRows(rows, id, previous), rows)
  {
    DeleteKeepsOrder(rows, id);
    var left := DeleteRow(rows, id);
    var after := UndoneRows(rows, id, previous);
    forall r | r in after ensures exists q :: q in rows && q.id == r.id {
      var i :| 0 <= i < |after| && after[i] == r;
      assert left[i] in left && left[i].id == r.id;
    }
  }

  lemma UndoSound(rows: seq<Row>, last: Row, previous: Option<Row>)
    requires Sound(rows) && LatestTwo(rows, last, previous)
    ensures var after := UndoneRows(rows, last.id, previous);
            && Sound(after) && SameForOthers(after, rows, last.employeeId)
            && History(after, last.employeeId) == Undone(History(rows, last.employeeId))
            && IdsFrom(after, rows)
  {
    hide UndoneRows, Contiguous, Undone;
    var after := UndoneRows(rows, last.id, previous);
    forall e ensures History(after, e) == if e == last.employeeId then Undone(History(rows, e)) else History(rows, e) {
      if e == last.employeeId {
        UndoOwnHistory(rows, last, previous);
      } else {
        UndoOtherHistory(rows, last, previous, e);
      }
    }
    UndoneContiguous(History(rows, last.employeeId));
    UndoIds(rows, last.id, previous);
  }

  lemma EarlierLatest(h: seq<Row>, from: int)
    requires Contiguous(h) && (h == [] || h[|h| - 1].from < from)
    ensures StartsAfter(h, from)
  {
    forall k | 0 <= k < |h| ensures h[k].from < from {
      LastIsGreatest(h, k);
    }
  }

  datatype Placement = AlreadyOn | Kept | Added

  /** Where the setup puts someone whose newest assignment was this one when it read them. */
  function PlacementOf(newest: Option<Row>, scheduleId: int, from: int): Placement {
    if newest.Some? && newest.value.scheduleId == scheduleId then AlreadyOn
    else if newest.Some? && newest.value.from >= from then Kept
    else Added
  }

  /** The employees the setup reports as on the schedule, in order. */
  function OnSchedule(employees: seq<int>, rows: seq<Row>, scheduleId: int, from: int): seq<int> {
    if employees == [] then []
    else
      var before := OnSchedule(employees[..|employees| - 1], rows, scheduleId, from);
      var e := employees[|employees| - 1];
      if PlacementOf(NewestOf(History(rows, e)), scheduleId, from) == Kept then before else before + [e]
  }

  function AddedCount(employees: seq<int>, rows: seq<Row>, scheduleId: int, from: int): nat {
    if employees == [] then 0
    else
      var e := employees[|employees| - 1];
      AddedCount(employees[..|employees| - 1], rows, scheduleId, from)
      + if PlacementOf(NewestOf(History(rows, e)), scheduleId, from) == Added then 1 else 0
  }

  lemma NobodySetUp(meanwhile: seq<seq<Row>>, rows: seq<Row>, scheduleId: int, from: int)
    ensures Counted([], 0, 0, [], rows, scheduleId, from)
    ensures AllPlaced([], meanwhile, rows, [], scheduleId, from)
  {
  }

  /** Where the setup stands once it is through with these employees. */
  predicate Counted(onSchedule: seq<int>, added: int, kept: int, done: seq<int>, read: seq<Row>, scheduleId: int,
                    from: int) {
    && onSchedule == OnSchedule(done, read, scheduleId, from) && added == AddedCount(done, read, scheduleId, from)
    && |onSchedule| + kept == |done|
  }

  lemma CountedTells(onSchedule: seq<int>, added: int, kept: int, done: seq<int>, read: seq<Row>, scheduleId: int,
                     from: int)
    requires Counted(onSchedule, added, kept, done, read, scheduleId, from)
    ensures onSchedule == OnSchedule(done, read, scheduleId, from) && added == AddedCount(done, read, scheduleId, from)
    ensures |onSchedule| + kept == |done|
  {
  }

  lemma OneMoreCounted(onSchedule: seq<int>, added: int, kept: int, employees: seq<int>, i: nat, read: seq<Row>,
                       scheduleId: int, from: int)
    requires i < |employees| && Counted(onSchedule, added, kept, employees[..i], read, scheduleId, from)
    ensures var p, next := PlacementOf(NewestOf(History(read, employees[i])), scheduleId, from), employees[..i + 1];
            && (p == Kept ==> Counted(onSchedule, added, kept + 1, next, read, scheduleId, from))
            && (p == AlreadyOn ==> Counted(onSchedule + [employees[i]], added, kept, next, read, scheduleId, from))
            && (p == Added ==> Counted(onSchedule + [employees[i]], added + 1, kept, next, read, scheduleId, from))
  {
    assert employees[..i + 1][..i] == employees[..i];
    hide History, NewestOf;
    assert onSchedule + [] == onSchedule;
  }

  /** What the setup leaves of a history it found as `read` and wrote as `before`. */
  ghost predicate SetUp(after: seq<Row>, before: seq<Row>, read: seq<Row>, employeeId: int, scheduleId: int,
                        from: int) {
    if PlacementOf(NewestOf(read), scheduleId, from) != Added then after == before
    else exists id :: after == Assigned(before, Row(id, employeeId, scheduleId, from, None))
  }

  /** The schedule someone is on last is that one, or starts on or after the date with another. */
  predicate EndsOn(h: seq<Row>, scheduleId: int) {
    h != [] && h[|h| - 1].scheduleId == scheduleId
  }

  predicate ChosenLater(h: seq<Row>, scheduleId: int, from: int) {
    h != [] && h[|h| - 1].scheduleId != scheduleId && from <= h[|h| - 1].from
  }

  lemma PlacementSpelled(h: seq<Row>, scheduleId: int, from: int)
    requires Contiguous(h)
    ensures PlacementOf(NewestOf(h), scheduleId, from)
         == if EndsOn(h, scheduleId) then AlreadyOn else if ChosenLater(h, scheduleId, from) then Kept else Added
  {
    NewestIsLatest(h);
    hide Contiguous, NewestOf;
  }

  /**
   The setup leaves alone who is on the schedule already or chose another from the date on, and puts
   everyone else on it from that date, every day before it as it was.
   */
  lemma SetUpSpelled(after: seq<Row>, before: seq<Row>, read: seq<Row>, e: int, scheduleId: int, from: int, day: int)
    requires Contiguous(read) && SetUp(after, before, read, e, scheduleId, from)
    ensures EndsOn(read, scheduleId) || ChosenLater(read, scheduleId, from) ==> after == before
    ensures !EndsOn(read, scheduleId) && !ChosenLater(read, scheduleId, from) ==>
              InForce(after, day) == if day < from then InForce(before, day) else Some(scheduleId)
  {
    PlacementSpelled(read, scheduleId, from);
    hide Contiguous, NewestOf, InForce, Assigned;
    if !EndsOn(read, scheduleId) && !ChosenLater(read, scheduleId, from) {
      var id :| after == Assigned(before, Row(id, e, scheduleId, from, None));
      AssignKeepsThePast(before, Row(id, e, scheduleId, from, None), day);
    }
  }

  /** Whom the setup lists. */
  lemma {:induction false} ListedSpelled(employees: seq<int>, rows: seq<Row>, scheduleId: int, from: int, e: int)
    requires Contiguous(History(rows, e))
    ensures e in OnSchedule(employees, rows, scheduleId, from) <==>
            e in employees && !ChosenLater(History(rows, e), scheduleId, from)
  {
    hide Contiguous, History, NewestOf, EndsOn, ChosenLater, PlacementOf;
    if employees != [] {
      var n := |employees| - 1;
      ListedSpelled(employees[..n], rows, scheduleId, from, e);
      PlacementSpelled(History(rows, e), scheduleId, from);
      EitherPlacement(History(rows, e), scheduleId, from);
      assert employees == employees[..n] + [employees[n]];
    }
  }

  lemma EitherPlacement(h: seq<Row>, scheduleId: int, from: int)
    ensures !(EndsOn(h, scheduleId) && ChosenLater(h, scheduleId, from))
  {
  }

  /** How many it adds. */
  lemma {:induction false} AddedSpelled(employees: seq<int>, rows: seq<Row>, scheduleId: int, from: int)
    requires forall e :: e in employees ==> Contiguous(History(rows, e))
    ensures AddedCount(employees, rows, scheduleId, from) == |Additions(employees, rows, scheduleId, from)|
  {
    hide Contiguous, History, NewestOf, EndsOn, ChosenLater, PlacementOf;
    if employees == [] {
      assert Additions(employees, rows, scheduleId, from) == {};
    } else {
      var n := |employees| - 1;
      assert employees == employees[..n] + [employees[n]];
      AddedSpelled(employees[..n], rows, scheduleId, from);
      PlacementSpelled(History(rows, employees[n]), scheduleId, from);
      assert Additions(employees, rows, scheduleId, from)
          == Additions(employees[..n], rows, scheduleId, from)
             + if IsAdded(History(rows, employees[n]), scheduleId, from) then {n} else {};
    }
  }

  predicate IsAdded(h: seq<Row>, scheduleId: int, from: int) {
    !EndsOn(h, scheduleId) && !ChosenLater(h, scheduleId, from)
  }

  function Additions(employees: seq<int>, rows: seq<Row>, scheduleId: int, from: int): set<nat> {
    set i | 0 <= i < |employees| && IsAdded(History(rows, employees[i]), scheduleId, from)
  }

  predicate IdsBelow(rows: seq<Row>, id: nat) {
    forall r :: r in rows ==> r.id < id
  }

  /** Rows are only closed, reopened, added and deleted: what identifies one never changes. */
  predicate KeepsRows(before: seq<Row>, after: seq<Row>) {
    forall p, q :: p in before && q in after && p.id == q.id ==> p.employeeId == q.employeeId && p.from == q.from
  }

  predicate HasId(rows: seq<Row>, id: nat) {
    exists r :: r in rows && r.id == id
  }

  ghost predicate SetFor(rows: seq<Row>, meanwhile: seq<Row>, read: seq<Row>, e: int, scheduleId: int, from: int) {
    SetUp(History(rows, e), History(meanwhile, e), History(read, e), e, scheduleId, from)
  }

  /** Those employees are set up, and nobody else is touched. */
  ghost predicate SetSoFar(rows: seq<Row>, meanwhile: seq<Row>, read: seq<Row>, people: set<int>, scheduleId: int,
                           from: int) {
    forall e :: if e in people then SetFor(rows, meanwhile, read, e, scheduleId, from)
                else History(rows, e) == History(meanwhile, e)
  }

  lemma SetForSame(before: seq<Row>, after: seq<Row>, meanwhile: seq<Row>, read: seq<Row>, e: int, scheduleId: int,
                   from: int)
    requires SetFor(before, meanwhile, read, e, scheduleId, from) && History(after, e) == History(before, e)
    ensures SetFor(after, meanwhile, read, e, scheduleId, from)
  {
  }

  lemma SetOne(before: seq<Row>, after: seq<Row>, meanwhile: seq<Row>, read: seq<Row>, e: int, scheduleId: int,
               from: int)
    requires History(before, e) == History(meanwhile, e)
    requires SetUp(History(after, e), History(before, e), History(read, e), e, scheduleId, from)
    ensures SetFor(after, meanwhile, read, e, scheduleId, from)
  {
    hide SetUp, History;
  }

  lemma SetNext(before: seq<Row>, after: seq<Row>, meanwhile: seq<Row>, read: seq<Row>, people: set<int>, e: int,
                scheduleId: int, from: int)
    requires e !in people && SetSoFar(before, meanwhile, read, people, scheduleId, from)
    requires SameForOthers(after, before, e)
    requires SetUp(History(after, e), History(before, e), History(read, e), e, scheduleId, from)
    ensures SetSoFar(after, meanwhile, read, people + {e}, scheduleId, from)
  {
    hide SetUp, History, SetFor;
    SetOne(before, after, meanwhile, read, e, scheduleId, from);
    forall d ensures if d in people + {e} then SetFor(after, meanwhile, read, d, scheduleId, from)
                     else History(after, d) == History(meanwhile, d) {
      if d != e && d in people {
        SetForSame(before, after, meanwhile, read, d, scheduleId, from);
      }
    }
  }

  predicate AllDifferent(employees: seq<int>) {
    forall i, j :: 0 <= i < j < |employees| ==> employees[i] != employees[j]
  }

  lemma NotBefore(employees: seq<int>, i: nat)
    requires AllDifferent(employees) && i < |employees|
    ensures employees[i] !in Those(employees[..i])
            && Those(employees[..i + 1]) == Those(employees[..i]) + {employees[i]}
  {
    assert employees[..i + 1] == employees[..i] + [employees[i]];
  }

  function Those(employees: seq<int>): set<int> {
    set e | e in employees
  }

  /**
   One employee placed: their history set up, nobody else's touched, and sound if nobody wrote it
   since it was read.
   */
  ghost predicate PlacedOne(after: seq<Row>, before: seq<Row>, read: seq<Row>, e: int, scheduleId: int, from: int) {
    && SetUp(History(after, e), History(before, e), History(read, e), e, scheduleId, from)
    && SameForOthers(after, before, e)
    && (Sound(before) && History(read, e) == History(before, e) ==> Sound(after))
  }

  /** `meanwhile[i]` is the table as employee `i` was about to be placed, and `tables[i]` as it was left then. */
  ghost predicate AllPlaced(tables: seq<seq<Row>>, meanwhile: seq<seq<Row>>, read: seq<Row>, employees: seq<int>,
                            scheduleId: int, from: int) {
    && |tables| == |employees| <= |meanwhile|
    && forall i :: 0 <= i < |employees| ==> PlacedOne(tables[i], meanwhile[i], read, employees[i], scheduleId, from)
  }

  /** No other call wrote between two of the placements. */
  predicate Unbroken(tables: seq<seq<Row>>, meanwhile: seq<seq<Row>>, read: seq<Row>) {
    |tables| <= |meanwhile| && forall i :: 0 <= i < |tables| ==> meanwhile[i] == if i == 0 then read else tables[i - 1]
  }

  function LastTable(tables: seq<seq<Row>>, read: seq<Row>): seq<Row> {
    if tables == [] then read else tables[|tables| - 1]
  }

  /** Alone, the setup sets up everyone listed, touches nobody else and leaves histories contiguous. */
  lemma {:induction false} SetupAlone(tables: seq<seq<Row>>, meanwhile: seq<seq<Row>>, read: seq<Row>,
                                      employees: seq<int>, scheduleId: int, from: int)
    requires AllPlaced(tables, meanwhile, read, employees, scheduleId, from)
    requires Unbroken(tables, meanwhile, read) && AllDifferent(employees)
    ensures SetSoFar(LastTable(tables, read), read, read, Those(employees), scheduleId, from)
    ensures Sound(read) ==> Sound(LastTable(tables, read))
    decreases |tables|
  {
    if tables == [] {
      assert Those(employees) == {};
    } else {
      var n := |tables| - 1;
      LastPlaced(tables, meanwhile, read, employees, scheduleId, from);
      NotBefore(employees, n);
      assert employees[..n + 1] == employees;
      hide AllPlaced, PlacedOne, SetSoFar, Sound, Unbroken, AllDifferent, Those, LastTable;
      SetupAlone(tables[..n], meanwhile, read, employees[..n], scheduleId, from);
      PlacedNext(tables[n], LastTable(tables[..n], read), read, Those(employees[..n]), employees[n], scheduleId, from);
    }
  }

  /** The last placement of an unbroken setup, and what is left of it before. */
  lemma LastPlaced(tables: seq<seq<Row>>, meanwhile: seq<seq<Row>>, read: seq<Row>, employees: seq<int>,
                   scheduleId: int, from: int)
    requires AllPlaced(tables, meanwhile, read, employees, scheduleId, from) && tables != []
    requires Unbroken(tables, meanwhile, read) && AllDifferent(employees)
    ensures var n := |tables| - 1;
            && AllPlaced(tables[..n], meanwhile, read, employees[..n], scheduleId, from)
            && Unbroken(tables[..n], meanwhile, read) && AllDifferent(employees[..n])
            && PlacedOne(tables[n], LastTable(tables[..n], read), read, employees[n], scheduleId, from)
            && LastTable(tables, read) == tables[n]
  {
    hide PlacedOne;
    var n := |tables| - 1;
    assert meanwhile[n] == LastTable(tables[..n], read);
    forall i | 0 <= i < n ensures PlacedOne(tables[..n][i], meanwhile[i], read, employees[..n][i], scheduleId, from) {
      assert PlacedOne(tables[i], meanwhile[i], read, employees[i], scheduleId, from);
    }
  }

  lemma OneMorePlaced(tables: seq<seq<Row>>, t: seq<Row>, meanwhile: seq<seq<Row>>, read: seq<Row>, employees: seq<int>,
                      i: nat, scheduleId: int, from: int)
    requires i < |employees| && AllPlaced(tables, meanwhile, read, employees[..i], scheduleId, from)
    requires i < |meanwhile| && PlacedOne(t, meanwhile[i], read, employees[i], scheduleId, from)
    ensures AllPlaced(tables + [t], meanwhile, read, employees[..i + 1], scheduleId, from)
  {
    hide PlacedOne;
    forall j | 0 <= j < i + 1
      ensures PlacedOne((tables + [t])[j], meanwhile[j], read, employees[..i + 1][j], scheduleId, from)
    {
      if j < i {
        assert PlacedOne(tables[j], meanwhile[j], read, employees[..i][j], scheduleId, from);
      }
    }
  }

  lemma PlacedNext(after: seq<Row>, before: seq<Row>, read: seq<Row>, people: set<int>, e: int, scheduleId: int,
                   from: int)
    requires PlacedOne(after, before, read, e, scheduleId, from)
    requires e !in people && SetSoFar(before, read, read, people, scheduleId, from)
    ensures SetSoFar(after, read, read, people + {e}, scheduleId, from) && (Sound(before) ==> Sound(after))
  {
    hide SetUp, History, SetFor, Sound, SameForOthers;
    SetNext(before, after, read, read, people, e, scheduleId, from);
  }

  /**
   `meanwhile` holds the rows as other calls have left them when a call that read the table writes
   it. Alone, a call finds what it read.
   */
  class WorkSchedulesService {
    var rows: seq<Row>
    var companyShift: Option<WorkDay.ShiftTemplate>

    constructor ()
      ensures rows == [] && companyShift == None
    {
      rows, companyShift := [], None;
    }

    method Assign(id: nat, employeeId: int, employeeExists: bool, scheduleId: int, scheduleExists: bool, from: int,
                  meanwhile: seq<Row>)
      returns (o: Outcome)
      requires IdsBelow(meanwhile, id)
      modifies this`rows
      ensures !(employeeExists && scheduleExists) ==> o == Refused(NotFound)
      ensures employeeExists && scheduleExists ==>
                o == if StartsAfter(History(old(rows), employeeId), from) then Done else Refused(DateConflict)
      ensures o.Refused? ==> rows == old(rows)
      ensures o.Done? ==>
                var r := Row(id, employeeId, scheduleId, from, None);
                && rows == AssignedRows(meanwhile, r)
                && History(rows, employeeId) == Assigned(History(meanwhile, employeeId), r)
                && SameForOthers(rows, meanwhile, employeeId)
                && (Sound(meanwhile) ==> (Sound(rows) <==> StartsAfter(History(meanwhile, employeeId), from)))
                && (meanwhile == old(rows) && Sound(meanwhile) ==> Sound(rows))
    {
      if !employeeExists || !scheduleExists {
        return Refused(NotFound);
      }
      AnyFromHistory(rows, employeeId, from);
      if AnyFrom(rows, employeeId, from) {
        return Refused(DateConflict);
      }
      hide Sound, History, Assigned, StartsAfter, AssignedRows, SameForOthers;
      rows := meanwhile;
      CreateAssignment(id, employeeId, scheduleId, from);
      o := Done;
    }

    /** One transaction. */
    method CreateAssignment(id: nat, employeeId: int, scheduleId: int, from: int)
      requires IdsBelow(rows, id)
      modifies this`rows
      ensures IdsBelow(rows, id + 1)
      ensures var r := Row(id, employeeId, scheduleId, from, None);
              && rows == AssignedRows(old(rows), r)
              && History(rows, employeeId) == Assigned(History(old(rows), employeeId), r)
              && SameForOthers(rows, old(rows), employeeId)
      ensures Sound(old(rows)) ==> (Sound(rows) <==> StartsAfter(History(old(rows), employeeId), from))
    {
      var row := Row(id, employeeId, scheduleId, from, None);
      AssignedHistories(rows, row);
      if Sound(rows) {
        AssignSound(rows, row);
      }
      var closed := CloseRows(rows, employeeId, from);
      assert forall i :: 0 <= i < |rows| ==> closed[i].id == rows[i].id && rows[i] in rows;
      hide Sound, History, Assigned, StartsAfter, SameForOthers;
      rows := closed + [row];
    }

    /** The employee's row that starts latest before `from`. */
    method FindPrevious(table: seq<Row>, employeeId: int, from: int) returns (previous: Option<Row>)
      ensures IsPrevious(table, employeeId, from, previous)
    {
      previous := None;
      for i := 0 to |table|
        invariant IsPrevious(table[..i], employeeId, from, previous)
      {
        var r := table[i];
        assert table[..i + 1] == table[..i] + [r];
        if r.employeeId == employeeId && r.from < from && (previous.None? || r.from > previous.value.from) {
          previous := Some(r);
        }
      }
      assert table[..|table|] == table;
    }

    method Unassign(id: nat, today: int, meanwhile: seq<Row>) returns (o: Outcome)
      requires DistinctIds(rows) && DistinctIds(meanwhile) && KeepsRows(rows, meanwhile)
      modifies this`rows
      ensures o == Refused(NotFound) <==> !HasId(old(rows), id)
      ensures forall last :: last in old(rows) && last.id == id ==>
                               var latest := StartsAfter(History(old(rows), last.employeeId), last.from + 1);
                               o == (if !latest then Refused(NotLatest)
                                     else if last.from < today - MAX_RETROACTIVE_DAYS then Refused(TooOld)
                                     else if !HasId(meanwhile, id) then Refused(Gone)
                                     else Done)
      ensures o.Refused? ==> rows == if o.error == Gone then meanwhile else old(rows)
      ensures o.Done? ==>
                exists last, previous :: last in meanwhile && last.id == id
                                         && IsPrevious(DeleteRow(meanwhile, id), last.employeeId, last.from, previous)
                                         && rows == UndoneRows(meanwhile, id, previous)
      ensures o.Done? && Sound(meanwhile) ==>
                forall last :: last in meanwhile && last.id == id ==>
                                 LatestOf(History(meanwhile, last.employeeId)) == Some(last) ==>
                                   && Sound(rows) && SameForOthers(rows, meanwhile, last.employeeId)
                                   && History(rows, last.employeeId) == Undone(History(meanwhile, last.employeeId))
    {
      var index := Find(id);
      if index == None {
        return Refused(NotFound);
      }
      var assignment := rows[index.value];
      assert forall r :: r in rows && r.id == id ==> r == assignment;
      hide Sound, History, Undone, StartsAfter, IsPrevious, UndoneRows, SameForOthers, LatestOf, DistinctIds;
      AnyFromHistory(rows, assignment.employeeId, assignment.from + 1);
      if AnyFrom(rows, assignment.employeeId, assignment.from + 1) {
        return Refused(NotLatest);
      }
      if assignment.from < today - MAX_RETROACTIVE_DAYS {
        return Refused(TooOld);
      }
      rows := meanwhile;
      o := RemoveIfThere(assignment);
    }

    method Find(id: nat) returns (index: Option<nat>)
      ensures index == None <==> !HasId(rows, id)
      ensures index.Some? ==> index.value < |rows| && rows[index.value].id == id
    {
      index := None;
      for i := 0 to |rows|
        invariant forall j :: 0 <= j < i ==> rows[j].id != id
      {
        if rows[i].id == id {
          return Some(i);
        }
      }
    }

    /** The delete fails when another call has deleted the row already. */
    method RemoveIfThere(assignment: Row) returns (o: Outcome)
      requires DistinctIds(rows) && forall q :: q in rows && q.id == assignment.id ==>
                                                  q.employeeId == assignment.employeeId && q.from == assignment.from
      modifies this`rows
      ensures o == if HasId(old(rows), assignment.id) then Done else Refused(Gone)
      ensures o.Refused? ==> rows == old(rows)
      ensures o.Done? ==>
                exists last, previous ::
                  && last in old(rows) && last.id == assignment.id
                  && IsPrevious(DeleteRow(old(rows), assignment.id), last.employeeId, last.from, previous)
                  && rows == UndoneRows(old(rows), assignment.id, previous)
      ensures o.Done? && Sound(old(rows)) ==>
                forall last :: last in old(rows) && last.id == assignment.id ==>
                                 LatestOf(History(old(rows), last.employeeId)) == Some(last) ==>
                                   && Sound(rows) && SameForOthers(rows, old(rows), last.employeeId)
                                   && History(rows, last.employeeId) == Undone(History(old(rows), last.employeeId))
    {
      var index := Find(assignment.id);
      if index == None {
        return Refused(Gone);
      }
      ghost var last := rows[index.value];
      assert forall r :: r in rows && r.id == assignment.id ==> r == last;
      hide Sound, History, Undone, StartsAfter, IsPrevious, UndoneRows, SameForOthers, LatestOf, DistinctIds;
      Remove(assignment.id, assignment.employeeId, assignment.from, last);
      o := Done;
    }

    /** The transaction of `Unassign`. */
    method Remove(id: nat, employeeId: int, from: int, ghost last: Row)
      requires last in rows && last.id == id && last.employeeId == employeeId && last.from == from
      modifies this`rows
      ensures exists previous ::
                && IsPrevious(DeleteRow(old(rows), id), employeeId, from, previous)
                && rows == UndoneRows(old(rows), id, previous)
      ensures Sound(old(rows)) && LatestOf(History(old(rows), employeeId)) == Some(last) ==>
                && Sound(rows) && SameForOthers(rows, old(rows), employeeId)
                && History(rows, employeeId) == Undone(History(old(rows), employeeId))
    {
      hide Sound, SameForOthers, History, Undone, IsPrevious;
      var left := DeleteRow(rows, id);
      var previous := FindPrevious(left, employeeId, from);
      if Sound(rows) && LatestOf(History(rows, employeeId)) == Some(last) {
        PreviousIsLatestLeft(rows, last, previous);
        UndoSound(rows, last, previous);
      }
      if previous.Some? {
        rows := Reopen(left, previous.value.id);
      } else {
        rows := left;
      }
    }

    /**
     Puts every listed employee on the company's schedule from a date, after writing its shift. Those
     already on it, and those with another schedule starting on or after that date, keep theirs.
     Who is which is read once, before the first assignment is written; each assignment then writes
     into what other calls have left by its turn.
     */
    method SetupWorkday(employees: seq<int>, scheduleId: int, dailyMinutes: nat, lunchMinutes: nat, from: int,
                        today: int, nextId: nat,
                        meanwhile: seq<seq<Row>>)
      returns (o: Outcome, added: nat, kept: nat, onSchedule: seq<int>, ghost tables: seq<seq<Row>>)
      requires |meanwhile| == |employees| && forall i :: 0 <= i < |meanwhile| ==> IdsBelow(meanwhile[i], nextId + i)
      modifies this
      ensures o == if from < today - MAX_RETROACTIVE_DAYS then Refused(TooOld) else Done
      ensures o.Refused? ==> rows == old(rows) && companyShift == old(companyShift)
      ensures o.Done? ==> companyShift == Some(ReferenceDay(dailyMinutes, lunchMinutes))
      ensures o.Done? ==>
                onSchedule == OnSchedule(employees, old(rows), scheduleId, from) && |onSchedule| + kept == |employees|
      ensures o.Done? ==> added == AddedCount(employees, old(rows), scheduleId, from)
      ensures o.Done? ==>
                && AllPlaced(tables, meanwhile, old(rows), employees, scheduleId, from)
                && rows == LastTable(tables, old(rows))
    {
      added, kept, onSchedule, tables := 0, 0, [], [];
      if from < today - MAX_RETROACTIVE_DAYS {
        return Refused(TooOld), 0, 0, [], [];
      }
      companyShift := Some(ReferenceDay(dailyMinutes, lunchMinutes));
      var read := rows;
      hide AllPlaced, PlacedOne, History, NewestOf, OnSchedule, AddedCount, PlacementOf, IdsBelow, Counted;
      NobodySetUp(meanwhile, read, scheduleId, from);
      assert employees[..0] == [];
      for i := 0 to |employees|
        invariant companyShift == Some(ReferenceDay(dailyMinutes, lunchMinutes))
        invariant Counted(onSchedule, added, kept, employees[..i], read, scheduleId, from)
        invariant AllPlaced(tables, meanwhile, read, employees[..i], scheduleId, from)
                  && rows == LastTable(tables, read)
      {
        var e := employees[i];
        OneMoreCounted(onSchedule, added, kept, employees, i, read, scheduleId, from);
        rows := meanwhile[i];
        var placement := PlaceOn(nextId + i, e, NewestOf(History(read, e)), scheduleId, from, read);
        OneMorePlaced(tables, rows, meanwhile, read, employees, i, scheduleId, from);
        tables := tables + [rows];
        match placement
        case AlreadyOn => onSchedule := onSchedule + [e];
        case Kept => kept := kept + 1;
        case Added =>
          onSchedule := onSchedule + [e];
          added := added + 1;
      }
      assert employees[..|employees|] == employees;
      assert Counted(onSchedule, added, kept, employees, read, scheduleId, from);
      CountedTells(onSchedule, added, kept, employees, read, scheduleId, from);
      o := Done;
    }

    /** One employee of the setup, whose newest assignment was read before. */
    method PlaceOn(id: nat, e: int, newest: Option<Row>, scheduleId: int, from: int,
                   ghost read: seq<Row>) returns (p: Placement)
      requires IdsBelow(rows, id) && newest == NewestOf(History(read, e))
      modifies this`rows
      ensures p == PlacementOf(newest, scheduleId, from)
      ensures PlacedOne(rows, old(rows), read, e, scheduleId, from)
    {
      hide History, Assigned, Contiguous, NewestOf, StartsAfter;
      p := PlacementOf(newest, scheduleId, from);
      if p == Added {
        if Sound(rows) && History(read, e) == History(rows, e) {
          NewestIsLatest(History(rows, e));
          EarlierLatest(History(rows, e), from);
        }
        CreateAssignment(id, e, scheduleId, from);
      }
    }
  }

  /** A row with no later one of its employee is the last of its history. */
  lemma IsLatest(rows: seq<Row>, r: Row)
    requires Sound(rows) && r in rows
    ensures LatestOf(History(rows, r.employeeId)) == Some(r) <==> StartsAfter(History(rows, r.employeeId), r.from + 1)
  {
    HistoryMember(rows, r.employeeId);
    LatestStartsLast(History(rows, r.employeeId), r);
  }

  lemma LatestStartsLast(h: seq<Row>, r: Row)
    requires Contiguous(h) && r in h
    ensures LatestOf(h) == Some(r) <==> StartsAfter(h, r.from + 1)
  {
    var i :| 0 <= i < |h| && h[i] == r;
    LastIsGreatest(h, i);
    if LatestOf(h) == Some(r) {
      forall k | 0 <= k < |h| ensures h[k].from < r.from + 1 {
        LastIsGreatest(h, k);
      }
    }
  }

  /** What a call's read lets through of a contiguous history: undoing its latest row, or assigning after it. */
  lemma PassesExactly(h: seq<Row>, r: Row)
    requires Contiguous(h)
    ensures Passes(h, Undoing(r)) <==> LatestOf(h) == Some(r)
    ensures Passes(h, Assigning(r)) <==> r.to == None && (LatestOf(h).Some? ==> LatestOf(h).value.from < r.from)
  {
    if h != [] {
      LatestStartsLast(h, h[|h| - 1]);
    }
    if r in h {
      LatestStartsLast(h, r);
    }
    hide Contiguous;
  }

  lemma PreviousIsLatestLeft(rows: seq<Row>, last: Row, previous: Option<Row>)
    requires Sound(rows) && last in rows && LatestOf(History(rows, last.employeeId)) == Some(last)
    requires IsPrevious(DeleteRow(rows, last.id), last.employeeId, last.from, previous)
    ensures LatestTwo(rows, last, previous)
  {
    hide History, Sound, DeleteRow, Contiguous, LatestOf;
    var h := History(rows, last.employeeId);
    SoundLatest(rows, last);
    LeftMembers(rows, last);
    GreatestBefore(h, previous);
    hide IsPrevious;
  }

  lemma SoundLatest(rows: seq<Row>, last: Row)
    requires Sound(rows) && LatestOf(History(rows, last.employeeId)) == Some(last)
    ensures Contiguous(History(rows, last.employeeId)) && History(rows, last.employeeId) != []
    ensures History(rows, last.employeeId)[|History(rows, last.employeeId)| - 1] == last
  {
  }

  /** What deleting the latest row leaves of the employee is the history before it. */
  lemma LeftMembers(rows: seq<Row>, last: Row)
    requires Sound(rows) && last in rows && LatestOf(History(rows, last.employeeId)) == Some(last)
    ensures var h := History(rows, last.employeeId);
            forall r :: r in h[..|h| - 1] <==> r in DeleteRow(rows, last.id) && r.employeeId == last.employeeId
  {
    hide History, DeleteRow, DistinctIds, Contiguous, LatestOf;
    var e := last.employeeId;
    SoundLatest(rows, last);
    HistoryDelete(rows, last.id, e);
    HistoryDistinct(rows, e);
    DeleteLast(History(rows, e));
    HistoryMember(DeleteRow(rows, last.id), e);
  }

  /** The row of a history that starts latest before its last one is the one before it. */
  lemma GreatestBefore(h: seq<Row>, previous: Option<Row>)
    requires Contiguous(h) && h != []
    requires var g := h[..|h| - 1];
             && (previous.None? ==> forall r :: r in g ==> r.from >= h[|h| - 1].from)
             && (previous.Some? ==> previous.value in g && forall r :: r in g && r.from < h[|h| - 1].from ==>
                                                                         r.from <= previous.value.from)
    ensures previous == LatestOf(h[..|h| - 1])
  {
    var g := h[..|h| - 1];
    if g != [] {
      IncreasingFrom(h, |g| - 1, |g|);
      assert g[|g| - 1] in g;
      var i :| 0 <= i < |g| && g[i] == previous.value;
      IncreasingFrom(h, i, |g| - 1);
    }
  }
}
