/**
 Leave requests of all employees and their approval workflow. A call reads the table and writes it
 later: what other calls write in between decides whether requests stay disjoint.
 */
module LeaveRequests {
  import opened Wrappers

  datatype Status = PENDING | APPROVED | REJECTED | CANCELLED

  datatype LeaveRequest = LeaveRequest(
    employeeId: int,
    vacation: bool,
    startsAt: int,
    endsAt: int,
    status: Status,
    requestedBy: int
  )

  /** `unrestricted` is the scope of HR; an account need not belong to an employee (-1). */
  datatype Actor = Actor(id: int, employeeId: int, unrestricted: bool)

  datatype LeaveError =
    | EndsBeforeStart | TooLong | Overlap | NotAffordable
    | NotFound | AlreadyDecided(status: Status) | SelfReview | CancelForbidden

  datatype Result = Ok(id: nat) | Err(error: LeaveError)

  type Table = map<nat, LeaveRequest>

  const MAX_LEAVE_MS := 90 * 86_400_000

  // ---------------------------------------------------------------- the table

  predicate Active(r: LeaveRequest) {
    r.status == PENDING || r.status == APPROVED
  }

  predicate Overlaps(r: LeaveRequest, startsAt: int, endsAt: int) {
    r.startsAt < endsAt && r.endsAt > startsAt
  }

  /** Pending and approved requests of one employee never share an instant. */
  ghost predicate Disjoint(t: Table) {
    && (forall i :: i in t ==> t[i].startsAt < t[i].endsAt)
    && (forall i, j :: i in t && j in t && i != j && Clashing(t[i], t[j]) ==>
                         !Overlaps(t[i], t[j].startsAt, t[j].endsAt))
  }

  predicate Clashing(a: LeaveRequest, b: LeaveRequest) {
    Active(a) && Active(b) && a.employeeId == b.employeeId
  }

  /** The overlap query of `create`. */
  ghost predicate Taken(t: Table, employeeId: int, startsAt: int, endsAt: int) {
    exists i :: i in t && t[i].employeeId == employeeId && Active(t[i]) && Overlaps(t[i], startsAt, endsAt)
  }

  /** Pending and approved requests count, and no others; two overlap exactly when they share an instant. */
  lemma ActiveSpelled(r: LeaveRequest)
    ensures Active(r) <==> r.status == PENDING || r.status == APPROVED
  {
  }

  predicate OffAt(startsAt: int, endsAt: int, t: int) {
    startsAt <= t < endsAt
  }

  lemma OverlapsExactly(r: LeaveRequest, startsAt: int, endsAt: int)
    requires r.startsAt < r.endsAt && startsAt < endsAt
    ensures Overlaps(r, startsAt, endsAt) <==> exists t :: OffAt(r.startsAt, r.endsAt, t) && OffAt(startsAt, endsAt, t)
  {
    var t := if r.startsAt < startsAt then startsAt else r.startsAt;
    if Overlaps(r, startsAt, endsAt) {
      assert OffAt(r.startsAt, r.endsAt, t) && OffAt(startsAt, endsAt, t);
    }
  }

  // ---------------------------------------------------------------- what one write keeps

  /** A write is an insert or a status change by id, whatever the call that makes it read before. */
  datatype Write = Insert(id: nat, request: LeaveRequest) | SetStatus(id: nat, status: Status)

  predicate CanWrite(t: Table, w: Write) {
    if w.Insert? then w.id !in t else w.id in t
  }

  function Written(t: Table, w: Write): Table
    requires CanWrite(t, w)
  {
    match w
    case Insert(id, r) => t[id := r]
    case SetStatus(id, status) => t[id := t[id].(status := status)]
  }

  /** The request a write puts into the table. */
  function Put(t: Table, w: Write): LeaveRequest
    requires CanWrite(t, w)
  {
    if w.Insert? then w.request else t[w.id].(status := w.status)
  }

  /** Nothing active of the employee shares an instant with what is written, which may be the row's own. */
  ghost predicate Harmless(t: Table, w: Write)
    requires CanWrite(t, w)
  {
    !Active(Put(t, w)) || (w.SetStatus? && Active(t[w.id]))
    || !Taken(t, Put(t, w).employeeId, Put(t, w).startsAt, Put(t, w).endsAt)
  }

  lemma HarmlessKeeps(t: Table, w: Write)
    requires Disjoint(t) && CanWrite(t, w) && Put(t, w).startsAt < Put(t, w).endsAt && Harmless(t, w)
    ensures Disjoint(Written(t, w))
  {
    var after, r := Written(t, w), Put(t, w);
    forall i, j | i in after && j in after && i != j && Clashing(after[i], after[j])
      ensures !Overlaps(after[i], after[j].startsAt, after[j].endsAt)
    {
      if i != w.id && j != w.id {
        assert Clashing(t[i], t[j]);
      } else if w.SetStatus? && Active(t[w.id]) {
        assert Clashing(t[i], t[j]);
      } else {
        var other := if i == w.id then j else i;
        assert other in t && !Overlaps(t[other], r.startsAt, r.endsAt);
      }
    }
  }

  lemma HarmfulBreaks(t: Table, w: Write)
    requires Disjoint(t) && CanWrite(t, w) && !Harmless(t, w)
    ensures !Disjoint(Written(t, w))
  {
    var after, r := Written(t, w), Put(t, w);
    var i :| i in t && t[i].employeeId == r.employeeId && Active(t[i]) && Overlaps(t[i], r.startsAt, r.endsAt);
    assert after[i] == t[i] && after[w.id] == r;
    assert Clashing(after[i], after[w.id]) && Overlaps(after[i], after[w.id].startsAt, after[w.id].endsAt);
  }

  /**
   A write keeps active requests disjoint if and only if it is harmless: an insert where nothing
   is taken, a status change that is no activation, or an activation where nothing is taken.
   */
  lemma WriteExactly(t: Table, w: Write)
    requires Disjoint(t) && CanWrite(t, w) && Put(t, w).startsAt < Put(t, w).endsAt
    ensures Disjoint(Written(t, w)) <==> Harmless(t, w)
  {
    if Harmless(t, w) {
      HarmlessKeeps(t, w);
    } else {
      HarmfulBreaks(t, w);
    }
  }

  // ---------------------------------------------------------------- the service

  /**
   `meanwhile` is the table as other calls have left it when a call that read the table writes it.
   Alone, a call finds what it read.
   */
  class LeaveRequestsService {
    var requests: Table

    constructor ()
      ensures requests == map[]
    {
      requests := map[];
    }

    method Create(id: nat, employeeId: int, vacation: bool, affordable: bool, startsAt: int, endsAt: int, actor: Actor,
                  meanwhile: Table)
      returns (r: Result)
      requires id !in meanwhile
      modifies this
      ensures r == Err(EndsBeforeStart) <==> endsAt <= startsAt
      ensures r == Err(TooLong) <==> startsAt + 90 * 86_400_000 < endsAt
      ensures r == Err(NotAffordable) <==>
              && startsAt < endsAt <= startsAt + MAX_LEAVE_MS && !Taken(old(requests), employeeId, startsAt, endsAt)
              && vacation && !affordable
      ensures r.Ok? <==>
              && startsAt < endsAt <= startsAt + MAX_LEAVE_MS
              && !Taken(old(requests), employeeId, startsAt, endsAt)
              && (vacation ==> affordable)
      ensures r == Err(Overlap)
         <==> startsAt < endsAt <= startsAt + MAX_LEAVE_MS && Taken(old(requests), employeeId, startsAt, endsAt)
      ensures r.Ok? ==>
                var w := Insert(id, LeaveRequest(employeeId, vacation, startsAt, endsAt, PENDING, actor.id));
                r.id == id && requests == Written(meanwhile, w)
                && (Disjoint(meanwhile) ==> (Disjoint(requests) <==> Harmless(meanwhile, w)))
                && (meanwhile == old(requests) && Disjoint(meanwhile) ==> Disjoint(requests))
      ensures r.Err? ==> requests == if r.error == NotAffordable then meanwhile else old(requests)
    {
      if endsAt <= startsAt {
        return Err(EndsBeforeStart);
      }
      if endsAt - startsAt > MAX_LEAVE_MS {
        return Err(TooLong);
      }
      var overlapping := set i | i in requests && requests[i].employeeId == employeeId && Active(requests[i])
                                 && Overlaps(requests[i], startsAt, endsAt);
      if overlapping != {} {
        var i :| i in overlapping;
        assert Taken(requests, employeeId, startsAt, endsAt);
        return Err(Overlap);
      }
      assert forall i :: i in requests && requests[i].employeeId == employeeId && Active(requests[i]) ==>
                           Overlaps(requests[i], startsAt, endsAt) ==> i in overlapping;
      requests := meanwhile;
      if vacation && !affordable {
        return Err(NotAffordable);
      }
      ghost var w := Insert(id, LeaveRequest(employeeId, vacation, startsAt, endsAt, PENDING, actor.id));
      if Disjoint(meanwhile) {
        WriteExactly(meanwhile, w);
      }
      requests := requests[id := LeaveRequest(employeeId, vacation, startsAt, endsAt, PENDING, actor.id)];
      r := Ok(id);
    }

    method Review(id: nat, approve: bool, affordable: bool, actor: Actor, meanwhile: Table) returns (r: Result)
      requires KeepsRows(requests, meanwhile)
      modifies this
      ensures r == Err(NotFound) <==> id !in old(requests)
      ensures id in old(requests) ==>
                var q := old(requests)[id];
                && (q.status != PENDING ==> r == Err(AlreadyDecided(q.status)))
                && (q.status == PENDING && q.employeeId == actor.employeeId ==> r == Err(SelfReview))
                && (q.status == PENDING && q.employeeId != actor.employeeId ==>
                      r == if approve && q.vacation && !affordable then Err(NotAffordable) else Ok(id))
      ensures r.Ok? ==>
                var w := SetStatus(id, if approve then APPROVED else REJECTED);
                id in meanwhile && requests == Written(meanwhile, w)
                && (Disjoint(meanwhile) ==> (Disjoint(requests) <==> Harmless(meanwhile, w)))
                && (meanwhile == old(requests) && Disjoint(meanwhile) ==> Disjoint(requests))
      ensures r.Err? ==> requests == if r.error == NotAffordable then meanwhile else old(requests)
    {
      if id !in requests {
        return Err(NotFound);
      }
      var request := requests[id];
      if request.status != PENDING {
        return Err(AlreadyDecided(request.status));
      }
      if request.employeeId == actor.employeeId {
        return Err(SelfReview);
      }
      requests := meanwhile;
      if approve && request.vacation && !affordable {
        return Err(NotAffordable);
      }
      var status := if approve then APPROVED else REJECTED;
      if Disjoint(meanwhile) {
        WriteExactly(meanwhile, SetStatus(id, status));
      }
      requests := requests[id := requests[id].(status := status)];
      r := Ok(id);
    }

    method Cancel(id: nat, actor: Actor, meanwhile: Table) returns (r: Result)
      requires KeepsRows(requests, meanwhile)
      modifies this
      ensures r.Ok? <==>
              && id in old(requests) && Active(old(requests)[id])
              && (old(requests)[id].requestedBy == actor.id || actor.unrestricted)
      ensures id !in old(requests) ==> r == Err(NotFound)
      ensures r.Ok? ==>
                && id in meanwhile && requests == Written(meanwhile, SetStatus(id, CANCELLED))
                && (Disjoint(meanwhile) ==> Disjoint(requests))
      ensures r.Err? ==> requests == old(requests)
    {
      if id !in requests {
        return Err(NotFound);
      }
      var request := requests[id];
      if request.status == CANCELLED || request.status == REJECTED {
        return Err(AlreadyDecided(request.status));
      }
      if request.requestedBy != actor.id && !actor.unrestricted {
        return Err(CancelForbidden);
      }
      requests := meanwhile;
      if Disjoint(meanwhile) {
        WriteExactly(meanwhile, SetStatus(id, CANCELLED));
      }
      requests := requests[id := requests[id].(status := CANCELLED)];
      r := Ok(id);
    }
  }

  /** Requests are never deleted, and only their status changes. */
  predicate KeepsRows(before: Table, after: Table) {
    forall i :: i in before ==> i in after && after[i].(status := before[i].status) == before[i]
  }

  // ---------------------------------------------------------------- calls in flight

  /** A call past its read. */
  datatype Call = Filing(request: LeaveRequest) | Reviewing(id: nat, approve: bool) | Cancelling(id: nat)

  /** `disturbed`: another call wrote this employee's requests since this one read them. */
  datatype Flight = Flight(call: Call, disturbed: bool)

  datatype World = World(requests: Table, flights: map<nat, Flight>)

  datatype Action =
    | Read(flight: nat, call: Call)
    | Finish(flight: nat, id: nat)  // the write; the id is the new row's
    | Drop(flight: nat)             // refused after its read, or failed

  const EMPTY := World(map[], map[])

  /** The checks a call makes when it reads. */
  ghost predicate Passes(t: Table, c: Call) {
    match c
    case Filing(r) => r.status == PENDING && r.startsAt < r.endsAt && !Taken(t, r.employeeId, r.startsAt, r.endsAt)
    case Reviewing(id, _) => id in t && t[id].status == PENDING
    case Cancelling(id) => id in t && Active(t[id])
  }

  function WriteOf(c: Call, id: nat): Write {
    match c
    case Filing(r) => Insert(id, r)
    case Reviewing(row, approve) => SetStatus(row, if approve then APPROVED else REJECTED)
    case Cancelling(row) => SetStatus(row, CANCELLED)
  }

  ghost predicate Enabled(w: World, a: Action) {
    match a
    case Read(f, c) => f !in w.flights && Passes(w.requests, c)
    case Finish(f, id) => f in w.flights && CanWrite(w.requests, WriteOf(w.flights[f].call, id))
    case Drop(f) => f in w.flights
  }

  predicate About(t: Table, c: Call, employeeId: int) {
    if c.Filing? then c.request.employeeId == employeeId else c.id in t && t[c.id].employeeId == employeeId
  }

  /** The flights left, the ones about the written employee disturbed. */
  function Disturbed(w: World, f: nat, employeeId: int): map<nat, Flight> {
    map g | g in w.flights && g != f ::
      w.flights[g].(disturbed := w.flights[g].disturbed || About(w.requests, w.flights[g].call, employeeId))
  }

  ghost function Apply(w: World, a: Action): World
    requires Enabled(w, a)
  {
    match a
    case Read(f, c) => w.(flights := w.flights[f := Flight(c, false)])
    case Finish(f, id) =>
      var write := WriteOf(w.flights[f].call, id);
      World(Written(w.requests, write), Disturbed(w, f, Put(w.requests, write).employeeId))
    case Drop(f) => w.(flights := w.flights - {f})
  }

  ghost predicate IsRun(worlds: seq<World>, actions: seq<Action>) {
    && |worlds| == |actions| + 1
    && worlds[0] == EMPTY
    && forall i :: 0 <= i < |actions| ==> StepsTo(worlds[i], actions[i], worlds[i + 1])
  }

  ghost predicate StepsTo(before: World, a: Action, after: World) {
    Enabled(before, a) && after == Apply(before, a)
  }

  /** Each write comes from a call whose employee nobody else wrote since it read. */
  predicate Undisturbed(worlds: seq<World>, actions: seq<Action>)
    requires |worlds| == |actions| + 1
  {
    forall i :: 0 <= i < |actions| ==> UndisturbedStep(worlds[i], actions[i])
  }

  predicate UndisturbedStep(w: World, a: Action) {
    a.Finish? && a.flight in w.flights ==> !w.flights[a.flight].disturbed
  }

  /** What an undisturbed call read still holds; a filed request keeps its dates and its owner. */
  ghost predicate Inv(w: World) {
    && Disjoint(w.requests)
    && (forall f :: f in w.flights ==> FlightOk(w.requests, w.flights[f]))
  }

  ghost predicate FlightOk(t: Table, f: Flight) {
    && (f.call.Filing? ==> f.call.request.status == PENDING && f.call.request.startsAt < f.call.request.endsAt)
    && (!f.call.Filing? ==> f.call.id in t)
    && (!f.disturbed ==> Passes(t, f.call))
  }

  /** A write on one employee's requests leaves what calls about others read. */
  lemma OthersPass(t: Table, w: Write, f: Flight)
    requires CanWrite(t, w) && FlightOk(t, f)
    requires f.disturbed || !About(t, f.call, Put(t, w).employeeId)
    ensures FlightOk(Written(t, w), f)
  {
    var after := Written(t, w);
    if f.call.Filing? && !f.disturbed {
      var r := f.call.request;
      forall i | i in after && after[i].employeeId == r.employeeId && Active(after[i])
        ensures !Overlaps(after[i], r.startsAt, r.endsAt)
      {
        assert i != w.id && after[i] == t[i];
      }
    }
  }

  lemma FinishKeeps(w: World, f: nat, id: nat)
    requires Inv(w) && Enabled(w, Finish(f, id)) && !w.flights[f].disturbed
    ensures Inv(Apply(w, Finish(f, id)))
  {
    var t, write := w.requests, WriteOf(w.flights[f].call, id);
    assert FlightOk(t, w.flights[f]);
    assert Put(t, write).startsAt < Put(t, write).endsAt && Harmless(t, write);
    WriteExactly(t, write);
    var after := Apply(w, Finish(f, id));
    hide Harmless, Disjoint, Passes, Taken, Written;
    forall g | g in after.flights ensures FlightOk(after.requests, after.flights[g]) {
      assert FlightOk(t, w.flights[g]);
      OthersPass(t, write, after.flights[g]);
    }
  }

  lemma {:induction false} RunInv(worlds: seq<World>, actions: seq<Action>, k: nat)
    requires IsRun(worlds, actions) && Undisturbed(worlds, actions) && k < |worlds|
    ensures Inv(worlds[k])
  {
    if k > 0 {
      RunInv(worlds, actions, k - 1);
      var w, a := worlds[k - 1], actions[k - 1];
      assert StepsTo(w, a, worlds[k]) && UndisturbedStep(w, a);
      if a.Finish? {
        FinishKeeps(w, a.flight, a.id);
      }
    }
  }

  /**
   While no call writes what another one about the same employee has read and not yet written,
   active requests of an employee are pairwise disjoint in every state.
   */
  lemma ReachableDisjoint(worlds: seq<World>, actions: seq<Action>, k: nat)
    requires IsRun(worlds, actions) && Undisturbed(worlds, actions) && k < |worlds|
    ensures Disjoint(worlds[k].requests)
  {
    RunInv(worlds, actions, k);
  }

  /** As when the calls about one employee take turns: then none is ever disturbed. */
  ghost predicate TakingTurns(w: World) {
    forall f, g, e :: f in w.flights && g in w.flights ==>
                        About(w.requests, w.flights[f].call, e) && About(w.requests, w.flights[g].call, e) ==> f == g
  }

  lemma {:induction false} TurnsDisturbNobody(worlds: seq<World>, actions: seq<Action>, k: nat)
    requires IsRun(worlds, actions) && k < |worlds| && forall i :: 0 <= i < |worlds| ==> TakingTurns(worlds[i])
    ensures forall f :: f in worlds[k].flights ==> !worlds[k].flights[f].disturbed
  {
    if k > 0 {
      TurnsDisturbNobody(worlds, actions, k - 1);
      var w, a := worlds[k - 1], actions[k - 1];
      assert StepsTo(w, a, worlds[k]) && TakingTurns(w);
      if a.Finish? {
        var write := WriteOf(w.flights[a.flight].call, a.id);
        assert About(w.requests, w.flights[a.flight].call, Put(w.requests, write).employeeId);
      }
    }
  }

  lemma TurnsKeepDisjoint(worlds: seq<World>, actions: seq<Action>, k: nat)
    requires IsRun(worlds, actions) && k < |worlds| && forall i :: 0 <= i < |worlds| ==> TakingTurns(worlds[i])
    ensures Disjoint(worlds[k].requests)
  {
    forall i | 0 <= i < |actions| ensures UndisturbedStep(worlds[i], actions[i]) {
      TurnsDisturbNobody(worlds, actions, i);
    }
    ReachableDisjoint(worlds, actions, k);
  }

  // ---------------------------------------------------------------- runs that go wrong

  function Days(employeeId: int, status: Status): LeaveRequest {
    LeaveRequest(employeeId, false, 0, 86_400_000, status, 1)
  }

  /** Two calls for the same days both count none, and both are filed. */
  lemma TwoCreatesOverlap() returns (worlds: seq<World>, actions: seq<Action>)
    ensures IsRun(worlds, actions) && !Disjoint(worlds[|actions|].requests)
    ensures actions == [Read(0, Filing(Days(1, PENDING))), Read(1, Filing(Days(1, PENDING))), Finish(0, 0),
                        Finish(1, 1)]
  {
    var r := Days(1, PENDING);
    actions := [Read(0, Filing(r)), Read(1, Filing(r)), Finish(0, 0), Finish(1, 1)];
    var w1 := World(map[], map[0 := Flight(Filing(r), false)]);
    var w2 := World(map[], map[0 := Flight(Filing(r), false), 1 := Flight(Filing(r), false)]);
    var w3 := World(map[0 := r], map[1 := Flight(Filing(r), true)]);
    var w4 := World(map[0 := r, 1 := r], map[]);
    worlds := [EMPTY, w1, w2, w3, w4];
    assert StepsTo(EMPTY, actions[0], w1);
    assert StepsTo(w1, actions[1], w2);
    assert StepsTo(w2, actions[2], w3);
    assert StepsTo(w3, actions[3], w4);
    assert Clashing(w4.requests[0], w4.requests[1]) && Overlaps(w4.requests[0], 0, 86_400_000);
  }

  function LateActions(): seq<Action> {
    [Read(0, Filing(Days(1, PENDING))), Finish(0, 0), Read(1, Reviewing(0, true)), Read(2, Cancelling(0)), Finish(2, 0),
     Read(3, Filing(Days(1, PENDING))), Finish(3, 1), Finish(1, 0)]
  }

  function LateWorlds(): seq<World> {
    var r, gone, approved := Days(1, PENDING), Days(1, CANCELLED), Days(1, APPROVED);
    var filing, review, late := Flight(Filing(r), false), Flight(Reviewing(0, true), false),
                                Flight(Reviewing(0, true), true);
    [EMPTY,
     World(map[], map[0 := filing]),
     World(map[0 := r], map[]),
     World(map[0 := r], map[1 := review]),
     World(map[0 := r], map[1 := review, 2 := Flight(Cancelling(0), false)]),
     World(map[0 := gone], map[1 := late]),
     World(map[0 := gone], map[1 := late, 3 := filing]),
     World(map[0 := gone, 1 := r], map[1 := late]),
     World(map[0 := approved, 1 := r], map[])]
  }

  lemma LateFiled()
    ensures var w, a := LateWorlds(), LateActions();
            StepsTo(w[0], a[0], w[1]) && StepsTo(w[1], a[1], w[2]) && StepsTo(w[2], a[2], w[3])
  {
  }

  lemma LateCancelled()
    ensures var w, a := LateWorlds(), LateActions(); StepsTo(w[3], a[3], w[4]) && StepsTo(w[4], a[4], w[5])
  {
  }

  lemma LateRefiled()
    ensures var w, a := LateWorlds(), LateActions(); StepsTo(w[5], a[5], w[6]) && StepsTo(w[6], a[6], w[7])
  {
  }

  lemma LateApproved()
    ensures var w, a := LateWorlds(), LateActions(); StepsTo(w[7], a[7], w[8])
    ensures !Disjoint(LateWorlds()[8].requests)
  {
    var t := LateWorlds()[8].requests;
    assert Clashing(t[0], t[1]) && Overlaps(t[0], t[1].startsAt, t[1].endsAt);
  }

  /**
   A review reads a pending request; the request is cancelled and another one filed for the same
   days; then the review writes APPROVED, which nothing guards. Each call but the review finishes
   at once here, so an atomic create would not help.
   */
  lemma LateApprovalOverlaps()
    ensures IsRun(LateWorlds(), LateActions()) && !Disjoint(LateWorlds()[8].requests)
  {
    LateFiled();
    LateCancelled();
    LateRefiled();
    LateApproved();
    hide StepsTo, Disjoint;
  }

  // ---------------------------------------------------------------- what attendance reads

  datatype LeaveInterval = LeaveInterval(id: nat, start: int, end: int)

  /** Any listing, without repetitions and in any order, of one employee's approved requests. */
  ghost predicate ApprovedListing(t: Table, employeeId: int, leaves: seq<LeaveInterval>) {
    && (forall i, j :: 0 <= i < j < |leaves| ==> leaves[i].id != leaves[j].id)
    && forall i :: 0 <= i < |leaves| ==>
                     var l := leaves[i];
                     && l.id in t && t[l.id].employeeId == employeeId && t[l.id].status == APPROVED
                     && l.start == t[l.id].startsAt && l.end == t[l.id].endsAt
  }

  predicate PairwiseDisjoint(leaves: seq<LeaveInterval>) {
    && (forall i :: 0 <= i < |leaves| ==> leaves[i].start < leaves[i].end)
    && forall i, j :: 0 <= i < j < |leaves| ==> leaves[i].end <= leaves[j].start || leaves[j].end <= leaves[i].start
  }

  /** What attendance reads of a table of disjoint requests is disjoint. */
  lemma ApprovedAreDisjoint(t: Table, employeeId: int, leaves: seq<LeaveInterval>)
    requires Disjoint(t) && ApprovedListing(t, employeeId, leaves)
    ensures PairwiseDisjoint(leaves)
  {
    forall i, j | 0 <= i < j < |leaves|
      ensures leaves[i].end <= leaves[j].start || leaves[j].end <= leaves[i].start
    {
      assert Clashing(t[leaves[i].id], t[leaves[j].id]);
    }
  }
}
