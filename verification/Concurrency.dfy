/**
 `forEachLimit`: workers that share a cursor over the items and a failure flag, as a state
 machine. An action is one stretch of a worker between two suspensions, so a run is any
 interleaving of the workers with tasks that settle in any order.
 */
module Concurrency {
  datatype Worker = AtGuard | Running(item: nat) | Returned | Threw

  /** What the caller's promise, `Promise.all` over the workers, has become. */
  datatype Outcome = Pending | Resolved | Rejected(item: nat)

  datatype Pool = Pool(
    length: nat,
    next: nat,
    failed: bool,
    workers: seq<Worker>,
    outcome: Outcome,
    started: seq<nat>,
    finished: seq<nat>,
    failures: seq<nat>
  )

  datatype Action =
    | CheckGuard(w: nat) // evaluates the loop guard and starts an item or returns
    | Succeed(w: nat)    // the worker's task resolves
    | Fail(w: nat)       // the worker's task rejects

  function WorkerCount(limit: int, length: nat): nat {
    var atLeastOne := if limit < 1 then 1 else limit;
    if atLeastOne < length then atLeastOne else length
  }

  function Start(length: nat, limit: int): Pool {
    var workers := seq(WorkerCount(limit, length), i => AtGuard);
    Pool(length, 0, false, workers, if workers == [] then Resolved else Pending, [], [], [])
  }

  predicate Enabled(p: Pool, a: Action) {
    a.w < |p.workers| && if a.CheckGuard? then p.workers[a.w].AtGuard? else p.workers[a.w].Running?
  }

  predicate AllReturned(workers: seq<Worker>) {
    forall i :: 0 <= i < |workers| ==> workers[i].Returned?
  }

  function Apply(p: Pool, a: Action): Pool
    requires Enabled(p, a)
  {
    match a
    case CheckGuard(w) =>
      if !p.failed && p.next < p.length then
        p.(next := p.next + 1, workers := p.workers[w := Running(p.next)], started := p.started + [p.next])
      else
        var workers := p.workers[w := Returned];
        p.(workers := workers, outcome := if p.outcome.Pending? && AllReturned(workers) then Resolved else p.outcome)
    case Succeed(w) =>
      p.(workers := p.workers[w := AtGuard], finished := p.finished + [p.workers[w].item])
    case Fail(w) =>
      var item := p.workers[w].item;
      p.(failed := true, workers := p.workers[w := Threw], failures := p.failures + [item],
      outcome := if p.outcome.Pending? then Rejected(item) else p.outcome)
  }

  /** The states a run goes through: each action enabled in the state before it. */
  predicate IsRun(states: seq<Pool>, actions: seq<Action>) {
    && |states| == |actions| + 1
    && forall i :: 0 <= i < |actions| ==>
                     Enabled(states[i], actions[i]) && states[i + 1] == Apply(states[i], actions[i])
  }

  // ---------------------------------------------------------------- invariant

  function ItemOf(w: Worker): multiset<nat> {
    if w.Running? then multiset{w.item} else multiset{}
  }

  function RunningItems(workers: seq<Worker>): multiset<nat> {
    if workers == [] then multiset{} else ItemOf(workers[0]) + RunningItems(workers[1..])
  }

  lemma {:induction false} RunningUpdate(workers: seq<Worker>, w: nat, x: Worker)
    requires w < |workers|
    ensures RunningItems(workers[w := x]) + ItemOf(workers[w]) == RunningItems(workers) + ItemOf(x)
  {
    hide ItemOf;
    var rest := RunningItems(workers[1..]);
    if w == 0 {
      assert workers[w := x][1..] == workers[1..];
      assert (ItemOf(x) + rest) + ItemOf(workers[0]) == (ItemOf(workers[0]) + rest) + ItemOf(x);
    } else {
      var after := RunningItems(workers[1..][w - 1 := x]);
      assert workers[w := x][1..] == workers[1..][w - 1 := x];
      RunningUpdate(workers[1..], w - 1, x);
      assert (ItemOf(workers[0]) + after) + ItemOf(workers[w]) == ItemOf(workers[0]) + (after + ItemOf(workers[w]));
      assert (ItemOf(workers[0]) + rest) + ItemOf(x) == ItemOf(workers[0]) + (rest + ItemOf(x));
    }
  }

  function Upto(n: nat): seq<nat> {
    seq(n, i => i)
  }

  /** Started items are the first ones in order, and each is running, finished or failed. */
  ghost predicate Accounted(p: Pool) {
    && p.next <= p.length
    && p.started == Upto(p.next)
    && multiset(p.started) == multiset(p.finished) + multiset(p.failures) + RunningItems(p.workers)
  }

  predicate AnyReturned(workers: seq<Worker>) {
    exists i :: 0 <= i < |workers| && workers[i].Returned?
  }

  predicate AnyThrew(workers: seq<Worker>) {
    exists i :: 0 <= i < |workers| && workers[i].Threw?
  }

  /** The flags tell what happened; workers return only for want of items or after a failure. */
  ghost predicate Consistent(p: Pool) {
    && (p.failed <==> p.failures != [])
    && (p.failed <==> AnyThrew(p.workers))
    && (AnyReturned(p.workers) && !p.failed ==> p.next == p.length)
    && p.outcome == (if p.failed then Rejected(p.failures[0]) else if AllReturned(p.workers) then Resolved else Pending)
  }

  ghost predicate Inv(p: Pool, limit: int) {
    |p.workers| == WorkerCount(limit, p.length) && Accounted(p) && Consistent(p)
  }

  lemma StartInv(length: nat, limit: int)
    ensures Inv(Start(length, limit), limit)
  {
    NoneRunning(Start(length, limit).workers);
  }

  lemma {:induction false} NoneRunning(workers: seq<Worker>)
    requires forall i :: 0 <= i < |workers| ==> !workers[i].Running?
    ensures RunningItems(workers) == multiset{}
  {
    if workers != [] {
      NoneRunning(workers[1..]);
    }
  }

  lemma BalanceStart(s: multiset<nat>, f: multiset<nat>, e: multiset<nat>, r: multiset<nat>, n: multiset<nat>)
    requires s == f + e + r
    ensures s + n == f + e + (r + n)
  {
  }

  lemma BalanceEnd(s: multiset<nat>, f: multiset<nat>, e: multiset<nat>, r: multiset<nat>, o: multiset<nat>)
    requires s == f + e + (r + o)
    ensures s == (f + o) + e + r && s == f + (e + o) + r
  {
  }

  lemma GuardAccounted(p: Pool, a: Action)
    requires Accounted(p) && Enabled(p, a) && a.CheckGuard?
    ensures Accounted(Apply(p, a))
  {
    hide RunningItems;
    var q := Apply(p, a);
    var w := q.workers[a.w];
    RunningUpdate(p.workers, a.w, w);
    assert RunningItems(q.workers) == RunningItems(p.workers) + ItemOf(w);
    BalanceStart(multiset(p.started), multiset(p.finished), multiset(p.failures), RunningItems(p.workers), ItemOf(w));
    if w.Running? {
      assert q.started == Upto(q.next);
      assert multiset(q.started) == multiset(p.started) + ItemOf(w);
    }
  }

  lemma SettleAccounted(p: Pool, a: Action)
    requires Accounted(p) && Enabled(p, a) && !a.CheckGuard?
    ensures Accounted(Apply(p, a))
  {
    hide RunningItems, Upto;
    var q := Apply(p, a);
    var item := ItemOf(p.workers[a.w]);
    RunningUpdate(p.workers, a.w, q.workers[a.w]);
    assert RunningItems(p.workers) == RunningItems(q.workers) + item;
    BalanceEnd(multiset(p.started), multiset(p.finished), multiset(p.failures), RunningItems(q.workers), item);
  }

  lemma StepAccounted(p: Pool, a: Action)
    requires Accounted(p) && Enabled(p, a)
    ensures Accounted(Apply(p, a))
  {
    if a.CheckGuard? {
      GuardAccounted(p, a);
    } else {
      SettleAccounted(p, a);
    }
  }

  lemma ThrewMonotone(workers: seq<Worker>, w: nat, x: Worker)
    requires w < |workers| && !workers[w].Threw?
    ensures AnyThrew(workers[w := x]) <==> AnyThrew(workers) || x.Threw?
  {
    var after := workers[w := x];
    if AnyThrew(workers) {
      var i :| 0 <= i < |workers| && workers[i].Threw?;
      assert after[i].Threw?;
    }
    if AnyThrew(after) {
      var i :| 0 <= i < |after| && after[i].Threw?;
      assert i == w || workers[i].Threw?;
    }
    assert after[w] == x;
  }

  lemma ReturnedMonotone(workers: seq<Worker>, w: nat, x: Worker)
    requires w < |workers| && !workers[w].Returned?
    ensures AnyReturned(workers[w := x]) <==> AnyReturned(workers) || x.Returned?
    ensures AllReturned(workers[w := x]) ==> x.Returned?
    ensures !AllReturned(workers)
  {
    var after := workers[w := x];
    if AnyReturned(workers) {
      var i :| 0 <= i < |workers| && workers[i].Returned?;
      assert after[i].Returned?;
    }
    if AnyReturned(after) {
      var i :| 0 <= i < |after| && after[i].Returned?;
      assert i == w || workers[i].Returned?;
    }
    assert after[w] == x;
  }

  lemma StepConsistent(p: Pool, a: Action)
    requires Consistent(p) && p.next <= p.length && Enabled(p, a)
    ensures Consistent(Apply(p, a))
  {
    hide AnyThrew, AnyReturned, AllReturned;
    ThrewMonotone(p.workers, a.w, Apply(p, a).workers[a.w]);
    ReturnedMonotone(p.workers, a.w, Apply(p, a).workers[a.w]);
    var q := Apply(p, a);
    assert q.workers == p.workers[a.w := q.workers[a.w]];
    assert p.failed ==> q.failures[0] == p.failures[0];
    assert a.Fail? && !p.failed ==> q.failures == [p.workers[a.w].item];
  }

  lemma StepInv(p: Pool, a: Action, limit: int)
    requires Inv(p, limit) && Enabled(p, a)
    ensures Inv(Apply(p, a), limit)
  {
    StepAccounted(p, a);
    StepConsistent(p, a);
  }

  lemma {:induction false} RunInv(states: seq<Pool>, actions: seq<Action>, length: nat, limit: int, k: nat)
    requires IsRun(states, actions) && states[0] == Start(length, limit) && k < |states|
    ensures Inv(states[k], limit) && states[k].length == length
  {
    if k == 0 {
      StartInv(length, limit);
    } else {
      RunInv(states, actions, length, limit, k - 1);
      StepInv(states[k - 1], actions[k - 1], limit);
    }
  }

  // ---------------------------------------------------------------- what the pool promises

  predicate Reachable(p: Pool, states: seq<Pool>, actions: seq<Action>, length: nat, limit: int) {
    IsRun(states, actions) && states[0] == Start(length, limit) && states[|actions|] == p
  }

  function RunningCount(workers: seq<Worker>): (n: nat)
    ensures n <= |workers|
    ensures n == |RunningItems(workers)|
  {
    if workers == [] then 0 else (if workers[0].Running? then 1 else 0) + RunningCount(workers[1..])
  }

  /** Never more than `max(1, limit)` tasks at once; items start in order, each at most once. */
  lemma BoundedAndInOrder(p: Pool, states: seq<Pool>, actions: seq<Action>, length: nat, limit: int)
    requires Reachable(p, states, actions, length, limit)
    ensures RunningCount(p.workers) <= if limit < 1 then 1 else limit
    ensures p.started == Upto(|p.started|) && |p.started| <= length
  {
    RunInv(states, actions, length, limit, |actions|);
  }

  /** Once a task has failed nothing starts any more, however the run goes on. */
  lemma {:induction false} NothingStartsAfterFailure(states: seq<Pool>, actions: seq<Action>, k: nat)
    requires IsRun(states, actions) && states[0].failed && k < |states|
    ensures states[k].failed && states[k].started == states[0].started
  {
    if k > 0 {
      NothingStartsAfterFailure(states, actions, k - 1);
    }
  }

  predicate Stuck(p: Pool) {
    forall w :: 0 <= w < |p.workers| ==> p.workers[w].Returned? || p.workers[w].Threw?
  }

  /** A worker that is neither done nor thrown can always move: the pool has no deadlock. */
  lemma StuckMeansNothingEnabled(p: Pool)
    ensures Stuck(p) <==> forall a :: !Enabled(p, a)
  {
    if !Stuck(p) {
      var w :| 0 <= w < |p.workers| && !(p.workers[w].Returned? || p.workers[w].Threw?);
      if p.workers[w].AtGuard? {
        assert Enabled(p, CheckGuard(w));
      } else {
        assert Enabled(p, Succeed(w));
      }
    }
  }

  /**
   When every worker is through: without a failure every item finished exactly once and the
   promise resolved; with one, the promise rejected with the earliest failure, and the items
   that started are exactly those that finished or failed.
   */
  lemma SettledOutcome(p: Pool, states: seq<Pool>, actions: seq<Action>, length: nat, limit: int)
    requires Reachable(p, states, actions, length, limit) && Stuck(p)
    ensures p.failures == [] ==> p.outcome == Resolved && multiset(p.finished) == multiset(Upto(length))
    ensures p.failures != [] ==> p.outcome == Rejected(p.failures[0])
    ensures multiset(p.started) == multiset(p.finished) + multiset(p.failures)
  {
    RunInv(states, actions, length, limit, |actions|);
    NoneRunning(p.workers);
    if p.failures == [] {
      assert AllReturned(p.workers);
      if p.workers == [] {
        assert length == 0;
      } else {
        assert p.workers[0].Returned?;
      }
    }
  }

  /** The promise rejects at the first failure, without waiting, and with nothing else. */
  lemma RejectsWithEarliest(p: Pool, states: seq<Pool>, actions: seq<Action>, length: nat, limit: int)
    requires Reachable(p, states, actions, length, limit)
    ensures p.outcome.Rejected? <==> p.failures != []
    ensures p.outcome.Rejected? ==> p.outcome.item == p.failures[0]
  {
    RunInv(states, actions, length, limit, |actions|);
  }

  // ---------------------------------------------------------------- termination

  function Spent(w: Worker): nat {
    if w.Returned? then 1 else 0
  }

  function ReturnedCount(workers: seq<Worker>): (n: nat)
    ensures n <= |workers|
  {
    if workers == [] then 0 else Spent(workers[0]) + ReturnedCount(workers[1..])
  }

  lemma {:induction false} ReturnedUpdate(workers: seq<Worker>, w: nat, x: Worker)
    requires w < |workers|
    ensures ReturnedCount(workers[w := x]) == ReturnedCount(workers) - Spent(workers[w]) + Spent(x)
  {
    if w == 0 {
      assert workers[w := x][1..] == workers[1..];
    } else {
      assert workers[w := x][1..] == workers[1..][w - 1 := x];
      ReturnedUpdate(workers[1..], w - 1, x);
    }
  }

  /** Actions taken so far: one per start, one per settled task, one per worker that returned. */
  function Progress(p: Pool): nat {
    |p.started| + |p.finished| + |p.failures| + ReturnedCount(p.workers)
  }

  lemma {:induction false} RunLength(states: seq<Pool>, actions: seq<Action>, length: nat, limit: int, k: nat)
    requires IsRun(states, actions) && states[0] == Start(length, limit) && k < |states|
    ensures Progress(states[k]) == k
  {
    if k == 0 {
      NoneReturned(states[0].workers);
    } else {
      RunLength(states, actions, length, limit, k - 1);
      var p, a := states[k - 1], actions[k - 1];
      ReturnedUpdate(p.workers, a.w, Apply(p, a).workers[a.w]);
    }
  }

  lemma {:induction false} NoneReturned(workers: seq<Worker>)
    requires forall i :: 0 <= i < |workers| ==> !workers[i].Returned?
    ensures ReturnedCount(workers) == 0
  {
    if workers != [] {
      NoneReturned(workers[1..]);
    }
  }

  /** Every run is finite: two actions an item and one a worker at most. */
  lemma RunsAreFinite(p: Pool, states: seq<Pool>, actions: seq<Action>, length: nat, limit: int)
    requires Reachable(p, states, actions, length, limit)
    ensures |actions| <= 2 * length + WorkerCount(limit, length)
  {
    RunInv(states, actions, length, limit, |actions|);
    RunLength(states, actions, length, limit, |actions|);
    assert |multiset(p.started)| == |multiset(p.finished)| + |multiset(p.failures)| + |RunningItems(p.workers)|;
  }
}
