/**
 Refresh token rotation of one session, as a state machine over the database steps of every
 request in flight. Tokens are fresh numbers, and a stored hash is the token it was made from:
 hashing is injective.
 */
module AuthSession {
  datatype Stored = PendingHash | HashOf(token: nat)

  datatype Session = Session(stored: Stored, revoked: bool, expiresAt: int)

  /** How far a call of `refresh` has come. Its token passed signature verification. */
  datatype Request =
    | Presented(token: nat)
    | Issued(token: nat, successor: nat)     // read a live session and signed a new token
    | Missed(token: nat)                 // compare-and-set changed no row
    | Exchanged(token: nat, successor: nat)  // success
    | Refused(token: nat)                // rejected after reading, or after revoking

  /** `exchanged` lists the tokens exchanged successfully so far. */
  datatype World = World(
    now: int,
    active: bool,
    session: Session,
    requests: map<nat, Request>,
    minted: nat,
    exchanged: seq<nat>
  )

  datatype Action =
    | FinishLogin
    | Present(id: nat, token: nat)
    | Read(id: nat)
    | CompareAndSet(id: nat)
    | Revoke(id: nat)
    | Logout
    | Deactivate(revokesSessions: bool)
    | Activate
    | Tick(elapsed: nat)

  /** `login` has created the row and signed its first token, number 0. */
  function Opened(now: int, ttl: nat): World {
    World(now, true, Session(PendingHash, false, now + ttl), map[], 1, [])
  }

  predicate Enabled(w: World, a: Action) {
    match a
    case FinishLogin => w.session.stored == PendingHash
    case Present(id, token) => id !in w.requests && token < w.minted
    case Read(id) => id in w.requests && w.requests[id].Presented?
    case CompareAndSet(id) => id in w.requests && w.requests[id].Issued?
    case Revoke(id) => id in w.requests && w.requests[id].Missed?
    case _ => true
  }

  /** The check `refresh` makes on the row it reads. */
  predicate Live(w: World) {
    !w.session.revoked && !Expired(w) && w.active
  }

  predicate Expired(w: World) {
    w.session.expiresAt < w.now
  }

  predicate Matches(w: World, token: nat) {
    w.session.stored == HashOf(token) && !w.session.revoked
  }

  function Revoked(w: World): World {
    w.(session := w.session.(revoked := true))
  }

  function Apply(w: World, a: Action): World
    requires Enabled(w, a)
  {
    match a
    case FinishLogin => w.(session := w.session.(stored := HashOf(0)))
    case Present(id, token) => w.(requests := w.requests[id := Presented(token)])
    case Read(id) =>
      var token := w.requests[id].token;
      if Live(w) then w.(requests := w.requests[id := Issued(token, w.minted)], minted := w.minted + 1)
      else w.(requests := w.requests[id := Refused(token)])
    case CompareAndSet(id) =>
      var r := w.requests[id];
      if Matches(w, r.token) then
        w.(session := w.session.(stored := HashOf(r.successor)),
        requests := w.requests[id := Exchanged(r.token, r.successor)], exchanged := w.exchanged + [r.token])
      else
        w.(requests := w.requests[id := Missed(r.token)])
    case Revoke(id) => Revoked(w).(requests := w.requests[id := Refused(w.requests[id].token)])
    case Logout => Revoked(w)
    case Deactivate(revokesSessions) => (if revokesSessions then Revoked(w) else w).(active := false)
    case Activate => w.(active := true)
    case Tick(elapsed) => w.(now := w.now + elapsed)
  }

  predicate Runs(w: World, actions: seq<Action>)
    decreases |actions|
  {
    actions == [] || (Enabled(w, actions[0]) && Runs(Apply(w, actions[0]), actions[1..]))
  }

  function After(w: World, actions: seq<Action>): World
    requires Runs(w, actions)
    decreases |actions|
  {
    if actions == [] then w else After(Apply(w, actions[0]), actions[1..])
  }

  // ---------------------------------------------------------------- each token at most once

  predicate NoRepeats(s: seq<nat>) {
    forall i, j :: 0 <= i < j < |s| ==> s[i] != s[j]
  }

  /** The tokens not exchanged yet: the stored one and those signed by requests in flight. */
  ghost predicate Inv(w: World) {
    && w.minted > 0
    && NoRepeats(w.exchanged)
    && (forall t :: t in w.exchanged ==> t < w.minted)
    && (w.session.stored.HashOf? ==> w.session.stored.token < w.minted && w.session.stored.token !in w.exchanged)
    && (w.session.stored == PendingHash ==> w.exchanged == [])
    && (forall id :: id in w.requests && w.requests[id].Issued? ==> InFlight(w, w.requests[id].successor))
    && (forall i, j :: Signed(w, i) && Signed(w, j) && i != j ==> w.requests[i].successor != w.requests[j].successor)
  }

  predicate Signed(w: World, id: nat) {
    id in w.requests && w.requests[id].Issued?
  }

  predicate InFlight(w: World, successor: nat) {
    0 < successor < w.minted && successor !in w.exchanged && w.session.stored != HashOf(successor)
  }

  lemma ReadInv(w: World, id: nat)
    requires Inv(w) && Enabled(w, Read(id))
    ensures Inv(Apply(w, Read(id)))
  {
    var q := Apply(w, Read(id));
    assert forall k :: k in q.requests && k != id ==> q.requests[k] == w.requests[k];
  }

  lemma CompareAndSetInv(w: World, id: nat)
    requires Inv(w) && Enabled(w, CompareAndSet(id))
    ensures Inv(Apply(w, CompareAndSet(id)))
  {
    var q := Apply(w, CompareAndSet(id));
    assert forall k :: k in q.requests && k != id ==> q.requests[k] == w.requests[k];
    assert Signed(w, id) && !Signed(q, id);
  }

  lemma StepInv(w: World, a: Action)
    requires Inv(w) && Enabled(w, a)
    ensures Inv(Apply(w, a))
  {
    match a
    case Read(id) => ReadInv(w, id);
    case CompareAndSet(id) => CompareAndSetInv(w, id);
    case _ =>
  }

  lemma {:induction false} RunInv(w: World, actions: seq<Action>)
    requires Inv(w) && Runs(w, actions)
    ensures Inv(After(w, actions))
    decreases |actions|
  {
    if actions != [] {
      StepInv(w, actions[0]);
      RunInv(Apply(w, actions[0]), actions[1..]);
    }
  }

  /** Over every interleaving, no refresh token is exchanged successfully twice. */
  lemma EachTokenAtMostOnce(now: int, ttl: nat, actions: seq<Action>)
    requires Runs(Opened(now, ttl), actions)
    ensures NoRepeats(After(Opened(now, ttl), actions).exchanged)
  {
    RunInv(Opened(now, ttl), actions);
  }

  /** A revoked session stays revoked, and no exchange succeeds on it any more. */
  lemma {:induction false} RevokedForGood(w: World, actions: seq<Action>)
    requires w.session.revoked && Runs(w, actions)
    ensures After(w, actions).session.revoked
    ensures After(w, actions).exchanged == w.exchanged
    decreases |actions|
  {
    if actions != [] {
      RevokedForGood(Apply(w, actions[0]), actions[1..]);
    }
  }

  // ---------------------------------------------------------------- after a replay

  /** Some continuation exchanges another token of the session. */
  ghost predicate CanSucceed(w: World) {
    exists actions :: Runs(w, actions) && After(w, actions).exchanged != w.exchanged
  }

  /** No request in flight got past its read with the token the row holds now. */
  predicate NobodyHoldsCurrent(w: World) {
    forall id :: id in w.requests && w.requests[id].Issued? ==> w.session.stored != HashOf(w.requests[id].token)
  }

  predicate Doomed(w: World) {
    w.session.revoked || (Expired(w) && w.session.stored.HashOf? && NobodyHoldsCurrent(w))
  }

  lemma DoomedStep(w: World, a: Action)
    requires Doomed(w) && Enabled(w, a)
    ensures Doomed(Apply(w, a)) && Apply(w, a).exchanged == w.exchanged
  {
  }

  lemma {:induction false} DoomedForGood(w: World, actions: seq<Action>)
    requires Doomed(w) && Runs(w, actions)
    ensures After(w, actions).exchanged == w.exchanged
    decreases |actions|
  {
    if actions != [] {
      DoomedStep(w, actions[0]);
      DoomedForGood(Apply(w, actions[0]), actions[1..]);
    }
  }

  function Elapsed(actions: seq<Action>): nat {
    if actions == [] then 0
    else (if actions[0].Tick? then actions[0].elapsed else 0) + Elapsed(actions[1..])
  }

  /** Nothing but time itself moves the clock, and no refresh makes a session last longer. */
  lemma {:induction false} TimePasses(w: World, actions: seq<Action>)
    requires Runs(w, actions)
    ensures After(w, actions).now == w.now + Elapsed(actions)
    ensures After(w, actions).session.expiresAt == w.session.expiresAt
    decreases |actions|
  {
    if actions != [] {
      TimePasses(Apply(w, actions[0]), actions[1..]);
    }
  }

  /** So however often it was refreshed, past its end only a request that read it before can still succeed. */
  lemma SessionEnds(now: int, ttl: nat, actions: seq<Action>, later: seq<Action>)
    requires Runs(Opened(now, ttl), actions) && Elapsed(actions) > ttl
    requires var w := After(Opened(now, ttl), actions);
             w.session.stored.HashOf? && NobodyHoldsCurrent(w) && Runs(w, later)
    ensures var w := After(Opened(now, ttl), actions); After(w, later).exchanged == w.exchanged
  {
    TimePasses(Opened(now, ttl), actions);
    DoomedForGood(After(Opened(now, ttl), actions), later);
  }

  lemma FreshRequestSucceeds(w: World, id: nat)
    requires Inv(w) && !w.session.revoked && !Expired(w) && w.session.stored.HashOf? && id !in w.requests
    ensures CanSucceed(w)
  {
    var token := w.session.stored.token;
    var w1 := Apply(w, Activate);
    var w2 := Apply(w1, Present(id, token));
    var w3 := Apply(w2, Read(id));
    var w4 := Apply(w3, CompareAndSet(id));
    Cons(w3, CompareAndSet(id), []);
    Cons(w2, Read(id), [CompareAndSet(id)]);
    Cons(w1, Present(id, token), [Read(id)] + [CompareAndSet(id)]);
    Cons(w, Activate, [Present(id, token)] + ([Read(id)] + [CompareAndSet(id)]));
    assert [CompareAndSet(id)] + [] == [CompareAndSet(id)];
    assert |w4.exchanged| == |w.exchanged| + 1;
  }

  lemma Cons(w: World, a: Action, rest: seq<Action>)
    requires Enabled(w, a) && Runs(Apply(w, a), rest)
    ensures Runs(w, [a] + rest) && After(w, [a] + rest) == After(Apply(w, a), rest)
  {
    assert ([a] + rest)[1..] == rest;
  }

  /** Exactly the doomed states have no successful refresh ahead of them. */
  lemma DoomedExactly(w: World, unused: nat)
    requires Inv(w) && w.session.stored.HashOf? && unused !in w.requests
    ensures CanSucceed(w) <==> !Doomed(w)
  {
    if Doomed(w) {
      forall actions | Runs(w, actions) ensures After(w, actions).exchanged == w.exchanged {
        DoomedForGood(w, actions);
      }
    } else if !Expired(w) {
      FreshRequestSucceeds(w, unused);
    } else {
      var id :| id in w.requests && w.requests[id].Issued? && w.session.stored == HashOf(w.requests[id].token);
      var actions := [CompareAndSet(id)];
      assert actions[1..] == [];
      assert Runs(Apply(w, actions[0]), actions[1..]);
      assert Runs(w, actions) && |After(w, actions).exchanged| == |w.exchanged| + 1;
    }
  }

  /**
   A token that was exchanged before is replayed and its request runs to the end. If the request
   got past its read, it revokes the session and nothing succeeds afterwards.
   */
  lemma ReplayRevokes(w: World, id: nat, between: seq<Action>, later: seq<Action>)
    requires Inv(w) && id in w.requests && w.requests[id].Issued? && w.requests[id].token in w.exchanged
    requires var missed := Apply(w, CompareAndSet(id));
             && Runs(missed, between)
             && Enabled(After(missed, between), Revoke(id))
             && Runs(Apply(After(missed, between), Revoke(id)), later)
    ensures Apply(w, CompareAndSet(id)).requests[id] == Missed(w.requests[id].token)
    ensures var done := Apply(After(Apply(w, CompareAndSet(id)), between), Revoke(id));
            done.session.revoked && After(done, later).session.revoked && After(done, later).exchanged == done.exchanged
  {
    var done := Apply(After(Apply(w, CompareAndSet(id)), between), Revoke(id));
    RevokedForGood(done, later);
  }

  /**
   A replay rejected at its read revokes nothing. Afterwards the session is beyond use if and only
   if it was revoked already, or expired with no other request past its read: not when the reason
   was an inactive user, who may be active again before the session expires.
   */
  lemma ReplayRejectedAtRead(w: World, id: nat, unused: nat)
    requires Inv(w) && id in w.requests && w.requests[id].Presented? && w.requests[id].token in w.exchanged
    requires !Live(w) && unused !in w.requests
    ensures var done := Apply(w, Read(id));
            && done.requests[id] == Refused(w.requests[id].token)
            && (CanSucceed(done) <==> !w.session.revoked && !(Expired(w) && NobodyHoldsCurrent(w)))
  {
    var done := Apply(w, Read(id));
    StepInv(w, Read(id));
    assert w.session.stored.HashOf?;
    assert NobodyHoldsCurrent(done) <==> NobodyHoldsCurrent(w) by {
      assert forall k :: k in done.requests && k != id ==> done.requests[k] == w.requests[k];
    }
    DoomedExactly(done, unused);
  }

  // ---------------------------------------------------------------- a replay that costs nothing

  /** Token 0 is exchanged, the user deactivated, and token 0 presented again and refused. */
  function ReplayWhileInactive(): seq<Action> {
    var rest := [CompareAndSet(0)] + ([Deactivate(false)] + ([Present(1, 0)] + ([Read(1)] + [])));
    [FinishLogin] + ([Present(0, 0)] + ([Read(0)] + rest))
  }

  /** The states of that run, from the read of the first request on. */
  lemma ReplayPrefix(ttl: nat)
    ensures var w := Opened(0, ttl); Enabled(w, FinishLogin)
    ensures var w := Apply(Opened(0, ttl), FinishLogin);
            Enabled(w, Present(0, 0)) && Enabled(Apply(w, Present(0, 0)), Read(0))
    ensures var w := Apply(Apply(Apply(Opened(0, ttl), FinishLogin), Present(0, 0)), Read(0));
            w == World(0, true, Session(HashOf(0), false, ttl), map[0 := Issued(0, 1)], 2, [])
  {
  }

  lemma ReplaySuffix(ttl: nat)
    ensures var w := World(0, true, Session(HashOf(0), false, ttl), map[0 := Issued(0, 1)], 2, []);
            var rest := [CompareAndSet(0)] + ([Deactivate(false)] + ([Present(1, 0)] + ([Read(1)] + [])));
            && Runs(w, rest)
            && After(w, rest)
               == World(0, false, Session(HashOf(1), false, ttl), map[0 := Exchanged(0, 1), 1 := Refused(0)], 2, [0])
  {
    var w := World(0, true, Session(HashOf(0), false, ttl), map[0 := Issued(0, 1)], 2, []);
    var w1 := Apply(w, CompareAndSet(0));
    assert w1 == World(0, true, Session(HashOf(1), false, ttl), map[0 := Exchanged(0, 1)], 2, [0]);
    var w2 := Apply(w1, Deactivate(false));
    var w3 := Apply(w2, Present(1, 0));
    var w4 := Apply(w3, Read(1));
    assert w4 == World(0, false, Session(HashOf(1), false, ttl), map[0 := Exchanged(0, 1), 1 := Refused(0)], 2, [0]);
    Cons(w3, Read(1), []);
    Cons(w2, Present(1, 0), [Read(1)] + []);
    Cons(w1, Deactivate(false), [Present(1, 0)] + ([Read(1)] + []));
    Cons(w, CompareAndSet(0), [Deactivate(false)] + ([Present(1, 0)] + ([Read(1)] + [])));
  }

  /** The replayed token was exchanged before, its request is over, and the session goes on working. */
  lemma ReplaySpared(ttl: nat)
    ensures Runs(Opened(0, ttl), ReplayWhileInactive())
    ensures var w := After(Opened(0, ttl), ReplayWhileInactive());
            w.exchanged == [0] && 1 in w.requests && w.requests[1] == Refused(0) && CanSucceed(w)
  {
    hide Inv, CanSucceed, Runs, After;
    var w0 := Opened(0, ttl);
    var w1 := Apply(w0, FinishLogin);
    var w2 := Apply(w1, Present(0, 0));
    var rest := [CompareAndSet(0)] + ([Deactivate(false)] + ([Present(1, 0)] + ([Read(1)] + [])));
    ReplayPrefix(ttl);
    ReplaySuffix(ttl);
    Cons(w2, Read(0), rest);
    Cons(w1, Present(0, 0), [Read(0)] + rest);
    Cons(w0, FinishLogin, [Present(0, 0)] + ([Read(0)] + rest));
    OpenedInv(0, ttl);
    RunInv(w0, ReplayWhileInactive());
    FreshRequestSucceeds(After(w0, ReplayWhileInactive()), 2);
  }

  lemma OpenedInv(now: int, ttl: nat)
    ensures Inv(Opened(now, ttl))
  {
  }
}
