/** Refresh-token rotation: any number of requests, each suspended at every database call.

    A token is known by its hash, and hashes are injective. Replacement tokens are freshly
    made, so nobody held one before. Two clocks run: the monotonic one of the grace window,
    and the wall clock of session expiry. */
module Rotation {
  import opened Options

  type Hash = nat
  type Sid = nat
  type UserId = nat
  type RequestId = nat

  const GRACE := 30

  datatype Session = Session(user: UserId, hash: Hash, expires: int)

  datatype Replaced = Replaced(hash: Hash, at: nat)

  datatype Answer = Rotated | Grace | Invalid | Reused

  /** Where a request is suspended, or its answer. */
  datatype Stage =
    | Asked                     // before the session row is read
    | Swapping                  // the hash matched and is remembered; before the compare-and-swap
    | Late                      // the hash did not match, or the swap was lost
    | Rechecking                // inside the grace window; before the session is validated
    | Revoking                  // outside it; before the session is deleted
    | Answered(answer: Answer)

  datatype Request = Request(sid: Sid, user: UserId, presented: Hash, replacement: Hash, stage: Stage)

  datatype State = State(
    sessions: map<Sid, Session>,
    replaced: map<Sid, Replaced>,
    requests: map<RequestId, Request>,
    mono: nat,
    wall: int,
    known: set<Sid>,      // every session id ever given out
    issued: set<Hash>)    // every token ever made

  datatype Event =
    | Create(sid: Sid, session: Session)
    | Delete(sid: Sid)
    | ChangePassword(user: UserId, keep: Option<Sid>)
    | Tick(mono: nat, wall: int)
    | Ask(id: RequestId, sid: Sid, user: UserId, presented: Hash, replacement: Hash)
    | Read(id: RequestId)
    | Swap(id: RequestId)
    | CheckGrace(id: RequestId)
    | Recheck(id: RequestId)
    | Revoke(id: RequestId)
    | Abort(id: RequestId)          // cancelled or failed, with nothing written
    | LostCommit(id: RequestId)     // cancelled inside the swap's commit, with the row written

  // ---------------------------------------------------------------- the pieces of a request

  /** Entries past the grace window go, and this one comes in. */
  function Remember(replaced: map<Sid, Replaced>, now: nat, sid: Sid, hash: Hash): map<Sid, Replaced> {
    (map s | s in replaced && now - replaced[s].at < GRACE :: replaced[s])[sid := Replaced(hash, now)]
  }

  predicate WithinGrace(replaced: map<Sid, Replaced>, now: nat, sid: Sid, hash: Hash) {
    sid in replaced && now - replaced[sid].at < GRACE && replaced[sid].hash == hash
  }

  predicate Live(sessions: map<Sid, Session>, wall: int, sid: Sid) {
    sid in sessions && sessions[sid].expires > wall
  }

  predicate Holds(sessions: map<Sid, Session>, sid: Sid, hash: Hash) {
    sid in sessions && sessions[sid].hash == hash
  }

  predicate At(s: State, id: RequestId, stage: Stage) {
    id in s.requests && s.requests[id].stage == stage
  }

  function Move(s: State, id: RequestId, stage: Stage): State
    requires id in s.requests
  {
    s.(requests := s.requests[id := s.requests[id].(stage := stage)])
  }

  function DoRead(s: State, id: RequestId): State
    requires id in s.requests
  {
    var r := s.requests[id];
    if !Live(s.sessions, s.wall, r.sid) || s.sessions[r.sid].user != r.user then Move(s, id, Answered(Invalid))
    else if s.sessions[r.sid].hash == r.presented then
      Move(s, id, Swapping).(replaced := Remember(s.replaced, s.mono, r.sid, r.presented))
    else Move(s, id, Late)
  }

  function DoSwap(s: State, id: RequestId): State
    requires id in s.requests
  {
    var r := s.requests[id];
    if Holds(s.sessions, r.sid, r.presented) then
      Move(s, id, Answered(Rotated)).(
        sessions := s.sessions[r.sid := s.sessions[r.sid].(hash := r.replacement)])
    else Move(s, id, Late)
  }

  function DoCheckGrace(s: State, id: RequestId): State
    requires id in s.requests
  {
    var r := s.requests[id];
    Move(s, id, if WithinGrace(s.replaced, s.mono, r.sid, r.presented) then Rechecking else Revoking)
  }

  function DoRecheck(s: State, id: RequestId): State
    requires id in s.requests
  {
    Move(s, id, Answered(if Live(s.sessions, s.wall, s.requests[id].sid) then Grace else Invalid))
  }

  function DoRevoke(s: State, id: RequestId): State
    requires id in s.requests
  {
    Move(s, id, Answered(Reused)).(sessions := s.sessions - {s.requests[id].sid})
  }

  /** The sessions a password change ends. */
  function SessionsOf(s: State, user: UserId, keep: Option<Sid>): set<Sid> {
    set i | i in s.sessions && s.sessions[i].user == user && Some(i) != keep
  }

  predicate CanHappen(s: State, e: Event) {
    match e
    case Create(sid, session) => sid !in s.known && session.hash !in s.issued
    case Delete(_) => true
    case ChangePassword(_, _) => true
    case Tick(mono, _) => s.mono <= mono
    case Ask(id, _, _, _, replacement) => id !in s.requests && replacement !in s.issued
    case Read(id) => At(s, id, Asked)
    case Swap(id) => At(s, id, Swapping)
    case CheckGrace(id) => At(s, id, Late)
    case Recheck(id) => At(s, id, Rechecking)
    case Revoke(id) => At(s, id, Revoking)
    case Abort(id) => id in s.requests && !s.requests[id].stage.Answered?
    case LostCommit(id) => At(s, id, Swapping) && Holds(s.sessions, s.requests[id].sid, s.requests[id].presented)
  }

  function Next(s: State, e: Event): State
    requires CanHappen(s, e)
  {
    match e
    case Create(sid, session) =>
      s.(sessions := s.sessions[sid := session], known := s.known + {sid}, issued := s.issued + {session.hash})
    case Delete(sid) => s.(sessions := s.sessions - {sid})
    case ChangePassword(user, keep) => s.(sessions := s.sessions - SessionsOf(s, user, keep))
    case Tick(mono, wall) => s.(mono := mono, wall := wall)
    case Ask(id, sid, user, presented, replacement) =>
      s.(requests := s.requests[id := Request(sid, user, presented, replacement, Asked)],
         issued := s.issued + {replacement})
    case Read(id) => DoRead(s, id)
    case Swap(id) => DoSwap(s, id)
    case CheckGrace(id) => DoCheckGrace(s, id)
    case Recheck(id) => DoRecheck(s, id)
    case Revoke(id) => DoRevoke(s, id)
    case Abort(id) => s.(requests := s.requests - {id})
    case LostCommit(id) => DoSwap(s, id).(requests := s.requests - {id})
  }

  // ---------------------------------------------------------------- invariant

  predicate IsRotated(s: State, id: RequestId) {
    id in s.requests && s.requests[id].stage == Answered(Rotated)
  }

  /** A session's token is one that was made, and no other session's. */
  ghost predicate TokensAreApart(s: State) {
    && (forall i :: i in s.sessions ==> i in s.known && s.sessions[i].hash in s.issued)
    && (forall i, j :: i in s.sessions && j in s.sessions && i != j ==> s.sessions[i].hash != s.sessions[j].hash)
  }

  /** A token that was rotated away is nobody's token any more, and was rotated once. */
  ghost predicate RotatedOnce(s: State) {
    && (forall id :: IsRotated(s, id) ==> s.requests[id].presented in s.issued)
    && (forall id, i :: IsRotated(s, id) && i in s.sessions ==> s.sessions[i].hash != s.requests[id].presented)
    && (forall a, b :: IsRotated(s, a) && IsRotated(s, b) && a != b
          ==> s.requests[a].presented != s.requests[b].presented)
  }

  predicate Unanswered(s: State, id: RequestId) {
    id in s.requests && !s.requests[id].stage.Answered?
  }

  /** The replacement a request carries is its own until it is answered. */
  ghost predicate ReplacementsAreFresh(s: State) {
    && (forall id :: Unanswered(s, id) ==> s.requests[id].replacement in s.issued)
    && (forall id, i :: Unanswered(s, id) && i in s.sessions ==> s.sessions[i].hash != s.requests[id].replacement)
    && (forall id, a :: Unanswered(s, id) && IsRotated(s, a) ==> s.requests[a].presented != s.requests[id].replacement)
    && (forall a, b :: Unanswered(s, a) && Unanswered(s, b) && a != b
          ==> s.requests[a].replacement != s.requests[b].replacement)
  }

  ghost predicate Inv(s: State) {
    TokensAreApart(s) && RotatedOnce(s) && ReplacementsAreFresh(s)
  }

  const NOTHING := State(map[], map[], map[], 0, 0, {}, {})

  lemma NothingIsSound()
    ensures Inv(NOTHING)
  {
  }

  /** No session, no request and no rotation more. */
  ghost predicate IsLess(s: State, t: State) {
    && s.issued == t.issued && s.known == t.known
    && (forall i :: i in t.sessions ==> i in s.sessions && t.sessions[i] == s.sessions[i])
    && (forall id :: id in t.requests ==>
          id in s.requests && t.requests[id] == s.requests[id].(stage := t.requests[id].stage))
    && (forall id :: IsRotated(t, id) ==> IsRotated(s, id))
    && (forall id :: Unanswered(t, id) ==> Unanswered(s, id))
  }

  /** Fewer sessions, or a request moving on without a rotation, keeps the invariant. */
  lemma LessKeepsInv(s: State, t: State)
    requires Inv(s) && IsLess(s, t)
    ensures Inv(t)
  {
  }

  lemma SwapKeepsInv(s: State, id: RequestId)
    requires Inv(s) && At(s, id, Swapping) && Holds(s.sessions, s.requests[id].sid, s.requests[id].presented)
    ensures Inv(DoSwap(s, id))
  {
    assert Unanswered(s, id);
    SwapMoves(s, id);
    hide IsRotated, Unanswered;
    SwapKeepsApart(s, id);
    SwapKeepsRotated(s, id);
    SwapKeepsFresh(s, id);
  }

  /** Who is rotated and who is unanswered after a swap. */
  lemma SwapMoves(s: State, id: RequestId)
    requires At(s, id, Swapping) && Holds(s.sessions, s.requests[id].sid, s.requests[id].presented)
    ensures var t, r := DoSwap(s, id), s.requests[id];
            && (forall a :: IsRotated(t, a) <==> IsRotated(s, a) || a == id)
            && (forall a :: Unanswered(t, a) <==> Unanswered(s, a) && a != id)
            && t.requests.Keys == s.requests.Keys
            && (forall a :: a in s.requests ==> t.requests[a] == s.requests[a].(stage := t.requests[a].stage))
            && t.sessions == s.sessions[r.sid := s.sessions[r.sid].(hash := r.replacement)]
            && t.issued == s.issued && t.known == s.known
  {
  }

  lemma SwapKeepsApart(s: State, id: RequestId)
    requires Inv(s) && At(s, id, Swapping) && Holds(s.sessions, s.requests[id].sid, s.requests[id].presented)
    ensures TokensAreApart(DoSwap(s, id))
  {
    assert Unanswered(s, id);
    SwapMoves(s, id);
    hide DoSwap, IsRotated, Unanswered, RotatedOnce;
  }

  lemma SwapKeepsRotated(s: State, id: RequestId)
    requires Inv(s) && At(s, id, Swapping) && Holds(s.sessions, s.requests[id].sid, s.requests[id].presented)
    ensures RotatedOnce(DoSwap(s, id))
  {
    assert Unanswered(s, id);
    assert forall a :: IsRotated(s, a) || Unanswered(s, a) ==> a in s.requests;
    SwapMoves(s, id);
    hide DoSwap, IsRotated, Unanswered;
  }

  lemma SwapKeepsFresh(s: State, id: RequestId)
    requires Inv(s) && At(s, id, Swapping) && Holds(s.sessions, s.requests[id].sid, s.requests[id].presented)
    ensures ReplacementsAreFresh(DoSwap(s, id))
  {
    assert Unanswered(s, id);
    assert forall a :: IsRotated(s, a) || Unanswered(s, a) ==> a in s.requests;
    SwapMoves(s, id);
    hide DoSwap, IsRotated, Unanswered, RotatedOnce;
  }

  lemma LostCommitKeepsInv(s: State, id: RequestId)
    requires Inv(s) && CanHappen(s, LostCommit(id))
    ensures Inv(Next(s, LostCommit(id)))
  {
    hide Inv;
    SwapKeepsInv(s, id);
    LessKeepsInv(DoSwap(s, id), Next(s, LostCommit(id)));
  }

  lemma AskKeepsInv(s: State, e: Event)
    requires Inv(s) && e.Ask? && CanHappen(s, e)
    ensures Inv(Next(s, e))
  {
    var t := Next(s, e);
    assert forall a :: IsRotated(t, a) <==> IsRotated(s, a);
    assert forall a :: Unanswered(t, a) <==> Unanswered(s, a) || a == e.id;
  }

  lemma CreateKeepsInv(s: State, e: Event)
    requires Inv(s) && e.Create? && CanHappen(s, e)
    ensures Inv(Next(s, e))
  {
    var t := Next(s, e);
    assert forall a :: IsRotated(t, a) <==> IsRotated(s, a);
    assert forall a :: Unanswered(t, a) <==> Unanswered(s, a);
  }

  lemma StepKeepsInv(s: State, e: Event)
    requires Inv(s) && CanHappen(s, e)
    ensures Inv(Next(s, e))
  {
    hide Inv, Remember, WithinGrace, Live, SessionsOf, IsLess;
    match e
    case Create(_, _) => CreateKeepsInv(s, e);
    case Ask(_, _, _, _, _) => AskKeepsInv(s, e);
    case Swap(id) =>
      if Holds(s.sessions, s.requests[id].sid, s.requests[id].presented) {
        SwapKeepsInv(s, id);
      } else {
        LessAfter(s, e);
        LessKeepsInv(s, Next(s, e));
      }
    case LostCommit(id) => LostCommitKeepsInv(s, id);
    case _ =>
      LessAfter(s, e);
      LessKeepsInv(s, Next(s, e));
  }

  lemma LessAfter(s: State, e: Event)
    requires CanHappen(s, e) && !e.Create? && !e.Ask? && !e.LostCommit?
    requires e.Swap? ==> !Holds(s.sessions, s.requests[e.id].sid, s.requests[e.id].presented)
    ensures IsLess(s, Next(s, e))
  {
    if e.Delete? || e.ChangePassword? || e.Tick? || e.Abort? {
      hide SessionsOf;
    } else {
      MovingOnIsLess(s, e);
      hide IsLess;
    }
  }

  lemma MovingOnIsLess(s: State, e: Event)
    requires CanHappen(s, e) && (e.Read? || e.Swap? || e.CheckGrace? || e.Recheck? || e.Revoke?)
    requires e.Swap? ==> !Holds(s.sessions, s.requests[e.id].sid, s.requests[e.id].presented)
    ensures IsLess(s, Next(s, e))
  {
    hide Remember, WithinGrace, Live, IsLess, IsRotated;
    var t := Next(s, e);
    MoveIsLess(s, t, e.id, t.requests[e.id].stage);
  }

  lemma MoveIsLess(s: State, t: State, id: RequestId, stage: Stage)
    requires Unanswered(s, id) && stage != Answered(Rotated)
    requires t.requests == s.requests[id := s.requests[id].(stage := stage)]
    requires s.issued == t.issued && s.known == t.known
    requires forall i :: i in t.sessions ==> i in s.sessions && t.sessions[i] == s.sessions[i]
    ensures IsLess(s, t)
  {
    assert forall a :: a in t.requests && a != id ==> t.requests[a] == s.requests[a];
  }

  // ---------------------------------------------------------------- runs

  ghost predicate IsRun(ss: seq<State>, es: seq<Event>) {
    && |ss| == |es| + 1
    && forall k :: 0 <= k < |es| ==> CanHappen(ss[k], es[k]) && ss[k + 1] == Next(ss[k], es[k])
  }

  lemma {:induction false} RunKeepsInv(ss: seq<State>, es: seq<Event>, k: nat)
    requires IsRun(ss, es) && ss[0] == NOTHING && k < |ss|
    ensures Inv(ss[k])
    decreases k
  {
    hide Inv, CanHappen, Next;
    if k == 0 {
      NothingIsSound();
    } else {
      RunKeepsInv(ss, es, k - 1);
      StepKeepsInv(ss[k - 1], es[k - 1]);
    }
  }

  /** However requests interleave, a refresh token is answered "rotated" at most once. */
  lemma EachTokenRotatesOnce(ss: seq<State>, es: seq<Event>, k: nat, a: RequestId, b: RequestId)
    requires IsRun(ss, es) && ss[0] == NOTHING && k < |ss|
    requires IsRotated(ss[k], a) && IsRotated(ss[k], b) && a != b
    ensures ss[k].requests[a].presented != ss[k].requests[b].presented
  {
    hide IsRun;
    RunKeepsInv(ss, es, k);
  }

  /** A session's stored hash changes only by the swap of a request that presented it, to that
      request's replacement; and the request is answered "rotated" exactly when it was not
      cancelled inside its commit. */
  lemma OnlyRotationChangesTheHash(s: State, e: Event, sid: Sid)
    requires Inv(s) && CanHappen(s, e) && sid in s.sessions && sid in Next(s, e).sessions
    requires Next(s, e).sessions[sid].hash != s.sessions[sid].hash
    ensures (e.Swap? || e.LostCommit?) && At(s, e.id, Swapping) && s.requests[e.id].sid == sid
    ensures s.requests[e.id].presented == s.sessions[sid].hash
    ensures Next(s, e).sessions[sid].hash == s.requests[e.id].replacement
    ensures IsRotated(Next(s, e), e.id) <==> !e.LostCommit?
  {
  }

  /** A password change ends the user's sessions but the kept one, and nobody else's. */
  lemma PasswordChangeEnds(s: State, user: UserId, keep: Option<Sid>, sid: Sid)
    requires sid in s.sessions
    ensures var now := Next(s, ChangePassword(user, keep)).sessions;
            && (sid in now <==> s.sessions[sid].user != user || keep == Some(sid))
            && (sid in now ==> now[sid] == s.sessions[sid])
  {
  }

  lemma GoneStaysGone(s: State, e: Event, sid: Sid)
    requires CanHappen(s, e) && sid in s.known && sid !in s.sessions
    ensures sid in Next(s, e).known && sid !in Next(s, e).sessions
    ensures forall id :: id in Next(s, e).requests && Next(s, e).requests[id].sid == sid
              && (id !in s.requests || s.requests[id] != Next(s, e).requests[id])
              ==> Next(s, e).requests[id].stage != Answered(Rotated) && Next(s, e).requests[id].stage != Answered(Grace)
  {
    hide Remember, WithinGrace, SessionsOf;
  }

  /** Once a session is gone (logout, password change, reuse) no request that is answered
      later is answered "rotated" or "grace". */
  lemma {:induction false} NoTokensAfterDeletion(ss: seq<State>, es: seq<Event>, i: nat, j: nat, sid: Sid,
                                                 id: RequestId)
    requires IsRun(ss, es) && i <= j < |ss| && sid in ss[i].known && sid !in ss[i].sessions
    requires id in ss[j].requests && ss[j].requests[id].sid == sid
    requires id in ss[i].requests ==> !ss[i].requests[id].stage.Answered?
    ensures sid in ss[j].known && sid !in ss[j].sessions
    ensures ss[j].requests[id].stage != Answered(Rotated) && ss[j].requests[id].stage != Answered(Grace)
    decreases j - i
  {
    hide CanHappen, Next;
    if i < j {
      GoneRunStaysGone(ss, es, i, j - 1, sid);
      GoneStaysGone(ss[j - 1], es[j - 1], sid);
      if id in ss[j - 1].requests && ss[j - 1].requests[id] == ss[j].requests[id] {
        NoTokensAfterDeletion(ss, es, i, j - 1, sid, id);
      }
    }
  }

  /** From a logout, or the revocation of a reused token, on: whoever of the session's requests had no
      answer yet gets neither. A password change does the same to the user's other sessions. */
  lemma LogoutIsForGood(ss: seq<State>, es: seq<Event>, i: nat, j: nat, sid: Sid, id: RequestId)
    requires IsRun(ss, es) && i < j < |ss| && sid in ss[i].known
    requires || es[i] == Delete(sid)
             || (es[i].Revoke? && ss[i].requests[es[i].id].sid == sid)
             || (es[i].ChangePassword? && es[i].keep != Some(sid)
                 && (sid in ss[i].sessions ==> ss[i].sessions[sid].user == es[i].user))
    requires id in ss[j].requests && ss[j].requests[id].sid == sid
    requires id in ss[i + 1].requests ==> !ss[i + 1].requests[id].stage.Answered?
    ensures sid !in ss[j].sessions
    ensures ss[j].requests[id].stage != Answered(Rotated) && ss[j].requests[id].stage != Answered(Grace)
  {
    DeletedNow(ss[i], es[i], sid);
    hide CanHappen, Next;
    NoTokensAfterDeletion(ss, es, i + 1, j, sid, id);
  }

  lemma DeletedNow(s: State, e: Event, sid: Sid)
    requires CanHappen(s, e) && sid in s.known
    requires || e == Delete(sid)
             || (e.Revoke? && s.requests[e.id].sid == sid)
             || (e.ChangePassword? && e.keep != Some(sid) && (sid in s.sessions ==> s.sessions[sid].user == e.user))
    ensures sid in Next(s, e).known && sid !in Next(s, e).sessions
    ensures e == Delete(sid) ==> Next(s, e).sessions == s.sessions - {sid}
  {
  }

  lemma {:induction false} GoneRunStaysGone(ss: seq<State>, es: seq<Event>, i: nat, j: nat, sid: Sid)
    requires IsRun(ss, es) && i <= j < |ss| && sid in ss[i].known && sid !in ss[i].sessions
    ensures sid in ss[j].known && sid !in ss[j].sessions
    decreases j - i
  {
    hide CanHappen, Next;
    if i < j {
      GoneRunStaysGone(ss, es, i, j - 1, sid);
      GoneStaysGone(ss[j - 1], es[j - 1], sid);
    }
  }

  // ---------------------------------------------------------------- expired sessions

  /** The session has ended, or will by then. */
  ghost predicate EndsBy(s: State, sid: Sid, expires: int) {
    sid in s.known && (sid in s.sessions ==> s.sessions[sid].expires <= expires)
  }

  /** Past its end no request reads a session as its own, and no re-check finds it valid. */
  lemma StepAfterExpiry(s: State, e: Event, sid: Sid, id: RequestId)
    requires CanHappen(s, e) && EndsBy(s, sid, s.wall)
    requires id in Next(s, e).requests && Next(s, e).requests[id].sid == sid
    ensures var stage := Next(s, e).requests[id].stage;
            && (stage == Swapping || stage == Answered(Grace) ==>
                  id in s.requests && s.requests[id] == Next(s, e).requests[id])
            && (stage == Answered(Rotated) ==>
                  id in s.requests && s.requests[id].sid == sid
                  && (s.requests[id].stage == Swapping || s.requests[id].stage == Answered(Rotated)))
  {
    hide Remember, WithinGrace, SessionsOf;
  }

  lemma StillEnds(s: State, e: Event, sid: Sid, expires: int)
    requires CanHappen(s, e) && EndsBy(s, sid, expires)
    ensures EndsBy(Next(s, e), sid, expires)
  {
    hide Remember, WithinGrace, SessionsOf;
  }

  lemma {:induction false} RunStillEnds(ss: seq<State>, es: seq<Event>, i: nat, j: nat, sid: Sid, expires: int)
    requires IsRun(ss, es) && i <= j < |ss| && EndsBy(ss[i], sid, expires)
    ensures EndsBy(ss[j], sid, expires)
    decreases j - i
  {
    if i < j {
      hide CanHappen, Next, EndsBy;
      RunStillEnds(ss, es, i, j - 1, sid, expires);
      StillEnds(ss[j - 1], es[j - 1], sid, expires);
    }
  }

  lemma EndsAlready(ss: seq<State>, es: seq<Event>, i: nat, j: nat, sid: Sid)
    requires IsRun(ss, es) && i <= j < |ss| && sid in ss[i].known
    requires sid in ss[i].sessions ==> ss[i].sessions[sid].expires <= ss[j].wall
    ensures EndsBy(ss[j], sid, ss[j].wall)
  {
    hide CanHappen, Next;
    RunStillEnds(ss, es, i, j, sid, if sid in ss[i].sessions then ss[i].sessions[sid].expires else ss[j].wall);
  }

  /** Over any stretch of a run in which the wall clock shows that a session has expired: only a
      request that had read the session before, and is at its swap, can still be rotated, and none
      gets "grace", however far it had come. */
  lemma {:induction false} NothingAfterExpiry(ss: seq<State>, es: seq<Event>, i: nat, j: nat, sid: Sid, id: RequestId)
    requires IsRun(ss, es) && i <= j < |ss| && sid in ss[i].known
    requires sid in ss[i].sessions ==> forall k :: i <= k <= j ==> ss[i].sessions[sid].expires <= ss[k].wall
    requires id in ss[j].requests && ss[j].requests[id].sid == sid
    ensures var stage := ss[j].requests[id].stage;
            && (stage == Answered(Grace) ==> id in ss[i].requests && ss[i].requests[id].stage == Answered(Grace))
            && (stage == Swapping ==> id in ss[i].requests && ss[i].requests[id].stage == Swapping)
            && (stage == Answered(Rotated) ==>
                  id in ss[i].requests
                  && (ss[i].requests[id].stage == Swapping || ss[i].requests[id].stage == Answered(Rotated)))
    decreases j - i
  {
    hide CanHappen, Next, EndsBy;
    if i < j {
      var s := ss[j - 1];
      assert sid in ss[i].sessions ==> ss[i].sessions[sid].expires <= s.wall;
      EndsAlready(ss, es, i, j - 1, sid);
      StepAfterExpiry(s, es[j - 1], sid, id);
      if id in s.requests && s.requests[id].sid == sid {
        NothingAfterExpiry(ss, es, i, j - 1, sid, id);
      }
    }
  }

  // ---------------------------------------------------------------- retired tokens

  /** A token that was made, that no session stores and no request can still bring in. */
  ghost predicate Retired(s: State, h: Hash) {
    && h in s.issued
    && (forall i :: i in s.sessions ==> s.sessions[i].hash != h)
    && (forall id :: Unanswered(s, id) ==> s.requests[id].replacement != h)
  }

  /** A swap retires the token it compares with, also where its answer is lost. */
  lemma SwapRetires(s: State, e: Event)
    requires Inv(s) && CanHappen(s, e)
    requires e.LostCommit? || (e.Swap? && Holds(s.sessions, s.requests[e.id].sid, s.requests[e.id].presented))
    ensures Retired(Next(s, e), s.requests[e.id].presented)
    ensures forall id :: IsRotated(s, id) ==> s.requests[id].presented != s.requests[e.id].presented
  {
    assert Unanswered(s, e.id);
  }

  /** Every event leaves a retired token retired, and rotates nobody who presented it. */
  lemma StepKeepsRetired(s: State, e: Event, h: Hash)
    requires CanHappen(s, e) && Retired(s, h)
    ensures Retired(Next(s, e), h)
    ensures forall id :: IsRotated(Next(s, e), id) && Next(s, e).requests[id].presented == h ==>
              IsRotated(s, id) && s.requests[id] == Next(s, e).requests[id]
  {
    hide Remember, WithinGrace, Live, SessionsOf;
  }

  /** Over any run, a retired token stays retired, and whoever presented it and is rotated later was
      rotated before. */
  lemma {:induction false} RetiredForGood(ss: seq<State>, es: seq<Event>, i: nat, j: nat, h: Hash)
    requires IsRun(ss, es) && i <= j < |ss| && Retired(ss[i], h)
    ensures Retired(ss[j], h)
    ensures forall id :: IsRotated(ss[j], id) && ss[j].requests[id].presented == h ==>
              IsRotated(ss[i], id) && ss[i].requests[id] == ss[j].requests[id]
    decreases j - i
  {
    if i < j {
      hide CanHappen, Next, Retired, IsRotated;
      RetiredForGood(ss, es, i, j - 1, h);
      StepKeepsRetired(ss[j - 1], es[j - 1], h);
    }
  }

  /** What is remembered of this token was remembered by then. */
  ghost predicate RememberedBy(s: State, h: Hash, since: nat) {
    since <= s.mono && forall i :: i in s.replaced && s.replaced[i].hash == h ==> s.replaced[i].at <= since
  }

  ghost predicate MemoryIsPast(s: State) {
    forall i :: i in s.replaced ==> s.replaced[i].at <= s.mono
  }

  lemma {:induction false} MemoryStaysPast(ss: seq<State>, es: seq<Event>, k: nat)
    requires IsRun(ss, es) && ss[0] == NOTHING && k < |ss|
    ensures MemoryIsPast(ss[k])
    decreases k
  {
    if k > 0 {
      hide CanHappen, Next, MemoryIsPast;
      MemoryStaysPast(ss, es, k - 1);
      StepKeepsMemoryPast(ss[k - 1], es[k - 1]);
    }
  }

  lemma StepKeepsMemoryPast(s: State, e: Event)
    requires CanHappen(s, e) && MemoryIsPast(s)
    ensures MemoryIsPast(Next(s, e))
  {
    hide WithinGrace, Live, SessionsOf;
  }

  lemma StepRemembersNoRetired(s: State, e: Event, h: Hash, since: nat)
    requires CanHappen(s, e) && Retired(s, h) && RememberedBy(s, h, since)
    ensures RememberedBy(Next(s, e), h, since)
  {
    hide WithinGrace, SessionsOf;
  }

  /** A retired token is remembered no longer than the grace window from when it was retired. */
  lemma {:induction false} RetiredOutlivesItsGrace(ss: seq<State>, es: seq<Event>, i: nat, j: nat, h: Hash, sid: Sid)
    requires IsRun(ss, es) && i <= j < |ss| && Retired(ss[i], h) && RememberedBy(ss[i], h, ss[i].mono)
    ensures RememberedBy(ss[j], h, ss[i].mono)
    ensures ss[j].mono >= ss[i].mono + GRACE ==> !WithinGrace(ss[j].replaced, ss[j].mono, sid, h)
    decreases j - i
  {
    hide CanHappen, Next, Retired, RememberedBy, WithinGrace, IsRotated;
    if i < j {
      RetiredOutlivesItsGrace(ss, es, i, j - 1, h, sid);
      RetiredForGood(ss, es, i, j - 1, h);
      StepRemembersNoRetired(ss[j - 1], es[j - 1], h, ss[i].mono);
    }
    NotRememberedLater(ss[j], h, ss[i].mono, sid);
  }

  lemma NotRememberedLater(s: State, h: Hash, since: nat, sid: Sid)
    ensures RememberedBy(s, h, since) && s.mono >= since + GRACE ==> !WithinGrace(s.replaced, s.mono, sid, h)
  {
  }
}
