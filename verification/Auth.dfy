/** Rotation as the code runs it for one request that nothing else overtakes. */
module Auth {
  import opened Options
  import opened Rotation

  /** The step a request takes next. */
  function EventFor(s: State, id: RequestId): Event
    requires Unanswered(s, id)
  {
    match s.requests[id].stage
    case Asked => Read(id)
    case Swapping => Swap(id)
    case Late => CheckGrace(id)
    case Rechecking => Recheck(id)
    case Revoking => Revoke(id)
  }

  function Rank(stage: Stage): nat {
    match stage
    case Asked => 4
    case Swapping => 3
    case Late => 2
    case Rechecking => 1
    case Revoking => 1
    case Answered(_) => 0
  }

  /** The request's own steps, one after the other, up to its answer. */
  function Alone(s: State, id: RequestId): State
    requires id in s.requests
    decreases Rank(s.requests[id].stage)
  {
    if s.requests[id].stage.Answered? then s else Alone(Next(s, EventFor(s, id)), id)
  }

  /** What a request gets when nothing comes in between. A session of the user's that has not expired
      rotates for its own token, within the grace window lets the token it replaced last pass, and
      is revoked for any other. */
  lemma AnswerAlone(s: State, id: RequestId)
    requires At(s, id, Asked)
    ensures var r, t := s.requests[id], Alone(s, id);
            var mine := r.sid in s.sessions && s.wall < s.sessions[r.sid].expires && s.sessions[r.sid].user == r.user;
            var late := r.sid in s.replaced && s.replaced[r.sid].hash == r.presented
                        && s.mono < s.replaced[r.sid].at + 30;
            && t.requests.Keys == s.requests.Keys
            && t.requests[id] == r.(stage := Answered(
                 if !mine then Invalid
                 else if s.sessions[r.sid].hash == r.presented then Rotated
                 else if late then Grace
                 else Reused))
            && t.sessions == (if !mine then s.sessions
                              else if s.sessions[r.sid].hash == r.presented then
                                s.sessions[r.sid := s.sessions[r.sid].(hash := r.replacement)]
                              else if late then s.sessions
                              else s.sessions - {r.sid})
            && t.replaced == if mine && s.sessions[r.sid].hash == r.presented then
                               Remember(s.replaced, s.mono, r.sid, r.presented)
                             else s.replaced
  {
    hide Remember, SessionsOf;
    var s1 := Next(s, Read(id));
    if !s1.requests[id].stage.Answered? {
      var s2 := Next(s1, EventFor(s1, id));
      if !s2.requests[id].stage.Answered? {
        var s3 := Next(s2, EventFor(s2, id));
        assert s3.requests[id].stage.Answered?;
        assert Alone(s3, id) == s3;
      }
      assert Alone(s1, id) == Alone(s2, id);
    }
    assert Alone(s, id) == Alone(s1, id);
  }

  /** A commit whose answer was lost has cost the browser its token. At every later time of any
      run nobody who presented that token is rotated; and a request that comes with it and is alone
      gets an access token at most, only within the grace window from the commit, and ends the
      session after it. */
  lemma ALostCommitCostsTheToken(ss: seq<State>, es: seq<Event>, i: nat, j: nat, again: RequestId)
    requires IsRun(ss, es) && ss[0] == NOTHING && i < j < |ss| && es[i].LostCommit?
    ensures es[i].id in ss[i].requests
    ensures var h := ss[i].requests[es[i].id].presented;
            && (var t := ss[j]; forall id :: IsRotated(t, id) ==> t.requests[id].presented != h)
            && (At(ss[j], again, Asked) && ss[j].requests[again].presented == h ==>
                  GetsNoToken(ss[j], again, ss[j].mono >= ss[i].mono + GRACE))
  {
    hide CanHappen, Next, Inv, Retired, RememberedBy, Alone;
    LostCommitRetires(ss, es, i);
    var h := ss[i].requests[es[i].id].presented;
    RetiredForGood(ss, es, i + 1, j, h);
    if At(ss[j], again, Asked) && ss[j].requests[again].presented == h {
      RetiredOutlivesItsGrace(ss, es, i + 1, j, h, ss[j].requests[again].sid);
      RetiredAlone(ss[j], again, ss[j].mono >= ss[i].mono + GRACE);
    }
  }

  /** Run alone, the request is refused, or answered "grace" unless that is over, or ends its session. */
  predicate GetsNoToken(s: State, id: RequestId, graceIsOver: bool)
    requires At(s, id, Asked)
  {
    var r, t := s.requests[id], Alone(s, id);
    && id in t.requests
    && if !Live(s.sessions, s.wall, r.sid) || s.sessions[r.sid].user != r.user then
         t.requests[id].stage == Answered(Invalid) && t.sessions == s.sessions
       else if t.requests[id].stage == Answered(Grace) then !graceIsOver && t.sessions == s.sessions
       else t.requests[id].stage == Answered(Reused) && t.sessions == s.sessions - {r.sid}
  }

  lemma RetiredAlone(s: State, id: RequestId, graceIsOver: bool)
    requires At(s, id, Asked) && Retired(s, s.requests[id].presented)
    requires graceIsOver ==> !WithinGrace(s.replaced, s.mono, s.requests[id].sid, s.requests[id].presented)
    ensures GetsNoToken(s, id, graceIsOver)
  {
    AnswerAlone(s, id);
    hide Alone, WithinGrace;
  }

  lemma LostCommitRetires(ss: seq<State>, es: seq<Event>, i: nat)
    requires IsRun(ss, es) && ss[0] == NOTHING && i < |es| && es[i].LostCommit?
    ensures es[i].id in ss[i].requests && ss[i + 1].mono == ss[i].mono
    ensures var h := ss[i].requests[es[i].id].presented;
            && Retired(ss[i + 1], h) && RememberedBy(ss[i + 1], h, ss[i + 1].mono)
            && var v := ss[i + 1];
               forall id :: IsRotated(v, id) ==> v.requests[id].presented != h
  {
    hide Inv, Retired;
    RunKeepsInv(ss, es, i);
    SwapRetires(ss[i], es[i]);
    MemoryStaysPast(ss, es, i + 1);
  }

  const KEPT := Session(0, 10, 100)
  const FIRST := Request(0, 0, 10, 11, Asked)
  const AGAIN := Request(0, 0, 10, 12, Asked)
  const ASKED := State(map[0 := KEPT], map[], map[0 := FIRST], 0, 0, {0}, {10, 11})
  const LOST := State(map[0 := KEPT.(hash := 11)], map[0 := Replaced(10, 0)], map[], 0, 0, {0}, {10, 11})

  /** It does happen: a session is made and refreshed, and the refresh is cancelled inside its commit:
      the stored hash has changed, and nobody is rotated. */
  lemma ALostCommitChangesTheHash() returns (ss: seq<State>, es: seq<Event>)
    ensures IsRun(ss, es) && ss[0] == NOTHING && |es| == 4 && es[3] == LostCommit(0)
    ensures ss[3].sessions == map[0 := KEPT] && ss[4] == LOST && LOST.sessions[0].hash != KEPT.hash
    ensures forall id :: !IsRotated(LOST, id)
  {
    var swapping := ASKED.(requests := map[0 := FIRST.(stage := Swapping)], replaced := map[0 := Replaced(10, 0)]);
    es := [Create(0, KEPT), Ask(0, 0, 0, 10, 11), Read(0), LostCommit(0)];
    ss := [NOTHING, ASKED.(requests := map[], issued := {10}), ASKED, swapping, LOST];
    assert Next(ss[0], es[0]) == ss[1] && Next(ss[1], es[1]) == ss[2];
    assert Next(ss[2], es[2]) == ss[3];
    assert Next(ss[3], es[3]) == ss[4];
  }

  /** Half a minute later the browser tries again with the only token it has: the session is gone. */
  lemma ALostCommitSignsTheUserOut() returns (ss: seq<State>, es: seq<Event>)
    ensures IsRun(ss, es) && ss[0] == LOST && es == [Tick(30, 30), Ask(1, 0, 0, 10, 12)]
    ensures At(ss[2], 1, Asked) && 1 in Alone(ss[2], 1).requests
    ensures Alone(ss[2], 1).requests[1].stage == Answered(Reused) && Alone(ss[2], 1).sessions == map[]
  {
    var later := LOST.(mono := 30, wall := 30);
    var asked := later.(requests := map[1 := AGAIN], issued := {10, 11, 12});
    es := [Tick(30, 30), Ask(1, 0, 0, 10, 12)];
    ss := [LOST, later, asked];
    assert Next(LOST, es[0]) == later && Next(later, es[1]) == asked;
    AnswerAlone(asked, 1);
    hide Alone;
  }

  class Store {
    var sessions: map<Sid, Session>
    var replaced: map<Sid, Replaced>
    var mono: nat
    var wall: int

    /** The state a new request sees, under number 0. */
    function Facing(sid: Sid, user: UserId, presented: Hash, replacement: Hash): State
      reads this
    {
      State(sessions, replaced, map[0 := Request(sid, user, presented, replacement, Asked)], mono, wall, {}, {})
    }

    /** _remember_replaced */
    method RememberReplaced(sid: Sid, hash: Hash)
      modifies this`replaced
      ensures replaced == Remember(old(replaced), mono, sid, hash)
      ensures forall s :: s in replaced <==> s == sid || (s in old(replaced) && mono < old(replaced)[s].at + 30)
      ensures forall s :: s in replaced ==> replaced[s] == if s == sid then Replaced(hash, mono) else old(replaced)[s]
    {
      var stale := set s | s in replaced && mono - replaced[s].at >= GRACE;
      var todo := stale;
      while todo != {}
        invariant todo <= stale && replaced == old(replaced) - (stale - todo)
        decreases todo
      {
        var s :| s in todo;
        replaced := replaced - {s};
        todo := todo - {s};
      }
      replaced := replaced[sid := Replaced(hash, mono)];
    }

    /** rotate_refresh_token */
    method RotateRefreshToken(sid: Sid, user: UserId, presented: Hash, replacement: Hash) returns (answer: Answer)
      modifies this`sessions, this`replaced
      ensures var t := Alone(old(Facing(sid, user, presented, replacement)), 0);
              && 0 in t.requests && t.requests[0].stage == Answered(answer)
              && sessions == t.sessions && replaced == t.replaced
      ensures sid !in old(sessions) || old(sessions)[sid].user != user || old(sessions)[sid].expires <= wall ==>
                answer == Invalid && sessions == old(sessions) && replaced == old(replaced)
      ensures answer == Rotated ==>
                && sid in old(sessions) && old(sessions)[sid].hash == presented
                && sessions == old(sessions)[sid := old(sessions)[sid].(hash := replacement)]
                && replaced == Remember(old(replaced), mono, sid, presented)
      ensures answer == Grace ==>
                && sid in old(replaced) && old(replaced)[sid].hash == presented && mono < old(replaced)[sid].at + 30
                && sessions == old(sessions) && replaced == old(replaced)
      ensures answer == Reused ==> sessions == old(sessions) - {sid} && replaced == old(replaced)
    {
      AnswerAlone(Facing(sid, user, presented, replacement), 0);
      hide Alone, Remember;
      if sid !in sessions || sessions[sid].user != user || sessions[sid].expires <= wall {
        return Invalid;
      }
      if sessions[sid].hash == presented {
        RememberReplaced(sid, presented);
        if sid in sessions && sessions[sid].hash == presented {
          sessions := sessions[sid := sessions[sid].(hash := replacement)];
          return Rotated;
        }
      }
      if WithinGrace(replaced, mono, sid, presented) {
        var valid := ValidateSession(sid);
        return if valid then Grace else Invalid;
      }
      DeleteSession(sid);
      return Reused;
    }

    /** validate_session */
    method ValidateSession(sid: Sid) returns (valid: bool)
      ensures valid <==> sid in sessions && sessions[sid].expires > wall
    {
      valid := sid in sessions && sessions[sid].expires > wall;
    }

    /** delete_session */
    method DeleteSession(sid: Sid)
      modifies this`sessions
      ensures sessions == old(sessions) - {sid}
    {
      if sid in sessions {
        sessions := sessions - {sid};
      }
    }

    /** The deletion in change_password: everybody else's sessions of this user. */
    method DeleteSessionsOf(user: UserId, keep: Option<Sid>) returns (revoked: set<Sid>)
      modifies this`sessions
      ensures revoked == SessionsOf(old(Facing(0, 0, 0, 0)), user, keep) && sessions == old(sessions) - revoked
      ensures forall i :: i in old(sessions) ==> (i in revoked <==> old(sessions)[i].user == user && keep != Some(i))
    {
      revoked := set i | i in sessions && sessions[i].user == user && Some(i) != keep;
      sessions := sessions - revoked;
    }
  }
}
