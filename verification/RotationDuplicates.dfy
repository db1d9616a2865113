/** Duplicate refreshes from one browser: everybody presents the current token. */
module RotationDuplicates {
  import opened Options
  import opened Rotation

  /** The session as it was when the first of the requests arrived. */
  datatype Start = Start(sid: Sid, user: UserId, hash: Hash, expires: int, mono: nat)

  /** What the requests and everybody else do to the session: only ask, with its own token. */
  predicate LeavesAlone(s: State, e: Event, o: Start) {
    match e
    case Ask(_, sid, user, presented, _) => sid == o.sid ==> user == o.user && presented == o.hash
    case Delete(sid) => sid != o.sid
    case ChangePassword(user, keep) => user != o.user || keep == Some(o.sid)
    case _ => true
  }

  /** Not expired, and inside the grace window. */
  predicate InTime(s: State, o: Start) {
    s.wall < o.expires && s.mono < o.mono + GRACE
  }

  /** The step is a compare-and-swap of this session that finds the token it compares with. */
  predicate TakesEffect(s: State, e: Event, o: Start) {
    && (e.Swap? || e.LostCommit?)
    && At(s, e.id, Swapping)
    && s.requests[e.id].sid == o.sid
    && Holds(s.sessions, o.sid, s.requests[e.id].presented)
  }

  predicate IsRotatedOf(s: State, o: Start, id: RequestId) {
    IsRotated(s, id) && s.requests[id].sid == o.sid
  }

  ghost predicate OneRotated(s: State, o: Start) {
    exists w :: IsRotatedOf(s, o, w) && forall id :: IsRotatedOf(s, o, id) ==> id == w
  }

  ghost predicate NoneRotated(s: State, o: Start) {
    forall id :: !IsRotatedOf(s, o, id)
  }

  predicate Remembered(s: State, o: Start) {
    o.sid in s.replaced && s.replaced[o.sid].hash == o.hash && s.replaced[o.sid].at >= o.mono
  }

  predicate Ours(s: State, o: Start, id: RequestId) {
    id in s.requests && s.requests[id].sid == o.sid
  }

  predicate HasItsToken(s: State, o: Start) {
    o.sid in s.sessions && s.sessions[o.sid].hash == o.hash
  }

  /** The session is there. While its hash is the old one nobody has been answered; after that the
      requests are on their way to "grace", or have their answer. */
  ghost predicate Duplicates(s: State, o: Start) {
    && o.sid in s.sessions && s.sessions[o.sid].user == o.user && s.sessions[o.sid].expires == o.expires
    && s.mono >= o.mono && o.hash in s.issued
    && (forall id :: Ours(s, o, id) ==>
          s.requests[id].user == o.user && s.requests[id].presented == o.hash
          && (Unanswered(s, id) ==> s.requests[id].replacement != o.hash))
    && (forall id :: Ours(s, o, id) && s.requests[id].stage != Asked ==> Remembered(s, o))
    && (if HasItsToken(s, o) then
          forall id :: Ours(s, o, id) ==> s.requests[id].stage == Asked || s.requests[id].stage == Swapping
        else
          && Remembered(s, o)
          && forall id :: Ours(s, o, id) ==>
               s.requests[id].stage != Revoking && s.requests[id].stage != Answered(Invalid)
               && s.requests[id].stage != Answered(Reused))
  }

  // ---------------------------------------------------------------- every step keeps it

  /** The request that wins the compare-and-swap, whether it learns so or not. */
  lemma WinnerKeepsDuplicates(s: State, e: Event, o: Start)
    requires Duplicates(s, o) && CanHappen(s, e) && TakesEffect(s, e, o)
    ensures HasItsToken(s, o) && Duplicates(Next(s, e), o) && !HasItsToken(Next(s, e), o)
  {
    assert Unanswered(s, e.id) && Ours(s, o, e.id);
    assert forall a :: Ours(Next(s, e), o, a) ==> Ours(s, o, a);
  }

  /** A step of one of the requests that does not change the session. */
  lemma OurStep(s: State, e: Event, o: Start)
    requires Duplicates(s, o) && InTime(s, o) && CanHappen(s, e) && !TakesEffect(s, e, o)
    requires e.Read? || e.Swap? || e.CheckGrace? || e.Recheck? || e.Revoke?
    requires s.requests[e.id].sid == o.sid
    ensures Duplicates(Next(s, e), o)
  {
    hide Duplicates;
    OursIs(s, o, e.id);
    match e
    case Read(id) => ReadKeeps(s, o, id);
    case Swap(id) => MovingKeeps(s, o, id, Late);
    case CheckGrace(id) => MovingKeeps(s, o, id, Rechecking);
    case Recheck(id) => MovingKeeps(s, o, id, Answered(Grace));
    case Revoke(_) =>
  }

  /** What the invariant says of one of the requests. */
  lemma OursIs(s: State, o: Start, id: RequestId)
    requires Duplicates(s, o) && Ours(s, o, id)
    ensures o.sid in s.sessions && s.sessions[o.sid].user == o.user && s.sessions[o.sid].expires == o.expires
    ensures s.requests[id].user == o.user && s.requests[id].presented == o.hash
    ensures s.requests[id].stage != Revoking && (s.requests[id].stage != Asked ==> Remembered(s, o))
    ensures HasItsToken(s, o) ==> s.requests[id].stage == Asked || s.requests[id].stage == Swapping
  {
  }

  lemma MovingKeeps(s: State, o: Start, id: RequestId, stage: Stage)
    requires Duplicates(s, o) && Ours(s, o, id) && Unanswered(s, id) && !HasItsToken(s, o)
    requires stage == Late || stage == Rechecking || stage == Answered(Grace)
    ensures Duplicates(Move(s, id, stage), o)
  {
    var t := Move(s, id, stage);
    assert forall a :: Ours(t, o, a) <==> Ours(s, o, a);
  }

  lemma ReadKeeps(s: State, o: Start, id: RequestId)
    requires Duplicates(s, o) && InTime(s, o) && Ours(s, o, id) && s.requests[id].stage == Asked
    ensures Duplicates(DoRead(s, id), o)
  {
    if HasItsToken(s, o) {
      var t := DoRead(s, id);
      assert forall a :: Ours(t, o, a) <==> Ours(s, o, a);
    } else {
      MovingKeeps(s, o, id, Late);
    }
  }

  predicate ByAnother(s: State, e: Event, o: Start)
    requires CanHappen(s, e)
  {
    e.Read? || e.Swap? || e.CheckGrace? || e.Recheck? || e.Revoke? || e.LostCommit? ==> s.requests[e.id].sid != o.sid
  }

  lemma OthersLeaveSession(s: State, e: Event, o: Start)
    requires CanHappen(s, e) && LeavesAlone(s, e, o) && ByAnother(s, e, o)
    requires o.sid in s.sessions && s.sessions[o.sid].user == o.user && (e.Create? ==> e.sid != o.sid)
    ensures o.sid in Next(s, e).sessions && Next(s, e).sessions[o.sid] == s.sessions[o.sid]
  {
  }

  lemma OthersLeaveMemory(s: State, e: Event, o: Start)
    requires CanHappen(s, e) && ByAnother(s, e, o) && Remembered(s, o) && InTime(s, o) && s.mono >= o.mono
    ensures Remembered(Next(s, e), o)
  {
  }

  lemma OthersLeaveRequests(s: State, e: Event, o: Start, id: RequestId)
    requires CanHappen(s, e) && ByAnother(s, e, o) && LeavesAlone(s, e, o) && Ours(Next(s, e), o, id)
    ensures (Ours(s, o, id) && Next(s, e).requests[id] == s.requests[id])
            || (e.Ask? && Next(s, e).requests[id] == Request(o.sid, o.user, o.hash, e.replacement, Asked))
  {
  }

  lemma IssuedGrows(s: State, e: Event)
    requires CanHappen(s, e)
    ensures s.issued <= Next(s, e).issued && s.mono <= Next(s, e).mono
    ensures e.Ask? ==> e.replacement !in s.issued
    ensures TokensAreApart(s) && e.Create? ==> e.sid !in s.sessions
  {
  }

  /** A step of somebody else. */
  lemma OthersStep(s: State, e: Event, o: Start)
    requires Inv(s) && Duplicates(s, o) && InTime(s, o) && CanHappen(s, e)
    requires LeavesAlone(s, e, o) && ByAnother(s, e, o)
    ensures Duplicates(Next(s, e), o)
  {
    hide Next, CanHappen, Remembered, TokensAreApart, ReplacementsAreFresh, RotatedOnce, LeavesAlone, InTime;
    IssuedGrows(s, e);
    OthersLeaveSession(s, e, o);
    if Remembered(s, o) {
      OthersLeaveMemory(s, e, o);
    }
    forall id | Ours(Next(s, e), o, id)
      ensures (Ours(s, o, id) && Next(s, e).requests[id] == s.requests[id])
              || (e.Ask? && Next(s, e).requests[id] == Request(o.sid, o.user, o.hash, e.replacement, Asked))
    {
      OthersLeaveRequests(s, e, o, id);
    }
  }

  lemma StepKeepsDuplicates(s: State, e: Event, o: Start)
    requires Inv(s) && Duplicates(s, o) && InTime(s, o) && CanHappen(s, e) && LeavesAlone(s, e, o)
    ensures Duplicates(Next(s, e), o)
    ensures HasItsToken(Next(s, e), o) <==> HasItsToken(s, o) && !TakesEffect(s, e, o)
  {
    hide Inv, Duplicates, Next, InTime, LeavesAlone;
    if TakesEffect(s, e, o) {
      WinnerKeepsDuplicates(s, e, o);
    } else {
      if (e.Read? || e.Swap? || e.CheckGrace? || e.Recheck? || e.Revoke?) && s.requests[e.id].sid == o.sid {
        OurStep(s, e, o);
      } else {
        OthersStep(s, e, o);
      }
      TokenStays(s, e, o);
    }
  }

  /** Only a swap that takes effect replaces the session's token, and nothing brings it back. */
  lemma TokenStays(s: State, e: Event, o: Start)
    requires Inv(s) && Duplicates(s, o) && CanHappen(s, e) && LeavesAlone(s, e, o) && !TakesEffect(s, e, o)
    requires Duplicates(Next(s, e), o)
    ensures HasItsToken(Next(s, e), o) <==> HasItsToken(s, o)
  {
    hide Remember, WithinGrace, Remembered, SessionsOf;
  }

  // ---------------------------------------------------------------- runs

  /** A run in which the session is left alone and time does not run out. */
  ghost predicate IsDuplicateRun(ss: seq<State>, es: seq<Event>, o: Start) {
    && IsRun(ss, es) && Inv(ss[0])
    && o.sid in ss[0].sessions && ss[0].sessions[o.sid] == Session(o.user, o.hash, o.expires) && ss[0].mono == o.mono
    && (forall id :: id in ss[0].requests ==> ss[0].requests[id].sid != o.sid)
    && (forall k :: 0 <= k < |ss| ==> InTime(ss[k], o))
    && (forall k :: 0 <= k < |es| ==> LeavesAlone(ss[k], es[k], o))
  }

  lemma {:induction false} DuplicateRunKeeps(ss: seq<State>, es: seq<Event>, o: Start, k: nat)
    requires IsDuplicateRun(ss, es, o) && k < |ss|
    ensures Inv(ss[k]) && Duplicates(ss[k], o)
    decreases k
  {
    hide CanHappen, Next, LeavesAlone, InTime;
    if k > 0 {
      hide Inv, Duplicates;
      DuplicateRunKeeps(ss, es, o, k - 1);
      StepKeepsInv(ss[k - 1], es[k - 1]);
      StepKeepsDuplicates(ss[k - 1], es[k - 1], o);
    }
  }

  /** The step w is the one swap before k that took effect, and who knows of it. */
  ghost predicate OneEffect(ss: seq<State>, es: seq<Event>, o: Start, k: nat, w: nat)
    requires k <= |es| && |ss| == |es| + 1
  {
    && w < k && TakesEffect(ss[w], es[w], o)
    && (forall j :: 0 <= j < k && TakesEffect(ss[j], es[j], o) ==> j == w)
    && (forall id :: IsRotatedOf(ss[k], o, id) <==> es[w].Swap? && id == es[w].id)
  }

  ghost predicate NoEffect(ss: seq<State>, es: seq<Event>, o: Start, k: nat)
    requires k <= |es| && |ss| == |es| + 1
  {
    NoneRotated(ss[k], o) && forall j :: 0 <= j < k ==> !TakesEffect(ss[j], es[j], o)
  }

  /** A step that does not change the session answers none of the requests "rotated". */
  lemma RotatedAfter(s: State, e: Event, o: Start, id: RequestId)
    requires CanHappen(s, e) && !TakesEffect(s, e, o)
    ensures IsRotatedOf(Next(s, e), o, id) <==> IsRotatedOf(s, o, id)
  {
    hide Remember, WithinGrace, Live, SessionsOf;
  }

  /** One that does answers the request itself, or nobody. */
  lemma RotatedByWinner(s: State, e: Event, o: Start, id: RequestId)
    requires CanHappen(s, e) && TakesEffect(s, e, o)
    ensures IsRotatedOf(Next(s, e), o, id) <==> IsRotatedOf(s, o, id) || (e.Swap? && id == e.id)
  {
  }

  lemma {:induction false} SwapsSoFar(ss: seq<State>, es: seq<Event>, o: Start, k: nat) returns (w: nat)
    requires IsDuplicateRun(ss, es, o) && k <= |es|
    ensures if HasItsToken(ss[k], o) then NoEffect(ss, es, o, k) else OneEffect(ss, es, o, k, w)
    decreases k
  {
    hide CanHappen, Next, LeavesAlone, InTime, Inv, Duplicates, TakesEffect, IsRotatedOf;
    w := 0;
    if k == 0 {
      NoneAtFirst(ss, es, o);
    } else {
      w := SwapsSoFar(ss, es, o, k - 1);
      DuplicateRunKeeps(ss, es, o, k - 1);
      var s, e := ss[k - 1], es[k - 1];
      StepKeepsDuplicates(s, e, o);
      if TakesEffect(s, e, o) {
        w := k - 1;
        WinnerKeepsDuplicates(s, e, o);
        forall id { RotatedByWinner(s, e, o, id); }
        hide HasItsToken;
      } else {
        forall id { RotatedAfter(s, e, o, id); }
        hide HasItsToken;
      }
    }
  }

  lemma NoneAtFirst(ss: seq<State>, es: seq<Event>, o: Start)
    requires IsDuplicateRun(ss, es, o)
    ensures HasItsToken(ss[0], o) && NoneRotated(ss[0], o)
  {
  }

  /** However duplicates of one refresh interleave, with each other and with everything done to other
      sessions, and wherever any of them is cancelled: as soon as one is answered, exactly one swap
      has taken effect. Its request was answered "rotated", the only one to be, unless it was
      cancelled inside its commit, when none is. Every other answer is an access token only, and the
      session is still there. */
  lemma OneSwapTakesEffect(ss: seq<State>, es: seq<Event>, o: Start)
    requires IsDuplicateRun(ss, es, o)
    ensures o.sid in ss[|es|].sessions
    ensures forall id :: Ours(ss[|es|], o, id) && ss[|es|].requests[id].stage.Answered? ==>
              ss[|es|].requests[id].stage == Answered(Rotated) || ss[|es|].requests[id].stage == Answered(Grace)
    ensures (exists id :: Ours(ss[|es|], o, id) && ss[|es|].requests[id].stage.Answered?) ==>
              exists w: nat :: OneEffect(ss, es, o, |es|, w)
    ensures NoEffect(ss, es, o, |es|) || exists w: nat :: OneEffect(ss, es, o, |es|, w)
  {
    hide CanHappen, Next, Inv, IsDuplicateRun, OneEffect, NoEffect;
    DuplicateRunKeeps(ss, es, o, |es|) by { RunLengths(ss, es, o); }
    RunLengths(ss, es, o);
    var s := ss[|es|];
    var w := SwapsSoFar(ss, es, o, |es|);
    forall id | Ours(s, o, id) && s.requests[id].stage.Answered?
      ensures s.requests[id].stage == Answered(Rotated) || s.requests[id].stage == Answered(Grace)
    {
      var answer := s.requests[id].stage.answer;
      assert answer.Rotated? || answer.Grace? || answer.Invalid? || answer.Reused?;
    }
  }

  lemma RunLengths(ss: seq<State>, es: seq<Event>, o: Start)
    requires IsDuplicateRun(ss, es, o)
    ensures |ss| == |es| + 1
  {
  }

  /** Where none of them is cancelled inside a commit that took effect: once they are all answered,
      exactly one got a new token, all others an access token only. */
  lemma OneDuplicateRotates(ss: seq<State>, es: seq<Event>, o: Start)
    requires IsDuplicateRun(ss, es, o)
    requires forall k :: 0 <= k < |es| && es[k].LostCommit? ==> !TakesEffect(ss[k], es[k], o)
    ensures var s := ss[|es|];
            && o.sid in s.sessions
            && (forall id :: Ours(s, o, id) && s.requests[id].stage.Answered? ==>
                  s.requests[id].stage == Answered(Rotated) || s.requests[id].stage == Answered(Grace))
            && ((exists id :: Ours(s, o, id)) && (forall id :: Ours(s, o, id) ==> s.requests[id].stage.Answered?) ==>
                  OneRotated(s, o))
  {
    hide CanHappen, Next, Inv, TakesEffect;
    OneSwapTakesEffect(ss, es, o);
    var s := ss[|es|];
    if id :| Ours(s, o, id) && s.requests[id].stage.Answered? {
      var w: nat :| OneEffect(ss, es, o, |es|, w);
      EffectIsASwap(ss[w], es[w], o);
      assert IsRotatedOf(s, o, es[w].id);
    }
  }

  lemma EffectIsASwap(s: State, e: Event, o: Start)
    requires TakesEffect(s, e, o)
    ensures e.Swap? || e.LostCommit?
  {
  }
}
