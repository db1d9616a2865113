/** What every run of the pools keeps. */
module PoolTheorems {
  import opened PoolState
  import opened PoolCounts
  import opened PoolWorld

  /** The states of a run, and the events between them. */
  ghost predicate IsRun(ws: seq<World>, es: seq<Event>) {
    && |ws| == |es| + 1
    && (exists path :: ws[0] == Init(path))
    && forall i :: 0 <= i < |es| ==> CanHappen(ws[i], es[i]) && ws[i + 1] == Next(ws[i], es[i])
  }

  lemma {:induction false} RunKeepsInv(ws: seq<World>, es: seq<Event>, i: nat)
    requires IsRun(ws, es) && i < |ws|
    ensures Inv(ws[i])
    decreases i
  {
    hide Inv, Init, Next, CanHappen;
    if i == 0 {
      var path :| ws[0] == Init(path);
      InitIsSound(path);
    } else {
      RunKeepsInv(ws, es, i - 1);
      StepKeepsInv(ws[i - 1], es[i - 1]);
    }
  }

  /** No worker is ever lost sight of: whatever was cancelled, and wherever, a running worker has
      been told to stop, or its connection is registered as started and in the hands of the pool
      it was opened for: live there, inside its handshake, or being closed. */
  lemma NoWorkerIsLost(ws: seq<World>, es: seq<Event>, i: nat, c: Conn)
    requires IsRun(ws, es) && i < |ws| && Works(ws[i], c)
    ensures c in ws[i].started && c in ws[i].home && ws[i].home[c] in ws[i].pools
    ensures HasInHand(ws[i].pools[ws[i].home[c]], c)
  {
    hide IsRun, HasInHand, Works;
    RunKeepsInv(ws, es, i);
  }

  /** Nor does an entry outlive its use: what is registered as started is in a pool's hands. */
  lemma NoEntryIsLeft(ws: seq<World>, es: seq<Event>, i: nat, c: Conn)
    requires IsRun(ws, es) && i < |ws| && c in ws[i].started
    ensures c in ws[i].home && ws[i].home[c] in ws[i].pools && HasInHand(ws[i].pools[ws[i].home[c]], c)
  {
    hide IsRun, HasInHand;
    RunKeepsInv(ws, es, i);
  }

  /** In any two pools, or twice in one, open or closed: a place is a free slot, a granted one or
      a slot holder; no connection of a use is idle; and no two uses have the same. */
  lemma LentOnce(ws: seq<World>, es: seq<Event>, i: nat, a: PoolId, b: PoolId)
    requires IsRun(ws, es) && i < |ws| && a in ws[i].pools && b in ws[i].pools
    ensures var p, q := ws[i].pools[a], ws[i].pools[b];
            && p.slots + |p.granted| + |p.uses| == p.size
            && (forall u :: u in p.uses ==> p.uses[u].conn !in q.idle)
            && (forall u, v :: u in p.uses && v in q.uses && (a != b || u != v) ==> p.uses[u].conn != q.uses[v].conn)
            && Distinct(p.idle) && (a != b ==> forall c :: c in p.idle ==> c !in q.idle)
  {
    hide IsRun;
    RunKeepsInv(ws, es, i);
    LentOnceIn(ws[i], a, b);
  }

  lemma SoundMeans(p: Pool)
    requires Sound(p)
    ensures p.slots + |p.granted| + |p.uses| == p.size && Distinct(p.idle)
    ensures forall u :: u in p.uses ==> p.uses[u].conn !in p.idle
    ensures forall u, v :: u in p.uses && v in p.uses && u != v ==> p.uses[u].conn != p.uses[v].conn
  {
    hide Closing, Distinct;
  }

  lemma LentOnceIn(w: World, a: PoolId, b: PoolId)
    requires PoolsAreApart(w) && PoolsAreSound(w) && a in w.pools && b in w.pools
    ensures var p, q := w.pools[a], w.pools[b];
            && p.slots + |p.granted| + |p.uses| == p.size
            && (forall u :: u in p.uses ==> p.uses[u].conn !in q.idle)
            && (forall u, v :: u in p.uses && v in q.uses && (a != b || u != v) ==> p.uses[u].conn != q.uses[v].conn)
            && Distinct(p.idle) && (a != b ==> forall c :: c in p.idle ==> c !in q.idle)
  {
    var p, q := w.pools[a], w.pools[b];
    SoundMeans(p);
    hide Sound, SoundOpen, Refers, Distinct, PoolsAreApart;
    if a != b {
      forall u | u in p.uses
        ensures p.uses[u].conn !in q.idle && forall v :: v in q.uses ==> p.uses[u].conn != q.uses[v].conn
      {
        OpeningIsReferred(p, u);
        ReferredOnce(w, a, b, p.uses[u].conn);
      }
      forall c | c in p.idle ensures c !in q.idle {
        IdleIsReferred(p, c);
        ReferredOnce(w, a, b, c);
      }
    }
  }

  lemma ReferredOnce(w: World, a: PoolId, b: PoolId, c: Conn)
    requires PoolsAreApart(w) && a in w.pools && b in w.pools && a != b && Refers(w.pools[a], c)
    ensures !Refers(w.pools[b], c)
    ensures c !in w.pools[b].idle && forall v :: v in w.pools[b].uses ==> w.pools[b].uses[v].conn != c
  {
    assert w.home[c] == a;
    hide Refers;
    forall v | v in w.pools[b].uses ensures w.pools[b].uses[v].conn != c { OpeningIsReferred(w.pools[b], v); }
    IdleIsReferred(w.pools[b], c);
  }

  lemma IdleIsReferred(p: Pool, c: Conn)
    ensures c in p.idle ==> Refers(p, c)
  {
  }

  /** A pool that is open holds no more connections, live or being opened, than its size,
      unless a cancelled rollback leaked some. */
  lemma OpenPoolsAreBounded(ws: seq<World>, es: seq<Event>, i: nat, id: PoolId)
    requires IsRun(ws, es) && i < |ws| && id in ws[i].pools && !ws[i].pools[id].closed
    ensures var p := ws[i].pools[id]; |p.live| + |OpeningConns(p)| <= p.size + |Leaked(p)|
  {
    RunKeepsInv(ws, es, i);
    hide IsRun;
    LiveAndOpeningBounded(ws[i].pools[id]);
  }

  /** Nothing has been leaked from an open pool in which no rollback was cancelled. */
  lemma {:induction false} NothingLeaked(ws: seq<World>, es: seq<Event>, i: nat, id: PoolId)
    requires IsRun(ws, es) && i < |ws| && id in ws[i].pools && !ws[i].pools[id].closed
    requires forall k :: 0 <= k < i ==> !(es[k].InPool? && es[k].pool == id && es[k].op.RollbackCancelled?)
    ensures Leaked(ws[i].pools[id]) == {}
    decreases i
  {
    hide CanHappen, Next, Leaked, Inv;
    if i > 0 {
      RunKeepsInv(ws, es, i - 1);
      OpenPoolAfter(ws[i - 1], es[i - 1], id);
      if id in ws[i - 1].pools {
        NothingLeaked(ws, es, i - 1, id);
      }
    }
  }

  /** An open pool is new, or was open before and has leaked no more but by a cancelled rollback. */
  lemma OpenPoolAfter(w: World, e: Event, id: PoolId)
    requires Inv(w) && CanHappen(w, e) && id in Next(w, e).pools && !Next(w, e).pools[id].closed
    ensures id !in w.pools ==> Leaked(Next(w, e).pools[id]) == {}
    ensures id in w.pools ==> !w.pools[id].closed
    ensures id in w.pools && !(e.InPool? && e.pool == id && e.op.RollbackCancelled?) ==>
              Leaked(Next(w, e).pools[id]) == Leaked(w.pools[id])
  {
    hide Leaked, Sound, SoundOpen, Refers, Apply, Enabled, IsNew, WorkersAreStarted, StartedAreHeld, HandshakesAreKnown;
    hide Orphans, RegisteredLive, RegistryIsSound, Ends, DeadLoops, StoppedLoops, Stop, PoolStep;
    match e
    case InPool(i, op) => OpenPoolAfterOp(w, i, op, id);
    case ClosePool(l) => ClosesIt(Unregister(w, {l}), w.registry[l], Close);
    case AbandonDoomed(i) => ClosesIt(w.(doomed := w.doomed - {i}), i, Abandon);
    case CurrentPool(l, newId, size) => NewPoolIsSound(w.path, l, size);
    case Sweep(_) => StopLeavesPools(w, Orphans(w, e.onlyDeadLoops));
    case _ =>
  }

  lemma StopLeavesPools(w: World, conns: set<Conn>)
    ensures Stop(w, conns).pools == w.pools
  {
  }

  lemma OpenPoolAfterOp(w: World, i: PoolId, op: Op, id: PoolId)
    requires Inv(w) && CanHappen(w, InPool(i, op)) && id in PoolStep(w, i, op).pools
    requires !PoolStep(w, i, op).pools[id].closed
    ensures id in w.pools && !w.pools[id].closed
    ensures !(i == id && op.RollbackCancelled?) ==> Leaked(PoolStep(w, i, op).pools[id]) == Leaked(w.pools[id])
  {
    hide Leaked, Sound, SoundOpen, Refers, Apply, Enabled, IsNew, WorkersAreStarted, StartedAreHeld, HandshakesAreKnown;
    hide RegistryIsSound, Ends;
    StaysOpen(w.pools[i], op);
    NewConnIsNew(w, i, op);
    if i == id {
      OnlyCancelledRollbacksLeak(w.pools[id], op);
    }
  }

  lemma ClosesIt(w: World, id: PoolId, op: Op)
    requires id in w.pools && (op.Abandon? || (op.Close? && !w.pools[id].closed))
    ensures Enabled(w.pools[id], op) && PoolStep(w, id, op).pools[id].closed
    ensures PoolStep(w, id, op).pools == w.pools[id := PoolStep(w, id, op).pools[id]]
  {
  }

  /** In an open pool in which no rollback was cancelled, live connections and those being opened
      are never more than its size. */
  lemma OpenPoolsStayWithinTheirSize(ws: seq<World>, es: seq<Event>, i: nat, id: PoolId)
    requires IsRun(ws, es) && i < |ws| && id in ws[i].pools && !ws[i].pools[id].closed
    requires forall k :: 0 <= k < i ==> !(es[k].InPool? && es[k].pool == id && es[k].op.RollbackCancelled?)
    ensures var p := ws[i].pools[id]; |p.live| + |OpeningConns(p)| <= p.size
  {
    hide IsRun, Leaked;
    NothingLeaked(ws, es, i, id);
    OpenPoolsAreBounded(ws, es, i, id);
  }

  // ---------------------------------------------------------------- teardown

  /** After the test reset a worker that was not told to stop is one whose opener's task is pending
      on a running loop; and where its pool was registered until then, it is not even live there,
      but inside its handshake or being closed. */
  lemma ResetLeavesOnlyPendingOpeners(ws: seq<World>, es: seq<Event>, i: nat, c: Conn)
    requires IsRun(ws, es) && i < |es| && es[i] == ResetForTests && Works(ws[i + 1], c)
    ensures c in ws[i + 1].started && OpenerPending(ws[i + 1], ws[i + 1].started[c])
    ensures c in ws[i + 1].home && ws[i + 1].home[c] in ws[i + 1].pools
    ensures var p := ws[i + 1].pools[ws[i + 1].home[c]];
            HasInHand(p, c) && (IsRegistered(ws[i], ws[i].home[c]) ==> c !in p.live)
  {
    hide Inv, HasInHand, Reset, Works, OpenerPending;
    RunKeepsInv(ws, es, i);
    ResetLeaves(ws[i], c);
    NoWorkerIsLost(ws, es, i + 1, c);
  }

  lemma ResetLeaves(w: World, c: Conn)
    requires Inv(w) && Works(Reset(w), c)
    ensures c in Reset(w).started && OpenerPending(Reset(w), Reset(w).started[c])
    ensures Reset(w).home == w.home && c in w.home && w.home[c] in Reset(w).pools
    ensures IsRegistered(w, w.home[c]) ==> c !in Reset(w).pools[w.home[c]].live
  {
    hide PoolsAreApart, PoolsAreSound, HandshakesAreKnown, RegistryIsSound, HasInHand;
    assert c in w.started && c !in Orphans(w, false) && c !in RegisteredLive(w);
  }

  /** With no loop running, the test reset leaves no worker that was not told to stop. */
  lemma ResetWithoutLoopsEndsEveryWorker(ws: seq<World>, es: seq<Event>, i: nat)
    requires IsRun(ws, es) && i < |es| && es[i] == ResetForTests
    requires forall l :: !IsRunning(ws[i], l)
    ensures ws[i + 1].workers <= ws[i + 1].told
  {
    hide HasInHand, Reset;
    var v := ws[i + 1];
    assert v.loops == ws[i].loops by { ResetKeepsLoops(ws[i]); }
    hide IsRun;
    forall c | c in v.workers ensures c in v.told {
      if Works(v, c) {
        assert c in v.started ==> !IsRunning(ws[i], v.started[c].loop);
        ResetLeavesOnlyPendingOpeners(ws, es, i, c);
      }
    }
  }

  lemma ResetKeepsLoops(w: World)
    ensures Reset(w).loops == w.loops
  {
  }

  predicate CanAllHappen(w: World, es: seq<Event>)
    decreases |es|
  {
    es == [] || (CanHappen(w, es[0]) && CanAllHappen(Next(w, es[0]), es[1..]))
  }

  function AfterAll(w: World, es: seq<Event>): World
    requires CanAllHappen(w, es)
    decreases |es|
  {
    if es == [] then w else AfterAll(Next(w, es[0]), es[1..])
  }

  /** Workers that were told to stop end by themselves: nothing else has to happen. */
  lemma {:induction false} ToldWorkersEnd(w: World) returns (ends: seq<Event>)
    requires w.workers <= w.told
    ensures (forall k :: 0 <= k < |ends| ==> ends[k].WorkerEnds?) && CanAllHappen(w, ends)
    ensures AfterAll(w, ends) == w.(workers := {})
    decreases w.workers
  {
    if w.workers == {} {
      ends := [];
    } else {
      var c :| c in w.workers;
      var rest := ToldWorkersEnd(Next(w, WorkerEnds(c)));
      ends := [WorkerEnds(c)] + rest;
      assert ends[1..] == rest;
    }
  }

  // ---------------------------------------------------------------- borrowers are left alone

  /** A use whose connection somebody relies on: borrowed from a registered pool on a loop that is not
      closed, or still inside its opener's handshake on a running one. */
  ghost predicate Relied(w: World, id: PoolId, u: UseId, c: Conn) {
    && id in w.pools && u in w.pools[id].uses && w.pools[id].uses[u].conn == c
    && var l, stage := w.pools[id].loop, w.pools[id].uses[u].stage;
       || (stage.Opening? && l in w.loops && w.loops[l] == Running)
       || ((stage.Lent? || stage.RollingBack?) && IsRegistered(w, id) && !(l in w.loops && w.loops[l] == LoopClosed))
  }

  predicate OpOfUse(op: Op, u: UseId) {
    !op.Close? && !op.Retire? && !op.Retired? && !op.CloseCancelled? && !op.Abandon? && op.use == u
  }

  /** Steps of others: not of the use itself, nor its own loop closing its pool or moving to another
      database, nor the test reset. Its own loop may be parked and run again, but for a handshake,
      and be reaped by another only where it runs; it is not closed. */
  predicate Foreign(w: World, e: Event, id: PoolId, u: UseId)
    requires id in w.pools
  {
    var l := w.pools[id].loop;
    match e
    case LoopBecomes(k, status) => k != l || status == Running || (status == Parked && !At(w.pools[id], u, Opening))
    case ReapStopped(_) => IsRunning(w, l)
    case CurrentPool(k, _, _) =>
      k != l || (l in w.registry && w.registry[l] in w.pools && w.pools[w.registry[l]].path == w.path)
    case InPool(i, op) => i != id || !OpOfUse(op, u)
    case ClosePool(k) => k != l
    case ResetForTests => false
    case _ => true
  }

  lemma OthersOpKeepsUse(p: Pool, op: Op, u: UseId)
    requires Sound(p) && Enabled(p, op) && u in p.uses && !OpOfUse(op, u)
    ensures u in Apply(p, op).uses && Apply(p, op).uses[u] == p.uses[u]
    ensures !op.Abandon? ==> p.uses[u].conn !in Ends(p, op)
    ensures op.Abandon? && p.uses[u].stage.Opening? ==> p.uses[u].conn !in Ends(p, op)
  {
    hide Distinct;
    OthersOpEndsNothing(p, op, u);
    hide Sound, Closing, Ends;
  }

  lemma OthersOpEndsNothing(p: Pool, op: Op, u: UseId)
    requires Sound(p) && Enabled(p, op) && u in p.uses && !OpOfUse(op, u)
    ensures !op.Abandon? || p.uses[u].stage.Opening? ==> p.uses[u].conn !in Ends(p, op)
    ensures u !in p.granted
  {
    hide Distinct;
  }

  /** An operation in one pool spares the connections that uses elsewhere have. */
  lemma PoolStepSpares(w: World, i: PoolId, op: Op, id: PoolId, u: UseId, c: Conn)
    requires PoolsAreApart(w) && PoolsAreSound(w) && i in w.pools && Enabled(w.pools[i], op)
    requires id in w.pools && u in w.pools[id].uses && w.pools[id].uses[u].conn == c && Works(w, c)
    requires i != id || (!OpOfUse(op, u) && (op.Abandon? ==> w.pools[id].uses[u].stage.Opening?))
    ensures var v := PoolStep(w, i, op);
            id in v.pools && v.pools[id].loop == w.pools[id].loop && u in v.pools[id].uses
            && v.pools[id].uses[u] == w.pools[id].uses[u] && Works(v, c)
  {
    hide Sound, SoundOpen, Enabled, Apply, Ends, Refers;
    assert Sound(w.pools[id]);
    OpeningIsReferred(w.pools[id], u);
    StaysOpen(w.pools[i], op);
    assert w.home[c] == id;
    if i == id {
      OthersOpKeepsUse(w.pools[id], op, u);
    } else {
      forall d | d in Ends(w.pools[i], op) ensures d in w.home && w.home[d] == i {
        EndsAreReferred(w.pools[i], op, d);
      }
    }
  }

  /** A sweep spares what is relied on. */
  lemma SweepSpares(w: World, onlyDead: bool, id: PoolId, u: UseId, c: Conn)
    requires Inv(w) && Relied(w, id, u, c) && Works(w, c)
    ensures c !in Orphans(w, onlyDead)
  {
  }

  lemma RegisteredStays(w: World, e: Event, id: PoolId, u: UseId)
    requires Inv(w) && CanHappen(w, e) && id in w.pools && Foreign(w, e, id, u)
    requires !IsClosed(w, w.pools[id].loop) && IsRegistered(w, id)
    ensures IsRegistered(Next(w, e), id)
  {
    hide PoolsAreApart, PoolsAreSound, HandshakesAreKnown, WorkersAreStarted, Apply, Enabled, Ends;
    var l := w.pools[id].loop;
    assert w.registry[l] == id;
    hide RegistryIsSound;
    assert l in Next(w, e).registry && Next(w, e).registry[l] == id;
  }

  lemma PoolStepFrame(w: World, i: PoolId, op: Op)
    requires i in w.pools && Enabled(w.pools[i], op)
    ensures PoolStep(w, i, op).loops == w.loops && PoolStep(w, i, op).registry == w.registry
  {
  }

  /** What a step must leave of a use, besides its registration. */
  ghost predicate SameUse(w: World, v: World, id: PoolId, u: UseId)
    requires id in w.pools && u in w.pools[id].uses
  {
    && id in v.pools && v.pools[id].loop == w.pools[id].loop && u in v.pools[id].uses
    && v.pools[id].uses[u] == w.pools[id].uses[u]
    && (IsClosed(v, w.pools[id].loop) ==> IsClosed(w, w.pools[id].loop))
    && (At(w.pools[id], u, Opening) && IsRunning(w, w.pools[id].loop) ==> IsRunning(v, w.pools[id].loop))
  }

  lemma CloseSpares(w: World, l: LoopId, id: PoolId, u: UseId, c: Conn)
    requires Inv(w) && CanHappen(w, ClosePool(l)) && Relied(w, id, u, c) && Works(w, c) && w.pools[id].loop != l
    ensures SameUse(w, Next(w, ClosePool(l)), id, u) && Works(Next(w, ClosePool(l)), c)
  {
    hide PoolsAreApart, PoolsAreSound, HandshakesAreKnown, WorkersAreStarted, IsRegistered, PoolStep;
    assert w.pools[w.registry[l]].loop == l;
    var v := Unregister(w, {l});
    SameConnections(w, v);
    PoolStepSpares(v, w.registry[l], Close, id, u, c);
    PoolStepFrame(v, w.registry[l], Close);
  }

  lemma DoomedIsNotRegistered(w: World, i: PoolId)
    requires RegistryIsSound(w) && i in w.doomed
    ensures !IsRegistered(w, i)
  {
  }

  lemma AbandonSpares(w: World, i: PoolId, id: PoolId, u: UseId, c: Conn)
    requires Inv(w) && CanHappen(w, AbandonDoomed(i)) && Relied(w, id, u, c) && Works(w, c)
    ensures SameUse(w, Next(w, AbandonDoomed(i)), id, u) && Works(Next(w, AbandonDoomed(i)), c)
  {
    hide PoolsAreApart, PoolsAreSound, HandshakesAreKnown, WorkersAreStarted, RegistryIsSound, IsRegistered, PoolStep;
    DoomedIsNotRegistered(w, i);
    var v := w.(doomed := w.doomed - {i});
    SameConnections(w, v);
    PoolStepSpares(v, i, Abandon, id, u, c);
    PoolStepFrame(v, i, Abandon);
  }

  lemma InPoolSpares(w: World, i: PoolId, op: Op, id: PoolId, u: UseId, c: Conn)
    requires Inv(w) && CanHappen(w, InPool(i, op)) && Relied(w, id, u, c) && Works(w, c)
          && Foreign(w, InPool(i, op), id, u)
    ensures SameUse(w, Next(w, InPool(i, op)), id, u) && Works(Next(w, InPool(i, op)), c)
  {
    hide PoolsAreApart, PoolsAreSound, HandshakesAreKnown, WorkersAreStarted, RegistryIsSound;
    hide IsRegistered, PoolStep, Enabled;
    PoolStepSpares(w, i, op, id, u, c);
    PoolStepFrame(w, i, op);
  }

  /** What a use has in hand, but to dispose of it, no pool is closing. */
  lemma NotBeingClosed(w: World, id: PoolId, u: UseId, c: Conn)
    requires PoolsAreApart(w) && PoolsAreSound(w) && id in w.pools && u in w.pools[id].uses
    requires w.pools[id].uses[u].conn == c && !w.pools[id].uses[u].stage.Disposing?
    ensures forall i :: i in w.pools ==> !BeingClosed(w.pools[i], c)
  {
    hide Sound, SoundOpen, Refers, BeingClosed, PoolsAreApart;
    OpeningIsReferred(w.pools[id], u);
    forall i | i in w.pools ensures !BeingClosed(w.pools[i], c) {
      ClosedIsReferred(w.pools[i], c);
      if i == id {
        UsedIsNotClosed(w.pools[id], u);
      } else {
        ReferredOnce(w, id, i, c);
      }
    }
  }

  lemma UsedIsNotClosed(p: Pool, u: UseId)
    requires Sound(p) && u in p.uses && !p.uses[u].stage.Disposing?
    ensures !BeingClosed(p, p.uses[u].conn)
  {
  }

  lemma ClosedIsReferred(p: Pool, c: Conn)
    ensures BeingClosed(p, c) ==> Refers(p, c)
  {
    if u :| u in p.uses && p.uses[u] == Use(p.uses[u].task, Disposing, c) {
      OpeningIsReferred(p, u);
    }
  }

  lemma OtherEventSpares(w: World, e: Event, id: PoolId, u: UseId, c: Conn)
    requires Inv(w) && CanHappen(w, e) && Relied(w, id, u, c) && Works(w, c) && Foreign(w, e, id, u)
    requires !e.InPool? && !e.ClosePool? && !e.AbandonDoomed?
    ensures SameUse(w, Next(w, e), id, u) && Works(Next(w, e), c)
  {
    hide PoolsAreApart, PoolsAreSound, HandshakesAreKnown, WorkersAreStarted, RegistryIsSound, IsRegistered, Orphans;
    if e.Sweep? {
      SweepSpares(w, e.onlyDeadLoops, id, u, c);
    } else if e.WorkerEnds? {
      NotBeingClosed(w, id, u, c);
    }
  }

  /** No step of others stops a connection that is relied on, or stops it being relied on. */
  lemma ForeignStepSpares(w: World, e: Event, id: PoolId, u: UseId, c: Conn)
    requires Inv(w) && CanHappen(w, e) && Relied(w, id, u, c) && Works(w, c) && Foreign(w, e, id, u)
    ensures Relied(Next(w, e), id, u, c) && Works(Next(w, e), c)
  {
    hide Inv, Next, IsRegistered;
    if IsRegistered(w, id) {
      RegisteredStays(w, e, id, u);
    }
    match e
    case InPool(i, op) => InPoolSpares(w, i, op, id, u, c);
    case ClosePool(l) => CloseSpares(w, l, id, u, c);
    case AbandonDoomed(i) => AbandonSpares(w, i, id, u, c);
    case _ => OtherEventSpares(w, e, id, u, c);
  }

  /** Over a whole run: as long as only others act, a borrowed connection of a registered pool on a
      running or parked loop, or one still in its handshake on a running one, keeps its worker and
      its place in the registry of started connections. */
  lemma {:induction false} BorrowersAreLeftAlone(ws: seq<World>, es: seq<Event>, i: nat, j: nat, id: PoolId,
                                                 u: UseId, c: Conn)
    requires IsRun(ws, es) && i <= j < |ws|
    requires Relied(ws[i], id, u, c) && Works(ws[i], c)
    requires forall k :: i <= k < j && id in ws[k].pools ==> Foreign(ws[k], es[k], id, u)
    ensures Relied(ws[j], id, u, c) && Works(ws[j], c) && c in ws[j].started
    decreases j - i
  {
    hide Inv, CanHappen, Next, Foreign, Init, Relied, Works;
    RunKeepsInv(ws, es, j);
    WorksIsStarted(ws[j], c);
    if i < j {
      BorrowersAreLeftAlone(ws, es, i, j - 1, id, u, c);
      ReliedIsThere(ws[j - 1], id, u, c);
      RunKeepsInv(ws, es, j - 1);
      ForeignStepSpares(ws[j - 1], es[j - 1], id, u, c);
    }
  }

  lemma ReliedIsThere(w: World, id: PoolId, u: UseId, c: Conn)
    ensures Relied(w, id, u, c) ==> id in w.pools
  {
  }

  lemma WorksIsStarted(w: World, c: Conn)
    requires Inv(w)
    ensures Works(w, c) ==> c in w.started
  {
  }

  // ---------------------------------------------------------------- what prune, reap and a new path take

  /** A prune takes the pools of closed loops from the registry, all of them and no other, to be
      abandoned; nothing else changes. */
  lemma PruneTakesTheClosed(w: World)
    ensures var v := Next(w, Prune);
            && v == w.(registry := v.registry, doomed := v.doomed)
            && (forall l :: l in v.registry <==> l in w.registry && !(l in w.loops && w.loops[l] == LoopClosed))
            && (forall l :: l in v.registry ==> v.registry[l] == w.registry[l])
            && (forall id :: id in v.doomed <==>
                  id in w.doomed
                  || exists l :: l in w.registry && w.registry[l] == id && l in w.loops && w.loops[l] == LoopClosed)
  {
  }

  /** What happens around the pools: a loop runs, is parked or closed for good, a task is done unless it is
      inside a handshake, and the database is moved. */
  lemma OutsideEvents(w: World, l: LoopId, status: Status, t: TaskId, path: Path)
    ensures CanHappen(w, LoopBecomes(l, status)) <==> !(l in w.loops && w.loops[l] == LoopClosed)
    ensures CanHappen(w, LoopBecomes(l, status)) ==>
              Next(w, LoopBecomes(l, status)) == w.(loops := w.loops[l := status])
    ensures CanHappen(w, TaskDone(t)) <==>
              forall id, u :: id in w.pools && u in w.pools[id].uses && w.pools[id].uses[u].stage.Opening? ==>
                w.pools[id].uses[u].task != t
    ensures CanHappen(w, TaskDone(t)) ==> Next(w, TaskDone(t)) == w.(done := w.done + {t})
    ensures CanHappen(w, SetPath(path)) && Next(w, SetPath(path)) == w.(path := path)
  {
  }

  /** What a loop reaps of the others at its own end are the pools of those that do not run. */
  lemma ReapTakesTheStopped(w: World, me: LoopId)
    requires CanHappen(w, ReapStopped(me))
    ensures var v := Next(w, ReapStopped(me));
            && v == w.(registry := v.registry, doomed := v.doomed)
            && (forall l :: l in v.registry <==>
                  l in w.registry && (l == me || (l in w.loops && w.loops[l] == Running)))
            && (forall l :: l in v.registry ==> v.registry[l] == w.registry[l])
            && (forall id :: id in v.doomed <==>
                  id in w.doomed
                  || exists l :: l in w.registry && w.registry[l] == id && l != me
                             && !(l in w.loops && w.loops[l] == Running))
  {
  }

  /** Whoever asks for a pool gets one of its own loop that is open on the current database: the one
      it has if that is such a one, and else an empty new one, when the one it had is left to be
      abandoned. */
  lemma CurrentPoolIsCurrent(w: World, l: LoopId, newId: PoolId, size: nat)
    requires Inv(w) && CanHappen(w, CurrentPool(l, newId, size))
    ensures var v := Next(w, CurrentPool(l, newId, size));
            && l in v.registry && v.registry[l] in v.pools
            && var p := v.pools[v.registry[l]];
               && p.path == w.path && p.loop == l && !p.closed
               && (if l in w.registry && w.pools[w.registry[l]].path == w.path then v == w
                   else
                     && v.registry == w.registry[l := newId] && v.pools == w.pools[newId := p]
                     && p.size == p.slots == size && p.live == {} && p.idle == []
                     && p.uses == map[] && p.granted == map[]
                     && v.doomed == (if l in w.registry then w.doomed + {w.registry[l]} else w.doomed)
                     && v == w.(registry := v.registry, pools := v.pools, doomed := v.doomed))
  {
    hide StartedAreHeld, PoolsAreApart, PoolsAreSound, HandshakesAreKnown, WorkersAreStarted;
  }

  // ---------------------------------------------------------------- a cancelled rollback

  const SINGLE := NewPool(0, 0, 1)
  const ROLLING_BACK := SINGLE.(slots := 0, live := {0}, uses := map[0 := Use(0, RollingBack, 0)])

  lemma OneUse() returns (ops: seq<Op>)
    ensures OrdinaryRun(SINGLE, ops) && After(SINGLE, ops) == ROLLING_BACK
  {
    var p1 := SINGLE.(slots := 0, granted := map[0 := 0]);
    var p2 := SINGLE.(slots := 0, uses := map[0 := Use(0, Opening, 0)]);
    var p3 := SINGLE.(slots := 0, live := {0}, uses := map[0 := Use(0, Lent, 0)]);
    assert Apply(SINGLE, TakeSlot(0, 0)) == p1 && Apply(p1, BeginOpen(0, 0)) == p2;
    assert Apply(p2, OpenOk(0)) == p3 && Apply(p3, BeginRollback(0)) == ROLLING_BACK;
    assert Ordinary(SINGLE, TakeSlot(0, 0)) && Ordinary(p1, BeginOpen(0, 0));
    assert Ordinary(p2, OpenOk(0)) && Ordinary(p3, BeginRollback(0));
    hide Apply, Ordinary, OrdinaryRun, After, Enabled, IsNew;
    OneOp(p3, BeginRollback(0));
    ops := [BeginRollback(0)];
    Prepend(p2, OpenOk(0), ops);
    ops := [OpenOk(0)] + ops;
    Prepend(p1, BeginOpen(0, 0), ops);
    ops := [BeginOpen(0, 0)] + ops;
    Prepend(SINGLE, TakeSlot(0, 0), ops);
    ops := [TakeSlot(0, 0)] + ops;
  }

  lemma RollingBackFacts()
    ensures var p, cancel := ROLLING_BACK, RollbackCancelled(0);
            Enabled(p, cancel) && IsNew(p, cancel) && !Apply(p, cancel).closed && Leaked(p) == {} && p.uses[0].conn == 0
  {
  }

  /** The smallest case of a leak: in a pool of one, a rollback is cancelled, and what may
      follow takes the pool over its size. */
  lemma CancelledRollbackOverflows() returns (ops: seq<Op>)
    ensures OrdinaryRun(SINGLE, ops) && After(SINGLE, ops) == ROLLING_BACK
    ensures Enabled(ROLLING_BACK, RollbackCancelled(0))
    ensures Leaked(Apply(ROLLING_BACK, RollbackCancelled(0))) == {0}
    ensures !StaysBounded(Apply(ROLLING_BACK, RollbackCancelled(0)))
  {
    hide Sound, SoundOpen, Leaked, StaysBounded, OrdinaryRun, After, Enabled, Apply, IsNew;
    ops := OneUse();
    NewPoolIsSound(0, 0, 1);
    OrdinaryRunKeeps(SINGLE, ops);
    var p, cancel := ROLLING_BACK, RollbackCancelled(0);
    RollingBackFacts();
    StepKeepsSound(p, cancel);
    StepKeepsSoundOpen(p, cancel);
    OnlyCancelledRollbacksLeak(p, cancel);
    BoundedExactlyWithoutLeaks(Apply(p, cancel));
  }
}
