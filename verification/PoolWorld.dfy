/** All pools, the registry of started connections, and teardown, as one transition system.

    Several event loops run in threads of their own; each has at most one registered pool. An
    event is what one of them does between two points where it can be suspended or overtaken.
    A worker is a connection's thread. It runs from before the handshake is awaited, and ends by
    itself some time after it was told to stop or while its connection is being closed; what a
    connection's entry in the registry does meanwhile is another matter. */
module PoolWorld {
  import opened PoolState

  type PoolId = nat

  datatype Status = Running | Parked | LoopClosed

  /** Who opened a connection: the loop, and the task inside the handshake. */
  datatype Opened = Opened(loop: LoopId, task: TaskId)

  datatype World = World(
    loops: map<LoopId, Status>,
    done: set<TaskId>,
    path: Path,
    started: map<Conn, Opened>,
    workers: set<Conn>,             // connections whose thread is running
    told: set<Conn>,                // connections whose thread has been told to stop
    registry: map<LoopId, PoolId>,
    pools: map<PoolId, Pool>,       // every pool made, registered or not
    doomed: set<PoolId>,            // taken out of the registry to be abandoned
    home: map<Conn, PoolId>)        // the pool each connection was opened for

  datatype Event =
    | LoopBecomes(loop: LoopId, status: Status)
    | TaskDone(task: TaskId)
    | SetPath(path: Path)
    | CurrentPool(loop: LoopId, newId: PoolId, size: nat)
    | InPool(pool: PoolId, op: Op)
    | ClosePool(loop: LoopId)
    | Prune
    | ReapStopped(loop: LoopId)
    | AbandonDoomed(pool: PoolId)
    | Sweep(onlyDeadLoops: bool)
    | ResetForTests
    | WorkerEnds(conn: Conn)

  function Init(path: Path): World {
    World(map[], {}, path, map[], {}, {}, map[], map[], {}, map[])
  }

  predicate IsRunning(w: World, l: LoopId) {
    l in w.loops && w.loops[l] == Running
  }

  predicate IsClosed(w: World, l: LoopId) {
    l in w.loops && w.loops[l] == LoopClosed
  }

  /** Stopping a connection takes it out of the registry of started ones and tells its worker. */
  function Stop(w: World, conns: set<Conn>): World {
    w.(started := w.started - conns, told := w.told + conns)
  }

  /** Somebody awaits the connection's close. */
  predicate BeingClosed(p: Pool, c: Conn) {
    || (p.closer.Retiring? && p.closer.conn == c)
    || exists u :: u in p.uses && p.uses[u] == Use(p.uses[u].task, Disposing, c)
  }

  /** A worker that has not been told to stop. */
  predicate Works(w: World, c: Conn) {
    c in w.workers && c !in w.told
  }

  predicate Owned(w: World, c: Conn) {
    exists l :: l in w.registry && w.registry[l] in w.pools && c in w.pools[w.registry[l]].live
  }

  /** The task that opened this connection is not done, on a loop that drives it: it may still be
      inside the handshake. */
  predicate OpenerPending(w: World, o: Opened) {
    o.task !in w.done && IsRunning(w, o.loop)
  }

  predicate Orphan(w: World, c: Conn, onlyDeadLoops: bool)
    requires c in w.started
  {
    && !Owned(w, c)
    && (IsClosed(w, w.started[c].loop) || (!onlyDeadLoops && !OpenerPending(w, w.started[c])))
  }

  function Orphans(w: World, onlyDeadLoops: bool): set<Conn> {
    set c | c in w.started && Orphan(w, c, onlyDeadLoops)
  }

  /** Connections that are deregistered in an operation, their workers told to stop or, where a
      close has returned, ended. */
  function Ends(p: Pool, op: Op): set<Conn>
    requires Enabled(p, op)
  {
    match op
    case OpenFails(u) => {p.uses[u].conn}
    case DisposeEnds(u) => {p.uses[u].conn}
    case Retired => {p.closer.conn}
    case CloseCancelled => {p.closer.conn}
    case Abandon => p.live
    case _ => {}
  }

  function WithPool(w: World, id: PoolId, p: Pool): World {
    w.(pools := w.pools[id := p])
  }

  function Unregister(w: World, loops: set<LoopId>): World {
    w.(registry := w.registry - loops)
  }

  /** The pool found, or the one that takes its place; a pool for another path is retired. */
  function PoolFor(w: World, l: LoopId, newId: PoolId, size: nat): World {
    if l in w.registry && w.registry[l] in w.pools && w.pools[w.registry[l]].path == w.path then w
    else
      w.(registry := w.registry[l := newId],
         pools := w.pools[newId := NewPool(w.path, l, size)],
         doomed := if l in w.registry then w.doomed + {w.registry[l]} else w.doomed)
  }

  function PoolStep(w: World, id: PoolId, op: Op): World
    requires id in w.pools && Enabled(w.pools[id], op)
  {
    var p := w.pools[id];
    var w1 := WithPool(w, id, Apply(p, op));
    if op.BeginOpen? then
      w1.(started := w.started[op.conn := Opened(p.loop, p.granted[op.use])],
          workers := w.workers + {op.conn},
          home := w.home[op.conn := id])
    else Stop(w1, Ends(p, op))
  }

  function DeadLoops(w: World): set<LoopId> {
    set l | l in w.registry && IsClosed(w, l)
  }

  function StoppedLoops(w: World, me: LoopId): set<LoopId> {
    set l | l in w.registry && l != me && !IsRunning(w, l)
  }

  /** Pools leave the registry first and are abandoned afterwards. */
  function Doom(w: World, loops: set<LoopId>): World {
    Unregister(w, loops).(doomed := w.doomed + set l | l in loops && l in w.registry :: w.registry[l])
  }

  function RegisteredLive(w: World): set<Conn> {
    set l, c | l in w.registry && w.registry[l] in w.pools && c in w.pools[w.registry[l]].live :: c
  }

  predicate IsRegistered(w: World, id: PoolId) {
    exists l :: l in w.registry && w.registry[l] == id
  }

  /** Sweep, then abandon every registered pool. */
  function Reset(w: World): World {
    var swept := Stop(w, Orphans(w, false));
    Stop(swept, RegisteredLive(w)).(
      registry := map[],
      pools := map id | id in w.pools :: if IsRegistered(w, id) then Abandoned(w.pools[id]) else w.pools[id])
  }

  predicate CanHappen(w: World, e: Event) {
    match e
    case LoopBecomes(l, _) => !IsClosed(w, l)
    // A task is not done while it is inside a handshake.
    case TaskDone(t) =>
      forall id, u :: id in w.pools && u in w.pools[id].uses && w.pools[id].uses[u].stage == Opening ==>
        w.pools[id].uses[u].task != t
    case SetPath(_) => true
    case CurrentPool(l, newId, _) => IsRunning(w, l) && newId !in w.pools && newId !in w.doomed
    case InPool(id, op) =>
      && id in w.pools && Enabled(w.pools[id], op) && IsRunning(w, w.pools[id].loop)
      && !op.Close? && !op.Abandon?
      && (op.BeginOpen? ==> op.conn !in w.home)
      && (op.TakeSlot? ==> op.task !in w.done)
      && (op.BeginOpen? ==> w.pools[id].granted[op.use] !in w.done)
    case ClosePool(l) =>
      IsRunning(w, l) && l in w.registry && w.registry[l] in w.pools && !w.pools[w.registry[l]].closed
    case Prune => true
    case ReapStopped(l) => IsRunning(w, l)
    case AbandonDoomed(id) => id in w.doomed && id in w.pools
    case Sweep(_) => true
    case ResetForTests => true
    case WorkerEnds(c) =>
      c in w.workers && (c in w.told || exists id :: id in w.pools && BeingClosed(w.pools[id], c))
  }

  function Next(w: World, e: Event): World
    requires CanHappen(w, e)
  {
    match e
    case LoopBecomes(l, s) => w.(loops := w.loops[l := s])
    case TaskDone(t) => w.(done := w.done + {t})
    case SetPath(p) => w.(path := p)
    case CurrentPool(l, newId, size) => PoolFor(w, l, newId, size)
    case InPool(id, op) => PoolStep(w, id, op)
    case ClosePool(l) => PoolStep(Unregister(w, {l}), w.registry[l], Close)
    case Prune => Doom(w, DeadLoops(w))
    case ReapStopped(l) => Doom(w, StoppedLoops(w, l))
    case AbandonDoomed(id) => PoolStep(w.(doomed := w.doomed - {id}), id, Abandon)
    case Sweep(onlyDead) => Stop(w, Orphans(w, onlyDead))
    case ResetForTests => Reset(w)
    case WorkerEnds(c) => w.(workers := w.workers - {c})
  }

  // ---------------------------------------------------------------- invariant

  /** Everything a pool refers to. */
  predicate Refers(p: Pool, c: Conn) {
    c in p.live || c in p.idle || c in ConnsOf(p.uses) || c in Closing(p.closer)
  }

  /** Every running worker is registered as started or has been told to stop. */
  ghost predicate WorkersAreStarted(w: World) {
    && (forall c :: Works(w, c) ==> c in w.started)
    && w.started.Keys <= w.home.Keys && w.told <= w.home.Keys
  }

  /** Where a pool has a connection that somebody can still stop or close: live, inside its
      handshake, or being closed. Idle connections are live; ones awaiting close() are too. */
  predicate HasInHand(p: Pool, c: Conn) {
    || c in p.live
    || BeingClosed(p, c)
    || exists u :: u in p.uses && p.uses[u] == Use(p.uses[u].task, Opening, c)
  }

  /** Every registered connection is in the hands of the pool it was opened for. */
  ghost predicate StartedAreHeld(w: World) {
    forall c :: c in w.started ==> c in w.home && w.home[c] in w.pools && HasInHand(w.pools[w.home[c]], c)
  }

  ghost predicate RegistryIsSound(w: World) {
    && (forall l :: l in w.registry ==>
          && w.registry[l] in w.pools && w.pools[w.registry[l]].loop == l
          && !w.pools[w.registry[l]].closed && w.registry[l] !in w.doomed)
  }

  /** No two pools share a connection. */
  ghost predicate PoolsAreApart(w: World) {
    forall id, c :: id in w.pools && Refers(w.pools[id], c) ==> c in w.home && w.home[c] == id
  }

  ghost predicate PoolsAreSound(w: World) {
    forall id :: id in w.pools ==> Sound(w.pools[id]) && SoundOpen(w.pools[id])
  }

  /** A connection in its handshake, if registered, is registered for the task inside it. */
  ghost predicate HandshakesAreKnown(w: World) {
    forall id, u :: id in w.pools && u in w.pools[id].uses && w.pools[id].uses[u].stage == Opening ==>
      var use := w.pools[id].uses[u];
      use.task !in w.done && (use.conn in w.started ==> w.started[use.conn] == Opened(w.pools[id].loop, use.task))
  }

  ghost predicate Inv(w: World) {
    && WorkersAreStarted(w)
    && StartedAreHeld(w)
    && RegistryIsSound(w)
    && PoolsAreApart(w)
    && PoolsAreSound(w)
    && HandshakesAreKnown(w)
  }

  lemma InitIsSound(path: Path)
    ensures Inv(Init(path))
  {
  }

  // ---------------------------------------------------------------- every event keeps it

  lemma RefersAfter(p: Pool, op: Op, c: Conn)
    requires Enabled(p, op) && Refers(Apply(p, op), c)
    ensures Refers(p, c) || (op.BeginOpen? && c == op.conn)
  {
  }

  lemma NewConnIsNew(w: World, id: PoolId, op: Op)
    requires PoolsAreApart(w) && id in w.pools && (op.BeginOpen? ==> op.conn !in w.home)
    ensures IsNew(w.pools[id], op)
  {
  }

  /** A pool's operation, whoever runs it. */
  lemma PoolStepKeepsApart(w: World, id: PoolId, op: Op)
    requires PoolsAreApart(w) && id in w.pools && Enabled(w.pools[id], op)
    requires op.BeginOpen? ==> op.conn !in w.home
    ensures PoolsAreApart(PoolStep(w, id, op))
  {
    hide Refers, Enabled, Apply, Ends;
    var v := PoolStep(w, id, op);
    forall i, c | i in v.pools && Refers(v.pools[i], c) ensures c in v.home && v.home[c] == i {
      if i == id {
        RefersAfter(w.pools[id], op, c);
      } else {
        assert Refers(w.pools[i], c);
      }
    }
  }

  lemma PoolStepKeepsSound(w: World, id: PoolId, op: Op)
    requires PoolsAreApart(w) && PoolsAreSound(w) && id in w.pools && Enabled(w.pools[id], op)
    requires op.BeginOpen? ==> op.conn !in w.home
    ensures PoolsAreSound(PoolStep(w, id, op))
  {
    hide Refers, Enabled, Apply, Sound, SoundOpen, IsNew, Ends;
    NewConnIsNew(w, id, op);
    StepKeepsSound(w.pools[id], op);
    StepKeepsSoundOpen(w.pools[id], op);
  }

  lemma PoolStepKeepsStarted(w: World, id: PoolId, op: Op)
    requires WorkersAreStarted(w) && PoolsAreApart(w) && id in w.pools && Enabled(w.pools[id], op)
    ensures WorkersAreStarted(PoolStep(w, id, op))
  {
    hide Enabled, Apply, Ends, Refers;
    EndsOfOpening(w.pools[id], op);
    forall c | c in Ends(w.pools[id], op) ensures c in w.home {
      EndsAreReferred(w.pools[id], op, c);
    }
  }

  lemma EndsAreReferred(p: Pool, op: Op, c: Conn)
    requires Enabled(p, op) && c in Ends(p, op)
    ensures Refers(p, c)
  {
  }

  lemma EndsOfOpening(p: Pool, op: Op)
    requires Enabled(p, op)
    ensures op.BeginOpen? ==> Ends(p, op) == {}
  {
  }

  /** A connection in a pool's hands stays there, unless the operation deregisters it. */
  lemma InHandAfter(p: Pool, op: Op, c: Conn)
    requires Sound(p) && SoundOpen(p) && Enabled(p, op) && HasInHand(p, c) && c !in Ends(p, op)
    ensures HasInHand(Apply(p, op), c)
  {
    hide Closing, Distinct;
    if c in p.live {
      LiveStaysInHand(p, op, c);
    } else if p.closer.Retiring? && p.closer.conn == c {
      assert !p.closed ==> p.closer.NotClosing?;
    } else {
      var u :| u in p.uses && p.uses[u].conn == c && (p.uses[u].stage.Opening? || p.uses[u].stage.Disposing?);
      assert u !in p.granted;
      UseStaysInHand(p, op, u);
    }
  }

  lemma LiveStaysInHand(p: Pool, op: Op, c: Conn)
    requires Enabled(p, op) && c in p.live && c !in Ends(p, op)
    ensures HasInHand(Apply(p, op), c)
  {
    if op.BeginDispose? && p.uses[op.use].conn == c {
      assert At(Apply(p, op), op.use, Disposing);
    }
  }

  lemma UseStaysInHand(p: Pool, op: Op, u: UseId)
    requires Enabled(p, op) && u in p.uses && u !in p.granted
    requires p.uses[u].stage.Opening? || p.uses[u].stage.Disposing?
    requires p.uses[u].conn !in Ends(p, op)
    ensures HasInHand(Apply(p, op), p.uses[u].conn)
  {
    var q := Apply(p, op);
    assert p.uses[u].conn in q.live || (u in q.uses && q.uses[u] == p.uses[u]);
  }

  lemma NewIsInHand(p: Pool, op: Op)
    requires Enabled(p, op) && op.BeginOpen?
    ensures HasInHand(Apply(p, op), op.conn)
  {
    assert At(Apply(p, op), op.use, Opening);
  }

  lemma PoolStepKeepsHeld(w: World, id: PoolId, op: Op)
    requires StartedAreHeld(w) && PoolsAreSound(w) && id in w.pools && Enabled(w.pools[id], op)
    ensures StartedAreHeld(PoolStep(w, id, op))
  {
    hide Sound, SoundOpen, Enabled, Apply, Ends, HasInHand;
    var v := PoolStep(w, id, op);
    EndsOfOpening(w.pools[id], op);
    forall c | c in v.started ensures c in v.home && v.home[c] in v.pools && HasInHand(v.pools[v.home[c]], c) {
      if op.BeginOpen? && c == op.conn {
        NewIsInHand(w.pools[id], op);
      } else {
        if w.home[c] == id {
          InHandAfter(w.pools[id], op, c);
        }
      }
    }
  }

  lemma OpeningAfter(p: Pool, op: Op, u: UseId)
    requires Enabled(p, op) && At(Apply(p, op), u, Opening)
    ensures (At(p, u, Opening) && Apply(p, op).uses[u] == p.uses[u]) || (op.BeginOpen? && op.use == u)
    ensures Apply(p, op).loop == p.loop
    ensures op.BeginOpen? && op.use == u ==> Apply(p, op).uses[u] == Use(p.granted[u], Opening, op.conn)
  {
  }

  lemma PoolStepKeepsHandshakes(w: World, id: PoolId, op: Op)
    requires HandshakesAreKnown(w) && id in w.pools && Enabled(w.pools[id], op)
    requires PoolsAreApart(w) && (op.BeginOpen? ==> op.conn !in w.home && w.pools[id].granted[op.use] !in w.done)
    ensures HandshakesAreKnown(PoolStep(w, id, op))
  {
    hide Enabled, Apply, Ends, Refers;
    var v := PoolStep(w, id, op);
    forall i, u | i in v.pools && u in v.pools[i].uses && v.pools[i].uses[u].stage == Opening
      ensures var use := v.pools[i].uses[u];
              && use.task !in v.done
              && (use.conn in v.started ==> v.started[use.conn] == Opened(v.pools[i].loop, use.task))
    {
      if i == id {
        OpeningAfter(w.pools[id], op, u);
      }
      if op.BeginOpen? && !(i == id && u == op.use) {
        OpeningIsReferred(w.pools[i], u);
      }
    }
  }

  lemma OpeningIsReferred(p: Pool, u: UseId)
    requires u in p.uses
    ensures Refers(p, p.uses[u].conn)
  {
  }

  lemma StopKeeps(w: World, conns: set<Conn>)
    requires Inv(w) && conns <= w.started.Keys
    ensures Inv(Stop(w, conns))
  {
    hide Refers, Sound, SoundOpen;
    var v := Stop(w, conns);
    assert forall c :: Works(v, c) ==> Works(w, c) && c !in conns;
    assert PoolsAreApart(v) && PoolsAreSound(v) by { assert v.pools == w.pools && v.home == w.home; }
  }

  lemma DoomKeeps(w: World, loops: set<LoopId>)
    requires Inv(w)
    ensures Inv(Doom(w, loops))
  {
    hide Refers, Sound, SoundOpen;
    var v := Doom(w, loops);
    assert PoolsAreApart(v) && PoolsAreSound(v) && HandshakesAreKnown(v) by {
      assert v.pools == w.pools && v.home == w.home && v.started == w.started && v.done == w.done;
    }
    forall l | l in v.registry ensures v.registry[l] !in v.doomed {
      assert w.pools[w.registry[l]].loop == l;
    }
  }

  lemma OrphansAreStarted(w: World, onlyDead: bool)
    ensures Orphans(w, onlyDead) <= w.started.Keys
  {
  }

  lemma ResetKeeps(w: World)
    requires Inv(w)
    ensures Inv(Reset(w))
  {
    hide Sound, SoundOpen, StartedAreHeld, Orphans, PoolsAreApart, PoolsAreSound, HandshakesAreKnown, Reset;
    hide WorkersAreStarted, RegistryIsSound;
    ResetKeepsHeld(w);
    ResetKeepsSound(w);
    ResetKeepsApart(w);
    ResetKeepsStarted(w);
    ResetKeepsHandshakes(w);
  }

  lemma ResetKeepsSound(w: World)
    requires PoolsAreSound(w)
    ensures PoolsAreSound(Reset(w)) && RegistryIsSound(Reset(w))
  {
    hide Sound, SoundOpen, Orphans, RegisteredLive;
    var v := Reset(w);
    forall id | id in v.pools ensures Sound(v.pools[id]) && SoundOpen(v.pools[id]) {
      StepKeepsSound(w.pools[id], Abandon);
      StepKeepsSoundOpen(w.pools[id], Abandon);
    }
  }

  lemma ResetKeepsApart(w: World)
    requires PoolsAreApart(w)
    ensures PoolsAreApart(Reset(w))
  {
    hide Orphans, RegisteredLive, Refers;
    var v := Reset(w);
    forall id, c | id in v.pools && Refers(v.pools[id], c) ensures c in v.home && v.home[c] == id {
      AbandonedRefers(w.pools[id], c);
      assert Refers(w.pools[id], c);
    }
  }

  lemma AbandonedRefers(p: Pool, c: Conn)
    ensures Refers(Abandoned(p), c) ==> Refers(p, c)
  {
  }

  lemma ResetKeepsStarted(w: World)
    requires WorkersAreStarted(w) && PoolsAreApart(w)
    ensures WorkersAreStarted(Reset(w))
  {
    hide Orphans;
    OrphansAreStarted(w, false);
    forall c | c in RegisteredLive(w) ensures c in w.home {
      var l :| l in w.registry && w.registry[l] in w.pools && c in w.pools[w.registry[l]].live;
      assert Refers(w.pools[w.registry[l]], c);
    }
  }

  lemma ResetKeepsHandshakes(w: World)
    requires HandshakesAreKnown(w)
    ensures HandshakesAreKnown(Reset(w))
  {
    hide Orphans, RegisteredLive;
  }

  lemma ResetKeepsHeld(w: World)
    requires StartedAreHeld(w) && PoolsAreSound(w)
    ensures StartedAreHeld(Reset(w))
  {
    hide Sound, SoundOpen, HasInHand, Orphans, RegisteredLive;
    var v := Reset(w);
    forall c | c in v.started ensures c in v.home && v.home[c] in v.pools && HasInHand(v.pools[v.home[c]], c) {
      assert c in w.started && c !in RegisteredLive(w);
      var id := w.home[c];
      if IsRegistered(w, id) {
        LiveIsRegisteredLive(w, id, c);
        InHandAfter(w.pools[id], Abandon, c);
      }
    }
  }

  lemma LiveIsRegisteredLive(w: World, id: PoolId, c: Conn)
    requires id in w.pools && IsRegistered(w, id) && c !in RegisteredLive(w)
    ensures c !in Ends(w.pools[id], Abandon) && Apply(w.pools[id], Abandon) == Abandoned(w.pools[id])
  {
    var l :| l in w.registry && w.registry[l] == id;
  }

  lemma NewPoolRefersToNothing(path: Path, l: LoopId, size: nat, c: Conn)
    ensures !Refers(NewPool(path, l, size), c)
  {
  }

  lemma NewPoolHasNoUses(path: Path, l: LoopId, size: nat)
    ensures NewPool(path, l, size).uses == map[]
  {
  }

  lemma AddPoolKeepsApart(w: World, id: PoolId, p: Pool)
    requires PoolsAreApart(w) && id !in w.pools && forall c :: !Refers(p, c)
    ensures PoolsAreApart(WithPool(w, id, p))
  {
  }

  lemma AddPoolKeepsHandshakes(w: World, id: PoolId, p: Pool)
    requires HandshakesAreKnown(w) && id !in w.pools && p.uses == map[]
    ensures HandshakesAreKnown(WithPool(w, id, p))
  {
  }

  lemma AddPoolKeeps(w: World, l: LoopId, newId: PoolId, size: nat)
    requires Inv(w) && newId !in w.pools
    ensures var v := WithPool(w, newId, NewPool(w.path, l, size));
            PoolsAreApart(v) && PoolsAreSound(v) && HandshakesAreKnown(v)
  {
    hide Sound, SoundOpen, Refers, PoolsAreApart, HandshakesAreKnown, NewPool;
    var p := NewPool(w.path, l, size);
    NewPoolIsSound(w.path, l, size);
    forall c ensures !Refers(p, c) {
      NewPoolRefersToNothing(w.path, l, size, c);
    }
    AddPoolKeepsApart(w, newId, p);
    NewPoolHasNoUses(w.path, l, size);
    AddPoolKeepsHandshakes(w, newId, p);
  }

  lemma PoolForKeeps(w: World, l: LoopId, newId: PoolId, size: nat)
    requires Inv(w) && newId !in w.pools && newId !in w.doomed
    ensures Inv(PoolFor(w, l, newId, size))
  {
    hide PoolsAreApart, PoolsAreSound, HandshakesAreKnown;
    AddPoolKeeps(w, l, newId, size);
    var v := PoolFor(w, l, newId, size);
    if v != w {
      SameConnections(WithPool(w, newId, NewPool(w.path, l, size)), v);
      forall k | k in v.registry ensures v.registry[k] !in v.doomed {
        if k != l && l in w.registry {
          assert w.pools[w.registry[k]].loop == k && w.pools[w.registry[l]].loop == l;
        }
      }
    }
  }

  /** These parts of the invariant do not look at the registry. */
  lemma SameConnections(w: World, v: World)
    requires w.pools == v.pools && w.home == v.home && w.started == v.started && w.done == v.done
    requires PoolsAreApart(w) && PoolsAreSound(w) && HandshakesAreKnown(w)
    ensures PoolsAreApart(v) && PoolsAreSound(v) && HandshakesAreKnown(v)
  {
    hide Refers, Sound, SoundOpen;
  }

  lemma PoolStepKeepsRegistry(w: World, id: PoolId, op: Op)
    requires RegistryIsSound(w) && id in w.pools && Enabled(w.pools[id], op)
    requires (op.Close? || op.Abandon?) ==> !IsRegistered(w, id)
    ensures RegistryIsSound(PoolStep(w, id, op))
  {
    StaysOpen(w.pools[id], op);
    hide Enabled, Apply, Ends;
  }

  lemma InPoolKeeps(w: World, id: PoolId, op: Op)
    requires Inv(w) && id in w.pools && Enabled(w.pools[id], op)
    requires op.BeginOpen? ==> op.conn !in w.home && w.pools[id].granted[op.use] !in w.done
    requires (op.Close? || op.Abandon?) ==> !IsRegistered(w, id)
    ensures Inv(PoolStep(w, id, op))
  {
    hide RegistryIsSound, Enabled, Apply, PoolsAreApart, PoolsAreSound, HandshakesAreKnown, PoolStep;
    hide WorkersAreStarted, StartedAreHeld;
    PoolStepKeepsApart(w, id, op);
    PoolStepKeepsSound(w, id, op);
    PoolStepKeepsStarted(w, id, op);
    PoolStepKeepsHeld(w, id, op);
    PoolStepKeepsHandshakes(w, id, op);
    PoolStepKeepsRegistry(w, id, op);
  }

  lemma StaysOpen(p: Pool, op: Op)
    requires Enabled(p, op)
    ensures Apply(p, op).loop == p.loop
    ensures !op.Close? && !op.Abandon? ==> Apply(p, op).closed == p.closed
  {
  }

  lemma SettingKeeps(w: World, v: World)
    requires Inv(w) && v == w.(loops := v.loops, path := v.path)
    ensures Inv(v)
  {
    hide PoolsAreApart, PoolsAreSound, HandshakesAreKnown;
    SameConnections(w, v);
  }

  lemma TaskDoneKeeps(w: World, t: TaskId)
    requires Inv(w) && CanHappen(w, TaskDone(t))
    ensures Inv(w.(done := w.done + {t}))
  {
    hide Refers, Sound, SoundOpen;
    assert HandshakesAreKnown(w.(done := w.done + {t}));
  }

  lemma UnregisterKeeps(w: World, l: LoopId)
    requires Inv(w) && l in w.registry
    ensures Inv(Unregister(w, {l})) && !IsRegistered(Unregister(w, {l}), w.registry[l])
  {
    var v := Unregister(w, {l});
    hide PoolsAreApart, PoolsAreSound, HandshakesAreKnown;
    SameConnections(w, v);
  }

  lemma CloseKeeps(w: World, l: LoopId)
    requires Inv(w) && CanHappen(w, ClosePool(l))
    ensures Inv(Next(w, ClosePool(l)))
  {
    hide Inv, PoolStep;
    UnregisterKeeps(w, l);
    InPoolKeeps(Unregister(w, {l}), w.registry[l], Close);
  }

  lemma AbandonKeeps(w: World, id: PoolId)
    requires Inv(w) && CanHappen(w, AbandonDoomed(id))
    ensures Inv(Next(w, AbandonDoomed(id)))
  {
    hide PoolsAreApart, PoolsAreSound, HandshakesAreKnown, PoolStep;
    var v := w.(doomed := w.doomed - {id});
    SameConnections(w, v);
    InPoolKeeps(v, id, Abandon);
  }

  lemma EndingKeeps(w: World, c: Conn)
    requires Inv(w)
    ensures Inv(w.(workers := w.workers - {c}))
  {
    hide PoolsAreApart, PoolsAreSound, HandshakesAreKnown, HasInHand;
    SameConnections(w, w.(workers := w.workers - {c}));
  }

  /** Every event keeps the invariant. */
  lemma StepKeepsInv(w: World, e: Event)
    requires Inv(w) && CanHappen(w, e)
    ensures Inv(Next(w, e))
  {
    hide Inv, PoolStep, Enabled, Doom, Stop, Reset, PoolFor, Orphans, Unregister;
    match e
    case LoopBecomes(l, s) => SettingKeeps(w, w.(loops := w.loops[l := s]));
    case TaskDone(t) => TaskDoneKeeps(w, t);
    case SetPath(p) => SettingKeeps(w, w.(path := p));
    case CurrentPool(l, newId, size) => PoolForKeeps(w, l, newId, size);
    case InPool(id, op) => InPoolKeeps(w, id, op);
    case ClosePool(l) =>
      CloseKeeps(w, l);
    case Prune => DoomKeeps(w, DeadLoops(w));
    case ReapStopped(l) => DoomKeeps(w, StoppedLoops(w, l));
    case AbandonDoomed(id) => AbandonKeeps(w, id);
    case Sweep(onlyDead) =>
      OrphansAreStarted(w, onlyDead);
      StopKeeps(w, Orphans(w, onlyDead));
    case ResetForTests => ResetKeeps(w);
    case WorkerEnds(c) => EndingKeeps(w, c);
  }
}
