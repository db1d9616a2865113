/** The pools as objects: the fields the coroutines update, and teardown's loops over them.
    Every method is proved to do what the transition system says. */
module Database {
  import opened PoolState
  import opened PoolWorld

  class ConnectionPool {
    const id: PoolId
    const path: Path
    const loop: LoopId
    const size: nat
    var idle: seq<Conn>
    var live: set<Conn>
    var slots: nat
    var closed: bool
    // The coroutines suspended in acquire, release and close, and the borrowers between them.
    var granted: map<UseId, TaskId>
    var uses: map<UseId, Use>
    var closer: Closer

    function View(): Pool
      reads this
    {
      Pool(path, loop, size, slots, idle, live, closed, granted, uses, closer)
    }

    constructor (id: PoolId, path: Path, loop: LoopId, size: nat)
      ensures View() == NewPool(path, loop, size) && this.id == id
    {
      this.id, this.path, this.loop, this.size := id, path, loop, size;
      idle, live, slots, closed := [], {}, size, false;
      granted, uses, closer := map[], map[], NotClosing;
    }

    /** acquire: the semaphore grants a slot. */
    method TakeSlot(u: UseId, task: TaskId)
      requires u !in granted && u !in uses && slots > 0
      modifies this`slots, this`granted
      ensures slots == old(slots) - 1 && granted == old(granted)[u := task]
      ensures Enabled(old(View()), Op.TakeSlot(u, task)) && View() == Apply(old(View()), Op.TakeSlot(u, task))
    {
      slots := slots - 1;
      granted := granted[u := task];
    }

    /** acquire, with its slot: an idle connection, or the start of a handshake. */
    method Serve(u: UseId, conn: Conn) returns (op: Op)
      requires u in granted
      modifies this`idle, this`uses, this`granted
      ensures op == if old(idle) != [] then PopIdle(u) else BeginOpen(u, conn)
      ensures granted == old(granted) - {u} && u in uses
      ensures old(idle) != [] ==>
                idle + [uses[u].conn] == old(idle) && uses == old(uses)[u := Use(old(granted)[u], Lent, uses[u].conn)]
      ensures old(idle) == [] ==> idle == [] && uses == old(uses)[u := Use(old(granted)[u], Opening, conn)]
      ensures Enabled(old(View()), op) && View() == Apply(old(View()), op)
    {
      if idle != [] {
        op := PopIdle(u);
        uses := uses[u := Use(granted[u], Lent, idle[|idle| - 1])];
        idle := idle[..|idle| - 1];
      } else {
        op := BeginOpen(u, conn);
        uses := uses[u := Use(granted[u], Opening, conn)];
      }
      granted := granted - {u};
    }

    /** acquire, back from the handshake. */
    method Opened(u: UseId, ok: bool) returns (op: Op)
      requires u in uses && uses[u].stage == Opening
      modifies this`live, this`uses, this`slots
      ensures op == if ok then OpenOk(u) else OpenFails(u)
      ensures ok ==>
                && live == old(live) + {old(uses)[u].conn} && slots == old(slots)
                && uses == old(uses)[u := old(uses)[u].(stage := Lent)]
      ensures !ok ==> live == old(live) && slots == old(slots) + 1 && uses == old(uses) - {u}
      ensures Enabled(old(View()), op) && View() == Apply(old(View()), op)
    {
      if ok {
        op := OpenOk(u);
        live := live + {uses[u].conn};
        uses := uses[u := uses[u].(stage := Lent)];
      } else {
        op := OpenFails(u);
        uses, slots := uses - {u}, slots + 1;
      }
    }

    /** release, up to its first suspension. */
    method Release(u: UseId, inTransaction: bool) returns (op: Op)
      requires u in uses && uses[u].stage == Lent
      modifies this`idle, this`live, this`uses, this`slots
      ensures old(closed) ==>
                && live == old(live) - {old(uses)[u].conn} && idle == old(idle) && slots == old(slots)
                && uses == old(uses)[u := old(uses)[u].(stage := Disposing)]
      ensures !old(closed) && inTransaction ==>
                && uses == old(uses)[u := old(uses)[u].(stage := RollingBack)]
                && idle == old(idle) && live == old(live) && slots == old(slots)
      ensures !old(closed) && !inTransaction ==>
                && idle == old(idle) + [old(uses)[u].conn] && live == old(live)
                && uses == old(uses) - {u} && slots == old(slots) + 1
      ensures op == if old(closed) then BeginDispose(u) else if inTransaction then BeginRollback(u) else GiveBack(u)
      ensures Enabled(old(View()), op) && View() == Apply(old(View()), op)
    {
      if closed {
        op := BeginDispose(u);
        live := live - {uses[u].conn};
        uses := uses[u := uses[u].(stage := Disposing)];
      } else if inTransaction {
        op := BeginRollback(u);
        uses := uses[u := uses[u].(stage := RollingBack)];
      } else {
        op := GiveBack(u);
        idle := idle + [uses[u].conn];
        uses, slots := uses - {u}, slots + 1;
      }
    }

    /** release, back from the rollback: `closed` is not looked at again. */
    method RolledBack(u: UseId, ok: bool, cancelled: bool) returns (op: Op)
      requires u in uses && uses[u].stage == RollingBack
      modifies this`idle, this`live, this`uses, this`slots
      ensures cancelled ==> uses == old(uses) - {u} && slots == old(slots) + 1 && idle == old(idle) && live == old(live)
      ensures !cancelled && ok ==>
                && idle == old(idle) + [old(uses)[u].conn] && live == old(live)
                && uses == old(uses) - {u} && slots == old(slots) + 1
      ensures !cancelled && !ok ==>
                && live == old(live) - {old(uses)[u].conn} && idle == old(idle) && slots == old(slots)
                && uses == old(uses)[u := old(uses)[u].(stage := Disposing)]
      ensures op == if cancelled then RollbackCancelled(u) else if ok then GiveBack(u) else BeginDispose(u)
      ensures Enabled(old(View()), op) && View() == Apply(old(View()), op)
    {
      if cancelled {
        op := RollbackCancelled(u);
        uses, slots := uses - {u}, slots + 1;
      } else if ok {
        op := GiveBack(u);
        idle := idle + [uses[u].conn];
        uses, slots := uses - {u}, slots + 1;
      } else {
        op := BeginDispose(u);
        live := live - {uses[u].conn};
        uses := uses[u := uses[u].(stage := Disposing)];
      }
    }

    /** release, back from disposing of its connection. */
    method Disposed(u: UseId)
      requires u in uses && uses[u].stage == Disposing
      modifies this`uses, this`slots
      ensures uses == old(uses) - {u} && slots == old(slots) + 1
      ensures View() == Apply(old(View()), DisposeEnds(u))
    {
      uses, slots := uses - {u}, slots + 1;
    }

    /** close, up to the first connection it disposes of. */
    method Close()
      requires !closed
      modifies this`closed, this`closer, this`idle
      ensures closed && closer == Between(old(idle)) && idle == []
      ensures View() == Apply(old(View()), Op.Close)
    {
      closed := true;
      closer, idle := Between(idle), [];
    }

    /** close, taking up the next connection; then back from disposing of it. */
    method DisposeNext()
      requires closer.Between? && closer.rest != []
      modifies this`closer, this`live
      ensures closer.Retiring? && [closer.conn] + closer.rest == old(closer).rest && live == old(live) - {closer.conn}
      ensures View() == Apply(old(View()), Retire)
    {
      live := live - {closer.rest[0]};
      closer := Retiring(closer.rest[0], closer.rest[1..]);
    }

    method DisposedOne(cancelled: bool) returns (op: Op)
      requires closer.Retiring?
      modifies this`closer
      ensures closer == if cancelled then NotClosing else Between(old(closer).rest)
      ensures op == if cancelled then CloseCancelled else Retired
      ensures View() == Apply(old(View()), op)
    {
      if cancelled {
        op, closer := CloseCancelled, NotClosing;
      } else {
        op, closer := Retired, Between(closer.rest);
      }
    }

    /** abandon, but for stopping the connections. */
    method Forget()
      modifies this`closed, this`live, this`idle
      ensures closed && live == {} && idle == []
      ensures View() == Abandoned(old(View()))
    {
      closed := true;
      live, idle := {}, [];
    }
  }

  // ---------------------------------------------------------------- several pools at once

  function LiveOf(w: World, ids: set<PoolId>): set<Conn> {
    set id, c | id in ids && id in w.pools && c in w.pools[id].live :: c
  }

  function Registered(registry: map<LoopId, PoolId>): set<PoolId> {
    set l | l in registry :: registry[l]
  }

  /** Abandoning all of these. */
  function AbandonMany(w: World, ids: set<PoolId>): World {
    Stop(w, LiveOf(w, ids)).(
      pools := map id | id in w.pools :: if id in ids then Abandoned(w.pools[id]) else w.pools[id],
      doomed := w.doomed - ids)
  }

  /** Abandoning several pools is abandoning one after the other, so other loops' events
      may come in between. */
  lemma AbandonManyStepByStep(w: World, id: PoolId, ids: set<PoolId>)
    requires id in w.doomed && id in w.pools
    ensures AbandonMany(w, {id} + ids) == AbandonMany(Next(w, AbandonDoomed(id)), ids)
  {
    hide Stop, LiveOf, AbandonMany;
    AbandonedAlone(w, id);
    AbandonedTogether(w, id, ids);
  }

  lemma AbandonedAlone(w: World, id: PoolId)
    requires id in w.doomed && id in w.pools
    ensures Next(w, AbandonDoomed(id)) == AbandonMany(w, {id})
  {
    AbandonedOne(w, id);
    hide AbandonMany;
  }

  lemma AbandonedTogether(w: World, id: PoolId, ids: set<PoolId>)
    requires id in w.pools
    ensures AbandonMany(w, {id} + ids) == AbandonMany(AbandonMany(w, {id}), ids)
  {
    var v := AbandonMany(w, {id});
    LiveTogether(w, v, id, ids);
    hide LiveOf;
    assert AbandonMany(w, {id} + ids).pools == AbandonMany(v, ids).pools;
  }

  lemma LiveTogether(w: World, v: World, id: PoolId, ids: set<PoolId>)
    requires id in w.pools && v == AbandonMany(w, {id})
    ensures LiveOf(w, {id} + ids) == LiveOf(w, {id}) + LiveOf(v, ids)
  {
    forall c | c in LiveOf(w, {id} + ids) ensures c in LiveOf(w, {id}) + LiveOf(v, ids) {
      var i :| i in {id} + ids && i in w.pools && c in w.pools[i].live;
      assert i != id ==> v.pools[i] == w.pools[i];
    }
    forall c | c in LiveOf(v, ids) ensures c in LiveOf(w, {id} + ids) {
      var i :| i in ids && i in v.pools && c in v.pools[i].live;
      assert i != id && v.pools[i] == w.pools[i];
    }
  }

  /** What pruning does when nothing else comes in between. */
  function Pruned(w: World): World {
    var doomed := Doom(w, DeadLoops(w));
    var gone := AbandonMany(doomed, set l | l in DeadLoops(w) :: w.registry[l]);
    Stop(gone, Orphans(gone, true))
  }

  /** A prune leaves registered the pools of the loops that are not closed. It stops what is live in a
      pool of a closed loop, and what was opened on a closed loop and is live in no pool left. */
  lemma PrunedStops(w: World)
    requires forall l :: l in w.registry ==> w.registry[l] in w.pools
    ensures var v := Pruned(w);
            && (forall l :: l in v.registry <==> l in w.registry && !(l in w.loops && w.loops[l] == LoopClosed))
            && (forall l :: l in v.registry ==> v.registry[l] == w.registry[l])
            && (forall c :: c in v.told <==> c in w.told || InDeadPool(w, c) || LeftBehind(w, c))
            && (forall c :: c in v.started <==> c in w.started && !InDeadPool(w, c) && !LeftBehind(w, c))
            && (forall c :: c in v.started ==> v.started[c] == w.started[c])
  {
    var dead := DeadLoops(w);
    var ids := set l | l in dead :: w.registry[l];
    var doomed := Doom(w, dead);
    var gone := AbandonMany(doomed, ids);
    assert forall l :: l in dead <==> l in w.registry && l in w.loops && w.loops[l] == LoopClosed;
    forall c ensures c in LiveOf(doomed, ids) <==> InDeadPool(w, c) {
      LiveOfDead(w, ids, c);
    }
    assert gone.started == w.started - LiveOf(doomed, ids) && gone.loops == w.loops;
    forall c ensures c in Orphans(gone, true) <==> LeftBehind(w, c) && !InDeadPool(w, c) {
      if !InDeadPool(w, c) { OwnedIsKept(w, ids, gone, c); }
    }
    hide Orphans, LiveOf;
  }

  /** A prune, a new pool for the loop, and the one it had abandoned. */
  function Replaced(w: World, l: LoopId, newId: PoolId, size: nat): World {
    var pruned := Pruned(w);
    AbandonMany(PoolFor(pruned, l, newId, size), if l in pruned.registry then {pruned.registry[l]} else {})
  }

  lemma RegisteredIsOpen(w: World, l: LoopId)
    requires RegistryIsSound(w)
    ensures l in w.registry ==>
              w.registry[l] in w.pools && w.pools[w.registry[l]].loop == l && !w.pools[w.registry[l]].closed
  {
  }

  lemma ReplacedIsCurrent(w: World, l: LoopId, newId: PoolId, size: nat)
    requires RegistryIsSound(w) && newId !in w.pools && IsRunning(w, l)
    requires l in w.registry ==> w.pools[w.registry[l]].path != w.path
    ensures var v := Replaced(w, l, newId, size);
            l in v.registry && v.registry[l] == newId && newId in v.pools && v.pools[newId] == NewPool(w.path, l, size)
    ensures l in w.registry <==> l in Pruned(w).registry
    ensures l in w.registry ==> Pruned(w).registry[l] == w.registry[l] && w.registry[l] in w.pools
    ensures var p := Pruned(w);
            PoolFor(p, l, newId, size) == WithPool(p, newId, NewPool(w.path, l, size)).(
              registry := p.registry[l := newId],
              doomed := p.doomed + if l in p.registry then {p.registry[l]} else {})
    ensures var p := Pruned(w);
            Replaced(w, l, newId, size)
            == AbandonMany(PoolFor(p, l, newId, size), if l in p.registry then {p.registry[l]} else {})
  {
    PrunedKeepsPaths(w);
    PrunedStops(w);
    hide Pruned;
  }

  lemma PrunedKeepsPaths(w: World)
    ensures Pruned(w).pools.Keys == w.pools.Keys && Pruned(w).path == w.path && Pruned(w).loops == w.loops
    ensures forall id :: id in w.pools ==>
              Pruned(w).pools[id].path == w.pools[id].path && Pruned(w).pools[id].loop == w.pools[id].loop
  {
  }

  lemma LiveOfDead(w: World, ids: set<PoolId>, c: Conn)
    requires ids == set l | l in DeadLoops(w) :: w.registry[l]
    ensures c in LiveOf(w, ids) <==> InDeadPool(w, c)
  {
    if c in LiveOf(w, ids) {
      var id :| id in ids && id in w.pools && c in w.pools[id].live;
      var l :| l in DeadLoops(w) && w.registry[l] == id;
    }
  }

  lemma OwnedIsKept(w: World, ids: set<PoolId>, gone: World, c: Conn)
    requires ids == set l | l in DeadLoops(w) :: w.registry[l]
    requires gone == AbandonMany(Doom(w, DeadLoops(w)), ids) && !InDeadPool(w, c)
    ensures Owned(gone, c) <==> InKeptPool(w, c)
  {
    if Owned(gone, c) {
      var l :| l in gone.registry && gone.registry[l] in gone.pools && c in gone.pools[gone.registry[l]].live;
    }
    if InKeptPool(w, c) {
      var l :| l in w.registry && w.registry[l] in w.pools && c in w.pools[w.registry[l]].live
               && !(l in w.loops && w.loops[l] == LoopClosed);
      assert w.registry[l] !in ids;
      assert gone.pools[w.registry[l]] == w.pools[w.registry[l]] && l in gone.registry;
    }
  }

  /** Live in the registered pool of a closed loop. */
  ghost predicate InDeadPool(w: World, c: Conn) {
    exists l :: l in w.registry && w.registry[l] in w.pools && c in w.pools[w.registry[l]].live
           && l in w.loops && w.loops[l] == LoopClosed
  }

  ghost predicate InKeptPool(w: World, c: Conn) {
    exists l :: l in w.registry && w.registry[l] in w.pools && c in w.pools[w.registry[l]].live
           && !(l in w.loops && w.loops[l] == LoopClosed)
  }

  /** Opened on a loop that is closed, and live in no pool that stays registered. */
  ghost predicate LeftBehind(w: World, c: Conn) {
    && c in w.started && w.started[c].loop in w.loops && w.loops[w.started[c].loop] == LoopClosed
    && !InKeptPool(w, c)
  }

  class Globals {
    var loops: map<LoopId, Status>
    var done: set<TaskId>
    var path: Path
    var started: map<Conn, PoolWorld.Opened>
    var workers: set<Conn>
    var told: set<Conn>
    var registry: map<LoopId, PoolId>
    var pools: map<PoolId, ConnectionPool>
    var doomed: set<PoolId>
    var home: map<Conn, PoolId>

    predicate Valid()
      reads this, pools.Values
    {
      && (forall id :: id in pools ==> pools[id].id == id)
      && (forall l :: l in registry ==> registry[l] in pools)
    }

    function View(): World
      reads this, pools.Values
    {
      World(loops, done, path, started, workers, told, registry, map id | id in pools :: pools[id].View(), doomed, home)
    }

    /** _stop_connection */
    method StopConnection(c: Conn)
      requires Valid()
      modifies this`started, this`told
      ensures Valid() && View() == Stop(old(View()), {c})
      ensures started == old(started) - {c} && told == old(told) + {c}
    {
      started, told := started - {c}, told + {c};
    }

    method ServeIn(id: PoolId, u: UseId, c: Conn) returns (op: Op)
      requires Valid() && id in pools && u in pools[id].granted
      modifies pools[id]
      ensures Valid() && op == (if old(pools[id].idle) != [] then PopIdle(u) else BeginOpen(u, c))
      ensures Enabled(old(pools[id].View()), op)
      ensures View() == WithPool(old(View()), id, Apply(old(pools[id].View()), op))
    {
      hide Apply, Enabled;
      ghost var w := View();
      assert forall i :: i in pools && i != id ==> pools[i] != pools[id];
      op := pools[id].Serve(u, c);
      assert View().pools == w.pools[id := pools[id].View()];
    }

    method OpenedIn(id: PoolId, u: UseId, ok: bool) returns (op: Op)
      requires Valid() && id in pools && At(pools[id].View(), u, Opening)
      modifies pools[id]
      ensures Valid() && op == (if ok then OpenOk(u) else OpenFails(u))
      ensures Enabled(old(pools[id].View()), op)
      ensures View() == WithPool(old(View()), id, Apply(old(pools[id].View()), op))
    {
      hide Apply, Enabled;
      ghost var w := View();
      assert forall i :: i in pools && i != id ==> pools[i] != pools[id];
      op := pools[id].Opened(u, ok);
      assert View().pools == w.pools[id := pools[id].View()];
    }

    /** A connection is registered before its worker can run. */
    method Register(id: PoolId, c: Conn, entry: PoolWorld.Opened)
      requires Valid()
      modifies this`started, this`workers, this`home
      ensures Valid()
      ensures View() == old(View()).(started := old(started)[c := entry], workers := old(workers) + {c},
            home := old(home)[c := id])
    {
      ghost var w := View();
      home := home[c := id];
      started := started[c := entry];
      workers := workers + {c};
      assert View().pools == w.pools;
    }

    /** acquire, with its slot. */
    method Acquire(id: PoolId, u: UseId, c: Conn) returns (op: Op)
      requires Valid() && id in pools && u in pools[id].granted
      modifies this`started, this`workers, this`home, pools[id]
      ensures Valid() && pools == old(pools)
      ensures op.PopIdle? <==> old(pools[id].idle) != []
      ensures op.PopIdle? ==> started == old(started) && workers == old(workers) && home == old(home)
      ensures !op.PopIdle? ==>
                && started == old(started)[c := PoolWorld.Opened(pools[id].loop, old(pools[id].granted)[u])]
                && workers == old(workers) + {c} && home == old(home)[c := id]
      ensures Enabled(old(pools[id].View()), op) && View() == PoolStep(old(View()), id, op)
    {
      hide Apply, Enabled, Ends, PoolStep;
      ghost var w := View();
      var entry := PoolWorld.Opened(pools[id].loop, pools[id].granted[u]);
      op := ServeIn(id, u, c);
      if op.BeginOpen? {
        Register(id, c, entry);
      }
      StepOfAcquire(w, id, op);
    }

    /** acquire, back from the handshake: one that failed or was cancelled is stopped. */
    method HandshakeEnds(id: PoolId, u: UseId, ok: bool) returns (op: Op)
      requires Valid() && id in pools && At(pools[id].View(), u, Opening)
      modifies this`started, this`told, pools[id]
      ensures Valid() && pools == old(pools)
      ensures ok ==> started == old(started) && told == old(told)
      ensures var c := old(pools[id].uses[u].conn);
              !ok ==> started == old(started) - {c} && told == old(told) + {c}
      ensures Enabled(old(pools[id].View()), op) && View() == PoolStep(old(View()), id, op)
    {
      hide Apply, Enabled, Ends, PoolStep;
      ghost var w := View();
      var c := pools[id].uses[u].conn;
      op := OpenedIn(id, u, ok);
      ghost var v := View();
      if !ok {
        StopConnection(c);
      }
      StepOfAcquire(w, id, op);
    }

    /** release and _dispose, when the close has returned, failed or been cancelled: however it went,
        the connection is deregistered. A close that returned or was cancelled has told the worker,
        and where it failed the worker is told now. */
    method DisposalEnds(id: PoolId, u: UseId)
      requires Valid() && id in pools && At(pools[id].View(), u, Disposing)
      modifies this`started, this`told, pools[id]
      ensures Valid() && pools == old(pools)
      ensures var c := old(pools[id].uses[u].conn); started == old(started) - {c} && told == old(told) + {c}
      ensures View() == PoolStep(old(View()), id, DisposeEnds(u))
    {
      hide Apply, Ends, PoolStep;
      ghost var w := View();
      var c := pools[id].uses[u].conn;
      DisposedIn(id, u);
      StopConnection(c);
      StepOfAcquire(w, id, DisposeEnds(u));
    }

    method DisposedIn(id: PoolId, u: UseId)
      requires Valid() && id in pools && At(pools[id].View(), u, Disposing)
      modifies pools[id]
      ensures Valid() && View() == WithPool(old(View()), id, Apply(old(pools[id].View()), DisposeEnds(u)))
    {
      hide Apply, Enabled;
      ghost var w := View();
      assert forall i :: i in pools && i != id ==> pools[i] != pools[id];
      pools[id].Disposed(u);
      assert View().pools == w.pools[id := pools[id].View()];
    }

    /** The connections that registered pools vouch for. */
    method OwnedByPools() returns (owned: set<Conn>)
      requires Valid()
      ensures forall c :: c in owned <==> Owned(View(), c)
    {
      owned := set l, c | l in registry && c in pools[registry[l]].live :: c;
    }

    /** _sweep_orphans: over a snapshot of what has been started. */
    method SweepOrphans(onlyDeadLoops: bool)
      requires Valid()
      modifies this`started, this`told
      ensures Valid() && pools == old(pools)
      ensures View() == Stop(old(View()), Orphans(old(View()), onlyDeadLoops))
    {
      hide Owned, Orphans, Orphan;
      ghost var w := View();
      var owned := OwnedByPools();
      ghost var orphans := Orphans(w, onlyDeadLoops);
      OrphansByOwner(w, onlyDeadLoops);
      var seen, todo: set<Conn> := {}, started.Keys;
      while todo != {}
        invariant seen !! todo && seen + todo == w.started.Keys
        invariant started == w.started - (orphans * seen)
        invariant told == w.told + (orphans * seen)
        decreases todo
      {
        var c :| c in todo;
        var entry := started[c];
        var closed := entry.loop in loops && loops[entry.loop] == LoopClosed;
        var handshake := entry.task !in done && entry.loop in loops && loops[entry.loop] == Running;
        var orphan := c !in owned && (closed || (!onlyDeadLoops && !handshake));
        assert orphan <==> c in orphans;
        OneMore(w, orphans, seen, c);
        if orphan {
          StopConnection(c);
        }
        seen, todo := seen + {c}, todo - {c};
      }
      assert orphans * seen == orphans;
      assert View().pools == w.pools;
    }

    /** abandon: every live connection is stopped without waiting for anything. */
    method Abandon(id: PoolId)
      requires Valid() && id in pools
      modifies this`started, this`told, this`doomed, pools[id]
      ensures Valid() && pools == old(pools)
      ensures View() == AbandonMany(old(View()), {id})
    {
      hide AbandonMany, LiveOf, Stop, WithPool, Abandoned;
      ghost var w := View();
      StopAll(pools[id].live);
      AbandonedOne(w, id);
      Forget(id);
    }

    method Forget(id: PoolId)
      requires Valid() && id in pools
      modifies this`doomed, pools[id]
      ensures Valid() && pools == old(pools)
      ensures var w := old(View());
              View() == WithPool(w, id, Abandoned(old(pools[id].View()))).(doomed := w.doomed - {id})
    {
      ghost var w := View();
      assert forall i :: i in pools && i != id ==> pools[i] != pools[id];
      pools[id].Forget();
      doomed := doomed - {id};
      assert View().pools == w.pools[id := pools[id].View()];
    }

    /** Stops each of `conns`. */
    method StopAll(conns: set<Conn>)
      requires Valid()
      modifies this`started, this`told
      ensures Valid() && pools == old(pools) && View() == Stop(old(View()), conns)
    {
      ghost var w := View();
      var todo := conns;
      while todo != {}
        invariant todo <= conns
        invariant started == old(started) - (conns - todo) && told == old(told) + (conns - todo)
        decreases todo
      {
        var c :| c in todo;
        StopConnection(c);
        todo := todo - {c};
      }
      assert View().pools == w.pools;
    }

    /** Abandons each of `ids`, in any order. */
    method AbandonEach(ids: set<PoolId>)
      requires Valid() && ids <= pools.Keys
      modifies this`started, this`told, this`doomed, pools.Values
      ensures Valid() && pools == old(pools)
      ensures View() == AbandonMany(old(View()), ids)
    {
      hide AbandonMany, LiveOf;
      ghost var w := View();
      var todo := ids;
      AbandonNone(w);
      assert ids - todo == {};
      while todo != {}
        invariant todo <= ids && pools == old(pools) && Valid()
        invariant View() == AbandonMany(w, ids - todo)
        decreases todo
      {
        var id :| id in todo;
        ghost var before := ids - todo;
        Abandon(id);
        AbandonOneMore(w, before, id);
        todo := todo - {id};
        assert ids - todo == before + {id};
      }
      assert ids - todo == ids;
    }

    /** _prune_dead_pools */
    method PruneDeadPools()
      requires Valid()
      modifies this`registry, this`doomed, this`started, this`told, pools.Values
      ensures Valid() && View() == Pruned(old(View()))
      ensures forall l :: l in registry <==> l in old(registry) && !(l in loops && loops[l] == LoopClosed)
      ensures forall l, c ::
                l in old(registry) && l in loops && loops[l] == LoopClosed && c in old(pools[registry[l]].live) ==>
                  c in told && c !in started
    {
      PrunedStops(View());
      hide Orphans, LiveOf;
      var ids := TakeDeadPools();
      AbandonEach(ids);
      SweepOrphans(true);
    }

    /** Pools of closed loops leave the registry, to be abandoned by whoever took them out. */
    method TakeDeadPools() returns (ids: set<PoolId>)
      requires Valid()
      modifies this`registry, this`doomed
      ensures Valid() && pools == old(pools) && ids <= pools.Keys
      ensures View() == Doom(old(View()), DeadLoops(old(View())))
      ensures ids == set l | l in DeadLoops(old(View())) :: old(registry)[l]
      ensures forall l :: l in registry <==> l in old(registry) && !(l in loops && loops[l] == LoopClosed)
      ensures forall l :: l in old(registry) && l in loops && loops[l] == LoopClosed ==> old(registry)[l] in ids
    {
      ghost var w := View();
      var dead := set l | l in registry && l in loops && loops[l] == LoopClosed;
      assert dead == DeadLoops(w);
      ids := set l | l in dead :: registry[l];
      registry := registry - dead;
      doomed := doomed + ids;
      assert View().pools == w.pools;
      assert ids == set l | l in dead && l in w.registry :: w.registry[l];
    }

    /** _current_pool, when nothing else comes in between: the loop's pool if it is on the current path,
        else a new one, and the one it had is abandoned. */
    method CurrentPool(l: LoopId, newId: PoolId, size: nat) returns (id: PoolId)
      requires Valid() && RegistryIsSound(View()) && newId !in pools && l in loops && loops[l] == Running
      modifies this`registry, this`pools, this`doomed, this`started, this`told, pools.Values
      ensures Valid() && id in pools && l in registry && registry[l] == id
      ensures pools[id].path == path && pools[id].loop == l && !pools[id].closed
      ensures var w := old(View());
              if l in w.registry && w.pools[w.registry[l]].path == w.path then id == w.registry[l] && View() == w
              else id == newId && View() == Replaced(w, l, newId, size)
    {
      hide Orphans, LiveOf, Pruned, AbandonMany, RegistryIsSound, PoolFor, Replaced;
      ghost var w := View();
      RegisteredIsOpen(w, l);
      if l in registry {
        var mine := pools[registry[l]];
        if !mine.closed && mine.path == path && mine.loop == l {
          return registry[l];
        }
      }
      PruneDeadPools();
      PrunedKeepsPaths(w);
      ReplacedIsCurrent(w, l, newId, size);
      Replace(l, newId, size);
      return newId;
    }

    /** A new pool takes the place of the loop's, which is abandoned. */
    method Replace(l: LoopId, newId: PoolId, size: nat)
      requires Valid() && newId !in pools
      modifies this`registry, this`pools, this`doomed, this`started, this`told, pools.Values
      ensures Valid() && newId in pools && View().pools[newId] == pools[newId].View()
      ensures var w := old(View());
              var stale := if l in w.registry then {w.registry[l]} else {};
              View() == AbandonMany(WithPool(w, newId, NewPool(path, l, size)).(
                                      registry := w.registry[l := newId], doomed := w.doomed + stale), stale)
    {
      hide AbandonMany, NewPool;
      var stale := if l in registry then {registry[l]} else {};
      NewPoolFor(l, newId, size);
      Enter(l, newId);
      AbandonEach(stale);
    }

    method NewPoolFor(l: LoopId, newId: PoolId, size: nat)
      requires Valid() && newId !in pools
      modifies this`pools
      ensures Valid() && View() == WithPool(old(View()), newId, NewPool(path, l, size))
      ensures newId in pools && fresh(pools[newId]) && pools == old(pools)[newId := pools[newId]]
    {
      hide NewPool;
      ghost var w := View();
      var p := new ConnectionPool(newId, path, l, size);
      pools := pools[newId := p];
      assert View().pools == w.pools[newId := p.View()];
    }

    /** The pool takes the loop's place in the registry. */
    method Enter(l: LoopId, id: PoolId)
      requires Valid() && id in pools
      modifies this`registry, this`doomed
      ensures Valid() && pools == old(pools)
      ensures View() == old(View()).(
            registry := old(registry)[l := id],
            doomed := old(doomed) + if l in old(registry) then {old(registry)[l]} else {})
    {
      ghost var w := View();
      doomed := doomed + if l in registry then {registry[l]} else {};
      registry := registry[l := id];
      assert View().pools == w.pools;
    }

    /** reset_pools_for_tests */
    method ResetForTests()
      requires Valid()
      modifies this`registry, this`doomed, this`started, this`told, pools.Values
      ensures Valid()
      ensures View() == Reset(old(View())).(doomed := old(doomed) - Registered(old(registry)))
    {
      hide Orphans, LiveOf, RegisteredLive, Reset, AbandonMany;
      ghost var w := View();
      SweepOrphans(false);
      var ids := Registered(registry);
      ghost var swept := View();
      registry := map[];
      ghost var v := View();
      assert v.pools == swept.pools && v == swept.(registry := map[]);
      AbandonEach(ids);
      ResetIsSweepAndAbandon(w, v, ids);
    }
  }

  lemma StepOfAcquire(w: World, id: PoolId, op: Op)
    requires id in w.pools && Enabled(w.pools[id], op)
    ensures op.PopIdle? || op.OpenOk? ==> PoolStep(w, id, op) == WithPool(w, id, Apply(w.pools[id], op))
    ensures op.OpenFails? || op.DisposeEnds? ==>
              op.use in w.pools[id].uses
              && PoolStep(w, id, op) == Stop(WithPool(w, id, Apply(w.pools[id], op)), {w.pools[id].uses[op.use].conn})
    ensures op.BeginOpen? ==>
              op.use in w.pools[id].granted
              && PoolStep(w, id, op) == WithPool(w, id, Apply(w.pools[id], op)).(
                   started := w.started[op.conn := PoolWorld.Opened(w.pools[id].loop, w.pools[id].granted[op.use])],
                   workers := w.workers + {op.conn}, home := w.home[op.conn := id])
  {
  }

  lemma OrphansByOwner(w: World, onlyDeadLoops: bool)
    ensures forall c :: c in Orphans(w, onlyDeadLoops) <==>
              && c in w.started && !Owned(w, c)
              && (IsClosed(w, w.started[c].loop) || (!onlyDeadLoops && !OpenerPending(w, w.started[c])))
  {
  }

  /** An orphan is live in no registered pool, and nobody can still be opening it: its loop is closed
      or, where that is looked at, does not run, or the task that opened it is done. */
  lemma OrphansAre(w: World, onlyDeadLoops: bool)
    ensures forall c :: c in Orphans(w, onlyDeadLoops) <==>
              && c in w.started
              && !(exists l :: l in w.registry && w.registry[l] in w.pools && c in w.pools[w.registry[l]].live)
              && var (l, task) := (w.started[c].loop, w.started[c].task);
                 || (l in w.loops && w.loops[l] == LoopClosed)
                 || (!onlyDeadLoops && (task in w.done || l !in w.loops || w.loops[l] != Running))
    ensures Orphans(w, onlyDeadLoops) <= w.started.Keys
  {
  }

  /** Sweeping one more connection. */
  lemma OneMore(w: World, orphans: set<Conn>, seen: set<Conn>, c: Conn)
    requires c !in seen
    ensures var before, after := orphans * seen, orphans * (seen + {c});
            if c in orphans then
              w.started - after == w.started - before - {c} && w.told + after == w.told + before + {c}
            else
              w.started - after == w.started - before && w.told + after == w.told + before
  {
  }

  lemma LiveOfOne(w: World, id: PoolId)
    requires id in w.pools
    ensures LiveOf(w, {id}) == w.pools[id].live
  {
  }

  lemma AbandonedOne(w: World, id: PoolId)
    requires id in w.pools
    ensures AbandonMany(w, {id})
         == WithPool(Stop(w, w.pools[id].live), id, Abandoned(w.pools[id])).(doomed := w.doomed - {id})
    ensures Stop(w, w.pools[id].live).doomed == w.doomed && Stop(w, w.pools[id].live).pools == w.pools
    ensures WithPool(Stop(w, w.pools[id].live), id, Abandoned(w.pools[id])).doomed == w.doomed
  {
    LiveOfOne(w, id);
    hide LiveOf;
    assert AbandonMany(w, {id}).pools == w.pools[id := Abandoned(w.pools[id])];
  }

  lemma AbandonNone(w: World)
    ensures AbandonMany(w, {}) == w
  {
  }

  lemma AbandonOneMore(w: World, ids: set<PoolId>, id: PoolId)
    requires id in w.pools && id !in ids
    ensures AbandonMany(AbandonMany(w, ids), {id}) == AbandonMany(w, ids + {id})
  {
  }

  lemma ResetIsSweepAndAbandon(w: World, v: World, ids: set<PoolId>)
    requires v == Stop(w, Orphans(w, false)).(registry := map[])
    requires ids == Registered(w.registry)
    ensures AbandonMany(v, ids) == Reset(w).(doomed := w.doomed - ids)
  {
    assert LiveOf(v, ids) == RegisteredLive(w);
    var a, r := AbandonMany(v, ids), Reset(w);
    assert forall id :: id in ids <==> IsRegistered(w, id);
    assert a.pools == r.pools;
  }
}
