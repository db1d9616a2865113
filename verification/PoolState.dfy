/** One connection pool: its slots, its idle and live connections, and the uses in progress.

    A use is one run through get_db: it takes a slot, gets an idle connection or opens one,
    holds it, and gives it back. Every operation below is what runs between two points where
    the coroutine may be suspended, so operations of different uses interleave freely. */
module PoolState {

  type Conn = nat
  type UseId = nat
  type TaskId = nat
  type LoopId = nat
  type Path = nat

  datatype Stage =
    | Opening      // inside the connect handshake
    | Lent         // with the borrower
    | RollingBack  // inside release, awaiting the rollback
    | Disposing    // inside release, awaiting the connection's close

  datatype Use = Use(task: TaskId, stage: Stage, conn: Conn)

  /** close() disposing of the connections it found idle, one by one. */
  datatype Closer =
    | NotClosing
    | Between(rest: seq<Conn>)
    | Retiring(conn: Conn, rest: seq<Conn>)

  datatype Pool = Pool(
    path: Path,
    loop: LoopId,
    size: nat,
    slots: nat,
    idle: seq<Conn>,
    live: set<Conn>,
    closed: bool,
    granted: map<UseId, TaskId>,  // uses with a slot and no connection yet
    uses: map<UseId, Use>,        // uses with a slot and a connection
    closer: Closer)

  function NewPool(path: Path, loop: LoopId, size: nat): Pool {
    Pool(path, loop, size, size, [], {}, false, map[], map[], NotClosing)
  }

  datatype Op =
    | TakeSlot(use: UseId, task: TaskId)
    | CancelWait(use: UseId)             // cancelled with the slot granted
    | PopIdle(use: UseId)
    | BeginOpen(use: UseId, conn: Conn)
    | OpenOk(use: UseId)
    | OpenFails(use: UseId)              // raised, or cancelled inside the handshake
    | BeginRollback(use: UseId)
    | RollbackCancelled(use: UseId)
    | GiveBack(use: UseId)               // nothing to roll back, or rolled back
    | BeginDispose(use: UseId)           // the pool was closed, or the rollback failed
    | DisposeEnds(use: UseId)            // closed, close failed and stopped, or cancelled
    | Close
    | Retire
    | Retired                            // closed, or close failed and stopped
    | CloseCancelled
    | Abandon

  predicate At(p: Pool, u: UseId, stage: Stage) {
    u in p.uses && p.uses[u].stage == stage
  }

  function SlotTaken(p: Pool, u: UseId, task: TaskId): Pool
    requires p.slots > 0
  {
    p.(slots := p.slots - 1, granted := p.granted[u := task])
  }

  function WaitCancelled(p: Pool, u: UseId): Pool {
    p.(slots := p.slots + 1, granted := p.granted - {u})
  }

  /** A granted use gets its connection; `idle` is what is then left. */
  function Served(p: Pool, u: UseId, stage: Stage, conn: Conn, idle: seq<Conn>): Pool
    requires u in p.granted
  {
    p.(granted := p.granted - {u}, uses := p.uses[u := Use(p.granted[u], stage, conn)], idle := idle)
  }

  function Moved(p: Pool, u: UseId, stage: Stage, live: set<Conn>): Pool
    requires u in p.uses
  {
    p.(uses := p.uses[u := p.uses[u].(stage := stage)], live := live)
  }

  /** The use is over and its slot free again. */
  function Ended(p: Pool, u: UseId, idle: seq<Conn>): Pool {
    p.(slots := p.slots + 1, uses := p.uses - {u}, idle := idle)
  }

  function Closed(p: Pool): Pool {
    p.(closed := true, idle := [], closer := Between(p.idle))
  }

  function CloserAt(p: Pool, closer: Closer, live: set<Conn>): Pool {
    p.(closer := closer, live := live)
  }

  function Abandoned(p: Pool): Pool {
    p.(closed := true, live := {}, idle := [])
  }

  predicate Enabled(p: Pool, op: Op) {
    match op
    case TakeSlot(u, _) => u !in p.granted && u !in p.uses && p.slots > 0
    case CancelWait(u) => u in p.granted
    case PopIdle(u) => u in p.granted && p.idle != []
    case BeginOpen(u, _) => u in p.granted && p.idle == []
    case OpenOk(u) => At(p, u, Opening)
    case OpenFails(u) => At(p, u, Opening)
    case BeginRollback(u) => At(p, u, Lent) && !p.closed
    case RollbackCancelled(u) => At(p, u, RollingBack)
    case GiveBack(u) => At(p, u, RollingBack) || (At(p, u, Lent) && !p.closed)
    case BeginDispose(u) => At(p, u, RollingBack) || (At(p, u, Lent) && p.closed)
    case DisposeEnds(u) => At(p, u, Disposing)
    case Close => !p.closed
    case Retire => p.closer.Between? && p.closer.rest != []
    case Retired => p.closer.Retiring?
    case CloseCancelled => p.closer.Retiring?
    case Abandon => true
  }

  function Apply(p: Pool, op: Op): Pool
    requires Enabled(p, op)
  {
    match op
    case TakeSlot(u, task) => SlotTaken(p, u, task)
    case CancelWait(u) => WaitCancelled(p, u)
    case PopIdle(u) => Served(p, u, Lent, p.idle[|p.idle| - 1], p.idle[..|p.idle| - 1])
    case BeginOpen(u, conn) => Served(p, u, Opening, conn, p.idle)
    case OpenOk(u) => Moved(p, u, Lent, p.live + {p.uses[u].conn})
    case OpenFails(u) => Ended(p, u, p.idle)
    case BeginRollback(u) => Moved(p, u, RollingBack, p.live)
    case RollbackCancelled(u) => Ended(p, u, p.idle)
    case GiveBack(u) => Ended(p, u, p.idle + [p.uses[u].conn])
    case BeginDispose(u) => Moved(p, u, Disposing, p.live - {p.uses[u].conn})
    case DisposeEnds(u) => Ended(p, u, p.idle)
    case Close => Closed(p)
    case Retire => CloserAt(p, Retiring(p.closer.rest[0], p.closer.rest[1..]), p.live - {p.closer.rest[0]})
    case Retired => CloserAt(p, Between(p.closer.rest), p.live)
    case CloseCancelled => CloserAt(p, NotClosing, p.live)
    case Abandon => Abandoned(p)
  }

  // ---------------------------------------------------------------- the lending invariant

  /** The connections uses have in hand, in whatever stage. */
  function InUse(p: Pool): set<Conn> {
    ConnsOf(p.uses)
  }

  function ConnsOf(uses: map<UseId, Use>): set<Conn> {
    set u | u in uses :: uses[u].conn
  }

  /** The connections close() has yet to dispose of. */
  function Closing(closer: Closer): set<Conn> {
    match closer
    case NotClosing => {}
    case Between(rest) => set c | c in rest
    case Retiring(conn, rest) => {conn} + set c | c in rest
  }

  function IdleSet(p: Pool): set<Conn> {
    set c | c in p.idle
  }

  /** Live connections that are neither idle nor in a use: nobody will ever take or close
      them while the pool is open. */
  function Leaked(p: Pool): set<Conn> {
    p.live - IdleSet(p) - InUse(p)
  }

  ghost predicate Distinct(s: seq<Conn>) {
    forall i, j :: 0 <= i < j < |s| ==> s[i] != s[j]
  }

  /** What holds of every pool, open or closed: a free slot or a slot holder for each of
      its places, no connection lent twice, and none both idle and in a use. */
  ghost predicate Sound(p: Pool) {
    && p.slots + |p.granted| + |p.uses| == p.size
    && (forall u :: u in p.granted ==> u !in p.uses)
    && (forall u, v :: u in p.uses && v in p.uses && u != v ==> p.uses[u].conn != p.uses[v].conn)
    && Distinct(p.idle)
    && (forall c :: c in p.idle ==> c !in Closing(p.closer))
    && (forall u :: u in p.uses ==> p.uses[u].conn !in p.idle && p.uses[u].conn !in Closing(p.closer))
    && (forall u :: u in p.uses && (p.uses[u].stage.Opening? || p.uses[u].stage.Disposing?)
          ==> p.uses[u].conn !in p.live)
  }

  /** What more holds while a pool is open. */
  ghost predicate SoundOpen(p: Pool) {
    !p.closed ==>
      && p.closer.NotClosing?
      && (forall c :: c in p.idle ==> c in p.live)
      && (forall u :: u in p.uses && (p.uses[u].stage.Lent? || p.uses[u].stage.RollingBack?)
            ==> p.uses[u].conn in p.live)
      && |p.idle| <= p.slots + |p.granted|
  }

  /** A connection about to be opened is new to its pool. */
  predicate IsNew(p: Pool, op: Op) {
    op.BeginOpen? ==> op.conn !in p.live && op.conn !in p.idle && op.conn !in InUse(p) && op.conn !in Closing(p.closer)
  }

  lemma NewPoolIsSound(path: Path, loop: LoopId, size: nat)
    ensures Sound(NewPool(path, loop, size)) && SoundOpen(NewPool(path, loop, size))
    ensures Leaked(NewPool(path, loop, size)) == {}
  {
  }

  lemma MapSizes<K, V>(m: map<K, V>, k: K, v: V)
    ensures |m[k := v]| == if k in m then |m| else |m| + 1
    ensures k in m ==> |m - {k}| == |m| - 1
  {
  }

  lemma ServingKeepsSound(p: Pool, u: UseId, stage: Stage, conn: Conn, idle: seq<Conn>)
    requires Sound(p) && u in p.granted && idle <= p.idle
    requires conn !in idle && conn !in InUse(p) && conn !in Closing(p.closer) && (stage.Opening? ==> conn !in p.live)
    requires !stage.Disposing?
    ensures Sound(Served(p, u, stage, conn, idle))
  {
    hide Closing;
    var q := Served(p, u, stage, conn, idle);
    MapSizes(p.uses, u, q.uses[u]);
    MapSizes(p.granted, u, 0);
    assert forall c :: c in idle ==> c in p.idle;
    assert forall v :: v in p.uses ==> p.uses[v].conn in InUse(p);
  }

  lemma MovingKeepsSound(p: Pool, u: UseId, stage: Stage, live: set<Conn>)
    requires Sound(p) && u in p.uses
    requires var conn := p.uses[u].conn; live <= p.live + {conn}
    requires stage.Opening? || stage.Disposing? ==> p.uses[u].conn !in live
    ensures Sound(Moved(p, u, stage, live))
  {
  }

  lemma EndingKeepsSound(p: Pool, u: UseId, idle: seq<Conn>)
    requires Sound(p) && u in p.uses && (idle == p.idle || idle == p.idle + [p.uses[u].conn])
    ensures Sound(Ended(p, u, idle))
  {
  }

  lemma WaitingKeepsSound(p: Pool, u: UseId, task: TaskId)
    requires Sound(p)
    ensures p.slots > 0 && u !in p.granted && u !in p.uses ==> Sound(SlotTaken(p, u, task))
    ensures u in p.granted ==> Sound(WaitCancelled(p, u))
  {
  }

  lemma ClosingKeepsSound(p: Pool, closer: Closer, live: set<Conn>)
    requires Sound(p)
    ensures Sound(Closed(p)) && Sound(Abandoned(p))
    ensures Closing(closer) <= Closing(p.closer) && live <= p.live ==> Sound(CloserAt(p, closer, live))
  {
    hide Sound;
    ClosedIsSound(p);
    if Closing(closer) <= Closing(p.closer) && live <= p.live {
      CloserMovesSound(p, closer, live);
    }
  }

  lemma ClosedIsSound(p: Pool)
    requires Sound(p)
    ensures Sound(Closed(p)) && Sound(Abandoned(p))
  {
  }

  lemma CloserMovesSound(p: Pool, closer: Closer, live: set<Conn>)
    requires Sound(p) && Closing(closer) <= Closing(p.closer) && live <= p.live
    ensures Sound(CloserAt(p, closer, live))
  {
    hide Distinct, Closing;
  }

  lemma IdleIsApart(p: Pool, u: UseId)
    requires Sound(p) && p.idle != []
    ensures var conn := p.idle[|p.idle| - 1];
            conn !in p.idle[..|p.idle| - 1] && conn !in InUse(p) && conn !in Closing(p.closer)
  {
  }

  /** Every operation keeps the lending invariant, in a pool open or closed. */
  lemma StepKeepsSound(p: Pool, op: Op)
    requires Sound(p) && Enabled(p, op) && IsNew(p, op)
    ensures Sound(Apply(p, op))
  {
    hide Sound, InUse, Served, Moved, Ended, SlotTaken, WaitCancelled, Closed, CloserAt, Abandoned;
    match op
    case PopIdle(u) =>
      IdleIsApart(p, u);
      ServingKeepsSound(p, u, Lent, p.idle[|p.idle| - 1], p.idle[..|p.idle| - 1]);
    case BeginOpen(u, conn) => ServingKeepsSound(p, u, Opening, conn, p.idle);
    case OpenOk(u) => MovingKeepsSound(p, u, Lent, p.live + {p.uses[u].conn});
    case BeginRollback(u) => MovingKeepsSound(p, u, RollingBack, p.live);
    case BeginDispose(u) => MovingKeepsSound(p, u, Disposing, p.live - {p.uses[u].conn});
    case OpenFails(u) => EndingKeepsSound(p, u, p.idle);
    case RollbackCancelled(u) => EndingKeepsSound(p, u, p.idle);
    case GiveBack(u) => EndingKeepsSound(p, u, p.idle + [p.uses[u].conn]);
    case DisposeEnds(u) => EndingKeepsSound(p, u, p.idle);
    case TakeSlot(u, task) => WaitingKeepsSound(p, u, task);
    case CancelWait(u) => WaitingKeepsSound(p, u, p.granted[u]);
    case Retire => ClosingKeepsSound(p, Retiring(p.closer.rest[0], p.closer.rest[1..]), p.live - {p.closer.rest[0]});
    case Retired => ClosingKeepsSound(p, Between(p.closer.rest), p.live);
    case CloseCancelled => ClosingKeepsSound(p, NotClosing, p.live);
    case _ => ClosingKeepsSound(p, p.closer, p.live);
  }

  lemma ServingKeepsSoundOpen(p: Pool, u: UseId, stage: Stage, conn: Conn, idle: seq<Conn>)
    requires SoundOpen(p) && !p.closed && u in p.granted && (idle == [] || (idle <= p.idle && |idle| < |p.idle|))
    requires stage.Opening? || (stage.Lent? && conn in p.live)
    ensures SoundOpen(Served(p, u, stage, conn, idle))
  {
  }

  lemma WaitingKeepsSoundOpen(p: Pool, u: UseId, task: TaskId)
    requires SoundOpen(p)
    ensures p.slots > 0 && u !in p.granted ==> SoundOpen(SlotTaken(p, u, task))
    ensures u in p.granted ==> SoundOpen(WaitCancelled(p, u))
  {
  }

  lemma MovingKeepsSoundOpen(p: Pool, u: UseId, stage: Stage, live: set<Conn>)
    requires Sound(p) && SoundOpen(p) && u in p.uses && p.live - {p.uses[u].conn} <= live
    requires stage.Disposing? || ((stage.Lent? || stage.RollingBack?) && p.uses[u].conn in live)
    ensures SoundOpen(Moved(p, u, stage, live))
  {
  }

  lemma EndingKeepsSoundOpen(p: Pool, u: UseId, idle: seq<Conn>)
    requires SoundOpen(p) && u in p.uses
    requires idle == p.idle || (idle == p.idle + [p.uses[u].conn] && p.uses[u].conn in p.live)
    ensures SoundOpen(Ended(p, u, idle))
  {
  }

  lemma UseFacts(p: Pool, op: Op)
    requires Sound(p) && SoundOpen(p) && Enabled(p, op) && !p.closed
    ensures op.PopIdle? || op.BeginOpen? ==> op.use !in p.uses
    ensures op.PopIdle? ==> p.idle[|p.idle| - 1] in p.live
    ensures op.OpenFails? || op.DisposeEnds? ==> p.uses[op.use].conn !in p.live
    ensures op.RollbackCancelled? || op.GiveBack? || op.BeginRollback? ==> p.uses[op.use].conn in p.live
    ensures !op.Retire? && !op.Retired? && !op.CloseCancelled?
  {
  }

  lemma StepKeepsSoundOpen(p: Pool, op: Op)
    requires Sound(p) && SoundOpen(p) && Enabled(p, op)
    ensures SoundOpen(Apply(p, op))
  {
    if p.closed || op.Close? || op.Abandon? {
      assert Apply(p, op).closed;
    } else {
      UseFacts(p, op);
      hide Sound, SoundOpen, Served, Moved, Ended, SlotTaken, WaitCancelled, Closed, CloserAt, Abandoned;
      match op
      case PopIdle(u) => ServingKeepsSoundOpen(p, u, Lent, p.idle[|p.idle| - 1], p.idle[..|p.idle| - 1]);
      case BeginOpen(u, conn) => ServingKeepsSoundOpen(p, u, Opening, conn, p.idle);
      case OpenOk(u) => MovingKeepsSoundOpen(p, u, Lent, p.live + {p.uses[u].conn});
      case BeginRollback(u) => MovingKeepsSoundOpen(p, u, RollingBack, p.live);
      case BeginDispose(u) => MovingKeepsSoundOpen(p, u, Disposing, p.live - {p.uses[u].conn});
      case OpenFails(u) => EndingKeepsSoundOpen(p, u, p.idle);
      case RollbackCancelled(u) => EndingKeepsSoundOpen(p, u, p.idle);
      case GiveBack(u) => EndingKeepsSoundOpen(p, u, p.idle + [p.uses[u].conn]);
      case DisposeEnds(u) => EndingKeepsSoundOpen(p, u, p.idle);
      case TakeSlot(u, task) => WaitingKeepsSoundOpen(p, u, task);
      case CancelWait(u) => WaitingKeepsSoundOpen(p, u, p.granted[u]);
      case _ =>
    }
  }

  // ---------------------------------------------------------------- leaks

  lemma ConnsWith(uses: map<UseId, Use>, u: UseId, use: Use)
    requires u in uses ==> uses[u].conn == use.conn
    ensures ConnsOf(uses[u := use]) == ConnsOf(uses) + {use.conn}
  {
    var after := uses[u := use];
    forall c | c in ConnsOf(uses) ensures c in ConnsOf(after) {
      var v :| v in uses && uses[v].conn == c;
      assert after[v].conn == c;
    }
    assert after[u].conn in ConnsOf(after);
  }

  lemma ConnsWithout(uses: map<UseId, Use>, u: UseId)
    requires u in uses && forall v :: v in uses && v != u ==> uses[v].conn != uses[u].conn
    ensures ConnsOf(uses - {u}) == ConnsOf(uses) - {uses[u].conn}
    ensures uses[u].conn in ConnsOf(uses)
  {
    var after := uses - {u};
    forall c | c in ConnsOf(uses) && c != uses[u].conn ensures c in ConnsOf(after) {
      var v :| v in uses && uses[v].conn == c;
      assert after[v].conn == c;
    }
  }

  lemma ServingLeaksNothing(p: Pool, u: UseId, stage: Stage, conn: Conn, idle: seq<Conn>)
    requires u in p.granted && u !in p.uses
    requires (idle == p.idle && conn !in p.live) || (p.idle == idle + [conn])
    ensures Leaked(Served(p, u, stage, conn, idle)) == Leaked(p)
  {
    var q := Served(p, u, stage, conn, idle);
    ConnsWith(p.uses, u, q.uses[u]);
    if p.idle != idle {
      assert IdleSet(p) == IdleSet(q) + {conn};
    } else {
      assert IdleSet(p) == IdleSet(q);
    }
  }

  lemma MovingLeaksNothing(p: Pool, u: UseId, stage: Stage, live: set<Conn>)
    requires u in p.uses && p.live - {p.uses[u].conn} <= live <= p.live + {p.uses[u].conn}
    ensures Leaked(Moved(p, u, stage, live)) == Leaked(p)
  {
    var q := Moved(p, u, stage, live);
    ConnsWith(p.uses, u, q.uses[u]);
    assert IdleSet(p) == IdleSet(q) && p.uses[u].conn in InUse(p);
  }

  lemma EndedSets(p: Pool, u: UseId, idle: seq<Conn>)
    requires Sound(p) && u in p.uses && (idle == p.idle || idle == p.idle + [p.uses[u].conn])
    ensures var q, c := Ended(p, u, idle), p.uses[u].conn;
            && q.live == p.live && InUse(q) == InUse(p) - {c} && c in InUse(p) && c !in IdleSet(p)
            && IdleSet(q) == if idle == p.idle then IdleSet(p) else IdleSet(p) + {c}
  {
    hide Closing, Distinct;
    ConnsWithout(p.uses, u);
    hide InUse, ConnsOf;
  }

  lemma EndingLeaks(p: Pool, u: UseId, idle: seq<Conn>)
    requires Sound(p) && u in p.uses && (idle == p.idle || idle == p.idle + [p.uses[u].conn])
    ensures Leaked(Ended(p, u, idle)) ==
            Leaked(p) + if idle == p.idle && p.uses[u].conn in p.live then {p.uses[u].conn} else {}
  {
    hide Sound, InUse, IdleSet, Ended;
    EndedSets(p, u, idle);
    Apart(p.live, IdleSet(p), InUse(p), p.uses[u].conn);
  }

  lemma Apart(live: set<Conn>, idle: set<Conn>, used: set<Conn>, c: Conn)
    requires c in used && c !in idle
    ensures live - idle - (used - {c}) == (live - idle - used) + if c in live then {c} else {}
    ensures live - (idle + {c}) - (used - {c}) == live - idle - used
  {
  }

  predicate EndsUse(op: Op) {
    op.OpenFails? || op.RollbackCancelled? || op.GiveBack? || op.DisposeEnds?
  }

  predicate MovesUse(op: Op) {
    op.OpenOk? || op.BeginRollback? || op.BeginDispose?
  }

  lemma ServingOpLeaksNothing(p: Pool, op: Op)
    requires Enabled(p, op) && (op.PopIdle? || op.BeginOpen?) && op.use !in p.uses
    requires op.BeginOpen? ==> op.conn !in p.live
    ensures Leaked(Apply(p, op)) == Leaked(p)
  {
    hide Leaked, Served;
    if op.PopIdle? {
      ServingLeaksNothing(p, op.use, Lent, p.idle[|p.idle| - 1], p.idle[..|p.idle| - 1]);
    } else {
      ServingLeaksNothing(p, op.use, Opening, op.conn, p.idle);
    }
  }

  lemma MovingOpLeaksNothing(p: Pool, op: Op)
    requires Enabled(p, op) && MovesUse(op)
    ensures Leaked(Apply(p, op)) == Leaked(p)
  {
    hide Leaked, Moved;
    var u := op.use;
    if op.OpenOk? {
      MovingLeaksNothing(p, u, Lent, p.live + {p.uses[u].conn});
    } else if op.BeginRollback? {
      MovingLeaksNothing(p, u, RollingBack, p.live);
    } else {
      MovingLeaksNothing(p, u, Disposing, p.live - {p.uses[u].conn});
    }
  }

  lemma EndingOpLeaks(p: Pool, op: Op)
    requires Sound(p) && Enabled(p, op) && EndsUse(op)
    requires op.GiveBack? || (op.RollbackCancelled? <==> p.uses[op.use].conn in p.live)
    ensures Leaked(Apply(p, op)) == Leaked(p) + if op.RollbackCancelled? then {p.uses[op.use].conn} else {}
  {
    hide Leaked, Ended, Sound;
    if op.GiveBack? {
      EndingLeaks(p, op.use, p.idle + [p.uses[op.use].conn]);
    } else {
      EndingLeaks(p, op.use, p.idle);
    }
  }

  /** Only a cancelled rollback leaks: it frees the slot and leaves its connection live. */
  lemma OnlyCancelledRollbacksLeak(p: Pool, op: Op)
    requires Sound(p) && SoundOpen(p) && Enabled(p, op) && IsNew(p, op) && !p.closed && !op.Close? && !op.Abandon?
    ensures Leaked(Apply(p, op)) == Leaked(p) + if op.RollbackCancelled? then {p.uses[op.use].conn} else {}
  {
    hide Leaked, Apply, Sound, SoundOpen;
    UseFacts(p, op);
    if op.PopIdle? || op.BeginOpen? {
      ServingOpLeaksNothing(p, op);
    } else if MovesUse(op) {
      MovingOpLeaksNothing(p, op);
    } else if EndsUse(op) {
      EndingOpLeaks(p, op);
    } else {
      WaitingOpLeaksNothing(p, op);
    }
  }

  lemma WaitingOpLeaksNothing(p: Pool, op: Op)
    requires Enabled(p, op) && (op.TakeSlot? || op.CancelWait?)
    ensures Leaked(Apply(p, op)) == Leaked(p)
  {
  }
}
