/** How many connections a pool can have: the bound, and exactly when it holds. */
module PoolCounts {
  import opened PoolState

  function OpeningConns(p: Pool): set<Conn> {
    set u | u in p.uses && p.uses[u].stage.Opening? :: p.uses[u].conn
  }

  lemma PlusOne<T>(s: set<T>, x: T)
    ensures |s + {x}| == if x in s then |s| else |s| + 1
  {
    assert x in s ==> s + {x} == s;
  }

  lemma {:induction false} ImageSize(uses: map<UseId, Use>)
    ensures |ConnsOf(uses)| <= |uses|
    ensures (forall u, v :: u in uses && v in uses && u != v ==> uses[u].conn != uses[v].conn) ==>
              |ConnsOf(uses)| == |uses|
    decreases |uses|
  {
    if uses.Keys == {} {
      assert ConnsOf(uses) == {};
    } else {
      var u :| u in uses;
      var rest := uses - {u};
      MapSizes(uses, u, uses[u]);
      ImageSize(rest);
      assert rest[u := uses[u]] == uses;
      ConnsWith(rest, u, uses[u]);
      PlusOne(ConnsOf(rest), uses[u].conn);
    }
  }

  lemma {:induction false} IdleSize(idle: seq<Conn>)
    ensures |SetOf(idle)| <= |idle|
    decreases |idle|
  {
    if idle != [] {
      IdleSize(idle[1..]);
      assert SetOf(idle) == SetOf(idle[1..]) + {idle[0]};
      PlusOne(SetOf(idle[1..]), idle[0]);
    }
  }

  function SetOf(idle: seq<Conn>): set<Conn> {
    set c | c in idle
  }

  lemma SubsetSize<T>(a: set<T>, b: set<T>)
    requires a <= b
    ensures |a| <= |b|
  {
    assert b == a + (b - a);
  }

  lemma TakenOrLeaked(p: Pool)
    requires Sound(p)
    ensures p.live + OpeningConns(p) <= IdleSet(p) + InUse(p) + Leaked(p)
    ensures p.live !! OpeningConns(p)
  {
  }

  lemma SlotsAddUp(p: Pool)
    requires Sound(p) && SoundOpen(p) && !p.closed
    ensures |p.idle| + |p.uses| <= p.size
  {
  }

  /** Live connections and connections being opened, together, are never more than the
      pool's size and what it leaked, although opening is a point of suspension. */
  lemma LiveAndOpeningBounded(p: Pool)
    requires Sound(p) && SoundOpen(p) && !p.closed
    ensures p.live !! OpeningConns(p)
    ensures |p.live| + |OpeningConns(p)| <= p.size + |Leaked(p)|
  {
    hide Sound, SoundOpen, ConnsOf, IdleSet, Leaked, OpeningConns;
    TakenOrLeaked(p);
    SlotsAddUp(p);
    ImageSize(p.uses);
    assert IdleSet(p) == SetOf(p.idle) by { IdleSetIs(p); }
    IdleSize(p.idle);
    SubsetSize(p.live + OpeningConns(p), IdleSet(p) + InUse(p) + Leaked(p));
    UnionSize(IdleSet(p), InUse(p), Leaked(p));
  }

  lemma IdleSetIs(p: Pool)
    ensures IdleSet(p) == SetOf(p.idle)
  {
  }

  lemma UnionSize<T>(a: set<T>, b: set<T>, c: set<T>)
    ensures |a + b + c| <= |a| + |b| + |c|
  {
  }

  // ---------------------------------------------------------------- continuations

  predicate Ordinary(p: Pool, op: Op) {
    Enabled(p, op) && IsNew(p, op) && !op.Close? && !op.Abandon? && !op.RollbackCancelled?
  }

  /** The states a pool goes through under ordinary operations. */
  predicate OrdinaryRun(p: Pool, ops: seq<Op>)
    decreases |ops|
  {
    ops == [] || (Ordinary(p, ops[0]) && OrdinaryRun(Apply(p, ops[0]), ops[1..]))
  }

  function After(p: Pool, ops: seq<Op>): Pool
    requires OrdinaryRun(p, ops)
    decreases |ops|
  {
    if ops == [] then p else After(Apply(p, ops[0]), ops[1..])
  }

  lemma OrdinaryStep(p: Pool, op: Op)
    requires Sound(p) && SoundOpen(p) && !p.closed && Ordinary(p, op)
    ensures var q := Apply(p, op); Sound(q) && SoundOpen(q) && !q.closed && Leaked(q) == Leaked(p) && q.size == p.size
  {
    hide Sound, SoundOpen, Leaked, IsNew, Enabled;
    StepKeepsSound(p, op);
    StepKeepsSoundOpen(p, op);
    OnlyCancelledRollbacksLeak(p, op);
  }

  lemma {:induction false} OrdinaryRunKeeps(p: Pool, ops: seq<Op>)
    requires Sound(p) && SoundOpen(p) && !p.closed && OrdinaryRun(p, ops)
    ensures var q := After(p, ops); Sound(q) && SoundOpen(q) && !q.closed && Leaked(q) == Leaked(p) && q.size == p.size
    decreases |ops|
  {
    hide Sound, SoundOpen, Leaked, Apply, Enabled, IsNew;
    if ops != [] {
      OrdinaryStep(p, ops[0]);
      OrdinaryRunKeeps(Apply(p, ops[0]), ops[1..]);
    }
  }

  lemma {:induction false} Append(p: Pool, ops: seq<Op>, more: seq<Op>)
    requires OrdinaryRun(p, ops) && OrdinaryRun(After(p, ops), more)
    ensures OrdinaryRun(p, ops + more) && After(p, ops + more) == After(After(p, ops), more)
    decreases |ops|
  {
    hide Apply, Enabled, IsNew;
    if ops == [] {
      assert ops + more == more;
    } else {
      assert (ops + more)[0] == ops[0] && (ops + more)[1..] == ops[1..] + more;
      Append(Apply(p, ops[0]), ops[1..], more);
    }
  }

  lemma OneOp(p: Pool, op: Op)
    requires Ordinary(p, op)
    ensures OrdinaryRun(p, [op]) && After(p, [op]) == Apply(p, op)
  {
  }

  /** An operation first, then a run. */
  lemma Prepend(p: Pool, op: Op, ops: seq<Op>)
    requires Ordinary(p, op) && OrdinaryRun(Apply(p, op), ops)
    ensures OrdinaryRun(p, [op] + ops) && After(p, [op] + ops) == After(Apply(p, op), ops)
  {
  }

  /** The operation that ends a use from where it stands. */
  function WayOut(p: Pool, u: UseId): Op
    requires u in p.uses
  {
    match p.uses[u].stage
    case Opening => OpenFails(u)
    case Lent => GiveBack(u)
    case RollingBack => GiveBack(u)
    case Disposing => DisposeEnds(u)
  }

  lemma WayOutEndsUse(p: Pool, u: UseId)
    requires !p.closed && u in p.uses
    ensures Ordinary(p, WayOut(p, u))
    ensures var q := Apply(p, WayOut(p, u)); q.granted == p.granted && |q.uses| == |p.uses| - 1
  {
  }

  /** Every use can come to its end. */
  lemma {:induction false} Drain(p: Pool) returns (ops: seq<Op>)
    requires Sound(p) && SoundOpen(p) && !p.closed
    ensures OrdinaryRun(p, ops) && After(p, ops).granted == map[] && After(p, ops).uses == map[]
    decreases |p.granted| + |p.uses|
  {
    if p.granted.Keys != {} {
      var u :| u in p.granted;
      MapSizes(p.granted, u, 0);
      OrdinaryStep(p, CancelWait(u));
      ops := Drain(Apply(p, CancelWait(u)));
      Prepend(p, CancelWait(u), ops);
      ops := [CancelWait(u)] + ops;
    } else if p.uses.Keys != {} {
      hide Ordinary, Enabled, Apply, Sound, SoundOpen;
      var u :| u in p.uses;
      WayOutEndsUse(p, u);
      OrdinaryStep(p, WayOut(p, u));
      ops := Drain(Apply(p, WayOut(p, u)));
      Prepend(p, WayOut(p, u), ops);
      ops := [WayOut(p, u)] + ops;
    } else {
      ops := [];
    }
  }

  lemma {:induction false} FreshNat(s: set<nat>) returns (n: nat)
    ensures forall m :: m in s ==> m < n
    decreases |s|
  {
    if s == {} {
      n := 0;
    } else {
      var m :| m in s;
      var k := FreshNat(s - {m});
      n := if k > m then k else m + 1;
      forall x | x in s ensures x < n {
        assert x == m || x in s - {m};
      }
    }
  }

  predicate AllLent(p: Pool) {
    p.granted == map[] && forall u :: u in p.uses ==> p.uses[u].stage.Lent?
  }

  /** One more use takes a slot and gets a connection. */
  lemma LendOne(p: Pool) returns (ops: seq<Op>)
    requires Sound(p) && SoundOpen(p) && !p.closed && AllLent(p) && p.slots > 0
    ensures OrdinaryRun(p, ops) && AllLent(After(p, ops)) && After(p, ops).slots == p.slots - 1
  {
    var u := FreshNat(p.uses.Keys);
    var take := TakeSlot(u, 0);
    var p1 := Apply(p, take);
    assert Ordinary(p, take);
    OneOp(p, take);
    assert p1.granted == map[u := 0];
    if p.idle != [] {
      OneOp(p1, PopIdle(u));
      ops := [take, PopIdle(u)];
      assert ops == [take] + [PopIdle(u)];
      Prepend(p, take, [PopIdle(u)]);
    } else {
      var c := FreshNat(p.live + InUse(p));
      ops := [take] + ([BeginOpen(u, c)] + [OpenOk(u)]);
      LendNew(p1, u, c);
      Prepend(p, take, [BeginOpen(u, c)] + [OpenOk(u)]);
    }
  }

  lemma LendNew(p: Pool, u: UseId, c: Conn)
    requires p.granted == map[u := 0] && p.idle == [] && p.closer.NotClosing? && u !in p.uses
    requires c !in p.live && c !in InUse(p) && forall v :: v in p.uses ==> p.uses[v].stage.Lent?
    ensures OrdinaryRun(p, [BeginOpen(u, c)] + [OpenOk(u)])
    ensures var q := After(p, [BeginOpen(u, c)] + [OpenOk(u)]); AllLent(q) && q.slots == p.slots
  {
    var p1 := Apply(p, BeginOpen(u, c));
    OneOp(p1, OpenOk(u));
    Prepend(p, BeginOpen(u, c), [OpenOk(u)]);
  }

  /** Every slot can be lent out at once. */
  lemma {:induction false} Fill(p: Pool) returns (ops: seq<Op>)
    requires Sound(p) && SoundOpen(p) && !p.closed && AllLent(p)
    ensures OrdinaryRun(p, ops) && AllLent(After(p, ops)) && After(p, ops).slots == 0
    decreases p.slots
  {
    hide Sound, SoundOpen, AllLent, OrdinaryRun;
    if p.slots == 0 {
      ops := [];
      assert OrdinaryRun(p, []) by { EmptyRun(p); }
    } else {
      var first := LendOne(p);
      OrdinaryRunKeeps(p, first);
      var rest := Fill(After(p, first));
      Append(p, first, rest);
      ops := first + rest;
    }
  }

  lemma EmptyRun(p: Pool)
    ensures OrdinaryRun(p, [])
  {
  }

  lemma FullPoolSets(p: Pool)
    requires Sound(p) && SoundOpen(p) && !p.closed && AllLent(p) && p.slots == 0
    ensures p.live == InUse(p) + Leaked(p) && InUse(p) !! Leaked(p)
  {
  }

  lemma FullPool(p: Pool)
    requires Sound(p) && SoundOpen(p) && !p.closed && AllLent(p) && p.slots == 0
    ensures |p.live| == p.size + |Leaked(p)|
  {
    ImageSize(p.uses);
    FullPoolSets(p);
    hide Sound, SoundOpen, Leaked, ConnsOf;
    assert |InUse(p) + Leaked(p)| == |InUse(p)| + |Leaked(p)|;
  }

  lemma LeakOverflows(p: Pool)
    requires Sound(p) && SoundOpen(p) && !p.closed && Leaked(p) != {}
    ensures !StaysBounded(p)
  {
    hide Sound, SoundOpen, OrdinaryRun, After, Leaked, OpeningConns;
    var drain := Drain(p);
    OrdinaryRunKeeps(p, drain);
    var fill := Fill(After(p, drain));
    Append(p, drain, fill);
    OrdinaryRunKeeps(p, drain + fill);
    var q := After(p, drain + fill);
    FullPool(q);
    assert |q.live| + |OpeningConns(q)| > q.size;
  }

  ghost predicate StaysBounded(p: Pool) {
    forall ops :: OrdinaryRun(p, ops) ==>
      |After(p, ops).live| + |OpeningConns(After(p, ops))| <= After(p, ops).size
  }

  /** Whatever ordinary operations follow, an open pool stays within its size if and only if
      no cancelled rollback has leaked a connection. */
  lemma BoundedExactlyWithoutLeaks(p: Pool)
    requires Sound(p) && SoundOpen(p) && !p.closed
    ensures StaysBounded(p) <==> Leaked(p) == {}
  {
    if Leaked(p) == {} {
      forall ops | OrdinaryRun(p, ops)
        ensures |After(p, ops).live| + |OpeningConns(After(p, ops))| <= After(p, ops).size
      {
        hide Sound, SoundOpen, Leaked, OpeningConns;
        OrdinaryRunKeeps(p, ops);
        LiveAndOpeningBounded(After(p, ops));
      }
    } else {
      LeakOverflows(p);
    }
  }
}
