/** The schema migration runner: any number of processes, each of which may fail or crash
    anywhere, race to migrate one database.

    The database's content is the log of the statements that made it, which is as fine as
    content can be: whatever a statement does, it does to the statements before it. */
module Migrations {
  import opened Options

  /** A migration's body, as the number of its statements. */
  datatype Migration = Migration(version: nat, size: nat)

  datatype Statement = Statement(version: nat, index: nat)

  type Pid = nat

  datatype Stage =
    | Scanning(i: nat, current: nat)  // at migration i, with the version last read
    | Began(i: nat)                   // BEGIN IMMEDIATE done, the version not yet read again
    | InBody(i: nat, j: nat)          // j statements of migration i executed
    | Marked(i: nat)                  // the version row updated, not yet committed
    | Finished
    | Failed

  /** The one write transaction, and what its owner sees. */
  datatype Tx = Tx(owner: Pid, content: seq<Statement>, version: nat)

  datatype State = State(content: seq<Statement>, version: nat, tx: Option<Tx>, procs: map<Pid, Stage>)

  datatype Event =
    | Start(pid: Pid)
    | Skip(pid: Pid)
    | Begin(pid: Pid)
    | ReadAgain(pid: Pid)
    | Execute(pid: Pid)
    | Mark(pid: Pid)
    | Commit(pid: Pid)
    | Finish(pid: Pid)
    | Fail(pid: Pid)    // an exception, a lost race for the lock, or a crash: rolled back

  ghost predicate Ordered(ms: seq<Migration>) {
    forall i, j :: 0 <= i < j < |ms| ==> ms[i].version < ms[j].version
  }

  function Body(m: Migration): seq<Statement> {
    seq(m.size, (k: nat) => Statement(m.version, k))
  }

  /** All bodies up to version k, once each, in order. */
  function Script(ms: seq<Migration>, k: nat): seq<Statement> {
    if ms == [] then []
    else (if ms[0].version <= k then Body(ms[0]) else []) + Script(ms[1..], k)
  }

  predicate Owns(s: State, pid: Pid) {
    s.tx.Some? && s.tx.value.owner == pid
  }

  predicate CanHappen(s: State, ms: seq<Migration>, e: Event) {
    match e
    case Start(pid) => pid !in s.procs
    case Skip(pid) =>
      pid in s.procs && s.procs[pid].Scanning? && s.procs[pid].i < |ms|
      && ms[s.procs[pid].i].version <= s.procs[pid].current
    case Begin(pid) =>
      pid in s.procs && s.procs[pid].Scanning? && s.procs[pid].i < |ms|
      && ms[s.procs[pid].i].version > s.procs[pid].current && s.tx.None?
    case ReadAgain(pid) => pid in s.procs && s.procs[pid].Began? && s.procs[pid].i < |ms| && Owns(s, pid)
    case Execute(pid) =>
      pid in s.procs && s.procs[pid].InBody? && s.procs[pid].i < |ms| && s.procs[pid].j < ms[s.procs[pid].i].size
      && Owns(s, pid)
    case Mark(pid) =>
      pid in s.procs && s.procs[pid].InBody? && s.procs[pid].i < |ms| && s.procs[pid].j == ms[s.procs[pid].i].size
      && Owns(s, pid)
    case Commit(pid) => pid in s.procs && s.procs[pid].Marked? && s.procs[pid].i < |ms| && Owns(s, pid)
    case Finish(pid) => pid in s.procs && s.procs[pid].Scanning? && s.procs[pid].i == |ms|
    case Fail(pid) => pid in s.procs && !s.procs[pid].Finished? && !s.procs[pid].Failed?
  }

  function At(s: State, pid: Pid, stage: Stage): State {
    s.(procs := s.procs[pid := stage])
  }

  function Next(s: State, ms: seq<Migration>, e: Event): State
    requires CanHappen(s, ms, e)
  {
    match e
    case Start(pid) => At(s, pid, Scanning(0, s.version))
    case Skip(pid) => At(s, pid, Scanning(s.procs[pid].i + 1, s.procs[pid].current))
    case Begin(pid) => At(s, pid, Began(s.procs[pid].i)).(tx := Some(Tx(pid, s.content, s.version)))
    case ReadAgain(pid) =>
      var i := s.procs[pid].i;
      if ms[i].version <= s.tx.value.version then At(s, pid, Scanning(i + 1, s.tx.value.version)).(tx := None)
      else At(s, pid, InBody(i, 0))
    case Execute(pid) =>
      var i, j := s.procs[pid].i, s.procs[pid].j;
      At(s, pid, InBody(i, j + 1)).(
        tx := Some(s.tx.value.(content := s.tx.value.content + [Statement(ms[i].version, j)])))
    case Mark(pid) =>
      At(s, pid, Marked(s.procs[pid].i)).(tx := Some(s.tx.value.(version := ms[s.procs[pid].i].version)))
    case Commit(pid) =>
      At(s, pid, Scanning(s.procs[pid].i + 1, ms[s.procs[pid].i].version)).(
        content := s.tx.value.content, version := s.tx.value.version, tx := None)
    case Finish(pid) => At(s, pid, Finished)
    case Fail(pid) => At(s, pid, Failed).(tx := if Owns(s, pid) then None else s.tx)
  }

  // ---------------------------------------------------------------- invariant

  /** Every migration before i has a version that is reached. */
  ghost predicate Reached(ms: seq<Migration>, i: nat, version: nat) {
    i <= |ms| && forall k :: 0 <= k < i ==> ms[k].version <= version
  }

  ghost predicate ProcIsSound(s: State, ms: seq<Migration>, pid: Pid)
    requires pid in s.procs
  {
    match s.procs[pid]
    case Scanning(i, current) => Reached(ms, i, s.version) && current <= s.version && !Owns(s, pid)
    case Began(i) =>
      Reached(ms, i, s.version) && i < |ms| && s.tx == Some(Tx(pid, s.content, s.version))
    case InBody(i, j) =>
      && Reached(ms, i, s.version) && i < |ms| && s.version < ms[i].version && j <= ms[i].size
      && s.tx == Some(Tx(pid, s.content + Body(ms[i])[..j], s.version))
    case Marked(i) =>
      && Reached(ms, i, s.version) && i < |ms| && s.version < ms[i].version
      && s.tx == Some(Tx(pid, s.content + Body(ms[i]), ms[i].version))
    case Finished => Reached(ms, |ms|, s.version) && !Owns(s, pid)
    case Failed => !Owns(s, pid)
  }

  ghost predicate Inv(s: State, ms: seq<Migration>) {
    && s.content == Script(ms, s.version)
    && (forall pid :: pid in s.procs ==> ProcIsSound(s, ms, pid))
    && (s.tx.Some? ==> s.tx.value.owner in s.procs)
  }

  /** A database somebody migrated to version k before, or a new one at 0, with nobody on it. */
  function Initial(ms: seq<Migration>, k: nat): State {
    State(Script(ms, k), k, None, map[])
  }

  lemma {:induction false} NothingPast(ms: seq<Migration>, k: nat)
    requires forall i :: 0 <= i < |ms| ==> k < ms[i].version
    ensures Script(ms, k) == []
    decreases |ms|
  {
    if ms != [] {
      NothingPast(ms[1..], k);
    }
  }

  /** From version k to the next migration's version, exactly that migration's body is added. */
  lemma {:induction false} ScriptGrows(ms: seq<Migration>, i: nat, k: nat)
    requires Ordered(ms) && i < |ms| && Reached(ms, i, k) && k < ms[i].version
    ensures Script(ms, ms[i].version) == Script(ms, k) + Body(ms[i])
    decreases i
  {
    if i == 0 {
      NothingPast(ms, k);
      NothingPast(ms[1..], ms[0].version);
    } else {
      assert ms[0].version <= k;
      ScriptGrows(ms[1..], i - 1, k);
    }
  }

  lemma {:induction false} ScriptOfAll(ms: seq<Migration>, k: nat, all: nat)
    requires Reached(ms, |ms|, k) && Reached(ms, |ms|, all)
    ensures Script(ms, k) == Script(ms, all)
    decreases |ms|
  {
    if ms != [] {
      ScriptOfAll(ms[1..], k, all);
    }
  }

  /** Processes other than the one that moves: what they rely on is still so. */
  lemma OthersStaySound(s: State, t: State, ms: seq<Migration>, e: Event, pid: Pid)
    requires Inv(s, ms) && CanHappen(s, ms, e) && t == Next(s, ms, e) && pid != e.pid && pid in s.procs
    requires s.version <= t.version
    ensures pid in t.procs && ProcIsSound(t, ms, pid)
  {
  }

  lemma ReadAgainKeeps(s: State, ms: seq<Migration>, e: Event)
    requires Inv(s, ms) && e.ReadAgain? && CanHappen(s, ms, e)
    ensures ProcIsSound(Next(s, ms, e), ms, e.pid)
  {
    hide Script, Ordered;
    assert ProcIsSound(s, ms, e.pid);
    var i := s.procs[e.pid].i;
    assert Body(ms[i])[..0] == [] && s.content + [] == s.content;
  }

  lemma ExecuteKeeps(s: State, ms: seq<Migration>, e: Event)
    requires Inv(s, ms) && e.Execute? && CanHappen(s, ms, e)
    ensures ProcIsSound(Next(s, ms, e), ms, e.pid)
  {
    hide Script;
    assert ProcIsSound(s, ms, e.pid);
    var m, j := ms[s.procs[e.pid].i], s.procs[e.pid].j;
    assert Body(m)[..j + 1] == Body(m)[..j] + [Statement(m.version, j)];
    assert s.content + Body(m)[..j + 1] == s.content + Body(m)[..j] + [Statement(m.version, j)];
  }

  lemma MarkKeeps(s: State, ms: seq<Migration>, e: Event)
    requires Inv(s, ms) && e.Mark? && CanHappen(s, ms, e)
    ensures ProcIsSound(Next(s, ms, e), ms, e.pid)
  {
    hide Script;
    assert ProcIsSound(s, ms, e.pid);
    var m := ms[s.procs[e.pid].i];
    assert Body(m)[..m.size] == Body(m);
  }

  lemma CommitKeeps(s: State, ms: seq<Migration>, e: Event)
    requires Ordered(ms) && Inv(s, ms) && e.Commit? && CanHappen(s, ms, e)
    ensures var t := Next(s, ms, e);
            ProcIsSound(t, ms, e.pid) && t.content == Script(ms, t.version) && s.version < t.version
  {
    hide Script, Body;
    assert ProcIsSound(s, ms, e.pid);
    var i := s.procs[e.pid].i;
    ScriptGrows(ms, i, s.version);
    forall k | 0 <= k < i + 1 ensures ms[k].version <= ms[i].version {
    }
  }

  lemma MovingKeeps(s: State, ms: seq<Migration>, e: Event)
    requires Inv(s, ms) && CanHappen(s, ms, e) && !e.Commit?
    ensures ProcIsSound(Next(s, ms, e), ms, e.pid)
    ensures Next(s, ms, e).version == s.version && Next(s, ms, e).content == s.content
  {
    hide Script, Body, Inv, Ordered;
    assert e.pid in s.procs ==> ProcIsSound(s, ms, e.pid) by { SoundAt(s, ms, e.pid); }
    if e.ReadAgain? {
      ReadAgainKeeps(s, ms, e);
    } else if e.Execute? {
      ExecuteKeeps(s, ms, e);
    } else if e.Mark? {
      MarkKeeps(s, ms, e);
    } else if e.Start? {
      assert !Owns(s, e.pid) by { OwnerRuns(s, ms, e.pid); }
    }
  }

  lemma SoundAt(s: State, ms: seq<Migration>, pid: Pid)
    requires Inv(s, ms)
    ensures pid in s.procs ==> ProcIsSound(s, ms, pid)
  {
  }

  lemma OwnerRuns(s: State, ms: seq<Migration>, pid: Pid)
    requires Inv(s, ms)
    ensures Owns(s, pid) ==> pid in s.procs
  {
  }

  /** Every step keeps the invariant, and the stored version never goes down. */
  lemma StepKeepsInv(s: State, ms: seq<Migration>, e: Event)
    requires Ordered(ms) && Inv(s, ms) && CanHappen(s, ms, e)
    ensures Inv(Next(s, ms, e), ms) && s.version <= Next(s, ms, e).version
  {
    hide Script, Body, Ordered, ProcIsSound;
    var t := Next(s, ms, e);
    if e.Commit? {
      CommitKeeps(s, ms, e);
    } else {
      MovingKeeps(s, ms, e);
    }
    forall pid | pid in t.procs ensures ProcIsSound(t, ms, pid) {
      if pid != e.pid {
        OthersStaySound(s, t, ms, e, pid);
      }
    }
  }

  // ---------------------------------------------------------------- runs

  ghost predicate IsRun(ss: seq<State>, ms: seq<Migration>, es: seq<Event>) {
    && |ss| == |es| + 1
    && (exists k :: ss[0] == Initial(ms, k))
    && forall i :: 0 <= i < |es| ==> CanHappen(ss[i], ms, es[i]) && ss[i + 1] == Next(ss[i], ms, es[i])
  }

  lemma {:induction false} RunKeepsInv(ss: seq<State>, ms: seq<Migration>, es: seq<Event>, i: nat)
    requires Ordered(ms) && IsRun(ss, ms, es) && i < |ss|
    ensures Inv(ss[i], ms)
    decreases i
  {
    hide Ordered, CanHappen, Next;
    if i > 0 {
      hide Inv;
      RunKeepsInv(ss, ms, es, i - 1);
      StepKeepsInv(ss[i - 1], ms, es[i - 1]);
    }
  }

  /** With any number of processes, failing anywhere: the database always holds the bodies up
      to its stored version, each executed exactly once and in order. */
  lemma DatabaseMatchesItsVersion(ss: seq<State>, ms: seq<Migration>, es: seq<Event>, i: nat)
    requires Ordered(ms) && IsRun(ss, ms, es) && i < |ss|
    ensures ss[i].content == Script(ms, ss[i].version)
  {
    RunKeepsInv(ss, ms, es, i);
  }

  lemma {:induction false} VersionNeverDecreases(ss: seq<State>, ms: seq<Migration>, es: seq<Event>, i: nat, j: nat)
    requires Ordered(ms) && IsRun(ss, ms, es) && i <= j < |ss|
    ensures ss[i].version <= ss[j].version
    decreases j - i
  {
    hide Ordered, CanHappen, Next, Inv;
    if i < j {
      VersionNeverDecreases(ss, ms, es, i, j - 1);
      RunKeepsInv(ss, ms, es, j - 1);
      StepKeepsInv(ss[j - 1], ms, es[j - 1]);
    }
  }

  /** A process that comes to its end leaves every migration applied, whoever applied it. */
  lemma {:induction false} FinishedMeansMigrated(ss: seq<State>, ms: seq<Migration>, es: seq<Event>, i: nat, pid: Pid)
    requires Ordered(ms) && IsRun(ss, ms, es) && i < |ss| && pid in ss[i].procs && ss[i].procs[pid] == Finished
    ensures ms != [] ==> ms[|ms| - 1].version <= ss[i].version && ss[i].content == Script(ms, ms[|ms| - 1].version)
  {
    RunKeepsInv(ss, ms, es, i);
    assert ProcIsSound(ss[i], ms, pid);
    if ms != [] {
      ScriptOfAll(ms, ss[i].version, ms[|ms| - 1].version);
    }
  }

  // ---------------------------------------------------------------- a process that is left alone

  /** What a commit makes of the database: exactly the next body comes after what was there, and the
      version is that body's. No other step touches either. */
  lemma OnlyCommitsApply(s: State, ms: seq<Migration>, e: Event)
    requires Inv(s, ms) && CanHappen(s, ms, e)
    ensures var t := Next(s, ms, e);
            if e.Commit? then
              && s.procs[e.pid].Marked?
              && var m := ms[s.procs[e.pid].i];
                 t.content == s.content + Body(m) && t.version == m.version && t.tx.None?
                 && t.procs[e.pid] == Scanning(s.procs[e.pid].i + 1, m.version)
            else t.content == s.content && t.version == s.version
  {
    hide Script, Body;
    if e.Commit? {
      assert ProcIsSound(s, ms, e.pid);
    }
  }

  /** Any process that is at it may fail at any point, and only its own transaction goes with it. */
  lemma FailingAnywhere(s: State, ms: seq<Migration>, pid: Pid)
    requires Inv(s, ms) && pid in s.procs
    ensures CanHappen(s, ms, Fail(pid)) <==> s.procs[pid] != Finished && s.procs[pid] != Failed
    ensures CanHappen(s, ms, Fail(pid)) ==>
              Next(s, ms, Fail(pid))
              == State(s.content, s.version, if s.tx.Some? && s.tx.value.owner == pid then None else s.tx,
                       s.procs[pid := Failed])
  {
  }

  predicate CanAllHappen(s: State, ms: seq<Migration>, es: seq<Event>)
    decreases |es|
  {
    es == [] || (CanHappen(s, ms, es[0]) && CanAllHappen(Next(s, ms, es[0]), ms, es[1..]))
  }

  function After(s: State, ms: seq<Migration>, es: seq<Event>): State
    requires CanAllHappen(s, ms, es)
    decreases |es|
  {
    if es == [] then s else After(Next(s, ms, es[0]), ms, es[1..])
  }

  /** How far a process has come, and what is left of its migration. */
  function Place(ms: seq<Migration>, stage: Stage): nat {
    match stage
    case Scanning(i, _) => if i <= |ms| then |ms| - i else 0
    case Began(i) => if i <= |ms| then |ms| - i else 0
    case InBody(i, _) => if i <= |ms| then |ms| - i else 0
    case Marked(i) => if i <= |ms| then |ms| - i else 0
    case _ => 0
  }

  function Rank(stage: Stage): nat {
    match stage
    case Scanning(_, _) => 4
    case Began(_) => 3
    case InBody(_, _) => 2
    case Marked(_) => 1
    case _ => 0
  }

  function Rest(ms: seq<Migration>, stage: Stage): nat {
    if stage.InBody? && stage.i < |ms| && stage.j <= ms[stage.i].size then ms[stage.i].size - stage.j else 0
  }

  /** What it does next. */
  function Step(s: State, ms: seq<Migration>, pid: Pid): Event
    requires pid in s.procs
  {
    match s.procs[pid]
    case Scanning(i, current) =>
      if i >= |ms| then Finish(pid) else if ms[i].version <= current then Skip(pid) else Begin(pid)
    case Began(_) => ReadAgain(pid)
    case InBody(i, j) => if i < |ms| && j < ms[i].size then Execute(pid) else Mark(pid)
    case Marked(_) => Commit(pid)
    case _ => Fail(pid)
  }

  ghost predicate Unhindered(s: State, ms: seq<Migration>, pid: Pid) {
    && pid in s.procs && !s.procs[pid].Failed? && !s.procs[pid].Finished?
    && (s.tx.None? || Owns(s, pid))
  }

  lemma StepMovesOn(s: State, ms: seq<Migration>, pid: Pid)
    requires Ordered(ms) && Inv(s, ms) && Unhindered(s, ms, pid)
    ensures var e := Step(s, ms, pid);
            && e.pid == pid && CanHappen(s, ms, e)
            && var t := Next(s, ms, e);
               pid in t.procs && (t.procs[pid].Finished? || Unhindered(t, ms, pid))
               && var a, b := s.procs[pid], t.procs[pid];
                  || Place(ms, b) < Place(ms, a)
                  || (Place(ms, b) == Place(ms, a)
                      && (Rank(b) < Rank(a) || (Rank(b) == Rank(a) && Rest(ms, b) < Rest(ms, a))))
  {
    hide Script, Body, Ordered;
    assert ProcIsSound(s, ms, pid);
  }

  /** Whatever other processes have left behind, one that holds the transaction, or finds none open, can
      come to its end by its own steps alone; so every migration can be applied. */
  lemma {:induction false} CanFinish(s: State, ms: seq<Migration>, pid: Pid) returns (es: seq<Event>)
    requires Ordered(ms) && Inv(s, ms) && Unhindered(s, ms, pid)
    ensures forall k :: 0 <= k < |es| ==> es[k].pid == pid
    ensures CanAllHappen(s, ms, es)
    ensures pid in After(s, ms, es).procs && After(s, ms, es).procs[pid] == Finished
    ensures ms != [] ==> ms[|ms| - 1].version <= After(s, ms, es).version
    ensures After(s, ms, es).content == Script(ms, After(s, ms, es).version)
    decreases Place(ms, s.procs[pid]), Rank(s.procs[pid]), Rest(ms, s.procs[pid])
  {
    hide Ordered, CanHappen, Next, Script, Inv, Unhindered, Step;
    PresentIfUnhindered(s, ms, pid);
    StepMovesOn(s, ms, pid);
    var e := Step(s, ms, pid);
    StepKeepsInv(s, ms, e);
    var t := Next(s, ms, e);
    if t.procs[pid].Finished? {
      es := [e];
      FinishedIsMigrated(t, ms, pid);
      assert es[1..] == [] && After(t, ms, []) == t;
    } else {
      var rest := CanFinish(t, ms, pid);
      es := [e] + rest;
      assert es[1..] == rest;
    }
  }

  lemma PresentIfUnhindered(s: State, ms: seq<Migration>, pid: Pid)
    ensures Unhindered(s, ms, pid) ==> pid in s.procs
  {
  }

  lemma FinishedIsMigrated(s: State, ms: seq<Migration>, pid: Pid)
    requires Inv(s, ms) && pid in s.procs && s.procs[pid] == Finished
    ensures s.content == Script(ms, s.version) && (ms != [] ==> ms[|ms| - 1].version <= s.version)
  {
    assert ProcIsSound(s, ms, pid);
  }

  // ---------------------------------------------------------------- one process, step by step

  /** The database as one process meets it: what is committed, and its own open transaction. */
  class Database {
    var content: seq<Statement>
    var version: nat
    var tx: Option<(seq<Statement>, nat)>

    ghost predicate Valid(ms: seq<Migration>)
      reads this
    {
      content == Script(ms, version)
    }

    /** While the lock is waited for, other processes may have migrated up to `others`. */
    method BeginImmediate(ms: seq<Migration>, others: nat)
      requires Valid(ms) && tx.None?
      modifies this
      ensures Valid(ms) && version == (if others > old(version) then others else old(version))
      ensures tx == Some((content, version))
    {
      if others > version {
        content, version := Script(ms, others), others;
      }
      tx := Some((content, version));
    }

    method Execute(s: Statement)
      requires tx.Some?
      modifies this`tx
      ensures tx == Some((old(tx).value.0 + [s], old(tx).value.1))
    {
      tx := Some((tx.value.0 + [s], tx.value.1));
    }

    method SetVersion(v: nat)
      requires tx.Some?
      modifies this`tx
      ensures tx == Some((old(tx).value.0, v))
    {
      tx := Some((tx.value.0, v));
    }

    method Commit()
      requires tx.Some?
      modifies this
      ensures content == old(tx).value.0 && version == old(tx).value.1 && tx.None?
    {
      content, version, tx := tx.value.0, tx.value.1, None;
    }

    method Rollback()
      modifies this`tx
      ensures tx.None?
    {
      tx := None;
    }

    /** One body inside the transaction, up to its end or to the statement that fails. */
    method Apply(m: Migration, failsAt: Option<Statement>) returns (ok: bool)
      requires tx.Some?
      modifies this`tx
      ensures ok ==> tx == Some((old(tx).value.0 + Body(m), old(tx).value.1))
      ensures ok <==> !(failsAt.Some? && failsAt.value.version == m.version && failsAt.value.index < m.size)
    {
      assert old(tx).value.0 + Body(m)[..0] == old(tx).value.0;
      for j := 0 to m.size
        invariant tx == Some((old(tx).value.0 + Body(m)[..j], old(tx).value.1))
        invariant failsAt.Some? && failsAt.value.version == m.version ==> j <= failsAt.value.index
      {
        if failsAt == Some(Statement(m.version, j)) {
          return false;
        }
        Execute(Statement(m.version, j));
        assert Body(m)[..j + 1] == Body(m)[..j] + [Statement(m.version, j)];
        assert old(tx).value.0 + Body(m)[..j] + [Statement(m.version, j)] == old(tx).value.0 + Body(m)[..j + 1];
      }
      assert Body(m)[..m.size] == Body(m);
      ok := true;
    }

    /** run_migrations. `others[i]` is how far other processes have come when the i-th migration gets
        the lock; `failsAt` is the statement at which something is raised, if any. */
    method RunMigrations(ms: seq<Migration>, others: seq<nat>, failsAt: Option<Statement>) returns (ok: bool)
      requires Ordered(ms) && Valid(ms) && tx.None? && |others| == |ms|
      modifies this
      ensures Valid(ms) && tx.None? && old(version) <= version
      ensures ok ==> Reached(ms, |ms|, version)
      ensures !ok ==> failsAt.Some? && version < failsAt.value.version
    {
      var current := version;
      for i := 0 to |ms|
        invariant Valid(ms) && tx.None? && old(version) <= version && current <= version
        invariant Reached(ms, i, version)
      {
        hide Script, Body;
        if ms[i].version > current {
          BeginImmediate(ms, others[i]);
          current := tx.value.1;
          if ms[i].version <= current {
            Rollback();
          } else {
            var applied := Apply(ms[i], failsAt);
            if !applied {
              Rollback();
              return false;
            }
            SetVersion(ms[i].version);
            ScriptGrows(ms, i, version);
            forall k | 0 <= k < i + 1 ensures ms[k].version <= ms[i].version {
            }
            Commit();
            current := ms[i].version;
          }
        }
      }
      ok := true;
    }
  }
}
