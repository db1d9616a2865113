/** What the master key's recovery chain keeps over whole runs of starts, imports and crashes. */
module MasterKeyRuns {
  import opened Options
  import opened MasterKey

  /** `minted` is the history of keys of the program's own making that reached the disk. */
  datatype World = World(disk: Disk, cached: Option<Key>, minted: seq<Key>)

  /** `crash` is the number of writes an operation gets through before the process dies. */
  datatype Event =
    | Asked(a: Around, random: Key, crash: Option<nat>)
    | Importing(a: Around, key: Option<Key>, crash: Option<nat>)
    | Restarted
    | Damaged(i: nat)
    | KeyringLost

  function Done(writes: seq<Write>, crash: Option<nat>): seq<Write> {
    if crash.Some? && crash.value <= |writes| then writes[..crash.value] else writes
  }

  /** A crashed process has no cached key; a finished one has what it got or imported. */
  function Cached(w: World, d: Doing, crash: Option<nat>): Option<Key> {
    if crash.Some? then None
    else if d.outcome.Got? || d.outcome.Imported? then Some(d.outcome.key)
    else w.cached
  }

  function Next(w: World, e: Event): World
    requires w.disk.Valid()
  {
    match e
    case Asked(a, random, crash) =>
      if w.cached.Some? then w
      else
        var d := Resolve(a, w.disk, random);
        var done := Done(d.writes, crash);
        World(AllApplied(w.disk, done), Cached(w, d, crash),
              w.minted + if Mints(a, w.disk) && done != [] then [random] else [])
    case Importing(a, key, crash) =>
      var d := Import(a, w.disk, key);
      World(AllApplied(w.disk, Done(d.writes, crash)), Cached(w, d, crash), w.minted)
    case Restarted => w.(cached := None)
    case Damaged(i) =>
      if i < |w.disk.files| && w.disk.files[i].Some?
      then w.(disk := w.disk.(files := w.disk.files[i := Some(Corrupt)]))
      else w
    case KeyringLost => w.(disk := w.disk.(keyring := None))
  }

  /** The key a caller is handed. */
  function Answer(w: World, e: Event): Option<Key> {
    if !e.Asked? || e.crash.Some? then None
    else if w.cached.Some? then w.cached
    else
      var o := Resolve(e.a, w.disk, e.random).outcome;
      if o.Got? then Some(o.key) else None
  }

  ghost predicate IsRun(ws: seq<World>, es: seq<Event>) {
    && |ws| == |es| + 1
    && ws[0].disk.Valid()
    && forall k :: 0 <= k < |es| ==> ws[k].disk.Valid() && ws[k + 1] == Next(ws[k], es[k])
  }

  lemma OneStep(ws: seq<World>, es: seq<Event>, k: nat)
    requires IsRun(ws, es) && k < |es|
    ensures ws[k].disk.Valid() && ws[k + 1] == Next(ws[k], es[k]) && ws[k + 1].disk.Valid()
  {
    hide Next;
    StepKeepsPlaces(ws[k], es[k], 0);
  }

  // ---------------------------------------------------------------- files stay, copies stay

  lemma StepKeepsPlaces(w: World, e: Event, i: nat)
    requires w.disk.Valid()
    ensures var now := Next(w, e).disk;
            && now.Valid() && |now.files| == |w.disk.files|
            && (i < |w.disk.files| && w.disk.files[i].Some? ==> now.files[i].Some?)
  {
    if |w.disk.files| == 0 {
      StepKeepsNoPlaces(w, e);
    } else {
      hide Resolve, Import, Mints, Done, AllApplied;
      var j := if i < |w.disk.files| then i else 0;
      match e
      case Asked(a, random, crash) => OnlyWhatIsWritten(w.disk, Done(Resolve(a, w.disk, random).writes, crash), j);
      case Importing(a, key, crash) => OnlyWhatIsWritten(w.disk, Done(Import(a, w.disk, key).writes, crash), j);
      case _ =>
    }
  }

  lemma {:induction false} NoPlaces(d: Disk, ws: seq<Write>)
    requires d.Valid() && |d.files| == 0
    ensures AllApplied(d, ws).Valid() && |AllApplied(d, ws).files| == 0
    decreases |ws|
  {
    if ws != [] {
      NoPlaces(Applied(d, ws[0]), ws[1..]);
    }
  }

  lemma StepKeepsNoPlaces(w: World, e: Event)
    requires w.disk.Valid() && |w.disk.files| == 0
    ensures Next(w, e).disk.Valid() && |Next(w, e).disk.files| == 0
  {
  }

  /** What a crash leaves of the writes is among them. */
  lemma DoneIsAmong(writes: seq<Write>, crash: Option<nat>)
    ensures forall x :: x in Done(writes, crash) ==> x in writes
  {
  }

  lemma ResolveWrites(a: Around, d: Disk, random: Key)
    ensures forall x :: x in Resolve(a, d, random).writes ==>
              && !x.SetPrev?
              && (x.SetMain? ==> x.i < |d.files| && Replaces(a, d.files[x.i], false, x.i))
  {
    if a.wrap.Configured? {
      forall key { SaveWrites(a, d.files, a.wrap.secret, key, false, 0); }
    }
  }

  lemma ImportWrites(a: Around, d: Disk, key: Option<Key>)
    requires d.Valid()
    ensures forall x :: x in Import(a, d, key).writes && x.SetPrev? ==>
              x.i < |d.files| && d.prevs[x.i].None? && ReadAt(a, d.files[x.i]).Opens? && d.files[x.i] == Some(x.blob)
  {
    PreserveWrites(a, d, 0);
    if a.wrap.Configured? && key.Some? {
      SaveWrites(a, d.files, a.wrap.secret, key.value, true, 0);
    }
  }

  /** Resolving the key never changes a backup that does not open here, wherever it crashes. */
  lemma ResolvingKeepsShutBackups(w: World, e: Event, i: nat)
    requires w.disk.Valid() && e.Asked? && i < |w.disk.files| && w.disk.files[i].Some?
    requires !ReadAt(e.a, w.disk.files[i]).Opens?
    ensures Next(w, e).disk.Valid() && i < |Next(w, e).disk.files| && Next(w, e).disk.files[i] == w.disk.files[i]
  {
    hide Resolve, Mints, Done, AllApplied, ReadAt, Replaces;
    var ws := Resolve(e.a, w.disk, e.random).writes;
    OnlyWhatIsWritten(w.disk, Done(ws, e.crash), i);
    DoneIsAmong(ws, e.crash);
    ResolveWrites(e.a, w.disk, e.random);
    KeptWhenShut(e.a, w.disk.files[i], i);
  }

  lemma KeptWhenShut(a: Around, file: Option<Blob>, i: nat)
    requires file.Some? && !ReadAt(a, file).Opens?
    ensures !Replaces(a, file, false, i)
  {
  }

  /** Over a whole run without imports: a backup that opens at none of its starts is the same at the end. */
  lemma {:induction false} ShutBackupsSurvive(ws: seq<World>, es: seq<Event>, k: nat, i: nat, b: Blob)
    requires IsRun(ws, es) && k < |ws| && i < |ws[0].disk.files| && ws[0].disk.files[i] == Some(b)
    requires forall j :: 0 <= j < |es| ==>
               !es[j].Importing? && es[j] != Damaged(i) && (es[j].Asked? ==> !Read(es[j].a, b).Opens?)
    ensures ws[k].disk.Valid() && i < |ws[k].disk.files| && ws[k].disk.files[i] == Some(b)
    decreases k
  {
    if k > 0 {
      hide Read, Next;
      ShutBackupsSurvive(ws, es, k - 1, i, b);
      OneStep(ws, es, k - 1);
      var e := es[k - 1];
      if e.Asked? {
        assert ReadAt(e.a, Some(b)) == Read(e.a, b);
        ResolvingKeepsShutBackups(ws[k - 1], e, i);
      } else {
        OtherStepsKeepFiles(ws[k - 1], e, i);
      }
    }
  }

  lemma OtherStepsKeepFiles(w: World, e: Event, i: nat)
    requires w.disk.Valid() && !e.Asked? && !e.Importing? && e != Damaged(i) && i < |w.disk.files|
    ensures |Next(w, e).disk.files| == |w.disk.files| && Next(w, e).disk.files[i] == w.disk.files[i]
  {
  }

  // ---------------------------------------------------------------- what an import preserves

  lemma StepKeepsCopies(w: World, e: Event, i: nat)
    requires w.disk.Valid() && i < |w.disk.prevs| && w.disk.prevs[i].Some?
    ensures Next(w, e).disk.Valid() && i < |Next(w, e).disk.prevs| && Next(w, e).disk.prevs[i] == w.disk.prevs[i]
  {
    hide Resolve, Import, Mints, Done, AllApplied, Replaces;
    match e
    case Asked(a, random, crash) =>
      var ws := Resolve(a, w.disk, random).writes;
      OnlyWhatIsWritten(w.disk, Done(ws, crash), i);
      DoneIsAmong(ws, crash);
      ResolveWrites(a, w.disk, random);
    case Importing(a, key, crash) =>
      var ws := Import(a, w.disk, key).writes;
      OnlyWhatIsWritten(w.disk, Done(ws, crash), i);
      DoneIsAmong(ws, crash);
      ImportWrites(a, w.disk, key);
    case _ =>
  }

  /** A preserved copy is written once: whatever follows, it stays what it is. */
  lemma {:induction false} CopiesAreWrittenOnce(ws: seq<World>, es: seq<Event>, j: nat, k: nat, i: nat)
    requires IsRun(ws, es) && j <= k < |ws| && i < |ws[j].disk.prevs| && ws[j].disk.prevs[i].Some?
    ensures i < |ws[k].disk.prevs| && ws[k].disk.prevs[i] == ws[j].disk.prevs[i]
    decreases k
  {
    hide Next;
    if j < k {
      CopiesAreWrittenOnce(ws, es, j, k - 1, i);
      OneStep(ws, es, k - 1);
      StepKeepsCopies(ws[k - 1], es[k - 1], i);
    }
  }

  /** An import that has begun to replace backups has first preserved every one that opens. */
  lemma ImportPreservesFirst(w: World, e: Event, i: nat)
    requires w.disk.Valid() && e.Importing? && i < |w.disk.files| && ReadAt(e.a, w.disk.files[i]).Opens?
    requires i < |Next(w, e).disk.files| && Next(w, e).disk.files[i] != w.disk.files[i]
    ensures Next(w, e).disk.Valid() && i < |Next(w, e).disk.prevs|
    ensures Next(w, e).disk.prevs[i] == if w.disk.prevs[i].Some? then w.disk.prevs[i] else w.disk.files[i]
  {
    if w.disk.prevs[i].Some? {
      StepKeepsCopies(w, e, i);
    } else {
      ImportPreservesNow(w.disk, e.a, e.key, e.crash, i);
    }
  }

  /** What an import replaced can be had for ever: a backup that opened and had no copy yet is, over
      any run that follows, in the copy beside it. */
  lemma ReplacedBackupsSurvive(ws: seq<World>, es: seq<Event>, j: nat, k: nat, i: nat)
    requires IsRun(ws, es) && j < k < |ws| && es[j].Importing?
    requires i < |ws[j].disk.files| && i < |ws[j].disk.prevs| && i < |ws[j + 1].disk.files|
    requires ReadAt(es[j].a, ws[j].disk.files[i]).Opens? && ws[j].disk.prevs[i].None?
    requires ws[j + 1].disk.files[i] != ws[j].disk.files[i]
    ensures i < |ws[k].disk.prevs| && ws[k].disk.prevs[i] == ws[j].disk.files[i]
  {
    hide Next, ReadAt;
    OneStep(ws, es, j);
    ImportPreservesFirst(ws[j], es[j], i);
    OpensIsThere(es[j].a, ws[j].disk.files[i]);
    CopiesAreWrittenOnce(ws, es, j + 1, k, i);
  }

  lemma OpensIsThere(a: Around, file: Option<Blob>)
    ensures ReadAt(a, file).Opens? ==> file.Some?
  {
  }

  lemma ImportPreservesNow(d: Disk, a: Around, key: Option<Key>, crash: Option<nat>, i: nat)
    requires d.Valid() && i < |d.files| && ReadAt(a, d.files[i]).Opens? && d.prevs[i].None?
    requires var now := AllApplied(d, Done(Import(a, d, key).writes, crash));
             i < |now.files| && now.files[i] != d.files[i]
    ensures var now := AllApplied(d, Done(Import(a, d, key).writes, crash));
            now.Valid() && i < |now.prevs| && now.prevs[i] == d.files[i]
  {
    hide AllApplied, Preserve, ReadAt, Save, Replaces;
    var ws := Import(a, d, key).writes;
    var done := Done(ws, crash);
    var kept := Preserve(a, d, 0);
    OnlyWhatIsWritten(d, done, i);
    PreserveWrites(a, d, 0);
    ImportWrites(a, d, key);
    DoneIsAmong(ws, crash);
    var m := SetMain(i, AllApplied(d, done).files[i].value);
    assert m in done && m !in kept.0;
    assert kept.0 <= done && kept.1 by { PrefixReaches(kept.0, ws, done, m); }
    var rest := done[|kept.0|..];
    assert done == kept.0 + rest;
    AppliedInTwoParts(d, kept.0, rest);
    var p := SetPrev(i, d.files[i].value);
    assert p in kept.0;
    WrittenStays(d, kept.0, i, d.files[i].value);
    OnlyWhatIsWritten(d, kept.0, i);
    OnlyWhatIsWritten(AllApplied(d, kept.0), rest, i);
    assert forall x :: x in rest ==> x in done;
  }

  lemma PrefixReaches(first: seq<Write>, ws: seq<Write>, done: seq<Write>, m: Write)
    requires first <= ws && done <= ws && m in done && m !in first
    ensures first <= done
  {
  }

  /** Where all writes to a copy agree, the copy ends as they say. */
  lemma {:induction false} WrittenStays(d: Disk, ws: seq<Write>, i: nat, b: Blob)
    requires d.Valid() && i < |d.prevs| && (SetPrev(i, b) in ws || d.prevs[i] == Some(b))
    requires forall x :: x in ws && x.SetPrev? && x.i == i ==> x.blob == b
    ensures AllApplied(d, ws).Valid() && i < |AllApplied(d, ws).prevs| && AllApplied(d, ws).prevs[i] == Some(b)
    decreases |ws|
  {
    if ws != [] {
      assert forall x :: x in ws[1..] ==> x in ws;
      assert ws[0] in ws && (SetPrev(i, b) in ws ==> ws[0] == SetPrev(i, b) || SetPrev(i, b) in ws[1..]);
      WrittenStays(Applied(d, ws[0]), ws[1..], i, b);
    }
  }

  // ---------------------------------------------------------------- one key

  ghost predicate OneMint(w: World) {
    w.disk.Valid() && |w.minted| <= 1 && (w.minted != [] ==> !Absent(w.disk.files))
  }

  lemma MintWritesAFile(a: Around, d: Disk, random: Key, crash: Option<nat>)
    requires d.Valid() && Mints(a, d) && Done(Resolve(a, d, random).writes, crash) != []
    ensures !Absent(AllApplied(d, Done(Resolve(a, d, random).writes, crash)).files)
  {
    var saves := Save(a, d.files, random, false);
    var done := Done(Resolve(a, d, random).writes, crash);
    assert saves != [] && done[0] == saves[0];
    SaveWrites(a, d.files, a.wrap.secret, random, false, 0);
    var x := saves[0];
    assert x in saves;
    hide Resolve, Save, Mints, Done;
    OnlyWhatIsWritten(Applied(d, x), done[1..], x.i);
    assert AllApplied(d, done) == AllApplied(Applied(d, x), done[1..]);
    assert AllApplied(d, done).files[x.i].Some?;
  }

  lemma StepKeepsOneMint(w: World, e: Event)
    requires OneMint(w)
    ensures OneMint(Next(w, e))
  {
    if w.minted == Next(w, e).minted {
      hide Next;
      if !Absent(w.disk.files) {
        var i :| 0 <= i < |w.disk.files| && w.disk.files[i].Some?;
        StepKeepsPlaces(w, e, i);
        assert Next(w, e).disk.files[i].Some?;
      } else {
        StepKeepsPlaces(w, e, 0);
      }
    } else {
      MintWritesAFile(e.a, w.disk, e.random, e.crash);
      StepKeepsPlaces(w, e, 0);
    }
  }

  /** However starts, imports, crashes and losses follow each other, at most one key is made. */
  lemma {:induction false} AtMostOneKeyIsMinted(ws: seq<World>, es: seq<Event>, k: nat)
    requires IsRun(ws, es) && ws[0].minted == [] && k < |ws|
    ensures |ws[k].minted| <= 1 && OneMint(ws[k])
    decreases k
  {
    hide Next, Absent;
    if k > 0 {
      AtMostOneKeyIsMinted(ws, es, k - 1);
      OneStep(ws, es, k - 1);
      StepKeepsOneMint(ws[k - 1], es[k - 1]);
    }
  }

  // ---------------------------------------------------------------- one key, from the first run on

  ghost predicate HoldsOnly(d: Disk, keys: seq<Key>) {
    && (forall i :: 0 <= i < |d.files| && d.files[i].Some? && !d.files[i].value.Corrupt?
          ==> keys == [d.files[i].value.key])
    && (d.keyring.Some? ==> keys == [d.keyring.value])
  }

  ghost predicate OneKey(w: World) {
    OneMint(w) && HoldsOnly(w.disk, w.minted) && (w.cached.Some? ==> w.minted == [w.cached.value])
  }

  ghost predicate WritesOnly(ws: seq<Write>, key: Key) {
    && (forall x :: x in ws && x.SetMain? ==> x.blob.V3? && x.blob.key == key)
    && (forall x :: x in ws && x.SetKeyring? ==> x.key == key)
  }

  lemma AppliedHoldsOnly(d: Disk, ws: seq<Write>, key: Key)
    requires d.Valid() && HoldsOnly(d, [key]) && WritesOnly(ws, key)
    ensures HoldsOnly(AllApplied(d, ws), [key])
  {
    hide AllApplied;
    var now := AllApplied(d, ws);
    KeyringWritten(d, ws);
    if |d.files| == 0 { NoPlaces(d, ws); } else { OnlyWhatIsWritten(d, ws, 0); }
    forall i | 0 <= i < |now.files| && now.files[i].Some? && !now.files[i].value.Corrupt?
      ensures [key] == [now.files[i].value.key]
    {
      OnlyWhatIsWritten(d, ws, i);
    }
  }

  lemma {:induction false} RestoredIsHeld(a: Around, files: seq<Option<Blob>>, i: nat)
    requires i <= |files| && Restored(a, files, i).Opens?
    ensures exists j :: i <= j < |files| && files[j].Some? && !files[j].value.Corrupt?
                        && files[j].value.key == Restored(a, files, i).key
    decreases |files| - i
  {
    if ReadAt(a, files[i]).Shut? {
      RestoredIsHeld(a, files, i + 1);
    } else {
      assert files[i].value.key == Restored(a, files, i).key;
    }
  }

  lemma SaveWritesOnly(a: Around, files: seq<Option<Blob>>, key: Key, force: bool)
    ensures WritesOnly(Save(a, files, key, force), key)
  {
    if a.wrap.Configured? {
      SaveWrites(a, files, a.wrap.secret, key, force, 0);
    }
  }

  /** Without an operator's key the chain writes and hands out one key: held before, or minted. */
  lemma ResolveDealsInOneKey(a: Around, d: Disk, random: Key, m: seq<Key>) returns (key: Key)
    requires a.operator.NoOperatorKey? && HoldsOnly(d, m)
    ensures WritesOnly(Resolve(a, d, random).writes, key)
    ensures Resolve(a, d, random).outcome.Got? ==> Resolve(a, d, random).outcome.key == key
    ensures if Mints(a, d) then key == random
            else (Resolve(a, d, random).writes == [] && !Resolve(a, d, random).outcome.Got?) || m == [key]
  {
    hide Save, Restored;
    if Stored(a, d).Some? {
      key := Stored(a, d).value;
    } else if Restored(a, d.files, 0).Opens? {
      key := Restored(a, d.files, 0).key;
      RestoredIsHeld(a, d.files, 0);
    } else {
      key := random;
    }
    SaveWritesOnly(a, d.files, key, false);
  }

  lemma StepKeepsOneKey(w: World, e: Event)
    requires OneKey(w) && !e.Importing? && (e.Asked? ==> e.a.operator.NoOperatorKey?)
    ensures OneKey(Next(w, e))
    ensures Answer(w, e).Some? ==> Next(w, e).minted == [Answer(w, e).value]
  {
    StepKeepsOneMint(w, e);
    if e.Asked? && w.cached.None? {
      hide Mints, OneMint, HoldsOnly, Resolve;
      AskedKeepsOneKey(w, e);
    }
  }

  lemma AskedKeepsOneKey(w: World, e: Event)
    requires OneKey(w) && e.Asked? && e.a.operator.NoOperatorKey? && w.cached.None?
    ensures HoldsOnly(Next(w, e).disk, Next(w, e).minted)
    ensures var o := Resolve(e.a, w.disk, e.random).outcome;
            o.Got? && e.crash.None? ==> Next(w, e).minted == [o.key]
  {
    hide AllApplied, WritesOnly;
    var d := Resolve(e.a, w.disk, e.random);
    var done := Done(d.writes, e.crash);
    var key := ResolveDealsInOneKey(e.a, w.disk, e.random, w.minted);
    FewerWritesOnly(d.writes, e.crash, key);
    if done == [] {
      assert AllApplied(w.disk, done) == w.disk by { NothingApplied(w.disk); }
      assert d.outcome.Got? && e.crash.None? ==> w.minted == [key] by { GotWrites(e.a, w.disk, e.random); }
    } else {
      if Mints(e.a, w.disk) { MintingFindsNothing(w, e.a); }
      AppliedHoldsOnly(w.disk, done, key);
    }
  }

  lemma NothingApplied(d: Disk)
    ensures AllApplied(d, []) == d
  {
  }

  lemma GotWrites(a: Around, d: Disk, random: Key)
    ensures a.operator.NoOperatorKey? && Resolve(a, d, random).outcome.Got? ==> Resolve(a, d, random).writes != []
  {
  }

  lemma FewerWritesOnly(ws: seq<Write>, crash: Option<nat>, key: Key)
    requires WritesOnly(ws, key)
    ensures WritesOnly(Done(ws, crash), key)
  {
  }

  lemma MintingFindsNothing(w: World, a: Around)
    requires OneKey(w) && Mints(a, w.disk)
    ensures w.minted == [] && forall key :: HoldsOnly(w.disk, [key])
  {
  }

  /** From the first run on, with neither an import nor an operator's key, every key anyone is
      ever handed is the same one: whatever the host, the secret and the keyring do, wherever the
      process crashes, and whichever backups are damaged. */
  lemma {:induction false} EveryAnswerIsTheMintedKey(ws: seq<World>, es: seq<Event>, k: nat)
    requires IsRun(ws, es) && ws[0].minted == [] && ws[0].cached.None? && ws[0].disk.keyring.None?
          && Absent(ws[0].disk.files)
    requires forall j :: 0 <= j < |es| ==> !es[j].Importing? && (es[j].Asked? ==> es[j].a.operator.NoOperatorKey?)
    requires k < |ws|
    ensures OneKey(ws[k])
    ensures forall j :: 0 <= j < k && Answer(ws[j], es[j]).Some? ==> ws[k].minted == [Answer(ws[j], es[j]).value]
    decreases k
  {
    if k > 0 {
      hide Next, Absent, Answer, OneKey;
      EveryAnswerIsTheMintedKey(ws, es, k - 1);
      OneStep(ws, es, k - 1);
      StepKeepsOneKey(ws[k - 1], es[k - 1]);
      MintedStays(ws[k - 1], es[k - 1]);
    }
  }

  lemma MintedStays(w: World, e: Event)
    requires OneKey(w) && !e.Importing? && (e.Asked? ==> e.a.operator.NoOperatorKey?)
    ensures w.minted != [] ==> Next(w, e).minted == w.minted
  {
  }
}
