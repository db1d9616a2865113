/** The chain as the program runs it, file by file, and what becomes of an imported key. */
module Encryption {
  import opened Options
  import opened MasterKey
  import opened MasterKeyRuns

  class KeyStore {
    var files: seq<Option<Blob>>
    var prevs: seq<Option<Blob>>
    var keyring: Option<Key>
    var cached: Option<Key>
    /** Every write so far, in order: a crash leaves the disk after some prefix of it. */
    ghost var log: seq<Write>

    ghost predicate Valid()
      reads this
    {
      |files| == |prevs|
    }

    ghost function OnDisk(): Disk
      reads this
    {
      Disk(files, prevs, keyring)
    }

    method SaveKeyBackups(a: Around, key: Key, force: bool) returns (ok: bool)
      requires Valid()
      modifies this`files, this`log
      ensures Valid() && OnDisk() == AllApplied(old(OnDisk()), Save(a, old(files), key, force))
      ensures log == old(log) + Save(a, old(files), key, force)
      ensures ok <==> Save(a, old(files), key, force) != []
    {
      if !a.wrap.Configured? {
        return false;
      }
      hide AllApplied, SaveFrom, Replaces;
      var saved, s := 0, a.wrap.secret;
      ghost var first, done := OnDisk(), [];
      NothingApplied(first);
      for i := 0 to |files|
        invariant Valid() && |files| == |first.files|
        invariant forall j :: i <= j < |files| ==> files[j] == first.files[j]
        invariant done + SaveFrom(a, first.files, s, key, force, i) == Save(a, first.files, key, force)
        invariant OnDisk() == AllApplied(first, done) && log == old(log) + done && saved == |done|
      {
        SaveStep(a, first.files, s, key, force, i, done);
        if Replaces(a, files[i], force, i) {
          ghost var w := SetMain(i, V3(s, key));
          AppliedInTwoParts(first, done, [w]);
          OneApplied(OnDisk(), w);
          done := done + [w];
          files := files[i := Some(V3(s, key))];
          log := log + [w];
          saved := saved + 1;
        }
      }
      SaveEnds(a, first.files, s, key, force);
      assert done + [] == done;
      return saved > 0;
    }

    method TryRestore(a: Around) returns (r: Reading)
      ensures r == Restored(a, files, 0)
    {
      for i := 0 to |files|
        invariant Restored(a, files, 0) == Restored(a, files, i)
      {
        r := ReadAt(a, files[i]);
        if !r.Shut? {
          return;
        }
      }
      return Shut;
    }

    method UnreadableBackups(a: Around) returns (stale: seq<nat>)
      requires Restored(a, files, 0).Shut?
      ensures stale == [] <==> Absent(files)
      ensures forall i :: i in stale <==> 0 <= i < |files| && files[i].Some? && ReadAt(a, files[i]).Shut?
    {
      RestoredShut(a, files, 0);
      stale := [];
      for i := 0 to |files|
        invariant forall j :: j in stale <==> 0 <= j < i && files[j].Some?
        invariant forall j :: 0 <= j < i && files[j].Some? ==> stale != []
      {
        if files[i].Some? && ReadAt(a, files[i]).Shut? {
          stale := stale + [i];
        }
      }
      assert stale != [] ==> stale[0] in stale;
    }

    method SetKeyringPassword(a: Around, key: Key)
      requires Valid()
      modifies this`keyring, this`log
      ensures OnDisk() == AllApplied(old(OnDisk()), KeyringWrite(a, key)) && log == old(log) + KeyringWrite(a, key)
    {
      if a.keyringWrites {
        OneApplied(OnDisk(), SetKeyring(key));
        keyring := Some(key);
        log := log + [SetKeyring(key)];
      }
    }

    /** `random` is what the system's random source would give. */
    method GetOrCreate(a: Around, random: Key) returns (o: Outcome)
      requires Valid()
      modifies this
      ensures Valid()
      ensures old(cached).Some? ==> o == Got(old(cached).value) && cached == old(cached) && OnDisk() == old(OnDisk())
      ensures old(cached).None? ==>
                var d := Resolve(a, old(OnDisk()), random);
                && o == d.outcome && OnDisk() == AllApplied(old(OnDisk()), d.writes) && log == old(log) + d.writes
                && cached == if o.Got? then Some(o.key) else None
    {
      hide Save, Restored, AllApplied;
      if cached.Some? {
        return Got(cached.value);
      }
      NothingApplied(OnDisk());
      match a.operator {
        case BadOperatorKey =>
          return Refused;
        case OperatorKey(k) =>
          cached := Some(k);
          return Got(k);
        case NoOperatorKey =>
      }
      var stored := if a.keyringReads then keyring else None;
      if stored.Some? {
        var ok := SaveKeyBackups(a, stored.value, false);
        if !ok {
          return Refused;
        }
        cached := stored;
        return Got(cached.value);
      }
      var restored := TryRestore(a);
      match restored {
        case Raises =>
          return Refused;
        case Opens(k) =>
          AppliedInTwoParts(OnDisk(), KeyringWrite(a, k), Save(a, files, k, false));
          SetKeyringPassword(a, k);
          var ok := SaveKeyBackups(a, k, false);
          if !ok {
            return Refused;
          }
          cached := Some(k);
          return Got(k);
        case Shut =>
      }
      var stale := UnreadableBackups(a);
      if stale != [] {
        return Refused;
      }
      AppliedInTwoParts(OnDisk(), Save(a, files, random, false), KeyringWrite(a, random));
      var ok := SaveKeyBackups(a, random, false);
      if !ok {
        return Refused;
      }
      SetKeyringPassword(a, random);
      cached := Some(random);
      return Got(random);
    }

    method PreserveBackups(a: Around) returns (ok: bool)
      requires Valid()
      modifies this`prevs, this`log
      ensures Valid() && OnDisk() == AllApplied(old(OnDisk()), Preserve(a, old(OnDisk()), 0).0)
      ensures log == old(log) + Preserve(a, old(OnDisk()), 0).0 && ok == Preserve(a, old(OnDisk()), 0).1
    {
      ghost var first, done := OnDisk(), [];
      for i := 0 to |files|
        invariant Valid() && |prevs| == |first.prevs|
        invariant prevs[i..] == first.prevs[i..]
        invariant Preserve(a, first, 0).0 == done + Preserve(a, first, i).0
        invariant Preserve(a, first, 0).1 == Preserve(a, first, i).1
        invariant OnDisk() == AllApplied(first, done) && log == old(log) + done
      {
        hide AllApplied;
        assert prevs[i] == prevs[i..][0] && first.prevs[i..][0] == first.prevs[i];
        assert prevs[i + 1..] == prevs[i..][1..] && first.prevs[i + 1..] == first.prevs[i..][1..];
        match ReadAt(a, files[i]) {
          case Raises =>
            assert done + [] == done;
            return false;
          case Shut =>
          case Opens(_) =>
            if prevs[i].None? {
              if Prev(i) in a.fails {
                assert done + [] == done;
                return false;
              }
              ghost var w := SetPrev(i, files[i].value);
              AppliedInTwoParts(first, done, [w]);
              OneApplied(OnDisk(), w);
              done := done + [w];
              prevs := prevs[i := files[i]];
              log := log + [w];
            }
        }
      }
      assert done + [] == done;
      return true;
    }

    method ImportMasterKey(a: Around, key: Option<Key>) returns (o: Outcome)
      requires Valid()
      modifies this
      ensures Valid()
      ensures var d := Import(a, old(OnDisk()), key);
              && o == d.outcome && OnDisk() == AllApplied(old(OnDisk()), d.writes) && log == old(log) + d.writes
              && cached == if o.Imported? then key else old(cached)
    {
      hide Save, Preserve, AllApplied;
      NothingApplied(OnDisk());
      if key.None? {
        return NotAKey;
      }
      ghost var first := OnDisk();
      ghost var kept, saves := Preserve(a, first, 0).0, Save(a, files, key.value, true);
      ghost var ring := KeyringWrite(a, key.value);
      AppliedInTwoParts(first, kept, saves);
      AppliedInTwoParts(first, kept + saves, ring);
      assert kept + [] == kept;
      var ok := PreserveBackups(a);
      if !ok {
        return Refused;
      }
      ok := SaveKeyBackups(a, key.value, true);
      if !ok {
        return Refused;
      }
      cached := key;
      SetKeyringPassword(a, key.value);
      return Imported(key.value);
    }
  }

  lemma SaveStep(a: Around, files: seq<Option<Blob>>, s: Secret, key: Key, force: bool, i: nat, done: seq<Write>)
    requires i < |files|
    ensures done + SaveFrom(a, files, s, key, force, i)
         == (if Replaces(a, files[i], force, i) then done + [SetMain(i, V3(s, key))] else done)
            + SaveFrom(a, files, s, key, force, i + 1)
  {
  }

  lemma SaveEnds(a: Around, files: seq<Option<Blob>>, s: Secret, key: Key, force: bool)
    ensures SaveFrom(a, files, s, key, force, |files|) == []
  {
  }

  lemma OneApplied(d: Disk, w: Write)
    ensures AllApplied(d, [w]) == Applied(d, w)
  {
  }

  // ---------------------------------------------------------------- what becomes of an imported key

  /** How many locations at the front of the list did not take the import's write. */
  function LeadingFailures(a: Around, n: nat, i: nat): (k: nat)
    requires i <= n
    ensures i <= k <= n && (forall j :: i <= j < k ==> Main(j) in a.fails) && (k < n ==> Main(k) !in a.fails)
    decreases n - i
  {
    if i < n && Main(i) in a.fails then LeadingFailures(a, n, i + 1) else i
  }

  lemma {:induction false} MainWritten(d: Disk, ws: seq<Write>, i: nat, b: Blob)
    requires d.Valid() && i < |d.files| && (SetMain(i, b) in ws || d.files[i] == Some(b))
    requires forall x :: x in ws && x.SetMain? && x.i == i ==> x.blob == b
    ensures AllApplied(d, ws).Valid() && i < |AllApplied(d, ws).files| && AllApplied(d, ws).files[i] == Some(b)
    decreases |ws|
  {
    if ws != [] {
      assert forall x :: x in ws[1..] ==> x in ws;
      assert ws[0] in ws && (SetMain(i, b) in ws ==> ws[0] == SetMain(i, b) || SetMain(i, b) in ws[1..]);
      MainWritten(Applied(d, ws[0]), ws[1..], i, b);
    }
  }

  /** The files after an import that was taken: the key under the secret, where the write went through. */
  lemma ImportedFile(a: Around, d: Disk, key: Key, i: nat)
    requires d.Valid() && Import(a, d, Some(key)).outcome.Imported? && i < |d.files|
    ensures var now := AllApplied(d, Import(a, d, Some(key)).writes);
            && now.Valid() && |now.files| == |d.files|
            && now.files[i] == if Main(i) in a.fails then d.files[i] else Some(V3(a.wrap.secret, key))
  {
    hide AllApplied, Save, Preserve;
    var ws := Import(a, d, Some(key)).writes;
    assert Save(a, d.files, key, true) != [];
    ForcedWrites(a, d.files, key);
    PreserveWrites(a, d, 0);
    OnlyWhatIsWritten(d, ws, i);
    var x := SetMain(i, V3(a.wrap.secret, key));
    if Main(i) !in a.fails {
      assert x in Save(a, d.files, key, true);
      MainWritten(d, ws, i, x.blob);
    }
  }

  lemma ForcedWrites(a: Around, files: seq<Option<Blob>>, key: Key)
    requires Save(a, files, key, true) != []
    ensures a.wrap.Configured?
    ensures forall x :: x in Save(a, files, key, true) <==>
              x.SetMain? && 0 <= x.i < |files| && x.blob == V3(a.wrap.secret, key) && Main(x.i) !in a.fails
    ensures LeadingFailures(a, |files|, 0) < |files|
  {
    SaveWrites(a, files, a.wrap.secret, key, true, 0);
    assert Save(a, files, key, true)[0] in Save(a, files, key, true);
  }

  lemma ImportedKeyring(a: Around, d: Disk, key: Key)
    requires d.Valid() && Import(a, d, Some(key)).outcome.Imported?
    ensures AllApplied(d, Import(a, d, Some(key)).writes).keyring == if a.keyringWrites then Some(key) else d.keyring
  {
    hide AllApplied, Save, Preserve;
    var kept, saves := Preserve(a, d, 0).0, Save(a, d.files, key, true);
    ForcedWrites(a, d.files, key);
    PreserveWrites(a, d, 0);
    var before := kept + saves;
    KeyringWritten(d, before);
    AppliedInTwoParts(d, before, KeyringWrite(a, key));
    OneApplied(AllApplied(d, before), SetKeyring(key));
    NothingApplied(AllApplied(d, before));
  }

  /** What a start that got its key leaves: the key under the secret wherever it was allowed to write,
      and in the keyring unless it came from there or the keyring refused it. */
  lemma AfterAnAnswer(a: Around, d: Disk, random: Key, i: nat)
    requires d.Valid() && a.operator.NoOperatorKey? && Resolve(a, d, random).outcome.Got? && i < |d.files|
    ensures var k, now := Resolve(a, d, random).outcome.key, AllApplied(d, Resolve(a, d, random).writes);
            && a.wrap.Configured? && now.Valid() && |now.files| == |d.files|
            && now.files[i] == (if (d.files[i].None? || ReadAt(a, d.files[i]).Opens?) && Main(i) !in a.fails
                                then Some(V3(a.wrap.secret, k)) else d.files[i])
            && now.keyring == if a.keyringReads && d.keyring.Some? then Some(k)
                              else if a.keyringWrites then Some(k) else d.keyring
  {
    hide AllApplied, Save, Restored, ReadAt;
    var ws, k := Resolve(a, d, random).writes, Resolve(a, d, random).outcome.key;
    SavesSomewhere(a, d.files, k, false);
    SavedKeys(a, d.files, k);
    OnlyWhatIsWritten(d, ws, i);
    if Replaces(a, d.files[i], false, i) {
      assert SetMain(i, V3(a.wrap.secret, k)) in Save(a, d.files, k, false);
      MainWritten(d, ws, i, V3(a.wrap.secret, k));
    }
    KeyringWritten(d, ws);
    if !(a.keyringReads && d.keyring.Some?) && a.keyringWrites {
      KeyringTakesIt(d, ws, k);
    }
  }

  lemma SavedKeys(a: Around, files: seq<Option<Blob>>, key: Key)
    requires a.wrap.Configured?
    ensures forall x :: x in Save(a, files, key, false) <==>
              && x.SetMain? && 0 <= x.i < |files| && x.blob == V3(a.wrap.secret, key)
              && Replaces(a, files[x.i], false, x.i)
  {
    SaveWrites(a, files, a.wrap.secret, key, false, 0);
  }

  lemma {:induction false} KeyringTakesIt(d: Disk, ws: seq<Write>, key: Key)
    requires SetKeyring(key) in ws || d.keyring == Some(key)
    requires forall x :: x in ws && x.SetKeyring? ==> x.key == key
    ensures AllApplied(d, ws).keyring == Some(key)
    decreases |ws|
  {
    if ws != [] {
      assert forall x :: x in ws[1..] ==> x in ws;
      assert ws[0] in ws && (SetKeyring(key) in ws ==> ws[0] == SetKeyring(key) || SetKeyring(key) in ws[1..]);
      KeyringTakesIt(Applied(d, ws[0]), ws[1..], key);
    }
  }

  /** The next start on this host under this secret gets the same key, from a file if not from the
      keyring, exactly if it can save it somewhere and the keyring does not hold an older key that
      this start could neither read nor write. */
  lemma TheSameKeyNextTime(a: Around, d: Disk, random: Key, b: Around, other: Key)
    requires d.Valid() && a.operator.NoOperatorKey? && Resolve(a, d, random).outcome.Got?
    requires forall i :: 0 <= i < |d.files| && Main(i) in a.fails && ReadAt(a, d.files[i]).Opens? ==>
               ReadAt(a, d.files[i]) == Opens(Resolve(a, d, random).outcome.key)
    requires b.operator.NoOperatorKey? && b.wrap == a.wrap && b.host == a.host
    ensures var k, now := Resolve(a, d, random).outcome.key, AllApplied(d, Resolve(a, d, random).writes);
            Resolve(b, now, other).outcome == Got(k) <==>
              && (b.keyringReads && !a.keyringReads && !a.keyringWrites && d.keyring.Some? ==> d.keyring == Some(k))
              && exists i :: 0 <= i < |now.files| && Main(i) !in b.fails
                        && (now.files[i].None? || ReadAt(b, now.files[i]).Opens?)
  {
    var k, now := Resolve(a, d, random).outcome.key, AllApplied(d, Resolve(a, d, random).writes);
    hide AllApplied, Save, Restored, Resolve;
    SomeoneWrote(a, d, random);
    forall i: nat | i < |d.files|
      ensures |now.files| == |d.files|
      ensures ReadAt(b, now.files[i]) == Opens(k) || ReadAt(b, now.files[i]).Shut?
      ensures (d.files[i].None? || ReadAt(a, d.files[i]).Opens?) && Main(i) !in a.fails ==>
                ReadAt(b, now.files[i]) == Opens(k)
    {
      AfterAnAnswer(a, d, random, i);
    }
    AfterAnAnswer(a, d, random, 0);
    hide ReadAt;
    var j := FirstToSpeak(b, now.files);
    WhoIsAnswered(b, now, other);
  }

  lemma SomeoneWrote(a: Around, d: Disk, random: Key)
    requires d.Valid() && a.operator.NoOperatorKey? && Resolve(a, d, random).outcome.Got?
    ensures a.wrap.Configured?
    ensures exists i :: 0 <= i < |d.files| && Main(i) !in a.fails
                   && (d.files[i].None? || ReadAt(a, d.files[i]).Opens?)
  {
    hide ReadAt, Save, Restored;
    SavesSomewhere(a, d.files, Resolve(a, d, random).outcome.key, false);
  }

  lemma FirstToSpeak(a: Around, files: seq<Option<Blob>>) returns (j: nat)
    requires exists i :: 0 <= i < |files| && !ReadAt(a, files[i]).Shut?
    ensures SpeaksFirst(a, files, j)
  {
    hide ReadAt;
    j := 0;
    while ReadAt(a, files[j]).Shut?
      invariant j < |files| && forall i :: 0 <= i < j ==> ReadAt(a, files[i]).Shut?
      decreases |files| - j
    {
      j := j + 1;
    }
  }

  lemma {:induction false} RestoredAfterImport(b: Around, d: Disk, now: Disk, s: Secret, key: Key, lead: nat, i: nat)
    requires i <= lead < |d.files| && |now.files| == |d.files| && b.wrap == Configured(s)
    requires now.files[lead] == Some(V3(s, key)) && forall j :: i <= j < lead ==> now.files[j] == d.files[j]
    ensures Restored(b, now.files, i)
         == if Restored(b, d.files[..lead], i).Shut? then Opens(key) else Restored(b, d.files[..lead], i)
    decreases lead - i
  {
    if i < lead {
      RestoredAfterImport(b, d, now, s, key, lead, i + 1);
    }
  }

  /** A later start, under the secret of the import and without an operator's key, that gets a
      key gets the imported one exactly when the keyring it reads took the import (or never had
      another), and otherwise when no location before the first the import wrote still opens
      with another. */
  lemma WhenTheImportedKeyComesBack(a: Around, d: Disk, key: Key, b: Around, random: Key)
    requires d.Valid() && Import(a, d, Some(key)).outcome.Imported?
    requires b.wrap == a.wrap && b.operator.NoOperatorKey?
    requires Resolve(b, AllApplied(d, Import(a, d, Some(key)).writes), random).outcome.Got?
    ensures Resolve(b, AllApplied(d, Import(a, d, Some(key)).writes), random).outcome.key == key
       <==> if b.keyringReads && (a.keyringWrites || d.keyring.Some?) then a.keyringWrites || d.keyring == Some(key)
            else var lead := d.files[..LeadingFailures(a, |d.files|, 0)];
                 Restored(b, lead, 0) in {Shut, Opens(key)}
  {
    var now := AllApplied(d, Import(a, d, Some(key)).writes);
    var lead := LeadingFailures(a, |d.files|, 0);
    hide AllApplied, Save, Preserve, Import, Restored, LeadingFailures;
    ImportSaves(a, d, key);
    ForcedWrites(a, d.files, key);
    ImportedKeyring(a, d, key);
    forall i | 0 <= i < |d.files|
      ensures |now.files| == |d.files|
      ensures now.files[i] == if Main(i) in a.fails then d.files[i] else Some(V3(a.wrap.secret, key))
    {
      ImportedFile(a, d, key, i);
    }
    RestoredAfterImport(b, d, now, a.wrap.secret, key, lead, 0);
  }

  lemma ImportSaves(a: Around, d: Disk, key: Key)
    requires d.Valid() && Import(a, d, Some(key)).outcome.Imported?
    ensures Save(a, d.files, key, true) != []
  {
  }

  /** It can fail: an import the keyring did not take is undone by the next start that can read
      the keyring, which leaves the imported key in no file at all. */
  lemma AStaleKeyringUndoesAnImport()
    ensures var b := Some(V3(1, 10));
            var d := Disk([b, b, b], [None, None, None], Some(10));
            var a := Around(0, Configured(1), NoOperatorKey, true, false, {});
            var now := AllApplied(d, Import(a, d, Some(20)).writes);
            var later := Resolve(a, now, 30);
            && Import(a, d, Some(20)).outcome == Imported(20) && later.outcome == Got(10)
            && AllApplied(now, later.writes) == Disk([b, b, b], [b, b, b], Some(10))
  {
    var b, c := Some(V3(1, 10)), Some(V3(1, 20));
    var d := Disk([b, b, b], [None, None, None], Some(10));
    var a := Around(0, Configured(1), NoOperatorKey, true, false, {});
    hide AllApplied, Preserve, SaveFrom;
    PreserveAllThree(a, d);
    SaveAllThree(a, d.files, 20, true);
    var now, kept := Disk([c, c, c], [b, b, b], Some(10)), Preserve(a, d, 0).0;
    assert kept == ThreeCopies(b.value);
    assert Import(a, d, Some(20)).writes == kept + ThreeMains(c.value) by { assert KeyringWrite(a, 20) == []; }
    AppliedInTwoParts(d, kept, ThreeMains(c.value));
    ThreeCopiesApplied(d, b.value);
    ThreeMainsApplied(d.(prevs := [b, b, b]), c.value);
    SaveAllThree(a, now.files, 10, false);
    ThreeMainsApplied(now, b.value);
  }

  function ThreeMains(b: Blob): seq<Write> {
    [SetMain(0, b), SetMain(1, b), SetMain(2, b)]
  }

  function ThreeCopies(b: Blob): seq<Write> {
    [SetPrev(0, b), SetPrev(1, b), SetPrev(2, b)]
  }

  lemma ThreeMainsApplied(d: Disk, b: Blob)
    requires |d.files| == 3
    ensures AllApplied(d, ThreeMains(b)) == d.(files := [Some(b), Some(b), Some(b)])
  {
    ThreeApplied(d, ThreeMains(b));
  }

  lemma ThreeCopiesApplied(d: Disk, b: Blob)
    requires |d.prevs| == 3
    ensures AllApplied(d, ThreeCopies(b)) == d.(prevs := [Some(b), Some(b), Some(b)])
  {
    ThreeApplied(d, ThreeCopies(b));
  }

  lemma PreserveAllThree(a: Around, d: Disk)
    requires |d.files| == 3 && d.Valid() && a.fails == {}
    requires forall i :: 0 <= i < 3 ==> d.files[i].Some? && ReadAt(a, d.files[i]).Opens? && d.prevs[i].None?
    ensures Preserve(a, d, 0).0
         == [SetPrev(0, d.files[0].value), SetPrev(1, d.files[1].value), SetPrev(2, d.files[2].value)]
    ensures Preserve(a, d, 0).1
  {
    assert Preserve(a, d, 3).0 == [] && Preserve(a, d, 3).1;
    assert Preserve(a, d, 2).0 == [SetPrev(2, d.files[2].value)] && Preserve(a, d, 2).1;
    assert Preserve(a, d, 1).0 == [SetPrev(1, d.files[1].value), SetPrev(2, d.files[2].value)] && Preserve(a, d, 1).1;
  }

  lemma SaveAllThree(a: Around, files: seq<Option<Blob>>, key: Key, force: bool)
    requires |files| == 3 && a.wrap.Configured? && a.fails == {}
    requires forall i :: 0 <= i < 3 ==> ReadAt(a, files[i]).Opens?
    ensures Save(a, files, key, force) == ThreeMains(V3(a.wrap.secret, key))
  {
    var b := V3(a.wrap.secret, key);
    assert SaveFrom(a, files, a.wrap.secret, key, force, 3) == [];
    assert SaveFrom(a, files, a.wrap.secret, key, force, 2) == [SetMain(2, b)];
    assert SaveFrom(a, files, a.wrap.secret, key, force, 1) == [SetMain(1, b), SetMain(2, b)];
  }

  lemma ThreeApplied(d: Disk, ws: seq<Write>)
    requires |ws| == 3
    ensures AllApplied(d, ws) == Applied(Applied(Applied(d, ws[0]), ws[1]), ws[2])
  {
    assert ws[1..][1..] == ws[2..] && ws[2..][1..] == [];
    assert AllApplied(Applied(Applied(d, ws[0]), ws[1]), ws[2..]) == Applied(Applied(Applied(d, ws[0]), ws[1]), ws[2]);
  }
}
