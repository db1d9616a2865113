/** Where the master key comes from: a chain over an operator's key, a keyring and backup files,
    while the host, the wrapping secret and the keyring's behaviour change between starts. A
    wrapped backup is symbolic: it opens under the secret or on the host it was made with. */
module MasterKey {
  import opened Options

  type Key = nat
  type Secret = nat
  type Host = nat

  /** A backup file's content; version 2 is bound to the host, an older one is not wrapped. */
  datatype Blob = V3(secret: Secret, key: Key) | V2(host: Host, key: Key) | Plain(key: Key) | Corrupt

  /** Weak is a secret that is configured but too short or not readable. */
  datatype WrapSecret = Unset | Weak | Configured(secret: Secret)

  datatype OperatorKey = NoOperatorKey | BadOperatorKey | OperatorKey(key: Key)

  datatype Slot = Main(i: nat) | Prev(i: nat)

  /** What a start or an import finds: none of it is under the program's control. */
  datatype Around = Around(host: Host, wrap: WrapSecret, operator: OperatorKey,
                           keyringReads: bool, keyringWrites: bool, fails: set<Slot>)

  /** For each backup location its file and the copy an import preserved beside it. */
  datatype Disk = Disk(files: seq<Option<Blob>>, prevs: seq<Option<Blob>>, keyring: Option<Key>) {
    ghost predicate Valid() {
      |files| == |prevs|
    }
  }

  datatype Write = SetMain(i: nat, blob: Blob) | SetPrev(i: nat, blob: Blob) | SetKeyring(key: Key)

  datatype Outcome = Got(key: Key) | Imported(key: Key) | NotAKey | Refused

  /** What an operation writes, in order, and what it comes to. */
  datatype Doing = Doing(writes: seq<Write>, outcome: Outcome)

  datatype Reading = Opens(key: Key) | Shut | Raises

  // ---------------------------------------------------------------- reading and writing

  /** Only a version 3 backup needs the secret, and only it raises when the secret is weak. */
  function Read(a: Around, b: Blob): Reading {
    match b
    case V3(s, k) => (match a.wrap
                      case Weak => Raises
                      case Unset => Shut
                      case Configured(mine) => if mine == s then Opens(k) else Shut)
    case V2(h, k) => if a.host == h then Opens(k) else Shut
    case Plain(k) => Opens(k)
    case Corrupt => Shut
  }

  function ReadAt(a: Around, file: Option<Blob>): Reading {
    if file.None? then Shut else Read(a, file.value)
  }

  function Applied(d: Disk, w: Write): Disk {
    match w
    case SetMain(i, b) => if i < |d.files| then d.(files := d.files[i := Some(b)]) else d
    case SetPrev(i, b) => if i < |d.prevs| then d.(prevs := d.prevs[i := Some(b)]) else d
    case SetKeyring(k) => d.(keyring := Some(k))
  }

  function AllApplied(d: Disk, ws: seq<Write>): Disk
    decreases |ws|
  {
    if ws == [] then d else AllApplied(Applied(d, ws[0]), ws[1..])
  }

  // ---------------------------------------------------------------- what the operations write

  /** A backup that does not open here is kept, unless the write is forced. */
  predicate Replaces(a: Around, file: Option<Blob>, force: bool, i: nat) {
    (force || file.None? || ReadAt(a, file).Opens?) && Main(i) !in a.fails
  }

  function SaveFrom(a: Around, files: seq<Option<Blob>>, s: Secret, key: Key, force: bool, i: nat): seq<Write>
    requires i <= |files|
    decreases |files| - i
  {
    if i == |files| then []
    else (if Replaces(a, files[i], force, i) then [SetMain(i, V3(s, key))] else [])
         + SaveFrom(a, files, s, key, force, i + 1)
  }

  /** Nothing is written without a usable secret. */
  function Save(a: Around, files: seq<Option<Blob>>, key: Key, force: bool): seq<Write> {
    if a.wrap.Configured? then SaveFrom(a, files, a.wrap.secret, key, force, 0) else []
  }

  function Restored(a: Around, files: seq<Option<Blob>>, i: nat): Reading
    requires i <= |files|
    decreases |files| - i
  {
    if i == |files| then Shut
    else if ReadAt(a, files[i]).Shut? then Restored(a, files, i + 1)
    else ReadAt(a, files[i])
  }

  predicate Absent(files: seq<Option<Blob>>) {
    forall i :: 0 <= i < |files| ==> files[i].None?
  }

  function Stored(a: Around, d: Disk): Option<Key> {
    if a.keyringReads then d.keyring else None
  }

  function KeyringWrite(a: Around, key: Key): seq<Write> {
    if a.keyringWrites then [SetKeyring(key)] else []
  }

  /** The recovery chain, for a process that has no key yet. */
  function Resolve(a: Around, d: Disk, minted: Key): Doing {
    match a.operator
    case BadOperatorKey => Doing([], Refused)
    case OperatorKey(k) => Doing([], Got(k))
    case NoOperatorKey =>
      if Stored(a, d).Some? then
        var k := Stored(a, d).value;
        var saves := Save(a, d.files, k, false);
        Doing(saves, if saves == [] then Refused else Got(k))
      else match Restored(a, d.files, 0)
        case Raises => Doing([], Refused)
        case Opens(k) =>
          var saves := Save(a, d.files, k, false);
          Doing(KeyringWrite(a, k) + saves, if saves == [] then Refused else Got(k))
        case Shut =>
          var saves := Save(a, d.files, minted, false);
          if !Absent(d.files) || saves == [] then Doing([], Refused)
          else Doing(saves + KeyringWrite(a, minted), Got(minted))
  }

  /** The chain ends in a key of its own making. */
  predicate Mints(a: Around, d: Disk) {
    && a.operator.NoOperatorKey?
    && Stored(a, d).None?
    && Restored(a, d.files, 0).Shut?
    && Absent(d.files)
  }

  /** Copies beside the backups an import is about to replace; the first that fails refuses it. */
  function Preserve(a: Around, d: Disk, i: nat): (seq<Write>, bool)
    requires d.Valid() && i <= |d.files|
    decreases |d.files| - i
  {
    if i == |d.files| then ([], true)
    else match ReadAt(a, d.files[i])
      case Raises => ([], false)
      case Shut => Preserve(a, d, i + 1)
      case Opens(_) =>
        if d.prevs[i].Some? then Preserve(a, d, i + 1)
        else if Prev(i) in a.fails then ([], false)
        else var rest := Preserve(a, d, i + 1);
             ([SetPrev(i, d.files[i].value)] + rest.0, rest.1)
  }

  /** `key` is none for text that does not decode to 32 bytes. */
  function Import(a: Around, d: Disk, key: Option<Key>): Doing
    requires d.Valid()
  {
    if key.None? then Doing([], NotAKey)
    else
      var kept := Preserve(a, d, 0);
      var saves := Save(a, d.files, key.value, true);
      if !kept.1 then Doing(kept.0, Refused)
      else if saves == [] then Doing(kept.0, Refused)
      else Doing(kept.0 + saves + KeyringWrite(a, key.value), Imported(key.value))
  }

  // ---------------------------------------------------------------- what a list of writes can do

  lemma {:induction false} AppliedInTwoParts(d: Disk, ws: seq<Write>, more: seq<Write>)
    ensures AllApplied(d, ws + more) == AllApplied(AllApplied(d, ws), more)
    decreases |ws|
  {
    if ws == [] {
      assert ws + more == more;
    } else {
      assert (ws + more)[0] == ws[0] && (ws + more)[1..] == ws[1..] + more;
      AppliedInTwoParts(Applied(d, ws[0]), ws[1..], more);
    }
  }

  /** A location ends with what it had or with what one of the writes gave it. */
  lemma {:induction false} OnlyWhatIsWritten(d: Disk, ws: seq<Write>, i: nat)
    requires d.Valid() && i < |d.files|
    ensures var now := AllApplied(d, ws);
            && now.Valid() && |now.files| == |d.files|
            && (now.files[i] == d.files[i] || (now.files[i].Some? && SetMain(i, now.files[i].value) in ws))
            && (now.prevs[i] == d.prevs[i] || (now.prevs[i].Some? && SetPrev(i, now.prevs[i].value) in ws))
    decreases |ws|
  {
    if ws != [] {
      OnlyWhatIsWritten(Applied(d, ws[0]), ws[1..], i);
      assert forall w :: w in ws[1..] ==> w in ws;
      assert ws[0] in ws;
    }
  }

  lemma {:induction false} KeyringWritten(d: Disk, ws: seq<Write>)
    ensures AllApplied(d, ws).keyring == d.keyring
         || (AllApplied(d, ws).keyring.Some? && SetKeyring(AllApplied(d, ws).keyring.value) in ws)
    decreases |ws|
  {
    if ws != [] {
      KeyringWritten(Applied(d, ws[0]), ws[1..]);
    }
  }

  lemma {:induction false} SaveWrites(a: Around, files: seq<Option<Blob>>, s: Secret, key: Key, force: bool, i: nat)
    requires i <= |files|
    ensures forall w :: w in SaveFrom(a, files, s, key, force, i) <==>
              w.SetMain? && i <= w.i < |files| && w.blob == V3(s, key) && Replaces(a, files[w.i], force, w.i)
    decreases |files| - i
  {
    if i < |files| {
      SaveWrites(a, files, s, key, force, i + 1);
    }
  }

  lemma {:induction false} PreserveWrites(a: Around, d: Disk, i: nat)
    requires d.Valid() && i <= |d.files|
    ensures forall w :: w in Preserve(a, d, i).0 ==>
              w.SetPrev? && i <= w.i < |d.files| && d.prevs[w.i].None? && ReadAt(a, d.files[w.i]).Opens?
              && d.files[w.i] == Some(w.blob)
    ensures Preserve(a, d, i).1 ==>
              (forall j :: i <= j < |d.files| && d.prevs[j].None? && ReadAt(a, d.files[j]).Opens?
                 ==> SetPrev(j, d.files[j].value) in Preserve(a, d, i).0)
    decreases |d.files| - i
  {
    if i < |d.files| {
      PreserveWrites(a, d, i + 1);
    }
  }

  lemma {:induction false} RestoredShut(a: Around, files: seq<Option<Blob>>, i: nat)
    requires i <= |files|
    ensures Restored(a, files, i).Shut? <==> forall j :: i <= j < |files| ==> ReadAt(a, files[j]).Shut?
    decreases |files| - i
  {
    if i < |files| {
      RestoredShut(a, files, i + 1);
    }
  }

  // ---------------------------------------------------------------- who is answered what

  /** A backup opens under its own secret, on its own host, or anywhere if it is not wrapped; reading
      it raises only where it needs a secret that is configured and unusable. */
  lemma WhatOpens(a: Around, file: Option<Blob>, k: Key)
    ensures ReadAt(a, file) == Opens(k) <==>
              || file == Some(Plain(k)) || file == Some(V2(a.host, k))
              || (a.wrap.Configured? && file == Some(V3(a.wrap.secret, k)))
    ensures ReadAt(a, file).Raises? <==> file.Some? && file.value.V3? && a.wrap.Weak?
  {
  }

  /** The first backup that is not shut: everything before it is absent or does not open. */
  ghost predicate SpeaksFirst(a: Around, files: seq<Option<Blob>>, j: nat) {
    && j < |files|
    && !ReadAt(a, files[j]).Shut?
    && forall i :: 0 <= i < j ==> ReadAt(a, files[i]).Shut?
  }

  lemma {:induction false} RestoredSpeaks(a: Around, files: seq<Option<Blob>>, i: nat, j: nat)
    requires i <= j && SpeaksFirst(a, files, j)
    ensures Restored(a, files, i) == ReadAt(a, files[j])
    decreases j - i
  {
    if i < j {
      RestoredSpeaks(a, files, i + 1, j);
    }
  }

  /** A save goes through exactly where a secret is configured and some location that is free, or
      whose backup opens, takes the write. */
  lemma SavesSomewhere(a: Around, files: seq<Option<Blob>>, key: Key, force: bool)
    ensures Save(a, files, key, force) != [] <==>
              a.wrap.Configured?
              && exists i :: 0 <= i < |files| && Main(i) !in a.fails
                        && (force || files[i].None? || ReadAt(a, files[i]).Opens?)
  {
    if a.wrap.Configured? {
      SaveWrites(a, files, a.wrap.secret, key, force, 0);
      var ws := Save(a, files, key, force);
      hide SaveFrom, ReadAt, Save;
      if ws != [] {
        assert ws[0] in ws;
        assert Replaces(a, files[ws[0].i], force, ws[0].i);
      }
      if i :| 0 <= i < |files| && Main(i) !in a.fails && (force || files[i].None? || ReadAt(a, files[i]).Opens?) {
        assert SetMain(i, V3(a.wrap.secret, key)) in ws;
      }
    }
  }

  /** The whole chain: which key a start is answered, and when it is refused. An operator's key comes
      before all; then the keyring's, then the first backup's that opens, then a new one where
      there is no backup at all, each only if it can be saved somewhere. A backup that does not open
      is never taken for a first run. */
  lemma WhoIsAnswered(a: Around, d: Disk, minted: Key)
    ensures var o := Resolve(a, d, minted).outcome;
            var kept := a.wrap.Configured?
                        && exists i :: 0 <= i < |d.files| && Main(i) !in a.fails
                                  && (d.files[i].None? || ReadAt(a, d.files[i]).Opens?);
            match a.operator
            case BadOperatorKey => o == Refused
            case OperatorKey(k) => o == Got(k)
            case NoOperatorKey =>
              if a.keyringReads && d.keyring.Some? then o == if kept then Got(d.keyring.value) else Refused
              else
                && (forall j: nat :: SpeaksFirst(a, d.files, j) ==>
                      o == if kept && ReadAt(a, d.files[j]).Opens? then Got(ReadAt(a, d.files[j]).key) else Refused)
                && ((forall j :: 0 <= j < |d.files| ==> ReadAt(a, d.files[j]).Shut?) ==>
                      o == if kept && forall j :: 0 <= j < |d.files| ==> d.files[j].None? then Got(minted) else Refused)
  {
    hide Save, Restored, ReadAt;
    forall key { SavesSomewhere(a, d.files, key, false); }
    RestoredShut(a, d.files, 0);
    forall j: nat | SpeaksFirst(a, d.files, j) ensures Restored(a, d.files, 0) == ReadAt(a, d.files[j]) {
      RestoredSpeaks(a, d.files, 0, j);
    }
  }

  /** A restored key goes to the keyring before the files are rewritten, a new one to the files first. */
  lemma OrderOfWrites(a: Around, d: Disk, random: Key)
    requires a.operator.NoOperatorKey? && Resolve(a, d, random).outcome.Got? && !(a.keyringReads && d.keyring.Some?)
    ensures var ws := Resolve(a, d, random).writes;
            forall i :: 0 <= i < |ws| ==>
              (ws[i].SetMain? <==> !a.keyringWrites || i != if Absent(d.files) then |ws| - 1 else 0)
              && (ws[i].SetMain? || ws[i] == SetKeyring(Resolve(a, d, random).outcome.key))
  {
    hide Save, ReadAt;
    RestoredShut(a, d.files, 0);
    OnlyMains(a, d.files, Resolve(a, d, random).outcome.key, false);
    AbsentIsShut(a, d.files);
  }

  /** An import writes its copies first and the keyring last. */
  lemma OrderOfAnImport(a: Around, d: Disk, key: Key)
    requires d.Valid() && Import(a, d, Some(key)).outcome.Imported?
    ensures var ws := Import(a, d, Some(key)).writes;
            && (forall i, j :: 0 <= i < j < |ws| && ws[j].SetPrev? ==> ws[i].SetPrev?)
            && (forall i :: 0 <= i < |ws| ==> (ws[i].SetKeyring? <==> a.keyringWrites && i == |ws| - 1))
  {
    hide Save, Preserve, ReadAt;
    PreserveWrites(a, d, 0);
    var kept := Preserve(a, d, 0).0;
    assert forall i :: 0 <= i < |kept| ==> kept[i] in kept;
    OnlyMains(a, d.files, key, true);
  }

  lemma AbsentIsShut(a: Around, files: seq<Option<Blob>>)
    ensures Absent(files) ==> forall i :: 0 <= i < |files| ==> ReadAt(a, files[i]).Shut?
  {
  }

  lemma OnlyMains(a: Around, files: seq<Option<Blob>>, key: Key, force: bool)
    ensures forall i :: 0 <= i < |Save(a, files, key, force)| ==> Save(a, files, key, force)[i].SetMain?
  {
    if a.wrap.Configured? {
      SaveWrites(a, files, a.wrap.secret, key, force, 0);
      forall i | 0 <= i < |Save(a, files, key, force)| ensures Save(a, files, key, force)[i].SetMain? {
        assert Save(a, files, key, force)[i] in SaveFrom(a, files, a.wrap.secret, key, force, 0);
      }
    }
  }

  lemma {:induction false} PreservesAll(a: Around, d: Disk, i: nat)
    requires d.Valid() && i <= |d.files|
    ensures Preserve(a, d, i).1 <==>
              forall j :: i <= j < |d.files| ==>
                !ReadAt(a, d.files[j]).Raises?
                && (ReadAt(a, d.files[j]).Opens? && d.prevs[j].None? ==> Prev(j) !in a.fails)
    decreases |d.files| - i
  {
    if i < |d.files| {
      PreservesAll(a, d, i + 1);
    }
  }

  /** An import is taken exactly if the text is a key, every backup that opens has its copy or gets
      it, and a location takes the key under a configured secret. */
  lemma WhenAnImportIsTaken(a: Around, d: Disk, key: Option<Key>)
    requires d.Valid()
    ensures var o := Import(a, d, key).outcome;
            && (key.None? <==> o == NotAKey)
            && (key.Some? ==>
                  o == if && a.wrap.Configured?
                          && (exists i :: 0 <= i < |d.files| && Main(i) !in a.fails)
                          && (forall j :: 0 <= j < |d.files| && ReadAt(a, d.files[j]).Opens? && d.prevs[j].None? ==>
                                Prev(j) !in a.fails)
                       then Imported(key.value) else Refused)
  {
    hide Save, Preserve;
    PreservesAll(a, d, 0);
    if key.Some? {
      SavesSomewhere(a, d.files, key.value, true);
    }
  }
}
