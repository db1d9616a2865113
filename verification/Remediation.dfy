/** Moving what is recorded under old recommendation ids to new ones, in tables where an
    owner has at most one row per id. */
module Remediation {
  import opened Options

  type RowId = nat
  type Owner = nat   // a customer, or a customer and a ticket system

  /** `updated` is the place of updated_at in string order, 0 for none. */
  datatype Row = Row(owner: Owner, rec: string, updated: nat, rest: nat)

  type Table = map<RowId, Row>

  datatype Rename = Rename(source: string, target: string)

  const PLACEHOLDER := "__migrating__"

  ghost predicate Unique(t: Table) {
    forall i, j :: i in t && j in t && i != j && t[i].owner == t[j].owner ==> t[i].rec != t[j].rec
  }

  predicate Unused(t: Table, rec: string) {
    forall i :: i in t ==> t[i].rec != rec
  }

  function Put(t: Table, id: RowId, rec: string): Table
    requires id in t
  {
    t[id := t[id].(rec := rec)]
  }

  /** Every old id once, no new id an old one, and the placeholder neither. */
  ghost predicate RenamesApart(rs: seq<Rename>) {
    && (forall i, j :: 0 <= i < |rs| && 0 <= j < |rs| ==> rs[i].source != rs[j].target)
    && (forall i, j :: 0 <= i < j < |rs| ==> rs[i].source != rs[j].source)
    && (forall i :: 0 <= i < |rs| ==> rs[i].source != PLACEHOLDER && rs[i].target != PLACEHOLDER)
  }

  // ---------------------------------------------------------------- what one rename comes to

  /** Among the owner's rows, one with this id that was updated at least this late. */
  predicate HeldBy(t: Table, owner: Owner, rec: string, updated: nat) {
    exists h :: h in t && t[h].owner == owner && t[h].rec == rec && t[h].updated >= updated
  }

  /** The row updated last has the new id, and where there are two the other has the old. */
  function NewRec(t: Table, r: Rename, row: Row): string {
    if row.rec == r.source then if HeldBy(t, row.owner, r.target, row.updated) then r.source else r.target
    else if row.rec == r.target then if HeldBy(t, row.owner, r.source, row.updated + 1) then r.source else r.target
    else row.rec
  }

  /** The rename done for the rows of some owners. */
  function RenamedFor(t: Table, r: Rename, owners: set<Owner>): Table {
    map i | i in t :: t[i].(rec := if t[i].owner in owners then NewRec(t, r, t[i]) else t[i].rec)
  }

  function Renamed(t: Table, r: Rename): Table {
    map i | i in t :: t[i].(rec := NewRec(t, r, t[i]))
  }

  function Migrated(t: Table, rs: seq<Rename>): Table
    decreases |rs|
  {
    if rs == [] then t else Migrated(Renamed(t, rs[0]), rs[1..])
  }

  lemma TwoRowsStayApart(t: Table, r: Rename, i: RowId, j: RowId)
    requires Unique(t) && r.source != r.target && i in t && j in t && i != j && t[i].owner == t[j].owner
    ensures NewRec(t, r, t[i]) != NewRec(t, r, t[j])
  {
  }

  /** An owner's row under the old id and its row under the new one: both swap or neither. */
  lemma SwappedTogether(t: Table, r: Rename, o: RowId, h: RowId)
    requires Unique(t) && r.source != r.target && o in t && h in t && t[o].owner == t[h].owner
    requires t[o].rec == r.source && t[h].rec == r.target
    ensures NewRec(t, r, t[o]) == if t[h].updated >= t[o].updated then r.source else r.target
    ensures NewRec(t, r, t[h]) == if t[h].updated >= t[o].updated then r.target else r.source
  {
  }

  lemma RenamedKeepsUnique(t: Table, r: Rename, owners: set<Owner>)
    requires Unique(t) && r.source != r.target
    ensures Unique(RenamedFor(t, r, owners)) && Unique(Renamed(t, r))
  {
    hide NewRec;
    forall i, j | i in t && j in t && i != j && t[i].owner == t[j].owner
      ensures NewRec(t, r, t[i]) != NewRec(t, r, t[j])
    {
      TwoRowsStayApart(t, r, i, j);
    }
  }

  /** No row is added, lost, or changed except in its id; the pair stays unique. */
  lemma {:induction false} MigratedKeepsRows(t: Table, rs: seq<Rename>)
    requires Unique(t) && RenamesApart(rs)
    ensures Unique(Migrated(t, rs)) && Migrated(t, rs).Keys == t.Keys
    ensures forall i :: i in t ==> Migrated(t, rs)[i] == t[i].(rec := Migrated(t, rs)[i].rec)
    decreases |rs|
  {
    if rs != [] {
      RenamedKeepsUnique(t, rs[0], {});
      MigratedKeepsRows(Renamed(t, rs[0]), rs[1..]);
    }
  }

  /** A row under an id that no rename mentions stays as it is. */
  lemma {:induction false} OtherRowsStay(t: Table, rs: seq<Rename>, i: RowId)
    requires i in t && forall k :: 0 <= k < |rs| ==> rs[k].source != t[i].rec && rs[k].target != t[i].rec
    ensures i in Migrated(t, rs) && Migrated(t, rs)[i] == t[i]
    decreases |rs|
  {
    if rs != [] {
      hide HeldBy;
      forall k | 0 <= k < |rs| - 1 ensures rs[1..][k].source != t[i].rec && rs[1..][k].target != t[i].rec {
        assert rs[1..][k] == rs[k + 1];
      }
      OtherRowsStay(Renamed(t, rs[0]), rs[1..], i);
    }
  }

  // ---------------------------------------------------------------- the latest row wins

  predicate Among(t: Table, ids: set<string>, owner: Owner, i: RowId) {
    i in t && t[i].owner == owner && t[i].rec in ids
  }

  predicate Outranks(t: Table, now: Table, ids: set<string>, owner: Owner, rec: string, i: RowId, h: RowId) {
    i in t && h in t && h in now && t[h].owner == owner && t[h].rec in ids && now[h].rec == rec
          && t[i].updated <= t[h].updated
  }

  /** Of the owner's rows that had one of these ids in t, one updated last now has `rec`. */
  ghost predicate LatestHolds(t: Table, now: Table, ids: set<string>, owner: Owner, rec: string) {
    forall i :: Among(t, ids, owner, i) ==> exists h :: Outranks(t, now, ids, owner, rec, i, h)
  }

  /** Rows that had one of these ids still have one of them, and no other row has. */
  ghost predicate StaysWithin(t: Table, now: Table, ids: set<string>) {
    && now.Keys == t.Keys
    && forall i :: i in t ==> now[i] == t[i].(rec := now[i].rec) && (t[i].rec in ids <==> now[i].rec in ids)
  }

  lemma LatestAmongOld(now: Table, r: Rename, i: RowId) returns (h: RowId)
    requires Unique(now) && r.source != r.target && i in now && now[i].rec == r.source
    ensures h in now && now[h].owner == now[i].owner && (now[h].rec == r.source || now[h].rec == r.target)
    ensures Renamed(now, r)[h].rec == r.target && now[i].updated <= now[h].updated
  {
    if HeldBy(now, now[i].owner, r.target, now[i].updated) {
      h :| h in now && now[h].owner == now[i].owner && now[h].rec == r.target && now[h].updated >= now[i].updated;
      SwappedTogether(now, r, i, h);
    } else {
      h := i;
    }
  }

  lemma LatestAmongNew(now: Table, r: Rename, i: RowId) returns (o: RowId)
    requires Unique(now) && r.source != r.target && i in now && now[i].rec == r.target
    ensures o in now && now[o].owner == now[i].owner && (now[o].rec == r.source || now[o].rec == r.target)
    ensures Renamed(now, r)[o].rec == r.target && now[i].updated <= now[o].updated
  {
    if HeldBy(now, now[i].owner, r.source, now[i].updated + 1) {
      o :| o in now && now[o].owner == now[i].owner && now[o].rec == r.source && now[o].updated >= now[i].updated + 1;
      SwappedTogether(now, r, o, i);
    } else {
      o := i;
    }
  }

  /** A rename into `rec` itself: one more old id joins, and the latest still wins. */
  lemma LatestAfterOwn(t: Table, now: Table, ids: set<string>, owner: Owner, r: Rename)
    requires Unique(now) && StaysWithin(t, now, ids) && r.source !in ids && r.target in ids
    requires LatestHolds(t, now, ids, owner, r.target)
    requires forall i :: i in t && t[i].rec == r.source <==> i in now && now[i].rec == r.source
    ensures LatestHolds(t, Renamed(now, r), ids + {r.source}, owner, r.target)
  {
    hide Unique, HeldBy, NewRec;
    forall i | Among(t, ids + {r.source}, owner, i)
      ensures exists h :: Outranks(t, Renamed(now, r), ids + {r.source}, owner, r.target, i, h)
    {
      var h := LatestOf(t, now, ids, r, i);
      assert Outranks(t, Renamed(now, r), ids + {r.source}, owner, r.target, i, h);
    }
  }

  lemma LatestOf(t: Table, now: Table, ids: set<string>, r: Rename, i: RowId) returns (h: RowId)
    requires Unique(now) && StaysWithin(t, now, ids) && r.source !in ids && r.target in ids
    requires i in t && t[i].rec in ids + {r.source} && LatestHolds(t, now, ids, t[i].owner, r.target)
    requires forall i :: i in t && t[i].rec == r.source <==> i in now && now[i].rec == r.source
    ensures h in t && t[h].owner == t[i].owner && t[h].rec in ids + {r.source}
    ensures h in Renamed(now, r) && Renamed(now, r)[h].rec == r.target && t[i].updated <= t[h].updated
  {
    hide Unique, HeldBy, NewRec, Renamed, StaysWithin, LatestHolds;
    if t[i].rec == r.source {
      h := LatestAmongOld(now, r, i);
      CameFromWithin(t, now, ids, r, i, h);
    } else {
      var g := Holder(t, now, ids, r.target, i);
      h := LatestAmongNew(now, r, g);
      CameFromWithin(t, now, ids, r, g, h);
    }
    RenamedKeys(now, r);
  }

  lemma Holder(t: Table, now: Table, ids: set<string>, rec: string, i: RowId) returns (h: RowId)
    requires i in t && t[i].rec in ids && LatestHolds(t, now, ids, t[i].owner, rec)
    ensures h in t && h in now && t[h].owner == t[i].owner && t[h].rec in ids && now[h].rec == rec
    ensures t[i].updated <= t[h].updated
  {
    assert Among(t, ids, t[i].owner, i);
    h :| Outranks(t, now, ids, t[i].owner, rec, i, h);
  }

  lemma CameFromWithin(t: Table, now: Table, ids: set<string>, r: Rename, i: RowId, h: RowId)
    requires StaysWithin(t, now, ids) && r.target in ids && i in t && i in now && h in now
    requires forall j :: j in t && t[j].rec == r.source <==> j in now && now[j].rec == r.source
    requires now[h].owner == now[i].owner && now[i].updated <= now[h].updated
    requires now[h].rec == r.source || now[h].rec == r.target
    ensures h in t && t[h].owner == t[i].owner && t[i].updated <= t[h].updated && t[h].rec in ids + {r.source}
  {
  }

  lemma RenamedKeys(t: Table, r: Rename)
    ensures Renamed(t, r).Keys == t.Keys
  {
  }

  /** The ids that end up under `rec`. */
  function Group(rs: seq<Rename>, rec: string): set<string> {
    set k | 0 <= k < |rs| && rs[k].target == rec :: rs[k].source
  }

  lemma RenameStaysWithin(t: Table, now: Table, ids: set<string>, r: Rename, rec: string)
    requires StaysWithin(t, now, ids) && rec in ids && r.source !in ids
    requires r.target != rec ==> r.target !in ids
    requires r.source != r.target
    requires forall i :: i in t && t[i].rec == r.source <==> i in now && now[i].rec == r.source
    ensures StaysWithin(t, Renamed(now, r), if r.target == rec then ids + {r.source} else ids)
  {
  }

  /** Later renames leave an id they do not mention alone. */
  lemma OtherIdsStay(now: Table, r: Rename, rec: string)
    requires rec != r.source && rec != r.target
    ensures forall i :: i in now ==> (Renamed(now, r)[i].rec == rec <==> now[i].rec == rec)
  {
  }

  lemma LatestAfterOther(t: Table, now: Table, ids: set<string>, owner: Owner, r: Rename, rec: string)
    requires rec != r.source && rec != r.target && LatestHolds(t, now, ids, owner, rec)
    ensures LatestHolds(t, Renamed(now, r), ids, owner, rec)
  {
    OtherIdsStay(now, r, rec);
    forall i | Among(t, ids, owner, i) ensures exists h :: Outranks(t, Renamed(now, r), ids, owner, rec, i, h) {
      var h :| Outranks(t, now, ids, owner, rec, i, h);
      assert Outranks(t, Renamed(now, r), ids, owner, rec, i, h);
    }
  }

  lemma {:induction false} MigratedGivesLatest(t: Table, now: Table, ids: set<string>, rs: seq<Rename>, rec: string,
                                               owner: Owner)
    requires RenamesApart(rs) && Unique(now) && rec in ids && StaysWithin(t, now, ids)
    requires forall k :: 0 <= k < |rs| ==> rs[k].source !in ids && (rs[k].target != rec ==> rs[k].target !in ids)
    requires forall k, i :: 0 <= k < |rs| ==>
               (i in t && t[i].rec == rs[k].source <==> i in now && now[i].rec == rs[k].source)
    requires LatestHolds(t, now, ids, owner, rec)
    ensures LatestHolds(t, Migrated(now, rs), ids + Group(rs, rec), owner, rec)
    decreases |rs|
  {
    hide Unique, StaysWithin, LatestHolds, NewRec, HeldBy;
    if rs == [] {
      assert ids + Group(rs, rec) == ids;
    } else {
      var r, rest := rs[0], rs[1..];
      var moved, more := Renamed(now, r), if r.target == rec then ids + {r.source} else ids;
      RenamedKeepsUnique(now, r, {});
      RenameStaysWithin(t, now, ids, r, rec);
      if r.target == rec {
        LatestAfterOwn(t, now, ids, owner, r);
      } else {
        LatestAfterOther(t, now, ids, owner, r, rec);
      }
      RestStaysApart(t, now, ids, rs, rec);
      GroupOfRest(rs, rec);
      hide Renamed, Group;
      MigratedGivesLatest(t, moved, more, rest, rec, owner);
      assert more + Group(rest, rec) == ids + Group(rs, rec);
    }
  }

  /** What the induction asks of the renames still holds of the rest of them. */
  lemma RestStaysApart(t: Table, now: Table, ids: set<string>, rs: seq<Rename>, rec: string)
    requires RenamesApart(rs) && rs != []
    requires forall k :: 0 <= k < |rs| ==> rs[k].source !in ids && (rs[k].target != rec ==> rs[k].target !in ids)
    requires forall k, i :: 0 <= k < |rs| ==>
               (i in t && t[i].rec == rs[k].source <==> i in now && now[i].rec == rs[k].source)
    ensures var r, rest, moved := rs[0], rs[1..], Renamed(now, rs[0]);
            var more := if r.target == rec then ids + {r.source} else ids;
            && RenamesApart(rest)
            && (forall k :: 0 <= k < |rest| ==>
                  rest[k].source !in more && (rest[k].target != rec ==> rest[k].target !in more))
            && (forall k, i :: 0 <= k < |rest| ==>
                  (i in t && t[i].rec == rest[k].source <==> i in moved && moved[i].rec == rest[k].source))
  {
    hide NewRec;
    var r, rest, moved := rs[0], rs[1..], Renamed(now, rs[0]);
    var more := if r.target == rec then ids + {r.source} else ids;
    forall k | 0 <= k < |rest|
      ensures rest[k].source !in more && (rest[k].target != rec ==> rest[k].target !in more)
    {
      assert rest[k] == rs[k + 1];
    }
    forall k, i | 0 <= k < |rest|
      ensures i in t && t[i].rec == rest[k].source <==> i in moved && moved[i].rec == rest[k].source
    {
      assert rest[k] == rs[k + 1];
      OtherIdsStay(now, r, rest[k].source);
    }
  }

  lemma GroupOfRest(rs: seq<Rename>, rec: string)
    requires rs != []
    ensures Group(rs, rec) == Group(rs[1..], rec) + if rs[0].target == rec then {rs[0].source} else {}
  {
  }

  /** After the whole migration: of an owner's rows under a new id or any of its old ids, one
      that was updated last holds the new id. */
  lemma LatestRowTakesTheNewId(t: Table, rs: seq<Rename>, n: nat, owner: Owner)
    requires Unique(t) && RenamesApart(rs) && n < |rs|
    ensures LatestHolds(t, Migrated(t, rs), {rs[n].target} + Group(rs, rs[n].target), owner, rs[n].target)
  {
    forall i | Among(t, {rs[n].target}, owner, i)
      ensures exists h :: Outranks(t, t, {rs[n].target}, owner, rs[n].target, i, h)
    {
      assert Outranks(t, t, {rs[n].target}, owner, rs[n].target, i, i);
    }
    MigratedGivesLatest(t, t, {rs[n].target}, rs, rs[n].target, owner);
  }

  // ---------------------------------------------------------------- running it again

  ghost predicate Settled(t: Table, r: Rename) {
    forall i :: i in t && t[i].rec == r.source ==> HeldBy(t, t[i].owner, r.target, t[i].updated)
  }

  lemma RenamedIsSettled(t: Table, r: Rename)
    requires Unique(t) && r.source != r.target
    ensures Settled(Renamed(t, r), r)
  {
    var u := Renamed(t, r);
    forall i | i in u && u[i].rec == r.source ensures HeldBy(u, u[i].owner, r.target, u[i].updated) {
      if t[i].rec == r.source {
        var h :| h in t && t[h].owner == t[i].owner && t[h].rec == r.target && t[h].updated >= t[i].updated;
        SwappedTogether(t, r, i, h);
        assert u[h].rec == r.target;
      } else {
        var o :| o in t && t[o].owner == t[i].owner && t[o].rec == r.source && t[o].updated >= t[i].updated + 1;
        SwappedTogether(t, r, o, i);
        assert u[o].rec == r.target;
      }
    }
  }

  lemma SettledStays(t: Table, r: Rename, done: Rename)
    requires Unique(t) && r.source != r.target && Settled(t, done)
    requires done.source != r.source && done.source != r.target && done.target != r.source
    ensures Settled(Renamed(t, r), done)
  {
    var u := Renamed(t, r);
    forall i | i in u && u[i].rec == done.source ensures HeldBy(u, u[i].owner, done.target, u[i].updated) {
      OtherIdsStay(t, r, done.source);
      var h :| h in t && t[h].owner == t[i].owner && t[h].rec == done.target && t[h].updated >= t[i].updated;
      if u[h].rec != done.target {
        var o :| o in t && t[o].owner == t[h].owner && t[o].rec == r.source && t[o].updated >= t[h].updated + 1;
        SwappedTogether(t, r, o, h);
        assert u[o].rec == done.target;
      } else {
        assert u[h].rec == done.target;
      }
    }
  }

  lemma SettledIsFixed(t: Table, r: Rename)
    requires Unique(t) && r.source != r.target && Settled(t, r)
    ensures Renamed(t, r) == t
  {
  }

  lemma {:induction false} MigratedIsSettled(t: Table, done: seq<Rename>, rs: seq<Rename>)
    requires Unique(t) && RenamesApart(done + rs)
    requires forall k :: 0 <= k < |done| ==> Settled(t, done[k])
    ensures forall k :: 0 <= k < |done + rs| ==> Settled(Migrated(t, rs), (done + rs)[k])
    decreases |rs|
  {
    hide Unique, Settled;
    if rs == [] {
      assert done + rs == done;
    } else {
      var r := rs[0];
      assert (done + rs)[|done|] == r;
      RenamedKeepsUnique(t, r, {});
      RenamedIsSettled(t, r);
      forall k | 0 <= k < |done + [r]| ensures Settled(Renamed(t, r), (done + [r])[k]) {
        if k < |done| {
          assert (done + rs)[k] == done[k];
          SettledStays(t, r, done[k]);
        }
      }
      assert done + [r] + rs[1..] == done + rs;
      MigratedIsSettled(Renamed(t, r), done + [r], rs[1..]);
    }
  }

  lemma {:induction false} SettledMigrates(t: Table, rs: seq<Rename>)
    requires Unique(t) && RenamesApart(rs) && forall k :: 0 <= k < |rs| ==> Settled(t, rs[k])
    ensures Migrated(t, rs) == t
    decreases |rs|
  {
    if rs != [] {
      SettledIsFixed(t, rs[0]);
      SettledMigrates(t, rs[1..]);
    }
  }

  /** Running the migration again changes nothing. */
  lemma MigratingAgainChangesNothing(t: Table, rs: seq<Rename>)
    requires Unique(t) && RenamesApart(rs)
    ensures Migrated(Migrated(t, rs), rs) == Migrated(t, rs)
  {
    MigratedKeepsRows(t, rs);
    assert [] + rs == rs;
    MigratedIsSettled(t, [], rs);
    SettledMigrates(Migrated(t, rs), rs);
  }

  // ---------------------------------------------------------------- the renames of the migration

  /** What the labels were, each with Azure's category, less those that were already the category. */
  function Labels(): seq<(string, string)> {
    [("Sikkerhet", "Security"), ("H\U{00F8}y tilgjengelighet", "HighAvailability"),
     ("High Availability", "HighAvailability"), ("Kostnadsoptimalisering", "Cost"),
     ("Cost Optimisation", "Cost"), ("Ytelse", "Performance"),
     ("Drift", "OperationalExcellence"), ("Operations", "OperationalExcellence")]
  }

  function AdvisorRenames(): seq<Rename> {
    seq(|Labels()|, i requires 0 <= i < |Labels()| => Rename(AdvisorId(Labels()[i].0), AdvisorId(Labels()[i].1)))
  }

  function AdvisorId(category: string): string {
    "rec_advisor_title:" + category
  }

  lemma AdvisorIdIsInjective(a: string, b: string)
    requires AdvisorId(a) == AdvisorId(b)
    ensures a == b
  {
    assert AdvisorId(a)[18..] == a && AdvisorId(b)[18..] == b;
  }

  lemma AdvisorRenamesAreApart()
    ensures RenamesApart(AdvisorRenames())
  {
    hide AdvisorId;
    var rs, ls := AdvisorRenames(), Labels();
    forall i, j | 0 <= i < |ls| && 0 <= j < |ls|
      ensures rs[i].source != rs[j].target && (i < j ==> rs[i].source != rs[j].source)
    {
      LabelsAreApart(i, j);
      if AdvisorId(ls[i].0) == AdvisorId(ls[j].1) { AdvisorIdIsInjective(ls[i].0, ls[j].1); }
      if AdvisorId(ls[i].0) == AdvisorId(ls[j].0) { AdvisorIdIsInjective(ls[i].0, ls[j].0); }
    }
    forall i | 0 <= i < |ls| ensures rs[i].source != PLACEHOLDER && rs[i].target != PLACEHOLDER {
      NoPlaceholder(ls[i].0);
      NoPlaceholder(ls[i].1);
    }
  }

  lemma NoPlaceholder(category: string)
    ensures AdvisorId(category) != PLACEHOLDER
  {
  }

  lemma LabelsAreApart(i: nat, j: nat)
    requires i < |Labels()| && j < |Labels()|
    ensures Labels()[i].0 != Labels()[j].1 && (i < j ==> Labels()[i].0 != Labels()[j].0)
  {
  }

  // ---------------------------------------------------------------- tickets and operations

  /** The id a ticket row has after one rename: the new one where it is free. */
  function FreeRec(t: Table, r: Rename, row: Row): string {
    if row.rec == r.source && !HeldBy(t, row.owner, r.target, 0) then r.target else row.rec
  }

  function Freed(t: Table, r: Rename): Table {
    map i | i in t :: t[i].(rec := FreeRec(t, r, t[i]))
  }

  function AllFreed(t: Table, rs: seq<Rename>): Table
    decreases |rs|
  {
    if rs == [] then t else AllFreed(Freed(t, rs[0]), rs[1..])
  }

  lemma {:induction false} AllFreedKeepsRows(t: Table, rs: seq<Rename>)
    requires Unique(t)
    ensures Unique(AllFreed(t, rs)) && AllFreed(t, rs).Keys == t.Keys
    ensures forall i :: i in t ==> AllFreed(t, rs)[i] == t[i].(rec := AllFreed(t, rs)[i].rec)
    ensures forall i :: i in t && !(exists k :: 0 <= k < |rs| && rs[k].source == t[i].rec) && RenamesApart(rs)
              ==> AllFreed(t, rs)[i] == t[i]
    decreases |rs|
  {
    if rs != [] {
      FreedKeepsUnique(t, rs[0]);
      AllFreedKeepsRows(Freed(t, rs[0]), rs[1..]);
      forall i | i in t && !(exists k :: 0 <= k < |rs| && rs[k].source == t[i].rec) && RenamesApart(rs)
        ensures AllFreed(t, rs)[i] == t[i]
      {
        assert rs[0].source != t[i].rec;
        assert Freed(t, rs[0])[i] == t[i];
        forall k | 0 <= k < |rs| - 1 ensures rs[1..][k].source != t[i].rec { assert rs[k + 1].source != t[i].rec; }
        assert RenamesApart(rs[1..]);
      }
    }
  }

  /** What one rename does to a ticket: under the old id it takes the new one, unless the same owner has
      a row under that already; any other stays as it is. */
  lemma FreedExactly(t: Table, r: Rename, i: RowId)
    requires i in t
    ensures var now := Freed(t, r);
            && now.Keys == t.Keys
            && now[i] == t[i].(rec := if t[i].rec == r.source
                                         && forall h :: h in t && t[h].owner == t[i].owner ==> t[h].rec != r.target
                                      then r.target else t[i].rec)
  {
  }

  lemma FreedKeepsUnique(t: Table, r: Rename)
    requires Unique(t)
    ensures Unique(Freed(t, r))
  {
  }

  ghost predicate Taken(t: Table, r: Rename) {
    forall i :: i in t && t[i].rec == r.source ==> HeldBy(t, t[i].owner, r.target, 0)
  }

  lemma FreedStaysTaken(t: Table, r: Rename, done: Rename)
    requires done == r || (Taken(t, done) && done.source != r.target && done.target != r.source)
    requires r.source != r.target
    ensures Taken(Freed(t, r), done)
  {
    var u := Freed(t, r);
    forall i | i in u && u[i].rec == done.source ensures HeldBy(u, u[i].owner, done.target, 0) {
      var h :| h in t && t[h].owner == t[i].owner && t[h].rec == done.target;
      assert u[h].rec == done.target;
    }
  }

  lemma {:induction false} AllFreedIsTaken(t: Table, done: seq<Rename>, rs: seq<Rename>)
    requires RenamesApart(done + rs)
    requires forall k :: 0 <= k < |done| ==> Taken(t, done[k])
    ensures forall k :: 0 <= k < |done + rs| ==> Taken(AllFreed(t, rs), (done + rs)[k])
    decreases |rs|
  {
    hide Taken;
    if rs == [] {
      assert done + rs == done;
    } else {
      var r := rs[0];
      assert (done + rs)[|done|] == r;
      forall k | 0 <= k < |done + [r]| ensures Taken(Freed(t, r), (done + [r])[k]) {
        if k < |done| { assert (done + rs)[k] == done[k]; }
        FreedStaysTaken(t, r, (done + [r])[k]);
      }
      assert done + [r] + rs[1..] == done + rs;
      AllFreedIsTaken(Freed(t, r), done + [r], rs[1..]);
    }
  }

  lemma {:induction false} TakenIsFixed(t: Table, rs: seq<Rename>)
    requires forall k :: 0 <= k < |rs| ==> Taken(t, rs[k])
    ensures AllFreed(t, rs) == t
    decreases |rs|
  {
    if rs != [] {
      assert Freed(t, rs[0]) == t;
      TakenIsFixed(t, rs[1..]);
    }
  }

  /** A ticket keeps an old id only where the new one is taken, and a second run changes nothing. */
  lemma FreeingAgainChangesNothing(t: Table, rs: seq<Rename>)
    requires RenamesApart(rs)
    ensures forall k :: 0 <= k < |rs| ==> Taken(AllFreed(t, rs), rs[k])
    ensures AllFreed(AllFreed(t, rs), rs) == AllFreed(t, rs)
  {
    assert [] + rs == rs;
    AllFreedIsTaken(t, [], rs);
    TakenIsFixed(AllFreed(t, rs), rs);
  }

  // ---------------------------------------------------------------- the steps themselves

  lemma OwnersApart(t: Table, r: Rename, owners: set<Owner>, owner: Owner)
    requires owner !in owners
    ensures RenamedFor(RenamedFor(t, r, owners), r, {owner}) == RenamedFor(t, r, owners + {owner})
  {
    var u := RenamedFor(t, r, owners);
    forall i | i in t && t[i].owner == owner ensures NewRec(u, r, u[i]) == NewRec(t, r, t[i]) {
      SameRowsSameRec(t, u, r, owner, i);
    }
  }

  lemma SameRowsSameRec(t: Table, u: Table, r: Rename, owner: Owner, i: RowId)
    requires t.Keys == u.Keys && i in t && t[i].owner == owner
    requires forall j :: j in t ==> t[j].owner == u[j].owner && (t[j].owner == owner ==> t[j] == u[j])
    ensures NewRec(u, r, u[i]) == NewRec(t, r, t[i])
  {
  }

  lemma OnlyMoversChange(t: Table, r: Rename, owners: set<Owner>)
    requires forall i :: i in t && t[i].rec == r.source ==> t[i].owner in owners
    ensures RenamedFor(t, r, owners) == Renamed(t, r)
  {
  }

  datatype Moving = Moving(id: RowId, owner: Owner, updated: nat)

  predicate Snapshot(t: Table, m: Moving, rec: string) {
    m.id in t && t[m.id] == Row(m.owner, rec, m.updated, t[m.id].rest)
  }

  function Owners(moving: seq<Moving>): set<Owner> {
    set k | 0 <= k < |moving| :: moving[k].owner
  }

  lemma OwnersGrow(moving: seq<Moving>, k: nat)
    requires k < |moving|
    ensures Owners(moving[..k + 1]) == Owners(moving[..k]) + {moving[k].owner}
  {
  }

  lemma MovedAlone(t: Table, r: Rename, id: RowId)
    requires Unique(t) && r.source != r.target && id in t && t[id].rec == r.source
    requires !HeldBy(t, t[id].owner, r.target, 0)
    ensures RenamedFor(t, r, {t[id].owner}) == Put(t, id, r.target)
  {
  }

  lemma MovedOrSwapped(t: Table, r: Rename, id: RowId, h: RowId)
    requires Unique(t) && r.source != r.target && id in t && h in t && t[h].owner == t[id].owner
    requires t[id].rec == r.source && t[h].rec == r.target
    ensures RenamedFor(t, r, {t[id].owner})
         == if t[id].updated > t[h].updated then Put(Put(Put(t, h, PLACEHOLDER), id, r.target), h, r.source) else t
  {
  }

  lemma OneRowPerOwner(t: Table, rec: string, moving: seq<Moving>)
    requires Unique(t) && forall k :: 0 <= k < |moving| ==> Snapshot(t, moving[k], rec)
    requires forall j, k :: 0 <= j < k < |moving| ==> moving[j].id != moving[k].id
    ensures forall j, k :: 0 <= j < k < |moving| ==> moving[j].owner != moving[k].owner
  {
  }

  lemma NobodyYet(t: Table, r: Rename)
    ensures RenamedFor(t, r, {}) == t
  {
  }

  /** A row selected before the loop is still as it was read: only other owners' rows moved. */
  lemma NotYetMoved(t: Table, r: Rename, moving: seq<Moving>, k: nat)
    requires k < |moving| && Snapshot(t, moving[k], r.source)
    requires forall i, j :: 0 <= i < j < |moving| ==> moving[i].owner != moving[j].owner
    ensures Snapshot(RenamedFor(t, r, Owners(moving[..k])), moving[k], r.source)
    ensures moving[k].owner !in Owners(moving[..k])
  {
  }

  class RemediationItems {
    var rows: Table

    /** One UPDATE ... WHERE id = ?; the constraint has to hold when it is done. */
    method Update(id: RowId, rec: string)
      requires Unique(rows) && id in rows
      requires forall j :: j in rows && j != id && rows[j].owner == rows[id].owner ==> rows[j].rec != rec
      modifies this
      ensures rows == Put(old(rows), id, rec) && Unique(rows)
    {
      rows := rows[id := rows[id].(rec := rec)];
    }

    method Held(owner: Owner, rec: string) returns (held: Option<RowId>)
      ensures held.None? ==> !HeldBy(rows, owner, rec, 0)
      ensures held.Some? ==> held.value in rows && rows[held.value].owner == owner && rows[held.value].rec == rec
    {
      if h :| h in rows && rows[h].owner == owner && rows[h].rec == rec {
        return Some(h);
      }
      return None;
    }

    method MoveRow(m: Moving, r: Rename)
      requires Unique(rows) && Unused(rows, PLACEHOLDER) && RenamesApart([r])
      requires m.id in rows && rows[m.id] == Row(m.owner, r.source, m.updated, rows[m.id].rest)
      modifies this
      ensures rows == RenamedFor(old(rows), r, {m.owner})
      ensures Unique(rows) && Unused(rows, PLACEHOLDER)
    {
      assert [r][0] == r;
      ghost var t := rows;
      var held := Held(m.owner, r.target);
      match held
      case None =>
        Update(m.id, r.target);
        MovedAlone(t, r, m.id);
      case Some(h) =>
        if m.updated > rows[h].updated {
          Update(h, PLACEHOLDER);
          Update(m.id, r.target);
          Update(h, r.source);
        }
        MovedOrSwapped(t, r, m.id, h);
      RenamedKeepsUnique(t, r, {m.owner});
    }

    method Select(rec: string) returns (moving: seq<Moving>)
      ensures forall k :: 0 <= k < |moving| ==> Snapshot(rows, moving[k], rec)
      ensures forall i :: i in rows && rows[i].rec == rec ==> exists k :: 0 <= k < |moving| && moving[k].id == i
      ensures forall j, k :: 0 <= j < k < |moving| ==> moving[j].id != moving[k].id
    {
      moving := [];
      var left := rows.Keys;
      while left != {}
        invariant left <= rows.Keys
        invariant forall k :: 0 <= k < |moving| ==> Snapshot(rows, moving[k], rec) && moving[k].id !in left
        invariant forall i :: i in rows && i !in left && rows[i].rec == rec ==>
                    exists k :: 0 <= k < |moving| && moving[k].id == i
        invariant forall j, k :: 0 <= j < k < |moving| ==> moving[j].id != moving[k].id
        decreases left
      {
        var i :| i in left;
        left := left - {i};
        if rows[i].rec == rec {
          ghost var was := moving;
          moving := moving + [Moving(i, rows[i].owner, rows[i].updated)];
          assert moving[|was|].id == i;
          assert forall k :: 0 <= k < |was| ==> moving[k] == was[k];
        }
      }
    }

    method MoveAll(r: Rename)
      requires Unique(rows) && Unused(rows, PLACEHOLDER) && RenamesApart([r])
      modifies this
      ensures rows == Renamed(old(rows), r) && Unique(rows) && Unused(rows, PLACEHOLDER)
    {
      ghost var t := rows;
      assert [r][0] == r;
      var moving := Select(r.source);
      OneRowPerOwner(t, r.source, moving);
      NobodyYet(t, r);
      for k := 0 to |moving|
        invariant Unique(rows) && Unused(rows, PLACEHOLDER)
        invariant rows == RenamedFor(t, r, Owners(moving[..k]))
      {
        hide Unique, Unused, NewRec, HeldBy;
        NotYetMoved(t, r, moving, k);
        MoveRow(moving[k], r);
        OwnersApart(t, r, Owners(moving[..k]), moving[k].owner);
        OwnersGrow(moving, k);
      }
      assert moving[..|moving|] == moving;
      OnlyMoversChange(t, r, Owners(moving));
    }
  }

  /** The three tables of the migration that keys Advisor recommendations on their category. */
  class Findings {
    const items: RemediationItems
    var tickets: Table
    var operations: Table

    constructor (items: RemediationItems, tickets: Table, operations: Table)
      ensures this.items == items && this.tickets == tickets && this.operations == operations
    {
      this.items, this.tickets, this.operations := items, tickets, operations;
    }

    /** Nothing is added or deleted, and every table comes to what its renames say. */
    method KeyOnCategory(renames: seq<Rename>)
      requires Unique(items.rows) && Unused(items.rows, PLACEHOLDER) && RenamesApart(renames)
      modifies this, items
      ensures items.rows == Migrated(old(items.rows), renames)
      ensures tickets == AllFreed(old(tickets), renames) && operations == AllFreed(old(operations), renames)
    {
      for k := 0 to |renames|
        invariant Unique(items.rows) && Unused(items.rows, PLACEHOLDER)
        invariant Migrated(items.rows, renames[k..]) == Migrated(old(items.rows), renames)
        invariant AllFreed(tickets, renames[k..]) == AllFreed(old(tickets), renames)
        invariant AllFreed(operations, renames[k..]) == AllFreed(old(operations), renames)
      {
        assert renames[k..][0] == renames[k] && renames[k..][1..] == renames[k + 1..];
        OneIsApart(renames, k);
        items.MoveAll(renames[k]);
        tickets := Freed(tickets, renames[k]);
        operations := Freed(operations, renames[k]);
      }
    }
  }

  lemma OneIsApart(rs: seq<Rename>, k: nat)
    requires RenamesApart(rs) && k < |rs|
    ensures RenamesApart([rs[k]])
  {
  }
}
