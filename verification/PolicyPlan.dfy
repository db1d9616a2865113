/** Review plans: the dependency closure of what was chosen, and savers who race for a revision. */
module PolicyPlan {
  import opened Options
  import Text

  /** A policy by its place in string order. */
  type Pid = nat

  /** What each policy depends on, and the policies of each package. */
  datatype Catalog = Catalog(policies: map<Pid, seq<Pid>>, packages: map<string, set<Pid>>) {
    /** Dependencies and packages name policies of the library. */
    ghost predicate Valid() {
      && (forall p, i :: p in policies && 0 <= i < |policies[p]| ==> policies[p][i] in policies)
      && (forall k :: k in packages ==> packages[k] <= policies.Keys)
    }
  }

  ghost predicate DependsIn(c: Catalog, p: Pid, s: set<Pid>) {
    p in c.policies && forall i :: 0 <= i < |c.policies[p]| ==> c.policies[p][i] in s
  }

  /** Whatever a policy of the set depends on is in the set. */
  ghost predicate Closed(c: Catalog, s: set<Pid>) {
    forall p :: p in s ==> DependsIn(c, p, s)
  }

  /** The least closed set that has all that was chosen. */
  ghost predicate Closure(c: Catalog, chosen: set<Pid>, s: set<Pid>) {
    && chosen <= s
    && Closed(c, s)
    && forall t :: chosen <= t && Closed(c, t) ==> s <= t
  }

  lemma OneClosure(c: Catalog, chosen: set<Pid>, s: set<Pid>, t: set<Pid>)
    requires Closure(c, chosen, s) && Closure(c, chosen, t)
    ensures s == t
  {
  }

  ghost predicate Ascending(ids: seq<Pid>, s: set<Pid>) {
    && (forall i, j :: 0 <= i < j < |ids| ==> ids[i] < ids[j])
    && (forall p :: p in ids <==> p in s)
  }

  lemma {:induction false} OneOrder(a: seq<Pid>, b: seq<Pid>, s: set<Pid>)
    requires Ascending(a, s) && Ascending(b, s)
    ensures a == b
    decreases |a|
  {
    EmptyTogether(a, b, s);
    hide Ascending;
    if a != [] {
      AllButLast(a, s);
      AllButLast(b, s);
      OneOrder(a[..|a| - 1], b[..|b| - 1], s - {a[|a| - 1]});
      assert a == a[..|a| - 1] + [a[|a| - 1]] && b == b[..|b| - 1] + [b[|b| - 1]];
    }
  }

  lemma EmptyTogether(a: seq<Pid>, b: seq<Pid>, s: set<Pid>)
    requires Ascending(a, s) && Ascending(b, s)
    ensures a == [] <==> b == []
  {
    assert a != [] ==> a[0] in s;
    assert b != [] ==> b[0] in s;
  }

  lemma AllButLast(ids: seq<Pid>, s: set<Pid>)
    requires Ascending(ids, s) && ids != []
    ensures ids[|ids| - 1] in s && Ascending(ids[..|ids| - 1], s - {ids[|ids| - 1]})
    ensures forall p :: p in s ==> p <= ids[|ids| - 1]
  {
  }

  // ---------------------------------------------------------------- a selection as it grows

  class Selection {
    const catalog: Catalog
    var selected: set<Pid>

    constructor (catalog: Catalog, chosen: set<Pid>)
      ensures this.catalog == catalog && selected == chosen
    {
      this.catalog, selected := catalog, chosen;
    }

    /** Adds what the policy depends on, and what that depends on; cycles end at what is there. */
    method Include(pid: Pid)
      requires catalog.Valid() && pid in catalog.policies && selected <= catalog.policies.Keys
      modifies this
      ensures old(selected) <= selected <= catalog.policies.Keys
      ensures DependsIn(catalog, pid, selected)
      ensures forall p :: p in selected - old(selected) ==> DependsIn(catalog, p, selected)
      ensures forall t :: old(selected) <= t && pid in t && Closed(catalog, t) ==> selected <= t
      decreases catalog.policies.Keys - selected
    {
      var deps := catalog.policies[pid];
      for i := 0 to |deps|
        invariant old(selected) <= selected <= catalog.policies.Keys
        invariant forall j :: 0 <= j < i ==> deps[j] in selected
        invariant forall p :: p in selected - old(selected) ==> DependsIn(catalog, p, selected)
        invariant forall t :: old(selected) <= t && pid in t && Closed(catalog, t) ==> selected <= t
      {
        var dep := deps[i];
        ghost var before := selected;
        if dep !in selected {
          selected := selected + {dep};
          assert forall t :: pid in t && Closed(catalog, t) ==> DependsIn(catalog, pid, t);
          Include(dep);
          forall p | p in selected - old(selected) ensures DependsIn(catalog, p, selected) {
            if p in before - old(selected) { GrowsWith(catalog, p, before, selected); }
          }
        }
      }
    }

    method IncludeAll()
      requires catalog.Valid() && selected <= catalog.policies.Keys
      modifies this
      ensures Closure(catalog, old(selected), selected)
    {
      ghost var chosen := selected;
      var left := selected;
      while left != {}
        invariant left <= chosen <= selected <= catalog.policies.Keys
        invariant forall p :: p in selected - left ==> DependsIn(catalog, p, selected)
        invariant forall t :: chosen <= t && Closed(catalog, t) ==> selected <= t
        decreases left
      {
        var pid :| pid in left;
        ghost var before := selected;
        Include(pid);
        left := left - {pid};
        forall p | p in selected - left ensures DependsIn(catalog, p, selected) {
          if p in before && p != pid { GrowsWith(catalog, p, before, selected); }
        }
      }
    }

    method InOrder() returns (ids: seq<Pid>)
      ensures Ascending(ids, selected)
    {
      ids := [];
      var left := selected;
      while left != {}
        invariant left <= selected && Ascending(ids, selected - left)
        invariant forall i, q :: 0 <= i < |ids| && q in left ==> ids[i] < q
        decreases left
      {
        var least := Least(left);
        left := left - {least};
        ids := ids + [least];
      }
    }
  }

  method Least(s: set<Pid>) returns (least: Pid)
    requires s != {}
    ensures least in s && forall p :: p in s ==> least <= p
  {
    least :| least in s;
    var left := s - {least};
    while left != {}
      invariant left <= s && least in s && forall q :: q in s && q !in left ==> least <= q
      decreases left
    {
      var p :| p in left;
      left := left - {p};
      if p < least { least := p; }
    }
  }

  lemma GrowsWith(c: Catalog, p: Pid, s: set<Pid>, t: set<Pid>)
    requires DependsIn(c, p, s) && s <= t
    ensures DependsIn(c, p, t)
  {
  }

  // ---------------------------------------------------------------- plans and their edits

  datatype Review = Review(status: string, note: string, due: Option<nat>, fingerprint: nat)

  datatype Plan = Plan(revision: nat, package: Option<string>, ids: seq<Pid>, reviews: map<Pid, Review>)

  const EMPTY := Plan(0, None, [], map[])

  datatype Edit = Choose(package: string, ids: seq<Pid>) | Judge(policy: Pid, review: Option<Review>)

  /** A review of "not assessed" takes the policy's review away. */
  function Edited(p: Plan, e: Edit): Plan {
    match e
    case Choose(package, ids) => Plan(p.revision + 1, Some(package), ids, p.reviews)
    case Judge(policy, review) =>
      p.(revision := p.revision + 1,
         reviews := if review.None? then p.reviews - {policy} else p.reviews[policy := review.value])
  }

  datatype Outcome = Saved | Invalid | Conflict

  const STATUSES := {"not_assessed", "aligned", "needs_change", "exception"}

  class PlanFile {
    const catalog: Catalog
    var plan: Plan

    constructor (catalog: Catalog)
      ensures this.catalog == catalog && plan == EMPTY
    {
      this.catalog, plan := catalog, EMPTY;
    }

    method Save(e: Edit, expected: int) returns (o: Outcome)
      modifies this
      ensures o == if old(plan).revision == expected then Saved else Conflict
      ensures plan == if o.Saved? then Edited(old(plan), e) else old(plan)
    {
      if plan.revision != expected {
        return Conflict;
      }
      plan := Edited(plan, e);
      return Saved;
    }

    method SavePlan(package: string, chosen: Option<set<Pid>>, expected: int) returns (o: Outcome)
      requires catalog.Valid()
      modifies this
      ensures o.Invalid? <==> package !in catalog.packages || (chosen.Some? && !(chosen.value <= catalog.policies.Keys))
      ensures o.Saved? ==>
                && old(plan).revision == expected && plan.revision == expected + 1
                && plan.package == Some(package) && plan.reviews == old(plan).reviews
                && exists s :: Ascending(plan.ids, s)
                       && Closure(catalog, if chosen.Some? then chosen.value else catalog.packages[package], s)
      ensures !o.Saved? ==> plan == old(plan)
      ensures o.Conflict? ==> old(plan).revision != expected
    {
      if package !in catalog.packages {
        return Invalid;
      }
      if chosen.Some? && !(chosen.value <= catalog.policies.Keys) {
        return Invalid;
      }
      var selection := new Selection(catalog, if chosen.Some? then chosen.value else catalog.packages[package]);
      selection.IncludeAll();
      var ids := selection.InOrder();
      o := Save(Choose(package, ids), expected);
    }

    method SaveReview(policy: Pid, status: string, note: string, due: Option<nat>, expected: int,
                      today: nat, fingerprint: nat) returns (o: Outcome)
      modifies this
      ensures o.Invalid? <==>
                || policy !in catalog.policies
                || status !in {"not_assessed", "aligned", "needs_change", "exception"}
                || (status != "not_assessed" && Text.Stripped(note) == "")
                || |Text.Stripped(note)| > 2000
                || (due.Some? && due.value <= today)
                || (status == "exception" && due.None?)
      ensures o.Conflict? ==> old(plan).revision != expected
      ensures o.Saved? ==>
                && old(plan).revision == expected && plan.revision == expected + 1
                && plan.package == old(plan).package && plan.ids == old(plan).ids
                && plan.reviews == (if status == "not_assessed" then old(plan).reviews - {policy}
                                    else old(plan).reviews[policy := Review(status, Text.Stripped(note), due,
                                                                            fingerprint)])
      ensures !o.Saved? ==> plan == old(plan)
    {
      if policy !in catalog.policies || status !in STATUSES {
        return Invalid;
      }
      var stripped := Text.Stripped(note);
      if status != "not_assessed" && stripped == "" {
        return Invalid;
      }
      if |stripped| > 2000 || (due.Some? && due.value <= today) {
        return Invalid;
      }
      if status == "exception" && due.None? {
        return Invalid;
      }
      var review := if status == "not_assessed" then None else Some(Review(status, stripped, due, fingerprint));
      o := Save(Judge(policy, review), expected);
    }
  }

  // ---------------------------------------------------------------- savers who race

  type SaverId = nat

  datatype Phase = Waiting | Holding | HasRead(seen: Plan) | Wrote | Refused | Died

  datatype Saver = Saver(edit: Edit, quoted: int, phase: Phase)

  /** `log` is the history of what was written: the revision each write quoted, and its edit. */
  datatype State = State(file: Plan, lock: Option<SaverId>, savers: map<SaverId, Saver>, log: seq<(int, Edit)>)

  const NOBODY := State(EMPTY, None, map[], [])

  datatype Event =
    | Arrives(id: SaverId, edit: Edit, quoted: int)
    | Locks(id: SaverId)
    | Reads(id: SaverId)
    | Writes(id: SaverId)
    | Dies(id: SaverId)

  predicate CanHappen(s: State, e: Event) {
    match e
    case Arrives(id, _, _) => id !in s.savers
    case Locks(id) => id in s.savers && s.savers[id].phase.Waiting? && s.lock.None?
    case Reads(id) => id in s.savers && s.savers[id].phase.Holding?
    case Writes(id) => id in s.savers && s.savers[id].phase.HasRead?
    case Dies(id) => id in s.savers && !s.savers[id].phase.Wrote? && !s.savers[id].phase.Refused?
  }

  function Now(s: State, id: SaverId, phase: Phase): map<SaverId, Saver>
    requires id in s.savers
  {
    s.savers[id := s.savers[id].(phase := phase)]
  }

  /** The lock is given back by whoever is done with it, and by the system when its holder dies. */
  function Next(s: State, e: Event): State
    requires CanHappen(s, e)
  {
    match e
    case Arrives(id, edit, quoted) => s.(savers := s.savers[id := Saver(edit, quoted, Waiting)])
    case Locks(id) => s.(lock := Some(id), savers := Now(s, id, Holding))
    case Reads(id) => s.(savers := Now(s, id, HasRead(s.file)))
    case Writes(id) =>
      var me := s.savers[id];
      if me.phase.seen.revision != me.quoted then s.(lock := None, savers := Now(s, id, Refused))
      else State(Edited(me.phase.seen, me.edit), None, Now(s, id, Wrote), s.log + [(me.quoted, me.edit)])
    case Dies(id) => s.(lock := if s.lock == Some(id) then None else s.lock, savers := Now(s, id, Died))
  }

  function Replayed(log: seq<(int, Edit)>): Plan {
    if log == [] then EMPTY else Edited(Replayed(log[..|log| - 1]), log[|log| - 1].1)
  }

  ghost predicate Inv(s: State) {
    && s.file == Replayed(s.log) && s.file.revision == |s.log|
    && (forall i :: 0 <= i < |s.log| ==> s.log[i].0 == i)
    && (forall id :: id in s.savers && (s.savers[id].phase.Holding? || s.savers[id].phase.HasRead?)
          ==> s.lock == Some(id))
    && (forall id :: id in s.savers && s.savers[id].phase.HasRead? ==> s.savers[id].phase.seen == s.file)
    && (forall id :: id in s.savers && s.savers[id].phase.Wrote? ==> (s.savers[id].quoted, s.savers[id].edit) in s.log)
    && (forall a, b :: a in s.savers && b in s.savers && a != b && s.savers[a].phase.Wrote? && s.savers[b].phase.Wrote?
          ==> s.savers[a].quoted != s.savers[b].quoted)
  }

  lemma StepKeepsInv(s: State, e: Event)
    requires Inv(s) && CanHappen(s, e)
    ensures Inv(Next(s, e)) && s.log <= Next(s, e).log
  {
    if e.Writes? && s.savers[e.id].phase.seen.revision == s.savers[e.id].quoted {
      WritingKeepsInv(s, e);
    }
  }

  lemma WritingKeepsInv(s: State, e: Event)
    requires Inv(s) && e.Writes? && CanHappen(s, e) && s.savers[e.id].phase.seen.revision == s.savers[e.id].quoted
    ensures Inv(Next(s, e)) && s.log <= Next(s, e).log
  {
    var me, now := s.savers[e.id], Next(s, e);
    assert now.log[..|now.log| - 1] == s.log;
    assert now.log[|s.log|] == (me.quoted, me.edit);
    forall id | id in now.savers && now.savers[id].phase.Wrote?
      ensures (now.savers[id].quoted, now.savers[id].edit) in now.log
    {
    }
    forall a | a in s.savers && s.savers[a].phase.Wrote? ensures s.savers[a].quoted != me.quoted {
      var i :| 0 <= i < |s.log| && s.log[i] == (s.savers[a].quoted, s.savers[a].edit);
    }
  }

  /** A saver's turn to write: it succeeds exactly at the revision it quoted, and then its edit is the
      next one of the file; and whoever is done, or dies, leaves the lock free. */
  lemma WhoseWriteSucceeds(s: State, e: Event)
    requires Inv(s) && e.Writes? && CanHappen(s, e)
    ensures var me, t := s.savers[e.id], Next(s, e);
            && t.lock.None? && e.id in t.savers
            && (if s.file.revision == me.quoted then
                  t.savers[e.id].phase.Wrote? && t.log == s.log + [(me.quoted, me.edit)]
                else
                  t.savers[e.id].phase.Refused? && t.log == s.log && t.file == s.file)
    ensures forall id :: id in s.savers && s.lock == Some(id) && CanHappen(s, Dies(id)) ==> Next(s, Dies(id)).lock.None?
  {
  }

  /** A saver that comes while nobody holds the lock, and is not overtaken, gets through its four steps
      and succeeds exactly at the revision the file has. */
  lemma SavingAlone(s: State, id: SaverId, edit: Edit, quoted: int)
    requires Inv(s) && s.lock.None? && id !in s.savers
    ensures CanHappen(s, Arrives(id, edit, quoted))
    ensures var s1 := Next(s, Arrives(id, edit, quoted));
            && CanHappen(s1, Locks(id)) && !CanHappen(Next(s1, Locks(id)), Locks(id))
            && var s2 := Next(s1, Locks(id));
               && CanHappen(s2, Reads(id)) && CanHappen(s2, Dies(id))
               && var s3 := Next(s2, Reads(id));
                  && CanHappen(s3, Writes(id)) && CanHappen(s3, Dies(id))
                  && var t := Next(s3, Writes(id));
                     && t.lock.None? && id in t.savers && !CanHappen(t, Dies(id))
                     && t.savers == s.savers[id := Saver(edit, quoted, t.savers[id].phase)]
                     && (if quoted == s.file.revision then
                           t.savers[id].phase.Wrote? && t.file == Edited(s.file, edit)
                         else t.savers[id].phase.Refused? && t.file == s.file)
  {
  }

  /** The lock is one saver's at a time. */
  lemma NobodyElseLocks(s: State, id: SaverId)
    requires Inv(s) && s.lock.Some?
    ensures !CanHappen(s, Locks(id))
  {
  }

  ghost predicate IsRun(ss: seq<State>, es: seq<Event>) {
    && |ss| == |es| + 1
    && ss[0] == NOBODY
    && forall k :: 0 <= k < |es| ==> CanHappen(ss[k], es[k]) && ss[k + 1] == Next(ss[k], es[k])
  }

  lemma {:induction false} RunKeepsInv(ss: seq<State>, es: seq<Event>, k: nat)
    requires IsRun(ss, es) && k < |ss|
    ensures Inv(ss[k])
    decreases k
  {
    if k > 0 {
      hide Inv, CanHappen, Next;
      RunKeepsInv(ss, es, k - 1);
      StepKeepsInv(ss[k - 1], es[k - 1]);
    } else {
      assert ss[0] == NOBODY;
    }
  }

  /** Two savers who quoted the same revision never both succeed. */
  lemma NoTwoWritesOfOneRevision(ss: seq<State>, es: seq<Event>, k: nat, a: SaverId, b: SaverId)
    requires IsRun(ss, es) && k < |ss| && a != b && a in ss[k].savers && b in ss[k].savers
    requires ss[k].savers[a].phase.Wrote? && ss[k].savers[b].phase.Wrote?
    ensures ss[k].savers[a].quoted != ss[k].savers[b].quoted
  {
    RunKeepsInv(ss, es, k);
  }

  ghost predicate LastJudged(log: seq<(int, Edit)>, policy: Pid, i: nat) {
    && i < |log| && log[i].1.Judge? && log[i].1.policy == policy
    && forall j :: i < j < |log| ==> !(log[j].1.Judge? && log[j].1.policy == policy)
  }

  ghost predicate LastChosen(log: seq<(int, Edit)>, i: nat) {
    i < |log| && log[i].1.Choose? && forall j :: i < j < |log| ==> !log[j].1.Choose?
  }

  /** What the edits come to: the package and the policies last chosen. */
  lemma {:induction false} LastChoiceHolds(log: seq<(int, Edit)>)
    ensures var plan := Replayed(log);
            && plan.revision == |log|
            && (forall i: nat :: LastChosen(log, i) ==>
                  plan.package == Some(log[i].1.package) && plan.ids == log[i].1.ids)
            && ((forall i :: 0 <= i < |log| ==> !log[i].1.Choose?) ==> plan.package == None && plan.ids == [])
    decreases |log|
  {
    if log != [] {
      var n, before := |log| - 1, log[..|log| - 1];
      LastChoiceHolds(before);
      forall i: nat | LastChosen(log, i) ensures i == n || (LastChosen(before, i) && !log[n].1.Choose?) {
      }
    }
  }

  /** And of each policy the review last given, none where there was none or the last took it away. */
  lemma {:induction false} LastReviewHolds(log: seq<(int, Edit)>, policy: Pid)
    ensures var reviews := Replayed(log).reviews;
            && (forall i: nat :: LastJudged(log, policy, i) ==>
                  if log[i].1.review.None? then policy !in reviews
                  else policy in reviews && reviews[policy] == log[i].1.review.value)
            && ((forall i :: 0 <= i < |log| ==> !(log[i].1.Judge? && log[i].1.policy == policy)) ==> policy !in reviews)
    decreases |log|
  {
    if log != [] {
      var n, before := |log| - 1, log[..|log| - 1];
      LastReviewHolds(before, policy);
      var mine := log[n].1.Judge? && log[n].1.policy == policy;
      forall i: nat | LastJudged(log, policy, i) ensures i == n || (LastJudged(before, policy, i) && !mine) {
      }
      assert !mine ==> (policy in Replayed(log).reviews <==> policy in Replayed(before).reviews);
    }
  }

  /** No edit is lost: the file is the edits of all successful savers, each applied to what the
      one before it left, the n-th quoting revision n. */
  lemma TheFileIsEveryEditInOrder(ss: seq<State>, es: seq<Event>, k: nat, id: SaverId)
    requires IsRun(ss, es) && k < |ss|
    ensures ss[k].file == Replayed(ss[k].log) && ss[k].file.revision == |ss[k].log|
    ensures forall i :: 0 <= i < |ss[k].log| ==> ss[k].log[i].0 == i
    ensures id in ss[k].savers && ss[k].savers[id].phase.Wrote? ==>
              var me := ss[k].savers[id];
              0 <= me.quoted < |ss[k].log| && ss[k].log[me.quoted].1 == me.edit
  {
    RunKeepsInv(ss, es, k);
    if id in ss[k].savers && ss[k].savers[id].phase.Wrote? {
      var me := ss[k].savers[id];
      var i :| 0 <= i < |ss[k].log| && ss[k].log[i] == (me.quoted, me.edit);
    }
  }
}
