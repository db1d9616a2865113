/** Which audit run a browser tab sees: an ordered map of choices, 32 to a user. */
module JobState {
  import opened Options

  type User = string
  type Customer = string

  class AuditRun {
    const owner: User
    const customer: Customer
    var running: bool

    constructor (owner: User, customer: Customer, running: bool)
      ensures this.owner == owner && this.customer == customer && this.running == running
    {
      this.owner, this.customer, this.running := owner, customer, running;
    }
  }

  datatype Key = Key(user: User, customer: Customer, tab: string)

  /** One entry of the ordered map, and one selection of its history. */
  datatype Entry = Entry(key: Key, run: AuditRun)

  const LIMIT := 32

  // ---------------------------------------------------------------- the ordered map, oldest first

  function Without(es: seq<Entry>, key: Key): seq<Entry> {
    if es == [] then [] else (if es[0].key == key then [] else [es[0]]) + Without(es[1..], key)
  }

  function Of(es: seq<Entry>, user: User): seq<Entry> {
    if es == [] then [] else (if es[0].key.user == user then [es[0]] else []) + Of(es[1..], user)
  }

  function Newest(es: seq<Entry>): seq<Entry> {
    if |es| > LIMIT then es[|es| - LIMIT..] else es
  }

  /** The others' entries as they are, and of the user's the last 32. */
  function Evicted(es: seq<Entry>, user: User, extra: int): seq<Entry>
    decreases |es|
  {
    if es == [] then []
    else if es[0].key.user == user && extra > 0 then Evicted(es[1..], user, extra - 1)
    else [es[0]] + Evicted(es[1..], user, extra)
  }

  function Selected(es: seq<Entry>, e: Entry): seq<Entry> {
    var moved := Without(es, e.key) + [e];
    Evicted(moved, e.key.user, |Of(moved, e.key.user)| - LIMIT)
  }

  /** The run of the key's newest entry. */
  function Find(es: seq<Entry>, key: Key): Option<AuditRun> {
    if es == [] then None
    else if Find(es[1..], key).Some? then Find(es[1..], key)
    else if es[0].key == key then Some(es[0].run)
    else None
  }

  // ---------------------------------------------------------------- what a history leaves

  function Tabs(h: seq<Entry>): seq<Entry>
    decreases |h|
  {
    if h == [] then [] else Selected(Tabs(h[..|h| - 1]), h[|h| - 1])
  }

  /** The same without a limit. */
  function Recent(h: seq<Entry>): seq<Entry>
    decreases |h|
  {
    if h == [] then [] else Without(Recent(h[..|h| - 1]), h[|h| - 1].key) + [h[|h| - 1]]
  }

  /** The user's other keys that were selected after this one last was. */
  function Since(h: seq<Entry>, key: Key): set<Key>
    decreases |h|
  {
    if h == [] || h[|h| - 1].key == key then {}
    else Since(h[..|h| - 1], key) + if h[|h| - 1].key.user == key.user then {h[|h| - 1].key} else {}
  }

  function Keys(es: seq<Entry>): set<Key> {
    if es == [] then {} else {es[0].key} + Keys(es[1..])
  }

  predicate Distinct(es: seq<Entry>) {
    es == [] || (es[0].key !in Keys(es[1..]) && Distinct(es[1..]))
  }

  // ---------------------------------------------------------------- small facts about the map

  lemma {:induction false} KeysInTwo(a: seq<Entry>, b: seq<Entry>)
    ensures Keys(a + b) == Keys(a) + Keys(b)
    decreases |a|
  {
    if a == [] {
      assert a + b == b;
    } else {
      assert (a + b)[0] == a[0] && (a + b)[1..] == a[1..] + b;
      KeysInTwo(a[1..], b);
    }
  }

  lemma {:induction false} WithoutInTwo(a: seq<Entry>, b: seq<Entry>, key: Key)
    ensures Without(a + b, key) == Without(a, key) + Without(b, key)
    decreases |a|
  {
    if a == [] {
      assert a + b == b;
    } else {
      var front := if a[0].key == key then [] else [a[0]];
      assert (a + b)[0] == a[0] && (a + b)[1..] == a[1..] + b;
      WithoutInTwo(a[1..], b, key);
      assert Without(a + b, key) == front + (Without(a[1..], key) + Without(b, key));
    }
  }

  lemma {:induction false} OfInTwo(a: seq<Entry>, b: seq<Entry>, user: User)
    ensures Of(a + b, user) == Of(a, user) + Of(b, user)
    decreases |a|
  {
    if a == [] {
      assert a + b == b;
    } else {
      var front := if a[0].key.user == user then [a[0]] else [];
      assert (a + b)[0] == a[0] && (a + b)[1..] == a[1..] + b;
      OfInTwo(a[1..], b, user);
      assert Of(a + b, user) == front + (Of(a[1..], user) + Of(b, user));
    }
  }

  lemma {:induction false} FindInTwo(a: seq<Entry>, b: seq<Entry>, key: Key)
    ensures Find(a + b, key) == if Find(b, key).Some? then Find(b, key) else Find(a, key)
    decreases |a|
  {
    if a == [] {
      assert a + b == b;
    } else {
      assert (a + b)[0] == a[0] && (a + b)[1..] == a[1..] + b;
      FindInTwo(a[1..], b, key);
    }
  }

  lemma {:induction false} DistinctInTwo(a: seq<Entry>, b: seq<Entry>)
    ensures Distinct(a + b) <==> Distinct(a) && Distinct(b) && Keys(a) !! Keys(b)
    decreases |a|
  {
    if a == [] {
      assert a + b == b;
    } else {
      assert (a + b)[0] == a[0] && (a + b)[1..] == a[1..] + b;
      KeysInTwo(a[1..], b);
      DistinctInTwo(a[1..], b);
    }
  }

  /** All there is to know of a map made of two parts. */
  lemma InTwo(a: seq<Entry>, b: seq<Entry>, key: Key, user: User)
    ensures Keys(a + b) == Keys(a) + Keys(b)
    ensures Without(a + b, key) == Without(a, key) + Without(b, key)
    ensures Of(a + b, user) == Of(a, user) + Of(b, user)
    ensures Find(a + b, key) == if Find(b, key).Some? then Find(b, key) else Find(a, key)
    ensures Distinct(a + b) <==> Distinct(a) && Distinct(b) && Keys(a) !! Keys(b)
  {
    hide *;
    KeysInTwo(a, b);
    WithoutInTwo(a, b, key);
    OfInTwo(a, b, user);
    FindInTwo(a, b, key);
    DistinctInTwo(a, b);
  }

  lemma One(e: Entry, key: Key, user: User)
    ensures Keys([e]) == {e.key} && Distinct([e])
    ensures Without([e], key) == if e.key == key then [] else [e]
    ensures Of([e], user) == if e.key.user == user then [e] else []
    ensures Find([e], key) == if e.key == key then Some(e.run) else None
  {
  }

  lemma {:induction false} Found(es: seq<Entry>, key: Key)
    ensures Find(es, key).Some? <==> key in Keys(es)
  {
    if es != [] {
      Found(es[1..], key);
    }
  }

  lemma {:induction false} WithoutOne(es: seq<Entry>, key: Key)
    ensures Keys(Without(es, key)) == Keys(es) - {key}
    ensures Distinct(es) ==> Distinct(Without(es, key)) && |Without(es, key)| == |es| - if key in Keys(es) then 1 else 0
    ensures key !in Keys(es) ==> Without(es, key) == es
  {
    if es != [] {
      WithoutOne(es[1..], key);
      InTwo(if es[0].key == key then [] else [es[0]], Without(es[1..], key), key, key.user);
      One(es[0], key, key.user);
    }
  }

  lemma {:induction false} OfOne(es: seq<Entry>, user: User)
    ensures forall k :: k in Keys(Of(es, user)) <==> k in Keys(es) && k.user == user
    ensures Distinct(es) ==> Distinct(Of(es, user))
  {
    if es != [] {
      OfOne(es[1..], user);
      InTwo(if es[0].key.user == user then [es[0]] else [], Of(es[1..], user), es[0].key, user);
      One(es[0], es[0].key, user);
    }
  }

  lemma {:induction false} OfWithout(es: seq<Entry>, key: Key, user: User)
    ensures Of(Without(es, key), user) == if key.user == user then Without(Of(es, user), key) else Of(es, user)
  {
    if es != [] {
      OfWithout(es[1..], key, user);
      InTwo(if es[0].key == key then [] else [es[0]], Without(es[1..], key), key, user);
      InTwo(if es[0].key.user == user then [es[0]] else [], Of(es[1..], user), key, user);
      One(es[0], key, user);
    }
  }

  lemma {:induction false} FindElsewhere(es: seq<Entry>, key: Key, gone: Key)
    ensures key != gone ==> Find(Without(es, gone), key) == Find(es, key)
    ensures Find(Of(es, key.user), key) == Find(es, key)
  {
    if es != [] {
      FindElsewhere(es[1..], key, gone);
      InTwo(if es[0].key == gone then [] else [es[0]], Without(es[1..], gone), key, key.user);
      InTwo(if es[0].key.user == key.user then [es[0]] else [], Of(es[1..], key.user), key, key.user);
      One(es[0], key, key.user);
    }
  }

  lemma {:induction false} SizeOfKeys(es: seq<Entry>)
    requires Distinct(es)
    ensures |Keys(es)| == |es|
  {
    if es != [] {
      SizeOfKeys(es[1..]);
    }
  }

  // ---------------------------------------------------------------- eviction is per user

  lemma {:induction false} EvictedKeepsOthers(es: seq<Entry>, user: User, extra: int, other: User)
    ensures Of(Evicted(es, user, extra), other)
         == if other != user || extra <= 0 then Of(es, other)
            else if extra >= |Of(es, user)| then []
            else Of(es, user)[extra..]
    decreases |es|
  {
    if es != [] {
      var drops := es[0].key.user == user && extra > 0;
      EvictedKeepsOthers(es[1..], user, if drops then extra - 1 else extra, other);
    }
  }

  lemma SelectedForOthers(es: seq<Entry>, e: Entry, user: User)
    ensures Of(Selected(es, e), user)
         == if e.key.user == user then Newest(Without(Of(es, user), e.key) + [e]) else Of(es, user)
  {
    hide Of, Without, Evicted;
    var moved := Without(es, e.key) + [e];
    MovedForOthers(es, e, user);
    EvictedKeepsOthers(moved, e.key.user, |Of(moved, e.key.user)| - LIMIT, user);
  }

  lemma MovedForOthers(es: seq<Entry>, e: Entry, user: User)
    ensures Of(Without(es, e.key) + [e], user)
         == if e.key.user == user then Without(Of(es, user), e.key) + [e] else Of(es, user)
  {
    hide Of, Without, Keys, Find, Distinct;
    InTwo(Without(es, e.key), [e], e.key, user);
    OfWithout(es, e.key, user);
    One(e, e.key, user);
  }

  lemma NewestInTwo(a: seq<Entry>, b: seq<Entry>)
    requires |b| >= LIMIT
    ensures Newest(a + b) == Newest(b)
  {
  }

  /** Forgetting all but the newest 32 before a selection makes no difference after it. */
  lemma NewestOfNewest(l: seq<Entry>, e: Entry)
    requires Distinct(l)
    ensures Newest(Without(Newest(l), e.key) + [e]) == Newest(Without(l, e.key) + [e])
  {
    hide Without, Distinct;
    if |l| > LIMIT {
      var a := l[..|l| - LIMIT];
      InTwoAtTheLimit(l);
      NewestKeepsUp(a, Newest(l), e);
    }
  }

  lemma InTwoAtTheLimit(l: seq<Entry>)
    requires |l| > LIMIT
    ensures l == l[..|l| - LIMIT] + Newest(l) && |Newest(l)| == LIMIT
  {
  }

  lemma NewestKeepsUp(a: seq<Entry>, b: seq<Entry>, e: Entry)
    requires Distinct(a + b) && |b| == LIMIT
    ensures Newest(Without(b, e.key) + [e]) == Newest(Without(a + b, e.key) + [e])
  {
    hide Without, Keys, Find, Distinct, Of, Newest;
    InTwo(a, b, e.key, e.key.user);
    WithoutOne(b, e.key);
    var w := Without(b, e.key) + [e];
    assert Without(a + b, e.key) + [e] == Without(a, e.key) + w;
    NewestInTwo(Without(a, e.key), w);
  }

  lemma {:induction false} RecentIsDistinct(h: seq<Entry>)
    ensures Distinct(Recent(h)) && Keys(Recent(h)) == Keys(h)
    decreases |h|
  {
    if h != [] {
      var before, e := h[..|h| - 1], h[|h| - 1];
      hide Keys, Distinct, Without, Of, Find;
      RecentIsDistinct(before);
      WithoutOne(Recent(before), e.key);
      InTwo(Without(Recent(before), e.key), [e], e.key, e.key.user);
      InTwo(before, [e], e.key, e.key.user);
      assert h == before + [e];
      One(e, e.key, e.key.user);
    }
  }

  /** A user's part of the map is the newest 32 of all that user ever selected. */
  lemma {:induction false} TabsAreTheNewest(h: seq<Entry>, user: User)
    ensures Of(Tabs(h), user) == Newest(Of(Recent(h), user))
    decreases |h|
  {
    if h != [] {
      var before, e := h[..|h| - 1], h[|h| - 1];
      hide Keys, Distinct, Without, Of, Find, Newest, Selected;
      TabsAreTheNewest(before, user);
      SelectedForOthers(Tabs(before), e, user);
      RecentIsDistinct(before);
      OfOne(Recent(before), user);
      MovedForOthers(Recent(before), e, user);
      NewestOfNewest(Of(Recent(before), user), e);
    }
  }

  // ---------------------------------------------------------------- how recent a key is

  /** What stands after the key. */
  function After(es: seq<Entry>, key: Key): seq<Entry> {
    if es == [] then [] else if es[0].key == key then es[1..] else After(es[1..], key)
  }

  lemma {:induction false} AfterInTwo(a: seq<Entry>, b: seq<Entry>, key: Key)
    ensures After(a + b, key) == if key in Keys(a) then After(a, key) + b else After(b, key)
    decreases |a|
  {
    if a == [] {
      assert a + b == b;
    } else {
      assert (a + b)[0] == a[0] && (a + b)[1..] == a[1..] + b;
      AfterInTwo(a[1..], b, key);
    }
  }

  lemma {:induction false} AfterWithout(es: seq<Entry>, key: Key, gone: Key)
    requires key != gone
    ensures After(Without(es, gone), key) == Without(After(es, key), gone)
  {
    if es != [] {
      AfterWithout(es[1..], key, gone);
      assert ([es[0]] + Without(es[1..], gone))[1..] == Without(es[1..], gone);
      assert [] + Without(es[1..], gone) == Without(es[1..], gone);
    }
  }

  lemma {:induction false} AfterIsDistinct(es: seq<Entry>, key: Key)
    requires Distinct(es)
    ensures Distinct(After(es, key))
  {
    if es != [] {
      AfterIsDistinct(es[1..], key);
    }
  }

  /** The keys after a key in the unlimited map are the ones selected since. */
  lemma {:induction false} AfterAreSince(h: seq<Entry>, key: Key)
    requires key in Keys(h)
    ensures Keys(After(Of(Recent(h), key.user), key)) == Since(h, key)
    decreases |h|
  {
    hide Keys, Distinct, Without, Of, Find, After, Since, Recent;
    SelectionStep(h, key);
    var before, e := h[..|h| - 1], h[|h| - 1];
    if e.key == key {
      AfterMoved(Of(Recent(before), key.user), e);
    } else {
      AfterAreSince(before, key);
      IsAmongItsUsers(before, key);
      AfterAnotherMoved(Of(Recent(before), key.user), e, key);
    }
  }

  /** What one more selection makes of a user's part of the unlimited map, and of who came since. */
  lemma SelectionStep(h: seq<Entry>, key: Key)
    requires key in Keys(h)
    ensures h != []
    ensures var before, e := h[..|h| - 1], h[|h| - 1];
            && (e.key == key || key in Keys(before))
            && Of(Recent(h), key.user) == (if e.key.user == key.user
                                           then Without(Of(Recent(before), key.user), e.key) + [e]
                                           else Of(Recent(before), key.user))
            && Since(h, key) == if e.key == key then {}
                                else Since(before, key) + if e.key.user == key.user then {e.key} else {}
  {
    var before, e := h[..|h| - 1], h[|h| - 1];
    assert h == before + [e];
    hide Keys, Distinct, Without, Of, Find, Recent, Since;
    LastOf(h, key);
    MovedForOthers(Recent(before), e, key.user);
    KeysInTwo(before, [e]);
    One(e, key, key.user);
  }

  lemma LastOf(h: seq<Entry>, key: Key)
    requires h != []
    ensures var before, e := h[..|h| - 1], h[|h| - 1];
            && Recent(h) == Without(Recent(before), e.key) + [e]
            && Since(h, key) == if e.key == key then {}
                                else Since(before, key) + if e.key.user == key.user then {e.key} else {}
  {
    hide Without;
  }

  lemma IsAmongItsUsers(h: seq<Entry>, key: Key)
    requires key in Keys(h)
    ensures key in Keys(Of(Recent(h), key.user))
  {
    hide Keys, Distinct, Without, Of, Find, Recent;
    RecentIsDistinct(h);
    OfOne(Recent(h), key.user);
  }

  lemma AfterMoved(l: seq<Entry>, e: Entry)
    ensures Keys(After(Without(l, e.key) + [e], e.key)) == {}
  {
    hide Keys, Distinct, Without, Of, Find, After;
    WithoutOne(l, e.key);
    AfterInTwo(Without(l, e.key), [e], e.key);
    AfterLast(e);
  }

  lemma AfterAnotherMoved(l: seq<Entry>, e: Entry, key: Key)
    requires e.key != key && key in Keys(l)
    ensures Keys(After(Without(l, e.key) + [e], key)) == Keys(After(l, key)) + {e.key}
  {
    hide Keys, Distinct, Without, Of, Find, After;
    WithoutOne(l, e.key);
    AfterInTwo(Without(l, e.key), [e], key);
    AfterWithout(l, key, e.key);
    WithoutOne(After(l, key), e.key);
    InTwo(Without(After(l, key), e.key), [e], key, key.user);
    One(e, key, key.user);
  }

  lemma AfterLast(e: Entry)
    ensures After([e], e.key) == [] && Keys([]) == {}
  {
  }

  // ---------------------------------------------------------------- what a tab sees

  lemma {:induction false} RecentHoldsTheLast(h: seq<Entry>, key: Key)
    ensures Find(Recent(h), key) == Find(h, key)
    decreases |h|
  {
    if h != [] {
      var before, e := h[..|h| - 1], h[|h| - 1];
      hide Keys, Distinct, Without, Of, Find;
      RecentHoldsTheLast(before, key);
      assert h == before + [e];
      InTwo(before, [e], key, key.user);
      InTwo(Without(Recent(before), e.key), [e], key, key.user);
      One(e, key, key.user);
      FindElsewhere(Recent(before), key, e.key);
    }
  }

  lemma FoundInTheNewest(l: seq<Entry>, key: Key)
    requires Distinct(l)
    ensures Find(Newest(l), key) == if key in Keys(l) && |After(l, key)| < LIMIT then Find(l, key) else None
  {
    Found(l, key);
    if |l| > LIMIT {
      var a, b := l[..|l| - LIMIT], l[|l| - LIMIT..];
      assert l == a + b;
      InTwo(a, b, key, key.user);
      AfterInTwo(a, b, key);
      Found(b, key);
      AfterIsShorter(b, key);
    } else {
      AfterIsShorter(l, key);
    }
  }

  lemma {:induction false} AfterIsShorter(es: seq<Entry>, key: Key)
    ensures key in Keys(es) ==> |After(es, key)| < |es|
  {
    if es != [] {
      AfterIsShorter(es[1..], key);
    }
  }

  /** A tab's choice is kept exactly when it was made and fewer than 32 of the user's other
      keys have been selected since; then it is the last one made. */
  lemma AChoiceIsKeptExactly(h: seq<Entry>, key: Key)
    ensures Find(Tabs(h), key) == if key in Keys(h) && |Since(h, key)| < LIMIT then Find(h, key) else None
    ensures key in Keys(h) <==> Find(h, key).Some?
  {
    hide Keys, Distinct, Without, Of, Find, After, Newest, Since, Recent, Tabs;
    var l := Of(Recent(h), key.user);
    RecentIsDistinct(h);
    OfOne(Recent(h), key.user);
    TabsAreTheNewest(h, key.user);
    FindElsewhere(Tabs(h), key, key);
    FindElsewhere(Recent(h), key, key);
    RecentHoldsTheLast(h, key);
    Found(h, key);
    FoundInTheNewest(l, key);
    if key in Keys(h) {
      AfterAreSince(h, key);
      AfterIsDistinct(l, key);
      SizeOfKeys(After(l, key));
    }
  }

  /** What other users select changes nothing for this one. */
  lemma {:induction false} OthersNeverEvict(h: seq<Entry>, more: seq<Entry>, key: Key)
    requires forall i :: 0 <= i < |more| ==> more[i].key.user != key.user
    ensures Find(Tabs(h + more), key) == Find(Tabs(h), key)
    decreases |more|
  {
    if more == [] {
      assert h + more == h;
    } else {
      var rest, e := more[..|more| - 1], more[|more| - 1];
      assert (h + more)[..|h + more| - 1] == h + rest;
      hide Of, Find, Selected;
      OthersNeverEvict(h, rest, key);
      SelectedForOthers(Tabs(h + rest), e, key.user);
      FindElsewhere(Tabs(h + more), key, key);
      FindElsewhere(Tabs(h + rest), key, key);
    }
  }

  // ---------------------------------------------------------------- the module's state

  lemma {:induction false} OwnRuns(h: seq<Entry>, key: Key)
    requires forall i :: 0 <= i < |h| ==> h[i].run.owner == h[i].key.user && h[i].run.customer == h[i].key.customer
    ensures Find(h, key).Some? ==> Find(h, key).value.owner == key.user && Find(h, key).value.customer == key.customer
  {
    if h != [] {
      OwnRuns(h[1..], key);
    }
  }

  lemma TabsOfOneMore(h: seq<Entry>, e: Entry)
    ensures Tabs(h + [e]) == Selected(Tabs(h), e)
  {
    assert (h + [e])[..|h + [e]| - 1] == h;
  }

  class Jobs {
    var audits: map<(User, Customer), AuditRun>
    var tabs: seq<Entry>
    /** Every selection a tab has made. */
    ghost var history: seq<Entry>

    ghost predicate Valid()
      reads this
    {
      && tabs == Tabs(history)
      && (forall k :: k in audits ==> audits[k].owner == k.0 && audits[k].customer == k.1)
      && (forall i :: 0 <= i < |history| ==>
            history[i].run.owner == history[i].key.user && history[i].run.customer == history[i].key.customer)
    }

    constructor ()
      ensures Valid() && history == [] && audits == map[]
    {
      audits, tabs, history := map[], [], [];
    }

    method SelectTab(run: AuditRun, tab: string)
      requires Valid()
      modifies this`tabs, this`history
      ensures Valid()
      ensures history == old(history) + if tab == "" then [] else [Entry(Key(run.owner, run.customer, tab), run)]
    {
      hide Without, Of, Evicted, Tabs;
      if tab == "" {
        return;
      }
      ghost var before := tabs;
      var key := Key(run.owner, run.customer, tab);
      tabs := Without(tabs, key) + [Entry(key, run)];
      var extra := |Of(tabs, key.user)| - LIMIT;
      ghost var moved := tabs;
      EvictNone(moved, key.user, if extra < 0 then extra else 0);
      EvictNone(moved, key.user, 0);
      var i := 0;
      while i < extra
        invariant history == old(history)
        invariant i == 0 || 0 <= i <= extra
        invariant tabs == Evicted(moved, key.user, i)
      {
        EvictOneMore(moved, key.user, i);
        tabs := Evicted(tabs, key.user, 1);
        i := i + 1;
      }
      assert tabs == Selected(before, Entry(key, run));
      TabsOfOneMore(history, Entry(key, run));
      history := history + [Entry(key, run)];
    }

    method BeginUserAudit(user: User, customer: Customer, tab: string) returns (run: AuditRun)
      requires Valid()
      modifies this
      ensures Valid() && fresh(run) && run.owner == user && run.customer == customer && run.running
      ensures audits == old(audits)[(user, customer) := run]
      ensures history == old(history) + if tab == "" then [] else [Entry(Key(user, customer, tab), run)]
    {
      run := new AuditRun(user, customer, true);
      audits := audits[(user, customer) := run];
      SelectTab(run, tab);
    }

    /** A choice of history: the tab's own where there is a tab, else the user's. */
    method SelectUserAudit(user: User, customer: Customer, tab: string) returns (run: AuditRun)
      requires Valid()
      modifies this
      ensures Valid() && fresh(run) && run.owner == user && run.customer == customer && !run.running
      ensures audits == if tab == "" then old(audits)[(user, customer) := run] else old(audits)
      ensures history == old(history) + if tab == "" then [] else [Entry(Key(user, customer, tab), run)]
    {
      run := new AuditRun(user, customer, false);
      if tab != "" {
        SelectTab(run, tab);
      } else {
        audits := audits[(user, customer) := run];
      }
    }

    /** A running audit first; then what this tab last chose, unless 32 other choices of the
        user's have been made since; then the customer's latest run. Never another's. */
    method GetUserAudit(user: User, customer: Customer, tab: string) returns (run: Option<AuditRun>)
      requires Valid()
      ensures run.Some? ==> run.value.owner == user && run.value.customer == customer
      ensures var latest := if (user, customer) in audits then Some(audits[(user, customer)]) else None;
              var key := Key(user, customer, tab);
              run == if latest.Some? && latest.value.running then latest
                     else if tab != "" && key in Keys(history) && |Since(history, key)| < LIMIT then Find(history, key)
                     else latest
    {
      var collecting := if (user, customer) in audits then Some(audits[(user, customer)]) else None;
      if collecting.Some? && collecting.value.running {
        return collecting;
      }
      if tab != "" {
        var selected := Find(tabs, Key(user, customer, tab));
        AChoiceIsKeptExactly(history, Key(user, customer, tab));
        OwnRuns(history, Key(user, customer, tab));
        if selected.Some? {
          return selected;
        }
      }
      return collecting;
    }
  }

  lemma {:induction false} EvictNone(es: seq<Entry>, user: User, extra: int)
    requires extra <= 0
    ensures Evicted(es, user, extra) == es
    decreases |es|
  {
    if es != [] {
      EvictNone(es[1..], user, extra);
    }
  }

  /** Deleting the oldest of the user's entries once more. */
  lemma {:induction false} EvictOneMore(es: seq<Entry>, user: User, i: nat)
    ensures Evicted(Evicted(es, user, i), user, 1) == Evicted(es, user, i + 1)
    decreases |es|
  {
    if es != [] {
      if es[0].key.user == user && i > 0 {
        EvictOneMore(es[1..], user, i - 1);
      } else if es[0].key.user == user {
        EvictNone(es[1..], user, 0);
        assert ([es[0]] + es[1..])[1..] == es[1..];
      } else {
        EvictOneMore(es[1..], user, i);
        assert ([es[0]] + Evicted(es[1..], user, i))[1..] == Evicted(es[1..], user, i);
      }
    }
  }
}
