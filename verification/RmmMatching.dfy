/** How a customer's devices meet an RMM's: by whole host name, then by MAC, and one RMM device
    for one hub device or none. */
module RmmMatching {
  import opened Options
  import Text

  datatype RmmDevice = RmmDevice(uid: string, hostname: string, site: string)

  datatype HubDevice = HubDevice(name: string, macs: seq<string>)

  datatype Status = Matched | Ambiguous | NotFound | NotChecked

  datatype Means = ByHostname | ByMac | ByNothing

  datatype Match = Match(device: HubDevice, status: Status, means: Means, rmm: Option<RmmDevice>, candidates: nat)

  /** The n-th lookup of a page view, for a MAC; none where the RMM refuses it. */
  type Lookup = (nat, string) -> Option<seq<RmmDevice>>

  class DeviceMatch {
    const device: HubDevice
    var status: Status
    var means: Means
    var rmm: Option<RmmDevice>
    var candidates: nat

    ghost function Value(): Match
      reads this
    {
      Match(device, status, means, rmm, candidates)
    }

    constructor (m: Match)
      ensures Value() == m
    {
      device, status, means, rmm, candidates := m.device, m.status, m.means, m.rmm, m.candidates;
    }
  }

  ghost predicate Apart(ms: seq<DeviceMatch>) {
    forall i, j :: 0 <= i < j < |ms| ==> ms[i] != ms[j]
  }

  ghost function Values(ms: seq<DeviceMatch>): seq<Match>
    reads ms
  {
    seq(|ms|, i reads ms requires 0 <= i < |ms| => ms[i].Value())
  }

  // ---------------------------------------------------------------- by host name

  /** Unicode case folding; whatever it is, names are compared by it. */
  type Fold = string -> string

  function HostKey(fold: Fold, name: string): string {
    fold(Text.Stripped(name))
  }

  /** The RMM devices with this host name, which is not the empty one. */
  function Named(fold: Fold, rmm: seq<RmmDevice>, key: string): seq<RmmDevice>
    decreases |rmm|
  {
    if rmm == [] || key == "" then []
    else
      var last := rmm[|rmm| - 1];
      Named(fold, rmm[..|rmm| - 1], key) + if HostKey(fold, last.hostname) == key then [last] else []
  }

  function HostMatch(fold: Fold, device: HubDevice, rmm: seq<RmmDevice>): Match {
    var found := Named(fold, rmm, HostKey(fold, device.name));
    if |found| == 1 then Match(device, Matched, ByHostname, Some(found[0]), 0)
    else if found != [] then Match(device, Ambiguous, ByHostname, None, |found|)
    else Match(device, NotFound, ByNothing, None, 0)
  }

  function Under<T>(m: map<string, seq<T>>, key: string): seq<T> {
    if key in m then m[key] else []
  }

  function Appended<T>(m: map<string, seq<T>>, key: string, x: T): (now: map<string, seq<T>>)
    ensures now.Keys == m.Keys + {key}
    ensures forall other :: Under(now, other) == if other == key then Under(m, key) + [x] else Under(m, other)
  {
    m[key := Under(m, key) + [x]]
  }

  lemma NamedStep(fold: Fold, rmm: seq<RmmDevice>, k: nat, key: string)
    requires k < |rmm|
    ensures Named(fold, rmm[..k + 1], key)
         == Named(fold, rmm[..k], key) + if key != "" && HostKey(fold, rmm[k].hostname) == key then [rmm[k]] else []
  {
    assert rmm[..k + 1][..k] == rmm[..k];
  }

  method ByHost(fold: Fold, rmm: seq<RmmDevice>) returns (byHost: map<string, seq<RmmDevice>>)
    ensures forall key :: Under(byHost, key) == Named(fold, rmm, key)
  {
    byHost := map[];
    for k := 0 to |rmm|
      invariant forall key :: Under(byHost, key) == Named(fold, rmm[..k], key)
    {
      hide Named, Under, HostKey;
      var key := HostKey(fold, rmm[k].hostname);
      forall other { NamedStep(fold, rmm, k, other); }
      if key != "" {
        byHost := Appended(byHost, key, rmm[k]);
      }
    }
    assert rmm[..|rmm|] == rmm;
  }

  method MatchByHostname(fold: Fold, devices: seq<HubDevice>, rmm: seq<RmmDevice>) returns (out: seq<DeviceMatch>)
    ensures fresh(out) && Apart(out) && |out| == |devices|
    ensures forall i :: 0 <= i < |out| ==> out[i].Value() == HostMatch(fold, devices[i], rmm)
  {
    hide Named, HostKey, Under;
    var byHost := ByHost(fold, rmm);
    out := [];
    for i := 0 to |devices|
      invariant fresh(out) && Apart(out) && |out| == i
      invariant forall j :: 0 <= j < i ==> out[j].Value() == HostMatch(fold, devices[j], rmm)
    {
      var key := HostKey(fold, devices[i].name);
      var found := Under(byHost, key);
      var m: DeviceMatch;
      if |found| == 1 {
        m := new DeviceMatch(Match(devices[i], Matched, ByHostname, Some(found[0]), 0));
      } else if found != [] {
        m := new DeviceMatch(Match(devices[i], Ambiguous, ByHostname, None, |found|));
      } else {
        m := new DeviceMatch(Match(devices[i], NotFound, ByNothing, None, 0));
      }
      out := out + [m];
    }
  }

  // ---------------------------------------------------------------- by MAC

  /** The site's devices among the candidates, by uid. */
  function Added(uids: map<string, RmmDevice>, candidates: seq<RmmDevice>, site: string): map<string, RmmDevice>
    decreases |candidates|
  {
    if candidates == [] then uids
    else
      var c := candidates[0];
      Added(if c.site == site then uids[c.uid := c] else uids, candidates[1..], site)
  }

  /** One lookup for each MAC from the k-th on, until one is refused. */
  function Gathered(lookup: Lookup, macs: seq<string>, site: string, spent: nat, k: nat, uids: map<string, RmmDevice>)
    : (Option<map<string, RmmDevice>>, nat)
    requires k <= |macs|
    decreases |macs| - k
  {
    if k == |macs| then (Some(uids), spent)
    else match lookup(spent, macs[k])
      case None => (None, spent + 1)
      case Some(candidates) => Gathered(lookup, macs, site, spent + 1, k + 1, Added(uids, candidates, site))
  }

  datatype Pass = Pass(done: seq<Match>, spent: nat, failed: bool)

  predicate Looks(m: Match) {
    m.status.NotFound? && m.device.macs != []
  }

  /** What the MACs come to for one device. */
  ghost function MacMatch(m: Match, uids: map<string, RmmDevice>): Match {
    if |uids| == 1 then
      var uid :| uid in uids;
      m.(status := Matched, means := ByMac, rmm := Some(uids[uid]))
    else if |uids| > 0 then m.(status := Ambiguous, means := ByMac, candidates := |uids|)
    else m
  }

  /** One device's turn: not one with a name match, none once the lookups would exceed the limit
      or one was refused. */
  ghost function MacStep(m: Match, lookup: Lookup, site: string, limit: int, spent: nat, failed: bool)
    : (Match, nat, bool)
  {
    if !Looks(m) then (m, spent, failed)
    else if failed || spent + |m.device.macs| > limit then (m.(status := NotChecked), spent, failed)
    else
      var (uids, now) := Gathered(lookup, m.device.macs, site, spent, 0, map[]);
      if uids.None? then (m.(status := NotChecked), now, true) else (MacMatch(m, uids.value), now, false)
  }

  /** The n first matches after the pass. */
  ghost function MacPass(ms: seq<Match>, lookup: Lookup, site: string, limit: int, n: nat): (p: Pass)
    requires n <= |ms|
    ensures |p.done| == n
  {
    if n == 0 then Pass([], 0, false)
    else
      var p := MacPass(ms, lookup, site, limit, n - 1);
      var (m, spent, failed) := MacStep(ms[n - 1], lookup, site, limit, p.spent, p.failed);
      Pass(p.done + [m], spent, failed)
  }

  lemma OnlyUid(uids: map<string, RmmDevice>, a: string, b: string)
    requires |uids| == 1 && a in uids && b in uids
    ensures a == b
  {
    assert |uids.Keys| == 1;
    assert {a} <= uids.Keys && |uids.Keys - {a}| == 0;
    assert b in uids.Keys;
  }

  method TryMacs(m: DeviceMatch, lookup: Lookup, site: string, limit: int, spentBefore: nat, failedBefore: bool)
    returns (spent: nat, failed: bool)
    modifies m
    ensures (m.Value(), spent, failed) == MacStep(old(m.Value()), lookup, site, limit, spentBefore, failedBefore)
  {
    spent, failed := spentBefore, failedBefore;
    if !m.status.NotFound? || m.device.macs == [] {
      return;
    }
    if failed || spent + |m.device.macs| > limit {
      m.status := NotChecked;
      return;
    }
    var uids: map<string, RmmDevice> := map[];
    var k := 0;
    while k < |m.device.macs| && !failed
      invariant k <= |m.device.macs| && m.Value() == old(m.Value())
      invariant Gathered(lookup, m.device.macs, site, spentBefore, 0, map[])
             == if failed then (None, spent) else Gathered(lookup, m.device.macs, site, spent, k, uids)
      decreases |m.device.macs| - k, !failed
    {
      var answer := lookup(spent, m.device.macs[k]);
      spent := spent + 1;
      if answer.None? {
        failed := true;
      } else {
        uids := AddAll(uids, answer.value, site);
        k := k + 1;
      }
    }
    if failed {
      m.status := NotChecked;
    } else if |uids| == 1 {
      var uid :| uid in uids;
      m.status, m.means, m.rmm := Matched, ByMac, Some(uids[uid]);
      OnlyOne(uids, uid);
    } else if |uids| > 0 {
      m.status, m.means, m.candidates := Ambiguous, ByMac, |uids|;
    }
  }

  method MatchByMac(ms: seq<DeviceMatch>, lookup: Lookup, site: string, limit: int) returns (spent: nat)
    requires Apart(ms)
    modifies ms
    ensures Values(ms) == MacPass(old(Values(ms)), lookup, site, limit, |ms|).done
    ensures spent == MacPass(old(Values(ms)), lookup, site, limit, |ms|).spent
  {
    hide MacPass, MacStep, Values;
    ghost var was := Values(ms);
    ValuesAre(ms);
    var failed := false;
    spent := 0;
    MacPassStarts(was, lookup, site, limit);
    for i := 0 to |ms|
      invariant var p := MacPass(was, lookup, site, limit, i);
                p.spent == spent && p.failed == failed && forall j :: 0 <= j < i ==> ms[j].Value() == p.done[j]
      invariant forall j :: i <= j < |ms| ==> ms[j].Value() == was[j]
    {
      spent, failed := TryMacs(ms[i], lookup, site, limit, spent, failed);
      MacPassStep(was, lookup, site, limit, i);
    }
    ValuesAre(ms);
  }

  lemma ValuesAre(ms: seq<DeviceMatch>)
    ensures |Values(ms)| == |ms| && forall j :: 0 <= j < |ms| ==> Values(ms)[j] == ms[j].Value()
  {
  }

  lemma MacPassStarts(ms: seq<Match>, lookup: Lookup, site: string, limit: int)
    ensures MacPass(ms, lookup, site, limit, 0) == Pass([], 0, false)
  {
  }

  lemma MacPassStep(ms: seq<Match>, lookup: Lookup, site: string, limit: int, i: nat)
    requires i < |ms|
    ensures var p := MacPass(ms, lookup, site, limit, i);
            var (m, spent, failed) := MacStep(ms[i], lookup, site, limit, p.spent, p.failed);
            MacPass(ms, lookup, site, limit, i + 1) == Pass(p.done + [m], spent, failed)
  {
  }

  lemma OnlyOne(uids: map<string, RmmDevice>, uid: string)
    requires |uids| == 1 && uid in uids
    ensures forall other :: other in uids ==> other == uid
  {
    forall other | other in uids ensures other == uid { OnlyUid(uids, uid, other); }
  }

  method AddAll(uids: map<string, RmmDevice>, candidates: seq<RmmDevice>, site: string)
    returns (now: map<string, RmmDevice>)
    ensures now == Added(uids, candidates, site)
  {
    now := uids;
    for i := 0 to |candidates|
      invariant Added(now, candidates[i..], site) == Added(uids, candidates, site)
    {
      assert candidates[i..][0] == candidates[i] && candidates[i..][1..] == candidates[i + 1..];
      if candidates[i].site == site {
        now := now[candidates[i].uid := candidates[i]];
      }
    }
  }

  // ---------------------------------------------------------------- one claim each

  predicate Claims(m: Match, uid: string) {
    m.status.Matched? && m.rmm.Some? && m.rmm.value.uid == uid
  }

  /** Who claims the RMM device, in order. */
  function Claimants(ms: seq<Match>, uid: string, n: nat): seq<nat>
    requires n <= |ms|
  {
    if n == 0 then [] else Claimants(ms, uid, n - 1) + if Claims(ms[n - 1], uid) then [n - 1] else []
  }

  /** Two claims cancel both. */
  function Claimed(ms: seq<Match>, i: nat): Match
    requires i < |ms|
  {
    var m := ms[i];
    if m.status.Matched? && m.rmm.Some? && |Claimants(ms, m.rmm.value.uid, |ms|)| > 1
    then Cancelled(m, |Claimants(ms, m.rmm.value.uid, |ms|)|)
    else m
  }

  lemma {:induction false} ClaimantsClaim(ms: seq<Match>, uid: string, n: nat)
    requires n <= |ms|
    ensures forall i :: i in Claimants(ms, uid, n) <==> 0 <= i < n && Claims(ms[i], uid)
    ensures forall a, b :: 0 <= a < b < |Claimants(ms, uid, n)| ==> Claimants(ms, uid, n)[a] < Claimants(ms, uid, n)[b]
  {
    if n > 0 {
      ClaimantsClaim(ms, uid, n - 1);
      var c := Claimants(ms, uid, n - 1);
      forall a | 0 <= a < |c| ensures c[a] < n - 1 { assert c[a] in c; }
    }
  }

  predicate ClaimsOneOf(m: Match, uids: set<string>) {
    m.status.Matched? && m.rmm.Some? && m.rmm.value.uid in uids
  }

  function Cancelled(m: Match, claims: nat): Match {
    m.(status := Ambiguous, rmm := None, candidates := claims)
  }

  method CancelAll(ms: seq<DeviceMatch>, claimed: seq<nat>)
    requires Apart(ms) && forall i :: i in claimed ==> i < |ms|
    modifies ms
    ensures forall j :: 0 <= j < |ms| ==>
              ms[j].Value() == if j in claimed then Cancelled(old(ms[j].Value()), |claimed|) else old(ms[j].Value())
  {
    for k := 0 to |claimed|
      invariant forall j :: 0 <= j < |ms| ==>
                  ms[j].Value()
                  == if j in claimed[..k] then Cancelled(old(ms[j].Value()), |claimed|) else old(ms[j].Value())
    {
      assert claimed[k] in claimed;
      var m := ms[claimed[k]];
      m.status, m.rmm, m.candidates := Ambiguous, None, |claimed|;
      assert claimed[..k + 1] == claimed[..k] + [claimed[k]];
    }
    assert claimed[..|claimed|] == claimed;
  }

  method CollectClaims(ms: seq<DeviceMatch>) returns (claims: map<string, seq<nat>>)
    ensures forall uid :: Under<nat>(claims, uid) == Claimants(Values(ms), uid, |ms|)
    ensures forall i :: 0 <= i < |ms| && ms[i].status.Matched? && ms[i].rmm.Some? ==> ms[i].rmm.value.uid in claims
  {
    hide Under, Claimants;
    ghost var was := Values(ms);
    assert forall j :: 0 <= j < |ms| ==> was[j] == ms[j].Value();
    hide Values;
    claims := map[];
    NoClaimsYet(was);
    for i := 0 to |ms|
      invariant forall uid :: Under<nat>(claims, uid) == Claimants(was, uid, i)
      invariant forall j :: 0 <= j < i && was[j].status.Matched? && was[j].rmm.Some? ==> was[j].rmm.value.uid in claims
    {
      var m := ms[i];
      forall uid { ClaimantsStep(was, uid, i); }
      if m.status.Matched? && m.rmm.Some? {
        claims := Appended<nat>(claims, m.rmm.value.uid, i);
      }
    }
  }

  lemma NoClaimsYet(ms: seq<Match>)
    ensures forall uid :: Under<nat>(map[], uid) == Claimants(ms, uid, 0)
  {
  }

  lemma ClaimantsStep(ms: seq<Match>, uid: string, i: nat)
    requires i < |ms|
    ensures Claimants(ms, uid, i + 1) == Claimants(ms, uid, i) + if Claims(ms[i], uid) then [i] else []
  {
  }

  method ClaimOnce(ms: seq<DeviceMatch>)
    requires Apart(ms)
    modifies ms
    ensures forall i :: 0 <= i < |ms| ==> ms[i].Value() == Claimed(old(Values(ms)), i)
  {
    hide Claimants;
    ghost var was := Values(ms);
    var claims := CollectClaims(ms);
    var left := claims.Keys;
    while left != {}
      invariant left <= claims.Keys
      invariant forall j :: 0 <= j < |ms| ==>
                  ms[j].Value() == if ClaimsOneOf(was[j], left) then was[j] else Claimed(was, j)
      decreases left
    {
      var uid :| uid in left;
      var claimed := Under<nat>(claims, uid);
      ClaimantsClaim(was, uid, |ms|);
      if |claimed| > 1 {
        CancelAll(ms, claimed);
      }
      left := left - {uid};
    }
  }

  // ---------------------------------------------------------------- the three together

  function HostPass(fold: Fold, devices: seq<HubDevice>, rmm: seq<RmmDevice>): seq<Match> {
    seq(|devices|, i requires 0 <= i < |devices| => HostMatch(fold, devices[i], rmm))
  }

  function ClaimPass(ms: seq<Match>): seq<Match> {
    seq(|ms|, i requires 0 <= i < |ms| => Claimed(ms, i))
  }

  /** What a page shows. */
  ghost function Shown(fold: Fold, devices: seq<HubDevice>, rmm: seq<RmmDevice>, lookup: Lookup, site: string,
                       limit: int): seq<Match>
  {
    ClaimPass(MacPass(HostPass(fold, devices, rmm), lookup, site, limit, |devices|).done)
  }

  method MatchDevices(fold: Fold, devices: seq<HubDevice>, rmm: seq<RmmDevice>, lookup: Lookup, site: string,
                      limit: int)
    returns (out: seq<DeviceMatch>)
    ensures fresh(out) && Values(out) == Shown(fold, devices, rmm, lookup, site, limit)
  {
    out := MatchByHostname(fold, devices, rmm);
    assert Values(out) == HostPass(fold, devices, rmm);
    var _ := MatchByMac(out, lookup, site, limit);
    ClaimOnce(out);
  }

  /** No RMM device answers for two of the customer's devices. */
  lemma NoUidAnswersTwice(ms: seq<Match>, i: nat, j: nat)
    requires i < j < |ms|
    requires ClaimPass(ms)[i].status.Matched? && ClaimPass(ms)[i].rmm.Some?
    requires ClaimPass(ms)[j].status.Matched? && ClaimPass(ms)[j].rmm.Some?
    ensures ClaimPass(ms)[i].rmm.value.uid != ClaimPass(ms)[j].rmm.value.uid
  {
    var uid := ms[i].rmm.value.uid;
    if Claims(ms[j], uid) {
      TwoClaimants(ms, uid, i, j);
    }
  }

  lemma TwoClaimants(ms: seq<Match>, uid: string, i: nat, j: nat)
    requires i < j < |ms| && Claims(ms[i], uid) && Claims(ms[j], uid)
    ensures |Claimants(ms, uid, |ms|)| > 1
  {
    ClaimantsClaim(ms, uid, |ms|);
    var c := Claimants(ms, uid, |ms|);
    assert i in c && j in c;
  }

  /** A match is cancelled exactly where another device claims the same RMM device. */
  lemma CancelledExactlyForTwoClaims(ms: seq<Match>, i: nat)
    requires i < |ms|
    ensures ClaimPass(ms)[i] == ms[i] || ClaimPass(ms)[i].status.Ambiguous?
    ensures ms[i].status.Matched? && ms[i].rmm.Some? ==>
              (ClaimPass(ms)[i].status.Matched? <==>
                 forall j :: 0 <= j < |ms| && Claims(ms[j], ms[i].rmm.value.uid) ==> j == i)
  {
    if ms[i].status.Matched? && ms[i].rmm.Some? {
      var uid := ms[i].rmm.value.uid;
      forall j | 0 <= j < |ms| && Claims(ms[j], uid) && j != i ensures |Claimants(ms, uid, |ms|)| > 1 {
        if i < j { TwoClaimants(ms, uid, i, j); } else { TwoClaimants(ms, uid, j, i); }
      }
      var c := Claimants(ms, uid, |ms|);
      ClaimantsClaim(ms, uid, |ms|);
      if |c| > 1 {
        assert c[0] in c && c[1] in c && c[0] < c[1];
      }
    }
  }

  lemma {:induction false} ClaimantsCounted(ms: seq<Match>, uid: string, n: nat)
    requires n <= |ms|
    ensures |Claimants(ms, uid, n)| == |set j: nat | j < n && Claims(ms[j], uid)|
  {
    if n > 0 {
      OneClaimMore(ms, uid, n);
      hide Claims;
      ClaimantsCounted(ms, uid, n - 1);
    }
  }

  lemma OneClaimMore(ms: seq<Match>, uid: string, n: nat)
    requires 0 < n <= |ms|
    ensures (set j: nat | j < n && Claims(ms[j], uid))
         == (set j: nat | j < n - 1 && Claims(ms[j], uid)) + if Claims(ms[n - 1], uid) then {n - 1} else {}
  {
    hide Claims;
  }

  /** What a match is after the claims: itself, unless it is one of several that claim one RMM device;
      then ambiguous, without a device and with their number. */
  lemma ClaimVerdict(ms: seq<Match>, i: nat)
    requires i < |ms|
    ensures var m, now := ms[i], ClaimPass(ms)[i];
            if !m.status.Matched? || m.rmm.None? then now == m
            else
              var claims := set j: nat | j < |ms| && ms[j].status.Matched? && ms[j].rmm.Some?
                                         && ms[j].rmm.value.uid == m.rmm.value.uid;
              now == if |claims| > 1 then m.(status := Ambiguous, rmm := None, candidates := |claims|) else m
  {
    var m := ms[i];
    if m.status.Matched? && m.rmm.Some? {
      var uid := m.rmm.value.uid;
      ClaimantsCounted(ms, uid, |ms|);
      assert (set j: nat | j < |ms| && Claims(ms[j], uid))
          == set j: nat | j < |ms| && ms[j].status.Matched? && ms[j].rmm.Some? && ms[j].rmm.value.uid == uid;
    }
  }

  /** A name match was the only RMM device of that name. */
  lemma NameMatchesAreUnique(fold: Fold, device: HubDevice, rmm: seq<RmmDevice>)
    requires HostMatch(fold, device, rmm).status.Matched?
    ensures var m := HostMatch(fold, device, rmm);
            && m.rmm.Some? && HostKey(fold, device.name) != ""
            && exists k :: 0 <= k < |rmm| && rmm[k] == m.rmm.value
                 && HostKey(fold, rmm[k].hostname) == HostKey(fold, device.name)
                   && forall j :: 0 <= j < |rmm| && HostKey(fold, rmm[j].hostname) == HostKey(fold, device.name)
                        ==> j == k
  {
    var k := OnlyNamed(fold, rmm, HostKey(fold, device.name));
  }

  lemma {:induction false} NoneNamed(fold: Fold, rmm: seq<RmmDevice>, key: string)
    requires key != ""
    ensures Named(fold, rmm, key) == [] <==> forall j :: 0 <= j < |rmm| ==> HostKey(fold, rmm[j].hostname) != key
    decreases |rmm|
  {
    hide HostKey;
    if rmm != [] {
      NoneNamed(fold, rmm[..|rmm| - 1], key);
    }
  }

  lemma {:induction false} OnlyNamed(fold: Fold, rmm: seq<RmmDevice>, key: string) returns (k: nat)
    requires |Named(fold, rmm, key)| == 1
    ensures key != "" && k < |rmm| && rmm[k] == Named(fold, rmm, key)[0] && HostKey(fold, rmm[k].hostname) == key
    ensures forall j :: 0 <= j < |rmm| && HostKey(fold, rmm[j].hostname) == key ==> j == k
    decreases |rmm|
  {
    var front, last := rmm[..|rmm| - 1], rmm[|rmm| - 1];
    assert forall j :: 0 <= j < |front| ==> rmm[j] == front[j];
    hide HostKey;
    if HostKey(fold, last.hostname) == key {
      k := |rmm| - 1;
      NoneNamed(fold, front, key);
    } else {
      k := OnlyNamed(fold, front, key);
    }
  }

  /** The RMM devices with this key, by their places in the list. */
  function Places(fold: Fold, rmm: seq<RmmDevice>, key: string): set<nat> {
    set k: nat | k < |rmm| && fold(Text.Stripped(rmm[k].hostname)) == key
  }

  lemma OnePlaceMore(fold: Fold, rmm: seq<RmmDevice>, key: string)
    requires rmm != []
    ensures var n, front := |rmm| - 1, Places(fold, rmm[..|rmm| - 1], key);
            && n !in front && (forall k :: k in front ==> k < n)
            && Places(fold, rmm, key) == front + if HostKey(fold, rmm[n].hostname) == key then {n} else {}
  {
  }

  lemma {:induction false} NamedCounted(fold: Fold, rmm: seq<RmmDevice>, key: string)
    requires key != ""
    ensures |Named(fold, rmm, key)| == |Places(fold, rmm, key)|
    decreases |rmm|
  {
    hide HostKey;
    if rmm != [] {
      OnePlaceMore(fold, rmm, key);
      hide Places;
      NamedCounted(fold, rmm[..|rmm| - 1], key);
    }
  }

  lemma {:induction false} NamedInPlaces(fold: Fold, rmm: seq<RmmDevice>, key: string, d: RmmDevice) returns (k: nat)
    requires d in Named(fold, rmm, key)
    ensures k < |rmm| && k in Places(fold, rmm, key) && rmm[k] == d
    decreases |rmm|
  {
    hide HostKey;
    OnePlaceMore(fold, rmm, key);
    hide Places;
    var front := rmm[..|rmm| - 1];
    if d in Named(fold, front, key) {
      k := NamedInPlaces(fold, front, key, d);
    } else {
      k := |rmm| - 1;
    }
  }

  /** The host-name verdict: matched exactly with one RMM device of the whole, non-empty name, stripped
      and folded; ambiguous with several, counted; and not found otherwise. */
  lemma HostVerdict(fold: Fold, device: HubDevice, rmm: seq<RmmDevice>)
    ensures var key, m := fold(Text.Stripped(device.name)), HostMatch(fold, device, rmm);
            var same := set k: nat | k < |rmm| && fold(Text.Stripped(rmm[k].hostname)) == key;
            if key == "" || same == {} then m == Match(device, NotFound, ByNothing, None, 0)
            else if |same| == 1 then exists k :: k in same && m == Match(device, Matched, ByHostname, Some(rmm[k]), 0)
            else m == Match(device, Ambiguous, ByHostname, None, |same|)
  {
    var key := fold(Text.Stripped(device.name));
    assert HostKey(fold, device.name) == key;
    if key != "" {
      NamedCounted(fold, rmm, key);
      assert Places(fold, rmm, key) == set k: nat | k < |rmm| && fold(Text.Stripped(rmm[k].hostname)) == key;
      var found := Named(fold, rmm, key);
      hide Named, Places;
      if |found| == 1 {
        var k := NamedInPlaces(fold, rmm, key, found[0]);
      }
    }
  }

  /** The MAC pass leaves every device with a name match, or with no MAC, as it is. */
  lemma {:induction false} MacPassLooksOnlyForTheUnfound(ms: seq<Match>, lookup: Lookup, site: string, limit: int,
                                                         n: nat, i: nat)
    requires i < n <= |ms|
    ensures var p := MacPass(ms, lookup, site, limit, n);
            && p.done[i] == MacStep(ms[i], lookup, site, limit, MacPass(ms, lookup, site, limit, i).spent,
                                    MacPass(ms, lookup, site, limit, i).failed).0
            && (!ms[i].status.NotFound? ==> p.done[i] == ms[i])
  {
    if i < n - 1 {
      MacPassLooksOnlyForTheUnfound(ms, lookup, site, limit, n - 1, i);
    }
  }

  lemma {:induction false} GatheredSpends(lookup: Lookup, macs: seq<string>, site: string, spent: nat, k: nat,
                                          uids: map<string, RmmDevice>)
    requires k <= |macs|
    ensures spent <= Gathered(lookup, macs, site, spent, k, uids).1 <= spent + |macs| - k
    decreases |macs| - k
  {
    if k < |macs| && lookup(spent, macs[k]).Some? {
      GatheredSpends(lookup, macs, site, spent + 1, k + 1, Added(uids, lookup(spent, macs[k]).value, site));
    }
  }

  /** However many devices there are, no more than `limit` lookups are made. */
  lemma {:induction false} LookupsAreLimited(ms: seq<Match>, lookup: Lookup, site: string, limit: int, n: nat)
    requires n <= |ms|
    ensures MacPass(ms, lookup, site, limit, n).spent <= if limit < 0 then 0 else limit
  {
    if n > 0 {
      LookupsAreLimited(ms, lookup, site, limit, n - 1);
      var p := MacPass(ms, lookup, site, limit, n - 1);
      GatheredSpends(lookup, ms[n - 1].device.macs, site, p.spent, 0, map[]);
    }
  }

  /** Whether one of the device's lookups, the first being number `start`, found this RMM device in the site. */
  ghost predicate Finds(lookup: Lookup, macs: seq<string>, site: string, start: nat, d: RmmDevice) {
    exists k :: 0 <= k < |macs| && Answers(lookup, macs, start, k, d) && d.site == site
  }

  predicate Answers(lookup: Lookup, macs: seq<string>, start: nat, k: nat, d: RmmDevice)
    requires 0 <= k < |macs|
  {
    lookup(start + k, macs[k]).Some? && d in lookup(start + k, macs[k]).value
  }

  lemma {:induction false} AddedHas(uids: map<string, RmmDevice>, candidates: seq<RmmDevice>, site: string)
    ensures forall d :: d in candidates && d.site == site ==> d.uid in Added(uids, candidates, site)
    ensures forall uid :: uid in uids ==> uid in Added(uids, candidates, site)
    ensures forall uid :: uid in Added(uids, candidates, site) ==>
              var d := Added(uids, candidates, site)[uid];
              (uid in uids && d == uids[uid]) || (d in candidates && d.site == site && d.uid == uid)
    decreases |candidates|
  {
    if candidates != [] {
      var c := candidates[0];
      AddedHas(if c.site == site then uids[c.uid := c] else uids, candidates[1..], site);
    }
  }

  /** The uids gathered are those of the site's devices the lookups from the k-th on found. */
  lemma {:induction false} GatheredHas(lookup: Lookup, macs: seq<string>, site: string, start: nat, k: nat,
                                       uids: map<string, RmmDevice>)
    requires k <= |macs| && Gathered(lookup, macs, site, start + k, k, uids).0.Some?
    ensures var all := Gathered(lookup, macs, site, start + k, k, uids).0.value;
            && (forall j, d :: k <= j < |macs| && Answers(lookup, macs, start, j, d) && d.site == site ==> d.uid in all)
            && (forall uid :: uid in uids ==> uid in all)
            && (forall uid :: uid in all ==> (uid in uids && all[uid] == uids[uid])
                                             || (all[uid].uid == uid && Finds(lookup, macs, site, start, all[uid])))
    decreases |macs| - k
  {
    if k < |macs| {
      var candidates := lookup(start + k, macs[k]).value;
      AddedHas(uids, candidates, site);
      GatheredHas(lookup, macs, site, start, k + 1, Added(uids, candidates, site));
      var all := Gathered(lookup, macs, site, start + k, k, uids).0.value;
      forall uid | uid in all
        ensures (uid in uids && all[uid] == uids[uid])
             || (all[uid].uid == uid && Finds(lookup, macs, site, start, all[uid]))
      {
        var added := Added(uids, candidates, site);
        if uid in added && all[uid] == added[uid] && !(uid in uids && all[uid] == uids[uid]) {
          assert Answers(lookup, macs, start, k, all[uid]);
        }
      }
    }
  }

  /** The lookups end at the first that is refused, and otherwise with the last. */
  lemma {:induction false} GatheredUpTo(lookup: Lookup, macs: seq<string>, site: string, start: nat, k: nat,
                                        uids: map<string, RmmDevice>, refused: nat)
    requires k <= refused <= |macs| && forall j :: k <= j < refused ==> lookup(start + j, macs[j]).Some?
    requires refused < |macs| ==> lookup(start + refused, macs[refused]).None?
    ensures var (all, spent) := Gathered(lookup, macs, site, start + k, k, uids);
            if refused < |macs| then all.None? && spent == start + refused + 1
            else all.Some? && spent == start + |macs|
    decreases |macs| - k
  {
    if k < refused {
      GatheredUpTo(lookup, macs, site, start, k + 1, Added(uids, lookup(start + k, macs[k]).value, site), refused);
    }
  }

  /** A device's turn in the MAC pass. Only one not found and with MACs is looked up; past the limit or
      after a refusal it is not checked, and a refusal during its own lookups stops them. Otherwise
      the uids of the site's devices its lookups found decide: none, one or several, counted. */
  lemma MacVerdict(m: Match, lookup: Lookup, site: string, limit: int, spent: nat, failed: bool, refused: nat)
    returns (uids: set<string>)
    requires refused <= |m.device.macs| && forall j :: 0 <= j < refused ==> lookup(spent + j, m.device.macs[j]).Some?
    requires refused < |m.device.macs| ==> lookup(spent + refused, m.device.macs[refused]).None?
    ensures var macs, (now, after, stopped) := m.device.macs, MacStep(m, lookup, site, limit, spent, failed);
            if !m.status.NotFound? || macs == [] then (now, after, stopped) == (m, spent, failed)
            else if failed || spent + |macs| > limit then
              (now, after, stopped) == (m.(status := NotChecked), spent, failed)
            else if refused < |macs| then (now, after, stopped) == (m.(status := NotChecked), spent + refused + 1, true)
            else
              && after == spent + |macs| && !stopped
              && (forall d :: Finds(lookup, macs, site, spent, d) ==> d.uid in uids)
              && (forall uid :: uid in uids ==> exists d :: Finds(lookup, macs, site, spent, d) && d.uid == uid)
              && (if uids == {} then now == m
                  else if |uids| == 1 then
                    exists d :: FindsLast(lookup, macs, site, spent, 0, d)
                           && now == m.(status := Matched, means := ByMac, rmm := Some(d))
                  else now == m.(status := Ambiguous, means := ByMac, candidates := |uids|))
  {
    var macs := m.device.macs;
    uids := {};
    GatheredUpTo(lookup, macs, site, spent, 0, map[], refused);
    if m.status.NotFound? && macs != [] && !failed && spent + |macs| <= limit && refused == |macs| {
      uids := Gathered(lookup, macs, site, spent, 0, map[]).0.value.Keys;
      GatheredDecides(lookup, macs, site, spent);
    }
    hide Finds, FindsLast, Gathered;
  }

  /** The uids gathered by all lookups of a device, and the device kept where there is one uid. */
  lemma GatheredDecides(lookup: Lookup, macs: seq<string>, site: string, start: nat)
    requires Gathered(lookup, macs, site, start, 0, map[]).0.Some?
    ensures var all := Gathered(lookup, macs, site, start, 0, map[]).0.value;
            && |all.Keys| == |all|
            && (forall d :: Finds(lookup, macs, site, start, d) ==> d.uid in all)
            && (forall uid :: uid in all ==> exists d :: Finds(lookup, macs, site, start, d) && d.uid == uid)
            && (|all| == 1 ==> forall uid :: uid in all ==> FindsLast(lookup, macs, site, start, 0, all[uid]))
  {
    hide FindsLast, Gathered;
    var all := Gathered(lookup, macs, site, start, 0, map[]).0.value;
    GatheredHas(lookup, macs, site, start, 0, map[]);
    FoundAreGathered(lookup, macs, site, start, all.Keys);
    hide Finds;
    if |all| == 1 {
      forall uid | uid in all ensures FindsLast(lookup, macs, site, start, 0, all[uid]) {
        OnlyOne(all, uid);
        FoundHasOneUid(lookup, macs, site, start, uid);
        GatheredLast(lookup, macs, site, start, 0, map[], uid);
      }
    }
  }

  /** Of the site's devices that the lookups from the k-th on find, in order, the last. */
  predicate FindsLast(lookup: Lookup, macs: seq<string>, site: string, start: nat, k: nat, d: RmmDevice)
    requires k <= |macs|
    decreases |macs| - k
  {
    && k < |macs|
    && (|| FindsLast(lookup, macs, site, start, k + 1, d)
        || (NoneFrom(lookup, macs, site, start, k + 1)
            && lookup(start + k, macs[k]).Some? && IsLastOf(lookup(start + k, macs[k]).value, site, d)))
  }

  predicate IsLastOf(candidates: seq<RmmDevice>, site: string, d: RmmDevice) {
    exists i :: 0 <= i < |candidates| && candidates[i] == d && d.site == site
           && forall j :: i < j < |candidates| ==> candidates[j].site != site
  }

  predicate NoneFrom(lookup: Lookup, macs: seq<string>, site: string, start: nat, k: nat) {
    forall j: nat :: k <= j < |macs| && lookup(start + j, macs[j]).Some? ==>
      forall d :: d in lookup(start + j, macs[j]).value ==> d.site != site
  }

  lemma FoundHasOneUid(lookup: Lookup, macs: seq<string>, site: string, start: nat, uid: string)
    requires forall d :: Finds(lookup, macs, site, start, d) ==> d.uid == uid
    ensures forall j, d :: 0 <= j < |macs| && Answers(lookup, macs, start, j, d) && d.site == site ==> d.uid == uid
  {
    forall j, d | 0 <= j < |macs| && Answers(lookup, macs, start, j, d) && d.site == site ensures d.uid == uid {
      assert Finds(lookup, macs, site, start, d);
    }
  }

  lemma {:induction false} AddedLast(uids: map<string, RmmDevice>, candidates: seq<RmmDevice>, site: string,
                                     uid: string)
    requires forall d :: d in candidates && d.site == site ==> d.uid == uid
    ensures var now := Added(uids, candidates, site);
            if forall d :: d in candidates ==> d.site != site then now == uids
            else uid in now && IsLastOf(candidates, site, now[uid])
    decreases |candidates|
  {
    if candidates != [] {
      var c, rest := candidates[0], candidates[1..];
      assert candidates == [c] + rest;
      hide IsLastOf;
      AddedLast(if c.site == site then uids[c.uid := c] else uids, rest, site, uid);
      forall d { LastOfRest(c, rest, site, d); }
    }
  }

  lemma LastOfRest(c: RmmDevice, rest: seq<RmmDevice>, site: string, d: RmmDevice)
    ensures IsLastOf(rest, site, d) ==> IsLastOf([c] + rest, site, d)
    ensures c.site == site && (forall e :: e in rest ==> e.site != site) ==> IsLastOf([c] + rest, site, c)
  {
    var all := [c] + rest;
    assert forall j :: 0 < j < |all| ==> all[j] == rest[j - 1];
    if i :| 0 <= i < |rest| && rest[i] == d && d.site == site && forall j :: i < j < |rest| ==> rest[j].site != site {
      assert all[i + 1] == d;
    }
    if c.site == site && forall e :: e in rest ==> e.site != site {
      assert all[0] == c;
    }
  }

  /** Where they all have one uid, what is kept for it is the last one found. */
  lemma {:induction false} GatheredLast(lookup: Lookup, macs: seq<string>, site: string, start: nat, k: nat,
                                        uids: map<string, RmmDevice>, uid: string)
    requires k <= |macs| && Gathered(lookup, macs, site, start + k, k, uids).0.Some?
    requires forall j, d :: k <= j < |macs| && Answers(lookup, macs, start, j, d) && d.site == site ==> d.uid == uid
    ensures var all := Gathered(lookup, macs, site, start + k, k, uids).0.value;
            if NoneFrom(lookup, macs, site, start, k) then all == uids
            else uid in all && FindsLast(lookup, macs, site, start, k, all[uid])
    decreases |macs| - k
  {
    hide IsLastOf;
    if k < |macs| {
      var candidates := lookup(start + k, macs[k]).value;
      forall d | d in candidates && d.site == site ensures d.uid == uid {
        assert Answers(lookup, macs, start, k, d);
      }
      AddedLast(uids, candidates, site, uid);
      GatheredLast(lookup, macs, site, start, k + 1, Added(uids, candidates, site), uid);
    }
  }

  lemma FoundAreGathered(lookup: Lookup, macs: seq<string>, site: string, start: nat, uids: set<string>)
    requires forall j, d :: 0 <= j < |macs| && Answers(lookup, macs, start, j, d) && d.site == site ==> d.uid in uids
    ensures forall d :: Finds(lookup, macs, site, start, d) ==> d.uid in uids
  {
  }

  /** A MAC match is in the customer's site, and every device of the site its lookups found has its uid. */
  lemma MacMatchesAreUnique(m: Match, lookup: Lookup, site: string, limit: int, spent: nat, failed: bool)
    requires m.status.NotFound? && MacStep(m, lookup, site, limit, spent, failed).0.status.Matched?
    ensures var now := MacStep(m, lookup, site, limit, spent, failed).0;
            && now.means.ByMac? && now.device == m.device && now.rmm.Some?
            && Finds(lookup, m.device.macs, site, spent, now.rmm.value)
            && forall d :: Finds(lookup, m.device.macs, site, spent, d) ==> d.uid == now.rmm.value.uid
  {
    var uids := Gathered(lookup, m.device.macs, site, spent, 0, map[]).0.value;
    GatheredHas(lookup, m.device.macs, site, spent, 0, map[]);
    var uid :| uid in uids;
    OnlyOne(uids, uid);
    forall d | Finds(lookup, m.device.macs, site, spent, d) ensures d.uid == uid {
      var k :| 0 <= k < |m.device.macs| && Answers(lookup, m.device.macs, spent, k, d);
    }
  }

  /** Every match a page shows is the host-name match, the only RMM device of that name; or the
      device had none and its MACs found no other of the site; and no other device shows it. */
  lemma EveryShownMatchIsSound(fold: Fold, devices: seq<HubDevice>, rmm: seq<RmmDevice>, lookup: Lookup,
                               site: string, limit: int, i: nat)
    requires i < |devices| && Shown(fold, devices, rmm, lookup, site, limit)[i].status.Matched?
    ensures var m := Shown(fold, devices, rmm, lookup, site, limit)[i];
            && m.device == devices[i] && m.rmm.Some?
            && (m.means.ByHostname? ==> m == HostMatch(fold, devices[i], rmm))
            && (!m.means.ByHostname? ==>
                  && HostMatch(fold, devices[i], rmm).status.NotFound?
                  && var start := MacPass(HostPass(fold, devices, rmm), lookup, site, limit, i).spent;
                     Finds(lookup, devices[i].macs, site, start, m.rmm.value)
                     && forall d :: Finds(lookup, devices[i].macs, site, start, d) ==> d.uid == m.rmm.value.uid)
            && forall j :: 0 <= j < |devices| && j != i
                 ==> !Claims(Shown(fold, devices, rmm, lookup, site, limit)[j], m.rmm.value.uid)
  {
    hide Finds, MacStep, HostMatch, Claimants;
    var hosts := HostPass(fold, devices, rmm);
    var p := MacPass(hosts, lookup, site, limit, |devices|);
    var before := MacPass(hosts, lookup, site, limit, i);
    MacPassLooksOnlyForTheUnfound(hosts, lookup, site, limit, |devices|, i);
    HostMatchFacts(fold, devices[i], rmm);
    if hosts[i].status.NotFound? {
      MacMatchesAreUnique(hosts[i], lookup, site, limit, before.spent, before.failed);
    }
    forall j | 0 <= j < |devices| && j != i ensures !Claims(ClaimPass(p.done)[j], ClaimPass(p.done)[i].rmm.value.uid) {
      if Claims(ClaimPass(p.done)[j], ClaimPass(p.done)[i].rmm.value.uid) {
        if i < j { NoUidAnswersTwice(p.done, i, j); } else { NoUidAnswersTwice(p.done, j, i); }
      }
    }
  }

  lemma HostMatchFacts(fold: Fold, device: HubDevice, rmm: seq<RmmDevice>)
    ensures var m := HostMatch(fold, device, rmm);
            && m.device == device
            && (m.status.Matched? ==> m.rmm.Some? && m.means.ByHostname?)
            && !m.status.NotChecked?
  {
  }
}
