/** What holds over whole runs of enrolments, codes and removals on one account. */
module MfaRuns {
  import opened Options
  import opened Mfa

  datatype Event =
    | Begin(now: real, secret: Secret)
    | Verify(now: real, code: string, enroll: bool, codes: seq<string>)
    | Remove

  /** Recovery codes are drawn at random: those of one enrolment are distinct. */
  predicate CanHappen(e: Event) {
    e.Verify? ==> Distinct(e.codes)
  }

  predicate Distinct(s: seq<string>) {
    forall i, j :: 0 <= i < j < |s| ==> s[i] != s[j]
  }

  function Next(mac: Mac, m: Option<Record>, e: Event): Option<Record> {
    match e
    case Begin(now, secret) => Begun(m, now, secret)
    case Verify(now, code, enroll, codes) => Verified(mac, m, now, code, enroll, codes).0
    case Remove => None
  }

  ghost predicate IsRun(mac: Mac, ms: seq<Option<Record>>, es: seq<Event>) {
    && |ms| == |es| + 1
    && ms[0] == None
    && forall k :: 0 <= k < |es| ==> CanHappen(es[k]) && ms[k + 1] == Next(mac, ms[k], es[k])
  }

  predicate Looks(m: Option<Record>, e: Event) {
    e.Verify? && Evaluates(m, e.now, e.enroll)
  }

  predicate Succeeds(mac: Mac, m: Option<Record>, e: Event) {
    Looks(m, e) && Accepts(mac, m.value, e.now, e.code, e.enroll)
  }

  /** The time step a code is accepted for, if it is a one-time code. */
  function Step(mac: Mac, m: Option<Record>, e: Event): Option<nat> {
    if Looks(m, e) then Matched(mac, m.value, e.now, e.code) else None
  }

  predicate UsesRecovery(m: Option<Record>, e: Event) {
    Looks(m, e) && Recovers(m.value, e.code, e.enroll)
  }

  // ---------------------------------------------------------------- the lockout's bound

  /** How many codes were looked at from i on and before j. */
  function Looked(ms: seq<Option<Record>>, es: seq<Event>, i: nat, j: nat): nat
    requires i <= j <= |es| && |ms| == |es| + 1
  {
    if i == j then 0 else Looked(ms, es, i, j - 1) + if Looks(ms[j - 1], es[j - 1]) then 1 else 0
  }

  ghost predicate NoSuccess(mac: Mac, ms: seq<Option<Record>>, es: seq<Event>, i: nat, j: nat)
    requires i <= j <= |es| && |ms| == |es| + 1
  {
    forall k :: i <= k < j ==> !es[k].Remove? && !Succeeds(mac, ms[k], es[k])
  }

  ghost predicate Between(ms: seq<Option<Record>>, es: seq<Event>, i: nat, j: nat, lo: real, hi: real)
    requires i <= j <= |es| && |ms| == |es| + 1
  {
    forall k :: i <= k < j && Looks(ms[k], es[k]) ==> lo <= es[k].now <= hi
  }

  lemma FailureStep(mac: Mac, m: Option<Record>, e: Event)
    requires m.Some? && m.value.enabled && !e.Remove? && !Succeeds(mac, m, e)
    ensures Next(mac, m, e) == if Looks(m, e) then Some(Failed(m.value, e.now)) else m
  {
  }

  lemma {:induction false} LockedThroughout(mac: Mac, ms: seq<Option<Record>>, es: seq<Event>, i: nat, j: nat,
                                            lo: real, hi: real)
    requires IsRun(mac, ms, es) && i <= j <= |es| && ms[i].Some? && ms[i].value.enabled
    requires NoSuccess(mac, ms, es, i, j) && Between(ms, es, i, j, lo, hi)
    ensures ms[j].Some? && ms[j].value.enabled
    ensures var n := Looked(ms, es, i, j);
            && ms[j].value.failures >= n
            && (n >= 5 ==> ms[j].value.lockedUntil >= lo + 300.0 * (n - 4) as real)
            && (n > 5 ==> hi - lo >= 300.0 * (n - 5) as real)
    decreases j
  {
    if i < j {
      hide Looks, Succeeds, Next;
      LockedThroughout(mac, ms, es, i, j - 1, lo, hi);
      FailureStep(mac, ms[j - 1], es[j - 1]);
      LooksOutsideLockout(ms[j - 1], es[j - 1]);
    }
  }

  lemma {:induction false} LookedIsTheNumber(ms: seq<Option<Record>>, es: seq<Event>, i: nat, j: nat)
    requires i <= j <= |es| && |ms| == |es| + 1
    ensures Looked(ms, es, i, j) == |set k: nat | i <= k < j && Looks(ms[k], es[k])|
    decreases j
  {
    if i < j {
      LookedIsTheNumber(ms, es, i, j - 1);
      assert (set k: nat | i <= k < j && Looks(ms[k], es[k]))
          == (set k: nat | i <= k < j - 1 && Looks(ms[k], es[k])) + if Looks(ms[j - 1], es[j - 1]) then {j - 1} else {};
    }
  }

  lemma LooksOutsideLockout(m: Option<Record>, e: Event)
    ensures Looks(m, e) ==> e.Verify? && m.Some? && m.value.lockedUntil <= e.now
  {
  }

  /** On an enabled account, whatever order the clock readings come in: a stretch without a
      success whose readings lie within hi - lo seconds looks at no more wrong codes than this. */
  lemma WrongCodesAreBounded(mac: Mac, ms: seq<Option<Record>>, es: seq<Event>, i: nat, j: nat, lo: real, hi: real)
    requires IsRun(mac, ms, es) && i <= j <= |es| && ms[i].Some? && ms[i].value.enabled && lo <= hi
    requires NoSuccess(mac, ms, es, i, j) && Between(ms, es, i, j, lo, hi)
    ensures |set k: nat | i <= k < j && Looks(ms[k], es[k])| <= 5 + ((hi - lo) / 300.0).Floor
  {
    LookedIsTheNumber(ms, es, i, j);
    LockedThroughout(mac, ms, es, i, j, lo, hi);
    var n := Looked(ms, es, i, j);
    if n > 5 {
      assert (hi - lo) / 300.0 >= (n - 5) as real;
    } else {
      assert (hi - lo) / 300.0 >= 0.0;
    }
  }

  // ---------------------------------------------------------------- one-time codes

  lemma {:induction false} MatchIsNew(mac: Mac, m: Record, now: real, code: string, c: int)
    ensures var s := Match(mac, m, now, code, c);
            s.Some? ==>
              m.lastCounter < s.value < Counter(now) + 2 && c <= s.value && Totp(mac, m.secret, s.value) == code
    decreases Counter(now) + 2 - c
  {
    if c < Counter(now) + 2 {
      MatchIsNew(mac, m, now, code, c + 1);
    }
  }

  /** An enabled record keeps its secret and never takes its last counter back. */
  lemma EnabledStep(mac: Mac, m: Option<Record>, e: Event)
    requires m.Some? && m.value.enabled && !e.Remove?
    ensures var now := Next(mac, m, e);
            && now.Some? && now.value.enabled && now.value.secret == m.value.secret
            && now.value.lastCounter == (if Step(mac, m, e).Some? then Step(mac, m, e).value else m.value.lastCounter)
            && now.value.lastCounter >= m.value.lastCounter
  {
    if Looks(m, e) {
      MatchIsNew(mac, m.value, e.now, e.code, Counter(e.now) - 1);
    }
  }

  lemma {:induction false} CounterGrows(mac: Mac, ms: seq<Option<Record>>, es: seq<Event>, i: nat, j: nat)
    requires IsRun(mac, ms, es) && i <= j <= |es| && ms[i].Some? && ms[i].value.enabled
    requires forall k :: i <= k < j ==> !es[k].Remove?
    ensures ms[j].Some? && ms[j].value.enabled && ms[j].value.secret == ms[i].value.secret
    ensures ms[j].value.lastCounter >= ms[i].value.lastCounter
    decreases j
  {
    if i < j {
      hide Next, Step;
      CounterGrows(mac, ms, es, i, j - 1);
      EnabledStep(mac, ms[j - 1], es[j - 1]);
    }
  }

  lemma AcceptedStepIsRemembered(mac: Mac, m: Option<Record>, e: Event)
    requires Step(mac, m, e).Some?
    ensures var now := Next(mac, m, e);
            now.Some? && now.value.enabled && now.value.lastCounter == Step(mac, m, e).value
  {
  }

  /** Of two one-time codes accepted between an enrolment and a removal, the enrolment's own among
      them, the later is for a later time step: none is accepted twice. */
  lemma AcceptedStepsIncrease(mac: Mac, ms: seq<Option<Record>>, es: seq<Event>, i: nat, j: nat)
    requires IsRun(mac, ms, es) && i < j < |es| && forall k :: i <= k < j ==> !es[k].Remove?
    requires Step(mac, ms[i], es[i]).Some? && Step(mac, ms[j], es[j]).Some?
    ensures Step(mac, ms[i], es[i]).value < Step(mac, ms[j], es[j]).value
  {
    hide Next;
    AcceptedStepIsRemembered(mac, ms[i], es[i]);
    CounterGrows(mac, ms, es, i + 1, j);
    MatchIsNew(mac, ms[j].value, es[j].now, es[j].code, Counter(es[j].now) - 1);
  }

  // ---------------------------------------------------------------- recovery codes

  ghost predicate Unused(m: Option<Record>, code: string) {
    m.Some? && m.value.enabled && code !in m.value.recovery
  }

  lemma {:induction false} WithoutIsGone(s: seq<string>, x: string)
    requires Distinct(s) && x in s
    ensures Distinct(Without(s, x)) && forall y :: y in Without(s, x) <==> y in s && y != x
    ensures |Without(s, x)| == |s| - 1
    decreases |s|
  {
    var rest := s[1..];
    assert s == [s[0]] + rest;
    assert Distinct(rest) && s[0] !in rest by {
      assert forall i :: 0 <= i < |rest| ==> rest[i] == s[i + 1];
    }
    if s[0] != x {
      hide Distinct;
      WithoutIsGone(rest, x);
      OneMoreIsDistinct(s[0], Without(rest, x));
    }
  }

  lemma OneMoreIsDistinct(y: string, s: seq<string>)
    requires Distinct(s) && y !in s
    ensures Distinct([y] + s)
  {
  }

  ghost predicate Clean(m: Option<Record>) {
    m.Some? ==> Distinct(m.value.recovery)
  }

  lemma StepKeepsClean(mac: Mac, m: Option<Record>, e: Event)
    requires Clean(m) && CanHappen(e)
    ensures Clean(Next(mac, m, e))
    ensures UsesRecovery(m, e) ==> Unused(Next(mac, m, e), e.code)
    ensures forall code :: !e.Remove? && Unused(m, code) ==> Unused(Next(mac, m, e), code)
  {
    hide Matched;
    if UsesRecovery(m, e) {
      WithoutIsGone(m.value.recovery, e.code);
    }
  }

  lemma {:induction false} RunStaysClean(mac: Mac, ms: seq<Option<Record>>, es: seq<Event>, k: nat)
    requires IsRun(mac, ms, es) && k < |ms|
    ensures Clean(ms[k])
    decreases k
  {
    if k > 0 {
      hide Next, CanHappen, Clean;
      RunStaysClean(mac, ms, es, k - 1);
      StepKeepsClean(mac, ms[k - 1], es[k - 1]);
    } else {
      assert ms[0] == None;
    }
  }

  lemma {:induction false} UnusedStays(mac: Mac, ms: seq<Option<Record>>, es: seq<Event>, i: nat, j: nat, code: string)
    requires IsRun(mac, ms, es) && i <= j <= |es| && Unused(ms[i], code) && forall k :: i <= k < j ==> !es[k].Remove?
    ensures Unused(ms[j], code)
    decreases j
  {
    if i < j {
      hide Next, CanHappen, Clean, Unused;
      UnusedStays(mac, ms, es, i, j - 1, code);
      RunStaysClean(mac, ms, es, j - 1);
      StepKeepsClean(mac, ms[j - 1], es[j - 1]);
    }
  }

  /** Until the account's second factor is removed, no recovery code is accepted twice. */
  lemma RecoveryCodesWorkOnce(mac: Mac, ms: seq<Option<Record>>, es: seq<Event>, i: nat, j: nat)
    requires IsRun(mac, ms, es) && i < j < |es| && forall k :: i <= k < j ==> !es[k].Remove?
    requires UsesRecovery(ms[i], es[i]) && UsesRecovery(ms[j], es[j])
    ensures es[i].code != es[j].code
  {
    hide Next, CanHappen, Clean;
    RunStaysClean(mac, ms, es, i);
    StepKeepsClean(mac, ms[i], es[i]);
    UnusedStays(mac, ms, es, i + 1, j, es[i].code);
  }

  /** After an enrolment a code is accepted as a recovery code only if it was among the ones drawn. */
  lemma {:induction false} OnlyDrawnCodesRecover(mac: Mac, ms: seq<Option<Record>>, es: seq<Event>, i: nat, j: nat)
    requires IsRun(mac, ms, es) && i < j <= |es| && forall k :: i <= k < j ==> !es[k].Remove?
    requires Succeeds(mac, ms[i], es[i]) && es[i].enroll
    ensures ms[j].Some? && ms[j].value.enabled && forall c :: c in ms[j].value.recovery ==> c in es[i].codes
    decreases j
  {
    if i < j - 1 {
      hide Next, CanHappen;
      OnlyDrawnCodesRecover(mac, ms, es, i, j - 1);
      RunStaysClean(mac, ms, es, j - 1);
      NoNewCodes(mac, ms[j - 1], es[j - 1]);
    }
  }

  lemma NoNewCodes(mac: Mac, m: Option<Record>, e: Event)
    requires m.Some? && m.value.enabled && !e.Remove? && Clean(m)
    ensures Next(mac, m, e).Some? && Next(mac, m, e).value.enabled
    ensures forall c :: c in Next(mac, m, e).value.recovery ==> c in m.value.recovery
  {
    if UsesRecovery(m, e) {
      WithoutIsGone(m.value.recovery, e.code);
    }
  }
}
