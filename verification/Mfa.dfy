/** One-time codes with replay protection, recovery codes and a lockout. The keyed hash is a
    parameter; a recovery code stands for its SHA-256, which is taken to be injective. */
module Mfa {
  import opened Options

  type Secret = nat

  type Digest = s: seq<nat> | |s| == 20 && forall i :: 0 <= i < |s| ==> s[i] < 256
    witness seq(20, _ => 0)

  /** HMAC-SHA-1 of a counter under a secret. */
  type Mac = (Secret, nat) -> Digest

  // ---------------------------------------------------------------- the code (section 5.3 of RFC 4226)

  /** The 31-bit number at the offset the last four bits name. */
  function Truncated(d: Digest): (v: nat)
    ensures v < 0x8000_0000
  {
    var o := d[19] % 16;
    (d[o] % 128) * 0x100_0000 + d[o + 1] * 0x1_0000 + d[o + 2] * 0x100 + d[o + 3]
  }

  /** The number these bytes spell, the most significant first. */
  function BigEndian(bytes: seq<nat>): nat {
    if bytes == [] then 0 else 256 * BigEndian(bytes[..|bytes| - 1]) + bytes[|bytes| - 1]
  }

  /** The four bytes at the offset are read as one number, without its highest bit. */
  lemma TruncatedIsBigEndian(d: Digest)
    ensures var o := d[19] % 16; Truncated(d) == BigEndian(d[o..o + 4]) % 0x8000_0000
  {
    var o := d[19] % 16;
    var b := d[o..o + 4];
    assert b[..3][..2][..1][..0] == [];
    assert BigEndian(b[..3][..2][..1]) == d[o] && BigEndian(b[..3][..2]) == 256 * d[o] + d[o + 1];
    assert BigEndian(b[..3]) == 0x1_0000 * d[o] + 0x100 * d[o + 1] + d[o + 2];
    assert BigEndian(b) == d[o] / 128 * 0x8000_0000 + Truncated(d);
  }

  const DIGITS := "0123456789"

  function Decimal(n: nat): (s: string)
    ensures s != []
  {
    if n < 10 then [DIGITS[n]] else Decimal(n / 10) + [DIGITS[n % 10]]
  }

  function ZeroFilled(s: string, width: nat): string
    decreases width - |s|
  {
    if |s| >= width then s else ZeroFilled("0" + s, width)
  }

  function Totp(mac: Mac, secret: Secret, counter: nat): string {
    ZeroFilled(Decimal(Truncated(mac(secret, counter)) % 1_000_000), 6)
  }

  predicate IsNumeral(s: string) {
    forall i :: 0 <= i < |s| ==> '0' <= s[i] <= '9'
  }

  /** The number a string of digits is read as. */
  function Number(s: string): nat
    requires IsNumeral(s)
  {
    if s == [] then 0 else 10 * Number(s[..|s| - 1]) + (s[|s| - 1] as int - '0' as int)
  }

  function Power(n: nat): (p: nat)
    ensures p >= 1
  {
    if n == 0 then 1 else 10 * Power(n - 1)
  }

  lemma DigitIsRead(s: string, d: nat)
    requires IsNumeral(s) && d < 10
    ensures IsNumeral(s + [DIGITS[d]]) && Number(s + [DIGITS[d]]) == 10 * Number(s) + d
  {
    var c := DIGITS[d];
    assert '0' <= c <= '9' && c as int - '0' as int == d;
    assert (s + [c])[..|s|] == s;
  }

  lemma {:induction false} DecimalIsRead(n: nat, width: nat)
    requires n < Power(width) && width > 0
    ensures IsNumeral(Decimal(n)) && Number(Decimal(n)) == n && |Decimal(n)| <= width
    decreases n
  {
    if n < 10 {
      DigitIsRead("", n);
      assert "" + [DIGITS[n]] == Decimal(n);
    } else {
      DecimalIsRead(n / 10, width - 1);
      DigitIsRead(Decimal(n / 10), n % 10);
    }
  }

  lemma {:induction false} LeadingZeroIsNothing(s: string)
    requires IsNumeral(s)
    ensures IsNumeral("0" + s) && Number("0" + s) == Number(s)
    decreases |s|
  {
    if s == [] {
      assert ("0" + s)[..0] == [];
    } else {
      LeadingZeroIsNothing(s[..|s| - 1]);
      assert ("0" + s)[..|s|] == "0" + s[..|s| - 1];
    }
  }

  lemma {:induction false} FilledIsRead(s: string, width: nat)
    requires IsNumeral(s) && |s| <= width
    ensures |ZeroFilled(s, width)| == width && IsNumeral(ZeroFilled(s, width))
          && Number(ZeroFilled(s, width)) == Number(s)
    decreases width - |s|
  {
    if |s| < width {
      LeadingZeroIsNothing(s);
      FilledIsRead("0" + s, width);
    }
  }

  /** A code is six digits, and reads back as the 31-bit number at the digest's own offset, modulo
      a million. */
  lemma CodeIsSixDigits(mac: Mac, secret: Secret, counter: nat)
    ensures var code, d := Totp(mac, secret, counter), mac(secret, counter);
            var o := d[19] % 16;
            && |code| == 6 && IsNumeral(code)
            && Number(code) == BigEndian(d[o..o + 4]) % 0x8000_0000 % 1_000_000
  {
    var v := Truncated(mac(secret, counter)) % 1_000_000;
    TruncatedIsBigEndian(mac(secret, counter));
    assert Power(6) == 1_000_000 by { assert Power(3) == 1000; }
    DecimalIsRead(v, 6);
    FilledIsRead(Decimal(v), 6);
  }

  const VECTOR: Digest := [0x1f, 0x86, 0x98, 0x69, 0x0e, 0x02, 0xca, 0x16, 0x61, 0x85,
                           0x50, 0xef, 0x7f, 0x19, 0xda, 0x8e, 0x94, 0x5b, 0x55, 0x5a]

  lemma VectorIsTruncated()
    ensures Truncated(VECTOR) == 0x50ef7f19
  {
  }

  /** The example of section 5.4 of RFC 4226: the six digits 872921. */
  lemma ExampleOfTheStandard(mac: Mac, secret: Secret, counter: nat)
    requires mac(secret, counter) == VECTOR
    ensures var code := Totp(mac, secret, counter); |code| == 6 && IsNumeral(code) && Number(code) == 872921
  {
    VectorIsTruncated();
    hide Totp, Truncated, BigEndian, IsNumeral, Number;
    TruncatedIsBigEndian(VECTOR);
    CodeIsSixDigits(mac, secret, counter);
  }

  // ---------------------------------------------------------------- the record and its steps

  datatype Record = Record(secret: Secret, enabled: bool, expiresAt: real, lastCounter: int,
                           recovery: seq<string>, failures: nat, lockedUntil: real)

  datatype Answer = No | Yes(codes: seq<string>)

  function Counter(now: real): int {
    (now / 30.0).Floor
  }

  /** The first of the three steps around now that has this code and was not used before. */
  function Match(mac: Mac, m: Record, now: real, code: string, c: int): Option<nat>
    decreases Counter(now) + 2 - c
  {
    if c >= Counter(now) + 2 then None
    else if c > m.lastCounter && c >= 0 && Totp(mac, m.secret, c) == code then Some(c)
    else Match(mac, m, now, code, c + 1)
  }

  function Matched(mac: Mac, m: Record, now: real, code: string): Option<nat> {
    Match(mac, m, now, code, Counter(now) - 1)
  }

  predicate Recovers(m: Record, code: string, enroll: bool) {
    !enroll && code in m.recovery
  }

  function Without(s: seq<string>, x: string): seq<string>
    requires x in s
  {
    if s[0] == x then s[1..] else [s[0]] + Without(s[1..], x)
  }

  /** A code is looked at only outside a lockout, and for an enrolment only in time. */
  predicate Evaluates(m: Option<Record>, now: real, enroll: bool) {
    && m.Some?
    && m.value.enabled != enroll
    && m.value.lockedUntil <= now
    && (enroll ==> now <= m.value.expiresAt)
  }

  function Failed(m: Record, now: real): Record {
    m.(failures := m.failures + 1, lockedUntil := if m.failures + 1 >= 5 then now + 300.0 else m.lockedUntil)
  }

  function Accepted(mac: Mac, m: Record, now: real, code: string, enroll: bool, codes: seq<string>): Record {
    var matched := Matched(mac, m, now, code);
    m.(enabled := true,
       lastCounter := if matched.Some? then matched.value else m.lastCounter,
       recovery := if enroll then codes
                   else if Recovers(m, code, enroll) then Without(m.recovery, code)
                   else m.recovery,
       failures := 0, lockedUntil := 0.0)
  }

  predicate Accepts(mac: Mac, m: Record, now: real, code: string, enroll: bool) {
    Matched(mac, m, now, code).Some? || Recovers(m, code, enroll)
  }

  function Verified(mac: Mac, m: Option<Record>, now: real, code: string, enroll: bool,
                    codes: seq<string>): (Option<Record>, Answer)
  {
    if !Evaluates(m, now, enroll) then (m, No)
    else if !Accepts(mac, m.value, now, code, enroll) then (Some(Failed(m.value, now)), No)
    else (Some(Accepted(mac, m.value, now, code, enroll, codes)), Yes(if enroll then codes else []))
  }

  /** A code of this step counts now: from half a minute before the step begins until half a minute
      after it ends, and only if no step as late was accepted before. */
  predicate Fits(mac: Mac, m: Record, now: real, code: string, c: nat) {
    && 30.0 * (c as real - 1.0) <= now < 30.0 * (c as real + 2.0)
    && m.lastCounter < c
    && Totp(mac, m.secret, c) == code
  }

  lemma StepsAroundNow(now: real, c: int)
    ensures 30.0 * (c as real - 1.0) <= now < 30.0 * (c as real + 2.0) <==> Counter(now) - 1 <= c < Counter(now) + 2
  {
    var q := now / 30.0;
    assert now == 30.0 * q;
    assert c as real - 1.0 <= q <==> c - 1 <= q.Floor;
    assert q < c as real + 2.0 <==> q.Floor < c + 2;
  }

  lemma FitsAroundNow(mac: Mac, m: Record, now: real, code: string, c: nat)
    ensures Fits(mac, m, now, code, c) <==>
              Counter(now) - 1 <= c < Counter(now) + 2 && m.lastCounter < c && Totp(mac, m.secret, c) == code
  {
    StepsAroundNow(now, c);
    hide Counter, Totp;
  }

  lemma {:induction false} MatchFinds(mac: Mac, m: Record, now: real, code: string, from: int)
    requires from >= Counter(now) - 1
    ensures var s := Match(mac, m, now, code, from);
            && (s.Some? ==> from <= s.value && Fits(mac, m, now, code, s.value))
            && forall c: nat :: from <= c && Fits(mac, m, now, code, c) ==> s.Some? && s.value <= c
    decreases Counter(now) + 2 - from
  {
    forall c: nat { FitsAroundNow(mac, m, now, code, c); }
    hide Fits, Totp, Counter;
    if from < Counter(now) + 2 {
      MatchFinds(mac, m, now, code, from + 1);
    }
  }

  /** The step found is the first that fits, and one is found wherever one fits. */
  lemma FoundWhereItFits(mac: Mac, m: Record, now: real, code: string)
    ensures var s := Matched(mac, m, now, code);
            && (s.Some? <==> exists c: nat :: Fits(mac, m, now, code, c))
            && (s.Some? ==> Fits(mac, m, now, code, s.value))
            && forall c: nat :: Fits(mac, m, now, code, c) ==> s.Some? && s.value <= c
  {
    forall c: nat { FitsAroundNow(mac, m, now, code, c); }
    hide Fits, Totp, Counter;
    MatchFinds(mac, m, now, code, Counter(now) - 1);
    hide Match;
  }

  /** An attempt outside a lockout, and for an enrolment in time, succeeds exactly with a one-time
      code that fits or, but for an enrolment, a recovery code; any other attempt leaves the record
      as it is. A success remembers the step, takes a recovery code away or draws new ones, and
      forgets the failures; the fifth failure in a row locks for five minutes. */
  lemma WhatVerifyDoes(mac: Mac, m: Option<Record>, now: real, code: string, enroll: bool, codes: seq<string>)
    ensures var (after, answer) := Verified(mac, m, now, code, enroll, codes);
            if m.None? || m.value.enabled == enroll || m.value.lockedUntil > now
               || (enroll && m.value.expiresAt < now)
            then after == m && answer == No
            else
              var r := m.value;
              && after.Some?
              && var t := after.value;
                 if (exists c: nat :: Fits(mac, r, now, code, c)) || (!enroll && code in r.recovery) then
                   && answer == Yes(if enroll then codes else [])
                   && t.enabled && t.secret == r.secret && t.expiresAt == r.expiresAt
                   && t.failures == 0 && t.lockedUntil == 0.0
                   && (if exists c: nat :: Fits(mac, r, now, code, c) then
                         t.lastCounter >= 0 && Fits(mac, r, now, code, t.lastCounter)
                       else t.lastCounter == r.lastCounter)
                   && (if enroll then t.recovery == codes
                       else multiset(t.recovery) == multiset(r.recovery) - multiset{code})
                 else
                   && answer == No
                   && t == r.(failures := r.failures + 1,
                              lockedUntil := if r.failures + 1 >= 5 then now + 300.0 else r.lockedUntil)
  {
    hide Fits, Matched, Without;
    if m.Some? {
      FoundWhereItFits(mac, m.value, now, code);
      if code in m.value.recovery { WithoutTakesOne(m.value.recovery, code); }
    }
  }

  lemma {:induction false} WithoutTakesOne(s: seq<string>, x: string)
    requires x in s
    ensures multiset(Without(s, x)) == multiset(s) - multiset{x}
    decreases |s|
  {
    assert s == [s[0]] + s[1..];
    if s[0] != x {
      WithoutTakesOne(s[1..], x);
    }
  }

  function Begun(m: Option<Record>, now: real, secret: Secret): Option<Record> {
    match m
    case None => Some(Record(secret, false, now + 600.0, -1, [], 0, 0.0))
    case Some(r) =>
      if r.enabled then m
      else Some(r.(secret := secret, expiresAt := now + 600.0, lastCounter := -1, failures := 0, lockedUntil := 0.0))
  }

  // ---------------------------------------------------------------- the record as it is updated

  class UserMfa {
    var secret: Secret
    var enabled: bool
    var expiresAt: real
    var lastCounter: int
    var recovery: seq<string>
    var failures: nat
    var lockedUntil: real

    ghost function Row(): Record
      reads this
    {
      Record(secret, enabled, expiresAt, lastCounter, recovery, failures, lockedUntil)
    }

    constructor (secret: Secret, expiresAt: real)
      ensures Row() == Record(secret, false, expiresAt, -1, [], 0, 0.0)
    {
      this.secret, this.expiresAt := secret, expiresAt;
      enabled, lastCounter, recovery, failures, lockedUntil := false, -1, [], 0, 0.0;
    }

    /** The first of the steps around now that has this code and was not used before. */
    method FirstMatch(mac: Mac, now: real, code: string) returns (matched: Option<nat>)
      ensures matched == Matched(mac, Row(), now, code)
    {
      matched := None;
      var c := Counter(now) - 1;
      while c < Counter(now) + 2 && matched.None?
        invariant Matched(mac, Row(), now, code)
               == if matched.None? then Match(mac, Row(), now, code, c) else matched
      {
        if c > lastCounter && c >= 0 {
          if Totp(mac, secret, c) == code {
            matched := Some(c);
          }
        }
        c := c + 1;
      }
    }
  }

  class Account {
    var mfa: UserMfa?

    ghost function Row(): Option<Record>
      reads this, mfa
    {
      if mfa == null then None else Some(mfa.Row())
    }

    method BeginEnrollment(now: real, secret: Secret) returns (ok: bool)
      modifies this, mfa
      ensures Row() == Begun(old(Row()), now, secret)
      ensures !ok ==> Row() == old(Row())
      ensures ok ==> Row().Some?
      ensures ok ==> var m := Row().value;
                && !m.enabled && m.secret == secret && m.expiresAt == now + 600.0
                && m.lastCounter == -1 && m.failures == 0 && m.lockedUntil == 0.0
                && m.recovery == if old(Row()).Some? then old(Row()).value.recovery else []
      ensures ok <==> !(old(Row()).Some? && old(Row()).value.enabled)
    {
      if mfa != null && mfa.enabled {
        return false;
      }
      if mfa == null {
        mfa := new UserMfa(secret, now + 600.0);
      } else {
        mfa.secret, mfa.expiresAt := secret, now + 600.0;
        mfa.lastCounter, mfa.failures, mfa.lockedUntil := -1, 0, 0.0;
      }
      return true;
    }

    /** `codes` are the recovery codes an enrolment would draw. */
    method Verify(mac: Mac, now: real, code: string, enroll: bool, codes: seq<string>) returns (answer: Answer)
      modifies mfa
      ensures mfa == old(mfa) && (Row(), answer) == Verified(mac, old(Row()), now, code, enroll, codes)
    {
      hide Totp, Match, Matched, Without;
      if mfa == null || mfa.enabled == enroll || mfa.lockedUntil > now {
        return No;
      }
      if enroll && mfa.expiresAt < now {
        return No;
      }
      var matched := mfa.FirstMatch(mac, now, code);
      var recovers := !enroll && code in mfa.recovery;
      if matched.None? && !recovers {
        mfa.failures := mfa.failures + 1;
        if mfa.failures >= 5 {
          mfa.lockedUntil := now + 300.0;
        }
        return No;
      }
      if recovers {
        mfa.recovery := Without(mfa.recovery, code);
      }
      var drawn := [];
      if enroll {
        drawn := codes;
        mfa.recovery := codes;
      }
      mfa.enabled := true;
      mfa.lastCounter := if matched.Some? then matched.value else mfa.lastCounter;
      mfa.failures, mfa.lockedUntil := 0, 0.0;
      return Yes(drawn);
    }
  }
}
