/** Sending a request again only where it cannot have been processed, or may be processed twice. */
module Retry {
  import opened Options

  datatype RetryAfter = NotSent | Seconds(n: int) | Unparsable

  /** What one send meets: an answer, a transport error from before anything was sent, one from
      after, or an error of another kind. */
  datatype Met = Response(status: nat, retryAfter: RetryAfter) | BeforeSending | AfterSending | OtherError

  datatype Result = Answered(status: nat) | Exhausted(attempts: int, lastStatus: Option<nat>) | Propagated

  const MAX_BACKOFF := 30.0

  function Upper(s: string): string {
    if s == "" then "" else [if 'a' <= s[0] <= 'z' then s[0] - 'a' + 'A' else s[0]] + Upper(s[1..])
  }

  predicate Idempotent(httpMethod: string) {
    Upper(httpMethod) in {"GET", "HEAD", "OPTIONS"}
  }

  lemma {:induction false} UpperLetters(s: string)
    ensures |Upper(s)| == |s|
    ensures forall i :: 0 <= i < |s| ==>
              Upper(s)[i] == if 'a' <= s[i] <= 'z' then (s[i] as int - 32) as char else s[i]
    decreases |s|
  {
    if s != "" {
      UpperLetters(s[1..]);
    }
  }

  /** The same letters, in whichever case. */
  predicate Spells(s: string, capitals: string) {
    |s| == |capitals| && forall i :: 0 <= i < |s| ==> s[i] == capitals[i] || s[i] as int == capitals[i] as int + 32
  }

  lemma UpperSpells(s: string, capitals: string)
    requires forall i :: 0 <= i < |capitals| ==> 'A' <= capitals[i] <= 'Z'
    ensures Upper(s) == capitals <==> Spells(s, capitals)
  {
    UpperLetters(s);
  }

  /** Only these three methods are taken to be repeatable, in whichever case they are written. */
  lemma RepeatableMethods(httpMethod: string)
    ensures Idempotent(httpMethod) <==>
              Spells(httpMethod, "GET") || Spells(httpMethod, "HEAD") || Spells(httpMethod, "OPTIONS")
  {
    hide Upper, Spells;
    UpperSpells(httpMethod, "GET");
    UpperSpells(httpMethod, "HEAD");
    UpperSpells(httpMethod, "OPTIONS");
  }

  /** Refused or never sent: 429 (section 4 of RFC 6585), or an error from before sending. */
  predicate NotProcessed(m: Met) {
    m.BeforeSending? || (m.Response? && m.status == 429)
  }

  predicate Retryable(m: Met, idempotent: bool) {
    NotProcessed(m) || (idempotent && (m.AfterSending? || (m.Response? && m.status >= 500)))
  }

  function StatusOf(m: Met): Option<nat> {
    if m.Response? then Some(m.status) else None
  }

  function Least(a: real, b: real): real {
    if a <= b then a else b
  }

  function Doubled(n: nat): (r: real)
    ensures r >= 1.0
  {
    if n == 0 then 1.0 else 2.0 * Doubled(n - 1)
  }

  /** The server's own figure where it gives one; else doubling, with up to a second of jitter. */
  function Backoff(attempt: nat, retryAfter: RetryAfter, jitter: real): (wait: real)
    ensures wait <= MAX_BACKOFF
    ensures retryAfter.Seconds? ==> wait == if retryAfter.n <= 30 then retryAfter.n as real else 30.0
    ensures !retryAfter.Seconds? && 0.0 <= jitter ==> wait >= 1.0
  {
    match retryAfter
    case Seconds(n) => Least(n as real, MAX_BACKOFF)
    case _ => Least(Doubled(attempt) + jitter, MAX_BACKOFF)
  }

  lemma {:induction false} DoubledPast(n: nat)
    requires n >= 5
    ensures Doubled(n) >= 32.0
    decreases n
  {
    if n > 5 {
      DoubledPast(n - 1);
    } else {
      assert Doubled(2) == 4.0;
    }
  }

  /** Without a figure of the server's it waits a second, then two, four, eight and sixteen, each with
      its jitter, and thirty from the sixth time on. */
  lemma WaitsDouble(attempt: nat, retryAfter: RetryAfter, jitter: real)
    requires !retryAfter.Seconds? && 0.0 <= jitter <= 1.0
    ensures attempt < 5 ==> Backoff(attempt, retryAfter, jitter) == [1.0, 2.0, 4.0, 8.0, 16.0][attempt] + jitter
    ensures attempt >= 5 ==> Backoff(attempt, retryAfter, jitter) == 30.0
  {
    if attempt >= 5 {
      DoubledPast(attempt);
    } else {
      assert Doubled(1) == 2.0;
      assert Doubled(2) == 4.0;
      assert Doubled(3) == 8.0;
      assert Doubled(4) == 16.0;
    }
  }

  // ---------------------------------------------------------------- how a call may end

  /** All sends but the last could be repeated, and the last decides. */
  ghost predicate Ends(world: seq<Met>, idempotent: bool, attempts: int, sent: nat, result: Result) {
    && sent <= |world|
    && (forall k :: 0 <= k < sent - 1 ==> Retryable(world[k], idempotent))
    && if attempts <= 0 then sent == 0 && result == Exhausted(attempts, None)
       else
         && 0 < sent <= attempts
         && var last := world[sent - 1];
            if Retryable(last, idempotent) then sent == attempts && result == Exhausted(attempts, StatusOf(last))
            else match last
              case Response(status, _) => result == Answered(status)
              case AfterSending => result == Exhausted(sent, None)
              case _ => result == Propagated
  }

  /** `world[k]` is what the k-th send would meet, `jitters[k]` the jitter then drawn. */
  method SendWithRetry(world: seq<Met>, jitters: seq<real>, httpMethod: string, attempts: int)
    returns (result: Result, sent: nat, waits: seq<real>)
    requires |world| >= attempts && |jitters| >= attempts
    ensures Ends(world, Idempotent(httpMethod), attempts, sent, result)
    ensures |waits| == if sent == 0 then 0 else sent - 1
    ensures forall k :: 0 <= k < |waits| ==>
              waits[k] == Backoff(k, if world[k].Response? then world[k].retryAfter else NotSent, jitters[k])
  {
    var idempotent := Idempotent(httpMethod);
    var lastStatus: Option<nat> := None;
    waits, sent := [], 0;
    var attempt := 0;
    while attempt < attempts
      invariant 0 <= attempt && (attempt == 0 || attempt < attempts)
      invariant sent == attempt == |waits|
      invariant forall k :: 0 <= k < attempt ==> Retryable(world[k], idempotent)
      invariant attempt == 0 ==> lastStatus == None
      invariant forall k :: 0 <= k < |waits| ==>
                  waits[k] == Backoff(k, if world[k].Response? then world[k].retryAfter else NotSent, jitters[k])
    {
      var met := world[attempt];
      sent := sent + 1;
      match met {
        case OtherError =>
          return Propagated, sent, waits;
        case BeforeSending | AfterSending =>
          lastStatus := None;
          if !(met.BeforeSending? || idempotent) {
            return Exhausted(attempt + 1, None), sent, waits;
          }
          if attempt == attempts - 1 {
            return Exhausted(attempts, None), sent, waits;
          }
          waits := waits + [Backoff(attempt, NotSent, jitters[attempt])];
        case Response(status, retryAfter) =>
          lastStatus := Some(status);
          if status == 429 || (status >= 500 && idempotent) {
            if attempt == attempts - 1 {
              break;
            }
            waits := waits + [Backoff(attempt, retryAfter, jitters[attempt])];
          } else {
            return Answered(status), sent, waits;
          }
      }
      attempt := attempt + 1;
    }
    return Exhausted(attempts, lastStatus), sent, waits;
  }

  /** What a call meets decides how it ends. */
  lemma OneEnding(world: seq<Met>, idempotent: bool, attempts: int, a: nat, r: Result, b: nat, s: Result)
    requires Ends(world, idempotent, attempts, a, r) && Ends(world, idempotent, attempts, b, s)
    ensures a == b && r == s
  {
  }

  /** A send is followed by another exactly if attempts are left and it was refused with 429, never
      left, or may be repeated and met an error from after sending or a server error. */
  lemma WhatACallComesTo(world: seq<Met>, idempotent: bool, attempts: int, sent: nat, result: Result)
    requires Ends(world, idempotent, attempts, sent, result)
    ensures attempts <= 0 ==> sent == 0 && result == Exhausted(attempts, None)
    ensures attempts > 0 ==> 0 < sent <= attempts && sent <= |world|
    ensures forall k :: 0 <= k < sent ==>
              match world[k]
              case Response(status, _) =>
                if status == 429 || (status >= 500 && idempotent) then
                  k == sent - 1 ==> sent == attempts && result == Exhausted(attempts, Some(status))
                else k == sent - 1 && result == Answered(status)
              case BeforeSending => k == sent - 1 ==> sent == attempts && result == Exhausted(attempts, None)
              case AfterSending =>
                if idempotent then k == sent - 1 ==> sent == attempts && result == Exhausted(attempts, None)
                else k == sent - 1 && result == Exhausted(sent, None)
              case OtherError => k == sent - 1 && result == Propagated
  {
  }

  // ---------------------------------------------------------------- what that means for the server

  /** How many of the first n sends the server did process. */
  function Processed(done: seq<bool>, n: nat): nat
    requires n <= |done|
  {
    if n == 0 then 0 else Processed(done, n - 1) + if done[n - 1] then 1 else 0
  }

  lemma {:induction false} NoneProcessed(world: seq<Met>, done: seq<bool>, n: nat)
    requires n <= |done| <= |world|
    requires forall k :: 0 <= k < n ==> NotProcessed(world[k]) && (NotProcessed(world[k]) ==> !done[k])
    ensures Processed(done, n) == 0
  {
    if n > 0 {
      NoneProcessed(world, done, n - 1);
    }
  }

  /** A request that is not idempotent is processed at most once, and nothing is sent after a send
      that may have been. */
  lemma ProcessedAtMostOnce(world: seq<Met>, attempts: int, sent: nat, result: Result, done: seq<bool>)
    requires Ends(world, false, attempts, sent, result) && sent <= |done| <= |world|
    requires forall k :: 0 <= k < |done| ==> NotProcessed(world[k]) ==> !done[k]
    ensures Processed(done, sent) <= 1
    ensures forall j, k :: 0 <= j < k < sent ==> !(done[j] && done[k])
    ensures forall k :: 0 <= k < sent - 1 ==> NotProcessed(world[k]) && !done[k]
    ensures result.Exhausted? && Processed(done, sent) == 1 ==> result.lastStatus.None? && world[sent - 1].AfterSending?
  {
    if sent > 0 {
      assert forall k :: 0 <= k < sent - 1 ==> Retryable(world[k], false);
      NoneProcessed(world, done, sent - 1);
    }
  }

  /** No method's caller is handed a 429, and none with an idempotent one a server error; an
      answer is one the server gave. */
  lemma NoFailureIsReturned(world: seq<Met>, idempotent: bool, attempts: int, sent: nat, result: Result)
    requires Ends(world, idempotent, attempts, sent, result) && result.Answered?
    ensures result.status != 429 && (idempotent ==> result.status < 500)
    ensures sent > 0 && world[sent - 1].Response? && world[sent - 1].status == result.status
  {
  }

  /** A call gives up before its attempts are spent only on a request that may have gone through
      and must not be repeated. */
  lemma GivingUpEarly(world: seq<Met>, idempotent: bool, attempts: int, sent: nat, result: Result)
    requires Ends(world, idempotent, attempts, sent, result)
    ensures result.Exhausted? && 0 < attempts && sent < attempts ==> !idempotent && world[sent - 1].AfterSending?
    ensures (exists k :: 0 <= k < attempts && k < |world| && !Retryable(world[k], idempotent)
               && (forall j :: 0 <= j < k ==> Retryable(world[j], idempotent)) && world[k].Response?)
            <==> result.Answered?
  {
  }
}
