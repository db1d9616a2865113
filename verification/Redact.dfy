/** Taking secrets out of text: known strings first, then long runs of token characters. */
module Redact {
  import opened Options

  const MASK := "***REDACTED***"
  const WORD := "REDACTED"
  const MIN_EXACT := 6
  const MIN_RUN := 24

  predicate IsToken(c: char) {
    'A' <= c <= 'Z' || 'a' <= c <= 'z' || '0' <= c <= '9' || c == '_' || c == '-'
  }

  /** By code points: digits, letters of ASCII, the hyphen and the underscore. */
  lemma TokenCharacters(c: char)
    ensures IsToken(c) <==>
              var n := c as int; 48 <= n <= 57 || 65 <= n <= 90 || 97 <= n <= 122 || n == 45 || n == 95
  {
  }

  predicate AllToken(s: string) {
    forall i :: 0 <= i < |s| ==> IsToken(s[i])
  }

  /** What a pass looks for: one string, or an unbroken run with up to two signs of padding. */
  datatype Pattern = Exact(secret: string) | Shape

  function Run(t: string): (n: nat)
    ensures n <= |t| && AllToken(t[..n]) && (n < |t| ==> !IsToken(t[n]))
  {
    if t == "" || !IsToken(t[0]) then 0 else 1 + Run(t[1..])
  }

  function Padding(t: string): (n: nat)
    ensures n <= |t|
  {
    if t == "" || t[0] != '=' then 0 else if |t| == 1 || t[1] != '=' then 1 else 2
  }

  /** The length of the match at the front of t, zero for none. */
  function Matched(p: Pattern, t: string): (n: nat)
    ensures n <= |t|
  {
    match p
    case Exact(secret) => if secret <= t then |secret| else 0
    case Shape => if Run(t) >= MIN_RUN then Run(t) + Padding(t[Run(t)..]) else 0
  }

  /** Every match from left to right, none overlapping, becomes the mask. */
  function Masked(p: Pattern, t: string): string
    decreases |t|
  {
    if t == "" then ""
    else if Matched(p, t) > 0 then MASK + Masked(p, t[Matched(p, t)..])
    else [t[0]] + Masked(p, t[1..])
  }

  /** None and strings too short to mask are passed over. */
  predicate Counts(secret: Option<string>) {
    secret.Some? && |secret.value| >= MIN_EXACT
  }

  function ExactPass(text: string, known: seq<Option<string>>): string
    decreases |known|
  {
    if known == [] then text
    else ExactPass(if Counts(known[0]) then Masked(Exact(known[0].value), text) else text, known[1..])
  }

  function Redacted(text: string, known: seq<Option<string>>): string {
    Masked(Shape, ExactPass(text, known))
  }

  method Redact(text: string, known: seq<Option<string>>) returns (out: string)
    ensures out == Redacted(text, known)
  {
    if text == "" {
      NothingInNothing(known);
      return text;
    }
    out := text;
    for k := 0 to |known|
      invariant ExactPass(out, known[k..]) == ExactPass(text, known)
    {
      assert known[k..][0] == known[k] && known[k..][1..] == known[k + 1..];
      if Counts(known[k]) {
        out := Masked(Exact(known[k].value), out);
      }
    }
    out := Masked(Shape, out);
  }

  lemma {:induction false} NothingInNothing(known: seq<Option<string>>)
    ensures ExactPass("", known) == ""
    decreases |known|
  {
    if known != [] {
      NothingInNothing(known[1..]);
    }
  }

  // ---------------------------------------------------------------- what can be in the output

  ghost predicate Has(t: string, s: string) {
    exists i :: 0 <= i <= |t| && s <= t[i..]
  }

  predicate EndsTheMask(x: string) {
    |x| <= |MASK| && x == MASK[|MASK| - |x|..]
  }

  /** A piece of the mask, or around it, or one that can overlap it at either side. */
  ghost predicate Touches(s: string) {
    || Has(MASK, s)
    || Has(s, MASK)
    || (exists k :: 0 < k < |s| && EndsTheMask(s[..k]))
    || (exists k :: 0 < k < |s| && s[k..] <= MASK)
  }

  /** Where the mask overlaps a string, the string touches it. */
  lemma InsideTheMask(s: string, rest: string, i: nat)
    requires s != "" && i < |MASK| && s <= (MASK + rest)[i..]
    ensures Touches(s)
  {
    assert forall j :: 0 <= j < |s| ==> s[j] == (MASK + rest)[i + j];
    var k := |MASK| - i;
    if |s| <= k {
      assert s <= MASK[i..];
    } else if i == 0 {
      assert MASK <= s[0..];
    } else {
      assert s[..k] == MASK[i..];
      assert EndsTheMask(s[..k]);
    }
  }

  /** No end of the string is the beginning of a mask, or of one and more. */
  ghost predicate Clear(s: string) {
    forall j :: 0 <= j < |s| ==> !(s[j..] <= MASK) && !(MASK <= s[j..])
  }

  lemma NotTouchingIsClear(s: string)
    requires !Touches(s)
    ensures Clear(s)
  {
    forall j | 0 <= j < |s| ensures !(s[j..] <= MASK) && !(MASK <= s[j..]) {
      assert s[0..] == s && MASK[0..] == MASK;
    }
  }

  /** A front of the output at which no mask can begin was already the front of the text. */
  lemma {:induction false} FrontWasThere(p: Pattern, t: string, s: string)
    requires Clear(s) && s <= Masked(p, t)
    ensures s <= t
    decreases |t|
  {
    if s != "" && t != "" {
      OutputStep(p, t);
      hide Matched, Masked;
      TailIsClear(s);
      if Matched(p, t) == 0 {
        assert s[0] == Masked(p, t)[0] && s[1..] <= Masked(p, t)[1..];
        FrontWasThere(p, t[1..], s[1..]);
      } else {
        OneIsTheFront(s, MASK, Masked(p, t[Matched(p, t)..]));
      }
    }
  }

  lemma OutputStep(p: Pattern, t: string)
    requires t != ""
    ensures Masked(p, t) == if Matched(p, t) > 0 then MASK + Masked(p, t[Matched(p, t)..])
                            else [t[0]] + Masked(p, t[1..])
  {
  }

  lemma TailIsClear(s: string)
    requires s != "" && Clear(s)
    ensures Clear(s[1..]) && !(s <= MASK) && !(MASK <= s)
  {
    assert s[0..] == s;
    assert forall j :: 0 <= j < |s| - 1 ==> s[1..][j..] == s[j + 1..];
  }

  lemma OneIsTheFront(a: string, b: string, rest: string)
    requires a <= b + rest
    ensures a <= b || b <= a
  {
    if |a| <= |b| {
      assert a == b[..|a|];
    } else {
      assert b == a[..|b|];
    }
  }

  /** A string all of whose places in the text are matches is not in the output, unless it
      touches the mask. */
  lemma {:induction false} MaskedHasNone(p: Pattern, t: string, s: string)
    requires s != "" && !Touches(s)
    requires forall i :: 0 <= i <= |t| && s <= t[i..] ==> Matched(p, t[i..]) > 0
    ensures !Has(Masked(p, t), s)
    decreases |t|
  {
    hide Matched, Touches, Clear;
    if t != "" {
      var skip := if Matched(p, t) > 0 then Matched(p, t) else 1;
      assert forall i :: 0 <= i <= |t[skip..]| ==> t[skip..][i..] == t[skip + i..];
      MaskedHasNone(p, t[skip..], s);
      if Matched(p, t) > 0 {
        MaskBringsNone(Masked(p, t[skip..]), s);
      } else {
        assert t[0..] == t;
        NotTouchingIsClear(s);
        if s <= Masked(p, t) { FrontWasThere(p, t, s); }
        OneMoreCharacter(t[0], Masked(p, t[1..]), s);
      }
    }
  }

  lemma MaskBringsNone(rest: string, s: string)
    requires s != "" && !Touches(s) && !Has(rest, s)
    ensures !Has(MASK + rest, s)
  {
    hide Touches;
    forall i | 0 <= i <= |MASK + rest| ensures !(s <= (MASK + rest)[i..]) {
      if i >= |MASK| {
        assert (MASK + rest)[i..] == rest[i - |MASK|..];
      } else if s <= (MASK + rest)[i..] {
        InsideTheMask(s, rest, i);
      }
    }
  }

  /** Without an asterisk only a piece of the mask's word can touch it. */
  lemma WithoutAsterisks(s: string)
    requires s != "" && '*' !in s
    ensures Touches(s) <==> Has(WORD, s)
  {
    hide Touches;
    if Touches(s) { TouchingHasAsterisks(s); }
    if Has(WORD, s) { WordTouches(s); }
  }

  lemma WordTouches(s: string)
    requires Has(WORD, s)
    ensures Touches(s)
  {
    MaskHolds(s);
  }

  lemma TouchingHasAsterisks(s: string)
    requires s != "" && Touches(s)
    ensures Has(WORD, s) || '*' in s
  {
    assert MASK[0] == '*' && MASK[13] == '*' && |MASK| == 14;
    if i :| 0 <= i <= |MASK| && s <= MASK[i..] {
      PieceOfTheWord(s, i);
    } else if i :| 0 <= i <= |s| && MASK <= s[i..] {
      assert s[i] == MASK[0];
    } else if k :| 0 < k < |s| && EndsTheMask(s[..k]) {
      assert s[k - 1] == s[..k][k - 1] == MASK[13];
    } else {
      var k :| 0 < k < |s| && s[k..] <= MASK;
      assert s[k] == s[k..][0] == MASK[0];
    }
  }

  lemma PieceOfTheWord(s: string, i: nat)
    requires s != "" && i <= |MASK| && s <= MASK[i..]
    ensures Has(WORD, s) || '*' in s
  {
    if '*' !in s {
      NoStarInside(s, i);
      assert MASK[i] != '*' && i < 14;
      InTheMiddle(i, |s|);
      PieceOfTheMiddle(s, i);
    }
  }

  lemma NoStarInside(s: string, i: nat)
    requires i <= |MASK| && s <= MASK[i..] && '*' !in s
    ensures i + |s| <= |MASK| && forall m :: i <= m < i + |s| ==> MASK[m] != '*'
  {
    forall m | i <= m < i + |s| ensures MASK[m] != '*' {
      assert s[m - i] == MASK[i..][m - i];
    }
  }

  lemma InTheMiddle(i: nat, n: nat)
    requires n > 0 && i + n <= |MASK| && forall m :: i <= m < i + n ==> MASK[m] != '*'
    ensures 3 <= i && i + n <= 11
  {
    assert MASK[0] == MASK[1] == MASK[2] == MASK[11] == MASK[12] == MASK[13] == '*' && |MASK| == 14;
    assert MASK[i] != '*';
    assert MASK[i + n - 1] != '*';
  }

  lemma PieceOfTheMiddle(s: string, i: nat)
    requires 3 <= i && i + |s| <= 11 && s <= MASK[i..]
    ensures Has(WORD, s)
  {
    WordIsInside();
    assert |WORD| == 8;
    forall k | 0 <= k < |s| ensures s[k] == WORD[i - 3 + k] {
      assert s[k] == MASK[i..][k];
    }
    IsPieceAt(WORD, i - 3, s);
  }

  lemma IsPieceAt(t: string, i: nat, s: string)
    requires i + |s| <= |t| && forall k :: 0 <= k < |s| ==> s[k] == t[i + k]
    ensures s <= t[i..] && Has(t, s)
  {
  }

  lemma MaskHolds(s: string)
    requires Has(WORD, s)
    ensures Has(MASK, s)
  {
    var i :| 0 <= i <= |WORD| && s <= WORD[i..];
    WordIsInside();
    assert forall k :: 0 <= k < |s| ==> s[k] == WORD[i + k] == MASK[i + k + 3];
    IsPieceAt(MASK, i + 3, s);
  }

  lemma WordIsInside()
    ensures |WORD| + 6 == |MASK| && forall k :: 0 <= k < |WORD| ==> WORD[k] == MASK[k + 3]
  {
    assert MASK[3..11] == WORD;
  }

  lemma OneMoreCharacter(c: char, rest: string, s: string)
    requires !(s <= [c] + rest) && !Has(rest, s)
    ensures !Has([c] + rest, s)
  {
    assert ([c] + rest)[0..] == [c] + rest;
    assert forall i :: 1 <= i <= |rest| + 1 ==> ([c] + rest)[i..] == rest[i - 1..];
  }

  ghost predicate LongRun(t: string) {
    exists w :: AllToken(w) && |w| >= MIN_RUN && Has(t, w)
  }

  lemma RunIsLongest(t: string, w: string)
    requires AllToken(w) && w <= t
    ensures Run(t) >= |w|
    decreases |w|
  {
  }

  lemma TokensDoNotTouch(w: string)
    requires AllToken(w) && |w| >= MIN_RUN
    ensures !Touches(w) && '*' !in w
  {
    assert !IsToken('*');
    WithoutAsterisks(w);
  }

  /** The shape pass leaves no run of 24 token characters, however the text is made. */
  lemma ShapedHasNoLongRun(t: string)
    ensures !LongRun(Masked(Shape, t))
  {
    forall w | AllToken(w) && |w| >= MIN_RUN ensures !Has(Masked(Shape, t), w) {
      TokensDoNotTouch(w);
      forall i | 0 <= i <= |t| && w <= t[i..] ensures Matched(Shape, t[i..]) > 0 {
        RunIsLongest(t[i..], w);
      }
      MaskedHasNone(Shape, t, w);
    }
  }

  /** Whatever was passed as known, no long run of token characters is in the output. */
  lemma OutputHasNoLongRun(text: string, known: seq<Option<string>>)
    ensures !LongRun(Redacted(text, known))
  {
    ShapedHasNoLongRun(ExactPass(text, known));
  }

  lemma {:induction false} UnmatchedIsKept(p: Pattern, t: string)
    requires forall i :: 0 <= i < |t| ==> Matched(p, t[i..]) == 0
    ensures Masked(p, t) == t
    decreases |t|
  {
    if t != "" {
      assert t[0..] == t;
      assert forall i :: 0 <= i < |t[1..]| ==> t[1..][i..] == t[i + 1..];
      UnmatchedIsKept(p, t[1..]);
    }
  }

  lemma NoLongRunIsKept(t: string)
    requires !LongRun(t)
    ensures Masked(Shape, t) == t
  {
    forall i | 0 <= i < |t| ensures Matched(Shape, t[i..]) == 0 {
      if Run(t[i..]) >= MIN_RUN {
        assert Has(t, t[i..][..Run(t[i..])]);
      }
    }
    UnmatchedIsKept(Shape, t);
  }

  lemma ShapingAgainChangesNothing(t: string)
    ensures Masked(Shape, Masked(Shape, t)) == Masked(Shape, t)
  {
    ShapedHasNoLongRun(t);
    NoLongRunIsKept(Masked(Shape, t));
  }

  // ---------------------------------------------------------------- what exactly is masked

  lemma {:induction false} FrontIsKept(p: Pattern, u: string, t: string)
    requires forall i :: 0 <= i < |u| ==> Matched(p, (u + t)[i..]) == 0
    ensures Masked(p, u + t) == u + Masked(p, t)
    decreases |u|
  {
    hide Matched, Masked;
    if u == "" {
      assert u + t == t;
    } else {
      var rest := u[1..] + t;
      OneFromTheFront(u, t);
      forall i | 0 <= i < |u[1..]| ensures Matched(p, rest[i..]) == 0 {
        assert rest[i..] == (u + t)[i + 1..];
      }
      assert Matched(p, (u + t)[0..]) == 0 && (u + t)[0..] == u + t;
      OutputStep(p, u + t);
      FrontIsKept(p, u[1..], t);
      OneInFront(u, Masked(p, t));
    }
  }

  lemma OneFromTheFront(u: string, t: string)
    requires u != ""
    ensures (u + t)[0] == u[0] && (u + t)[1..] == u[1..] + t
  {
  }

  lemma OneInFront(u: string, t: string)
    requires u != ""
    ensures [u[0]] + (u[1..] + t) == u + t
  {
  }

  /** The first occurrence of a secret becomes the mask, what is before it stays, and what is after it
      is treated as a text of its own. */
  lemma FirstSecretIsMasked(s: string, u: string, rest: string)
    requires s != "" && forall i :: 0 <= i < |u| ==> !(s <= (u + s + rest)[i..])
    ensures Masked(Exact(s), u + s + rest) == u + MASK + Masked(Exact(s), rest)
  {
    assert u + s + rest == u + (s + rest);
    FrontIsKept(Exact(s), u, s + rest);
    assert (s + rest)[|s|..] == rest;
    assert Masked(Exact(s), s + rest) == MASK + Masked(Exact(s), rest);
  }

  lemma {:induction false} RunOf(run: string, after: string)
    requires AllToken(run) && (after == "" || !IsToken(after[0]))
    ensures Run(run + after) == |run|
    decreases |run|
  {
    if run == "" {
      assert run + after == after;
    } else {
      assert (run + after)[1..] == run[1..] + after;
      RunOf(run[1..], after);
    }
  }

  lemma ShortRunsOnly(u: string, t: string, i: nat)
    requires !LongRun(u) && i < |u| && !IsToken(u[|u| - 1])
    ensures Matched(Shape, (u + t)[i..]) == 0
  {
    var v, n := (u + t)[i..], Run((u + t)[i..]);
    assert v[|u| - 1 - i] == u[|u| - 1];
    RunStopsAt(v, |u| - 1 - i);
    assert v[..n] <= u[i..];
    assert Has(u, v[..n]);
  }

  lemma {:induction false} RunStopsAt(t: string, m: nat)
    requires m < |t| && !IsToken(t[m])
    ensures Run(t) <= m
    decreases m
  {
    if m > 0 {
      RunStopsAt(t[1..], m - 1);
    }
  }

  /** The first unbroken run of 24 token characters or more becomes the mask, whole and with up to two
      signs of padding; what is before it stays, and what is after it is treated for itself. */
  lemma FirstRunIsMasked(u: string, run: string, padding: string, rest: string)
    requires !LongRun(u) && (u == "" || !IsToken(u[|u| - 1]))
    requires AllToken(run) && |run| >= 24
    requires padding == "" || padding == "=" || padding == "=="
    requires padding != "==" ==> rest == "" || rest[0] != '='
    requires padding == "" ==> rest == "" || !IsToken(rest[0])
    ensures Masked(Shape, u + run + padding + rest) == u + MASK + Masked(Shape, rest)
  {
    hide Masked, Matched, LongRun, AllToken, Run;
    var t := run + (padding + rest);
    GroupedFromTheRight(u, run, padding, rest);
    forall i | 0 <= i < |u| ensures Matched(Shape, (u + t)[i..]) == 0 {
      ShortRunsOnly(u, t, i);
    }
    FrontIsKept(Shape, u, t);
    RunIsMatched(run, padding, rest);
    OutputStep(Shape, t);
    Regroup(u, MASK, Masked(Shape, rest));
  }

  lemma GroupedFromTheRight(a: string, b: string, c: string, d: string)
    ensures a + b + c + d == a + (b + (c + d))
  {
  }

  lemma Regroup(u: string, m: string, v: string)
    ensures u + (m + v) == u + m + v
  {
  }

  lemma RunIsMatched(run: string, padding: string, rest: string)
    requires AllToken(run) && |run| >= 24
    requires padding == "" || padding == "=" || padding == "=="
    requires padding != "==" ==> rest == "" || rest[0] != '='
    requires padding == "" ==> rest == "" || !IsToken(rest[0])
    ensures var t := run + (padding + rest);
            t != "" && Matched(Shape, t) == |run| + |padding| && t[|run| + |padding|..] == rest
  {
    var after := padding + rest;
    assert padding == "" ==> after == rest;
    assert padding != "" ==> after[0] == '=' && !IsToken('=');
    RunOf(run, after);
    assert (run + after)[|run|..] == after;
    PaddingIs(padding, rest);
    hide Run, Padding, AllToken;
    assert (run + after)[|run| + |padding|..] == after[|padding|..] == rest;
  }

  lemma PaddingIs(padding: string, rest: string)
    requires padding == "" || padding == "=" || padding == "=="
    requires padding != "==" ==> rest == "" || rest[0] != '='
    ensures Padding(padding + rest) == |padding|
  {
  }

  /** The known secrets of six characters or more are masked one after the other, each in what the ones
      before it left, and runs are looked for at the end. */
  lemma KnownSecretsFirst(text: string, known: seq<Option<string>>)
    ensures known == [] ==> Redacted(text, known) == Masked(Shape, text)
    ensures known != [] ==>
              var one := known[0];
              Redacted(text, known)
              == Redacted(if one.Some? && |one.value| >= 6 then Masked(Exact(one.value), text) else text, known[1..])
  {
  }

  // ---------------------------------------------------------------- supplied secrets

  lemma {:induction false} ExactPassBringsNothing(t: string, known: seq<Option<string>>, s: string)
    requires s != "" && !Touches(s) && !Has(t, s)
    ensures !Has(ExactPass(t, known), s)
    decreases |known|
  {
    hide Touches, Has;
    if known != [] {
      if Counts(known[0]) {
        MaskingBringsNothing(Exact(known[0].value), t, s);
        ExactPassBringsNothing(Masked(Exact(known[0].value), t), known[1..], s);
      } else {
        ExactPassBringsNothing(t, known[1..], s);
      }
    }
  }

  /** Text that does not hold s does not come to hold it by masking anything else. */
  lemma MaskingBringsNothing(p: Pattern, t: string, s: string)
    requires s != "" && !Touches(s) && !Has(t, s)
    ensures !Has(Masked(p, t), s)
  {
    MaskedHasNone(p, t, s);
  }

  lemma {:induction false} ExactPassRemoves(t: string, known: seq<Option<string>>, s: string)
    requires |s| >= MIN_EXACT && Some(s) in known && !Touches(s)
    ensures !Has(ExactPass(t, known), s)
    decreases |known|
  {
    hide Touches;
    var t' := if Counts(known[0]) then Masked(Exact(known[0].value), t) else t;
    if known[0] == Some(s) {
      MaskedHasNone(Exact(s), t, s);
      ExactPassBringsNothing(t', known[1..], s);
    } else {
      ExactPassRemoves(t', known[1..], s);
    }
  }

  lemma NotTouchingIsGone(s: string, text: string, known: seq<Option<string>>)
    requires |s| >= MIN_EXACT && Some(s) in known && !Touches(s)
    ensures !Has(Redacted(text, known), s)
  {
    hide Touches, Has;
    ExactPassRemoves(text, known, s);
    MaskingBringsNothing(Shape, ExactPass(text, known), s);
  }

  lemma LongRunIsGone(s: string, text: string, known: seq<Option<string>>)
    requires LongRun(s)
    ensures !Has(Redacted(text, known), s)
  {
    var out := Redacted(text, known);
    OutputHasNoLongRun(text, known);
    if i :| 0 <= i <= |out| && s <= out[i..] {
      var w :| AllToken(w) && |w| >= MIN_RUN && Has(s, w);
      PieceOfAPiece(out, s, i, w);
    }
  }

  lemma PieceOfAPiece(t: string, s: string, i: nat, w: string)
    requires i <= |t| && s <= t[i..] && Has(s, w)
    ensures Has(t, w)
  {
    var j :| 0 <= j <= |s| && w <= s[j..];
    assert w <= t[i + j..];
  }

  /** For a supplied secret of six characters or more: there are a text and other secrets whose
      output still has it, if and only if it has no long run of token characters and touches
      the mask. */
  lemma WhatCanSurvive(s: string)
    requires |s| >= MIN_EXACT
    ensures !LongRun(s) && Touches(s) <==>
              exists text: string, known: seq<Option<string>> :: Some(s) in known && Has(Redacted(text, known), s)
  {
    hide Touches, LongRun, Has;
    if !LongRun(s) && Touches(s) {
      var text, known := Survives(s);
      assert Some(s) in known && Has(Redacted(text, known), s);
    } else {
      forall text: string, known: seq<Option<string>> | Some(s) in known ensures !Has(Redacted(text, known), s) {
        if LongRun(s) { LongRunIsGone(s, text, known); } else { NotTouchingIsGone(s, text, known); }
      }
    }
  }

  /** A supplied secret of six characters or more and without an asterisk is in the output of no
      text at all, exactly when it is not a piece of the mask's own word. */
  lemma SecretsAreGone(s: string)
    requires |s| >= MIN_EXACT && '*' !in s
    ensures !Has(WORD, s) <==>
              forall text: string, known: seq<Option<string>> :: Some(s) in known ==> !Has(Redacted(text, known), s)
  {
    hide Touches, Has;
    WhatCanSurvive(s);
    WithoutAsterisks(s);
    if Has(WORD, s) { WordHasNoLongRun(s); }
  }

  lemma WordHasNoLongRun(s: string)
    requires Has(WORD, s)
    ensures !LongRun(s)
  {
    assert |s| <= 8;
  }

  // ---------------------------------------------------------------- a text whose output has it

  /** A run of a character that is neither a token's nor the mask's, longer than n. */
  function Filler(c: char, n: nat): string {
    seq(n + MIN_EXACT, _ => c)
  }

  predicate IsFiller(c: char) {
    c == '=' || c == '+'
  }

  function Last(u: string): Option<char> {
    if u == "" then None else Some(u[|u| - 1])
  }

  lemma NotAFront(x: string, t: string, m: nat)
    requires m < |x| && m < |t| && x[m] != t[m]
    ensures !(x <= t)
  {
  }

  lemma FirstIsKept(x: string, t: string)
    requires t != "" && !(x <= t)
    ensures Masked(Exact(x), t) == [t[0]] + Masked(Exact(x), t[1..])
  {
  }

  lemma FillerInFront(x: string, v: string)
    requires |v| < |x|
    ensures Masked(Exact(x), x + v) == MASK + v
  {
    assert (x + v)[|x|..] == v;
    UnmatchedIsKept(Exact(x), v);
  }

  /** The filler is masked just where it stands. */
  lemma {:induction false} FillerIsMasked(c: char, x: string, u: string, v: string)
    requires Last(u) != Some(c) && |u| < |x| && |v| < |x| && forall m :: 0 <= m < |x| ==> x[m] == c
    ensures Masked(Exact(x), u + x + v) == u + MASK + v
    decreases |u|
  {
    hide Masked;
    if u == "" {
      FillerInFront(x, v);
      assert u + x + v == x + v && u + MASK + v == MASK + v;
    } else {
      var t, rest := u + x + v, u[1..] + x + v;
      NotAFront(x, t, |u| - 1);
      FirstIsKept(x, t);
      assert t[0] == u[0] && t[1..] == rest;
      FillerIsMasked(c, x, u[1..], v);
      Regrouped(u, MASK, v);
    }
  }

  lemma Regrouped(u: string, m: string, v: string)
    requires u != ""
    ensures [u[0]] + (u[1..] + m + v) == u + m + v
  {
  }

  /** A character of the secret would have to be a filler's. */
  lemma FillerHidesIt(s: string, u: string, v: string, c: char, n: nat, j: nat)
    requires |u| <= j < |s| && |v| < |s| - j && s[j] != c
    ensures !Has(u + Filler(c, n) + v, s)
  {
    var t := u + Filler(c, n) + v;
    forall i | 0 <= i <= |t| ensures !(s <= t[i..]) {
      if i + |s| <= |t| {
        assert t[i..][j] == t[i + j] == c;
        NotAFront(s, t[i..], j);
      }
    }
  }

  lemma NoRunAcrossTheMask(u: string, v: string)
    requires !LongRun(u) && !LongRun(v)
    ensures !LongRun(u + MASK + v)
  {
    var t := u + MASK + v;
    assert t[|u|] == '*' && t[|u| + 13] == '*' by { assert MASK[0] == '*' && MASK[13] == '*'; }
    assert |MASK| == 14 && !IsToken('*');
    forall w | AllToken(w) && |w| >= MIN_RUN ensures !Has(t, w) {
      forall i | 0 <= i <= |t| ensures !(w <= t[i..]) {
        RunFitsNowhere(u, v, t, w, i);
      }
    }
  }

  lemma SameFront(w: string, a: string, b: string)
    requires |w| <= |a| && |w| <= |b| && a[..|w|] == b[..|w|]
    ensures w <= a <==> w <= b
  {
    assert forall m :: 0 <= m < |w| ==> a[m] == a[..|w|][m] == b[..|w|][m] == b[m];
  }

  lemma RunFitsNowhere(u: string, v: string, t: string, w: string, i: nat)
    requires t == u + MASK + v && |MASK| == 14 && i <= |t| && AllToken(w) && |w| >= MIN_RUN
    requires !LongRun(u) && !LongRun(v) && !IsToken(t[|u|]) && !IsToken(t[|u| + 13])
    ensures !(w <= t[i..])
  {
    if i + |w| <= |t| {
      if i <= |u| < i + |w| {
        NotAFront(w, t[i..], |u| - i);
      } else if i <= |u| + 13 < i + |w| {
        NotAFront(w, t[i..], |u| + 13 - i);
      } else if i + |w| <= |u| {
        SameFront(w, t[i..], u[i..]);
        assert !Has(u, w);
      } else {
        SameFront(w, t[i..], v[i - |u| - 14..]);
        assert !Has(v, w);
      }
    }
  }

  /** With such a piece on either side of the mask: the secret is not in the text, and once the
      filler is masked it is. */
  lemma Witness(s: string, u: string, v: string, c: char, j: nat) returns (text: string, known: seq<Option<string>>)
    requires |s| >= MIN_EXACT && |u| <= j < |s| && |v| < |s| - j && s[j] != c && Last(u) != Some(c)
    requires Has(u + MASK + v, s) && !LongRun(u) && !LongRun(v)
    ensures Some(s) in known && Has(Redacted(text, known), s)
  {
    var x := Filler(c, |s|);
    text, known := u + x + v, [Some(s), Some(x)];
    assert known[1..] == [Some(x)];
    hide Has, LongRun, Masked;
    FillerHidesIt(s, u, v, c, |s|, j);
    NothingIsMasked(s, text);
    FillerIsMasked(c, x, u, v);
    OnePass(text, x);
    NoRunAcrossTheMask(u, v);
    NoLongRunIsKept(u + MASK + v);
  }

  lemma NothingIsMasked(s: string, t: string)
    requires s != "" && !Has(t, s)
    ensures Masked(Exact(s), t) == t
  {
    UnmatchedIsKept(Exact(s), t);
  }

  lemma PieceHasNoLongRun(s: string, i: nat, n: nat)
    requires i <= n <= |s| && !LongRun(s)
    ensures !LongRun(s[i..n])
  {
    if w :| AllToken(w) && |w| >= MIN_RUN && Has(s[i..n], w) {
      assert s[i..n] <= s[i..];
      PieceOfAPiece(s, s[i..n], i, w);
    }
  }

  function FillerFor(u: string): (c: char)
    ensures IsFiller(c) && Last(u) != Some(c)
  {
    if Last(u) == Some('=') then '+' else '='
  }

  lemma NoFillerInTheMask(m: nat, c: char)
    requires m < |MASK| && IsFiller(c)
    ensures MASK[m] != c
  {
  }

  lemma Survives(s: string) returns (text: string, known: seq<Option<string>>)
    requires |s| >= MIN_EXACT && !LongRun(s) && Touches(s)
    ensures Some(s) in known && Has(Redacted(text, known), s)
  {
    hide LongRun;
    if Has(MASK, s) {
      text, known := s, [Some(s)];
      MaskedAlone(s);
    } else if i :| 0 <= i <= |s| && MASK <= s[i..] {
      text, known := SurvivesAround(s, i);
    } else if k :| 0 < k < |s| && EndsTheMask(s[..k]) {
      text, known := SurvivesBehind(s, k);
    } else {
      var k :| 0 < k < |s| && s[k..] <= MASK;
      text, known := SurvivesBefore(s, k);
    }
  }

  lemma SurvivesAround(s: string, i: nat) returns (text: string, known: seq<Option<string>>)
    requires |s| >= MIN_EXACT && !LongRun(s) && i <= |s| && MASK <= s[i..]
    ensures Some(s) in known && Has(Redacted(text, known), s)
  {
    hide LongRun;
    var u, v, c := s[..i], s[i + |MASK|..], FillerFor(s[..i]);
    assert s == u + MASK + v;
    assert s <= (u + MASK + v)[0..];
    assert s[i] == MASK[0];
    NoFillerInTheMask(0, c);
    assert s[0..i] == u && s[i + |MASK|..|s|] == v;
    PieceHasNoLongRun(s, 0, i);
    PieceHasNoLongRun(s, i + |MASK|, |s|);
    text, known := Witness(s, u, v, c, i);
  }

  lemma SurvivesBehind(s: string, k: nat) returns (text: string, known: seq<Option<string>>)
    requires |s| >= MIN_EXACT && !LongRun(s) && 0 < k < |s| && EndsTheMask(s[..k])
    ensures Some(s) in known && Has(Redacted(text, known), s)
  {
    hide LongRun;
    var v, c := s[k..], FillerFor("");
    EndOfTheMaskBefore(s, k);
    assert s[0] == s[..k][0] == MASK[|MASK| - k];
    NoFillerInTheMask(|MASK| - k, c);
    assert s[k..|s|] == v && s[0..0] == "";
    PieceHasNoLongRun(s, k, |s|);
    PieceHasNoLongRun(s, 0, 0);
    text, known := Witness(s, "", v, c, 0);
  }

  lemma EndOfTheMaskBefore(s: string, k: nat)
    requires 0 < k < |s| && EndsTheMask(s[..k])
    ensures s <= ("" + MASK + s[k..])[|MASK| - k..]
  {
    var v, drop := s[k..], |MASK| - k;
    assert "" + MASK + v == MASK + v;
    assert (MASK + v)[drop..] == MASK[drop..] + v;
    assert s == s[..k] + v;
  }

  lemma SurvivesBefore(s: string, k: nat) returns (text: string, known: seq<Option<string>>)
    requires |s| >= MIN_EXACT && !LongRun(s) && 0 < k < |s| && s[k..] <= MASK
    ensures Some(s) in known && Has(Redacted(text, known), s)
  {
    hide LongRun;
    var u, c := s[..k], FillerFor(s[..k]);
    assert s <= (u + MASK + "")[0..] by { assert s == u + s[k..] && u + MASK + "" == u + MASK; }
    assert s[|s| - 1] == s[k..][|s| - k - 1] == MASK[|s| - k - 1];
    NoFillerInTheMask(|s| - k - 1, c);
    assert s[0..k] == u && s[0..0] == "";
    PieceHasNoLongRun(s, 0, k);
    PieceHasNoLongRun(s, 0, 0);
    text, known := Witness(s, u, "", c, |s| - 1);
  }

  lemma MaskedAlone(s: string)
    requires |s| >= MIN_EXACT
    ensures Redacted(s, [Some(s)]) == MASK
  {
    hide Masked;
    WholeIsMasked(s);
    OnePass(s, s);
    MaskIsKept();
  }

  lemma WholeIsMasked(s: string)
    requires s != ""
    ensures Masked(Exact(s), s) == MASK
  {
  }

  lemma OnePass(t: string, s: string)
    requires |s| >= MIN_EXACT
    ensures ExactPass(t, [Some(s)]) == Masked(Exact(s), t)
  {
  }

  lemma MaskIsKept()
    ensures Masked(Shape, MASK) == MASK
  {
    assert |MASK| == 14;
    UnmatchedIsKept(Shape, MASK);
  }

  /** A secret that begins like the mask ends can be put together again by masking it. */
  lemma ASecretWithAsterisksCanSurvive()
    ensures Has(Redacted("***abcabc", [Some("***abc")]), "***abc")
  {
    var s := "***abc";
    hide Masked;
    OnePass("***abcabc", s);
    LeftOfTheTwo();
    assert |MASK + "abc"| == 17 && (MASK + "abc")[11..] == s;
  }

  lemma LeftOfTheTwo()
    ensures Masked(Exact("***abc"), "***abcabc") == MASK + "abc" && Masked(Shape, MASK + "abc") == MASK + "abc"
  {
    assert "***abcabc"[6..] == "abc";
    UnmatchedIsKept(Exact("***abc"), "abc");
    UnmatchedIsKept(Shape, MASK + "abc");
  }

  // ---------------------------------------------------------------- the whole of it

  lemma {:induction false} NothingKnownIsKept(t: string, known: seq<Option<string>>)
    requires forall k :: 0 <= k < |known| && Counts(known[k]) ==> !Has(t, known[k].value)
    ensures ExactPass(t, known) == t
    decreases |known|
  {
    if known != [] {
      if Counts(known[0]) {
        UnmatchedIsKept(Exact(known[0].value), t);
      }
      NothingKnownIsKept(t, known[1..]);
    }
  }

  /** Text with no known secret and no long run comes back as it is. */
  lemma HarmlessTextIsKept(t: string, known: seq<Option<string>>)
    requires forall k :: 0 <= k < |known| && Counts(known[k]) ==> !Has(t, known[k].value)
    requires !LongRun(t)
    ensures Redacted(t, known) == t
  {
    NothingKnownIsKept(t, known);
    NoLongRunIsKept(t);
  }

  /** Redacting again changes nothing, where no known secret can be part of the mask. */
  lemma RedactingAgainChangesNothing(t: string, known: seq<Option<string>>)
    requires forall k :: 0 <= k < |known| && Counts(known[k]) ==> LongRun(known[k].value) || !Touches(known[k].value)
    ensures Redacted(Redacted(t, known), known) == Redacted(t, known)
  {
    forall k | 0 <= k < |known| && Counts(known[k]) ensures !Has(Redacted(t, known), known[k].value) {
      WhatCanSurvive(known[k].value);
    }
    OutputHasNoLongRun(t, known);
    HarmlessTextIsKept(Redacted(t, known), known);
  }
}
