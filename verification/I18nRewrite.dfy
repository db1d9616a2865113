/** Turning a text inside a JavaScript string literal into a translation call. */
module I18nRewrite {
  import opened Options
  import opened Scanner
  import opened Text

  /** Where `>text<` was found: the '>' and the white space around the text. */
  datatype Match = Match(start: nat, lead: string, tail: string)

  /** The stretch at `m` with `s` between the white space: the text found, or what replaces it. */
  function Written(m: Match, s: string): string {
    ">" + m.lead + s + m.tail + "<"
  }

  /** `m` is an occurrence of the pattern >(\s*)text(\s*)< . */
  predicate Matches(js: string, text: string, m: Match) {
    AllSpace(m.lead) && AllSpace(m.tail) && Holds(js, m.start, Written(m, text))
  }

  function End(m: Match, text: string): nat {
    m.start + |Written(m, text)|
  }

  function Splice(js: string, text: string, m: Match, call: string): string
    requires Matches(js, text, m)
  {
    js[..m.start] + Written(m, call) + js[End(m, text)..]
  }

  lemma {:induction false} SpaceStaysInside(q: char, s: string)
    requires IsQuote(q) && AllSpace(s)
    ensures StaysInside(q, s)
    decreases |s|
  {
    if s != [] {
      StartsWithTwo(s, "${");
      SpaceStaysInside(q, s[1..]);
    }
  }

  /** From a state inside a literal at '>', over `>body<` to just after it. */
  lemma RunThrough(js: string, a: nat, p: State, body: string)
    requires InString(p.stack) && a <= p.i <= a + 1 && Holds(js, a, ">" + body + "<")
    requires var q, n := p.stack[|p.stack| - 1], |body|;
             Run(js, State(a + 1, p.stack), a + 1 + n) == State(a + 1 + n, p.stack)
    ensures Run(js, State(a + 1, p.stack), a + 2 + |body|) == State(a + 2 + |body|, p.stack)
    ensures Run(js, p, a + 1) == State(a + 1, p.stack)
    ensures Run(js, p, a + 2 + |body|) == State(a + 2 + |body|, p.stack)
  {
    hide Run;
    var all, last := ">" + body + "<", a + 1 + |body|;
    assert js[a + 0] == all[0] == '>' && js[a + (1 + |body|)] == all[1 + |body|] == '<';
    assert Run(js, p, a + 1) == State(a + 1, p.stack) by {
      if p.i == a {
        RunChar(js, a, p.stack);
      } else {
        RunStopped(js, p, a + 1);
      }
    }
    RunChar(js, last, p.stack);
    RunOn(js, State(a + 1, p.stack), State(last, p.stack), State(last + 1, p.stack));
    RunOn(js, p, State(a + 1, p.stack), State(last + 1, p.stack));
  }

  lemma RunStopped(js: string, p: State, pos: nat)
    requires pos <= p.i
    ensures Run(js, p, pos) == p
  {
  }

  lemma BodyStaysInside(q: char, text: string, m: Match)
    requires IsQuote(q) && StaysInside(q, text) && AllSpace(m.lead) && AllSpace(m.tail)
    ensures StaysInside(q, m.lead + text + m.tail)
  {
    SpaceStaysInside(q, m.tail);
    assert m.tail != [] ==> IsSpace(m.tail[0]);
    StaysInsideConcat(q, text, m.tail);
    assert m.lead + (text + m.tail) == m.lead + text + m.tail;
    LeadStaysInside(q, m.lead, text + m.tail);
  }

  lemma MatchParts(js: string, text: string, m: Match)
    requires Matches(js, text, m)
    ensures var body := m.lead + text + m.tail;
            && AllSpace(m.lead) && AllSpace(m.tail) && End(m, text) == m.start + |body| + 2
            && Holds(js, m.start, ">" + body + "<") && Holds(js, m.start + 1, body)
            && m.start + 1 + |body| < |js| && js[m.start + 1 + |body|] == '<'
  {
    var body := m.lead + text + m.tail;
    WrittenParts(js, m, text);
    WrittenLength(m, text);
    HoldsPart(js, m.start, ">" + body + "<", ">", body, "<");
    LastIsBracket(js, m.start, body);
  }

  /** The text found is passed over inside the literal. */
  lemma RunFound(js: string, text: string, m: Match, p: State)
    requires Matches(js, text, m) && m.start <= p.i <= m.start + 1
    requires InString(p.stack) && StaysInside(p.stack[|p.stack| - 1], text)
    ensures Run(js, p, End(m, text)) == State(End(m, text), p.stack)
  {
    hide Run, Holds, IsSpace, AllSpace, StaysInside, Written, Matches, End;
    MatchParts(js, text, m);
    var q, a, body := p.stack[|p.stack| - 1], m.start, m.lead + text + m.tail;
    BodyStaysInside(q, text, m);
    RunInside(js, a + 1, p.stack, body);
    RunThrough(js, a, p, body);
  }

  lemma {:induction false} LeadStaysInside(q: char, lead: string, text: string)
    requires IsQuote(q) && AllSpace(lead) && StaysInside(q, text)
    ensures StaysInside(q, lead + text)
    decreases |lead|
  {
    if lead == [] {
      assert lead + text == text;
    } else {
      assert (lead + text)[1..] == lead[1..] + text;
      StartsWithTwo(lead + text, "${");
      LeadStaysInside(q, lead[1..], text);
    }
  }

  lemma LastIsBracket(js: string, a: nat, body: string)
    requires Holds(js, a, ">" + body + "<")
    ensures js[a + |body| + 1] == '<'
  {
    assert js[a + (|body| + 1)] == (">" + body + "<")[|body| + 1];
  }

  lemma WrittenParts(js: string, m: Match, s: string)
    requires Holds(js, m.start, Written(m, s))
    ensures var c := m.start + 1 + |m.lead|;
            && Holds(js, m.start, ">" + (m.lead + s + m.tail) + "<")
            && Holds(js, m.start + 1, m.lead) && Holds(js, c, s) && Holds(js, c + |s|, m.tail)
            && js[m.start] == '>' && (s != [] ==> js[c] == s[0]) && js[c + |s| + |m.tail|] == '<'
  {
    var all, a := Written(m, s), m.start;
    assert js[a + 0] == all[0];
    HoldsPart(js, a, all, ">", m.lead, s + m.tail + "<");
    assert s != [] ==> js[a + (1 + |m.lead|)] == all[1 + |m.lead|] == s[0];
    assert all == (">" + m.lead) + s + (m.tail + "<");
    HoldsPart(js, a, all, ">" + m.lead, s, m.tail + "<");
    assert all == (">" + m.lead + s) + m.tail + "<";
    HoldsPart(js, a, all, ">" + m.lead + s, m.tail, "<");
    assert all == ">" + (m.lead + s + m.tail) + "<";
    LastIsBracket(js, a, m.lead + s + m.tail);
  }

  /** The white space before the call and the call. */
  lemma RunLeadAndCall(js: string, m: Match, key: string, stack: Stack)
    requires InString(stack) && WellFormed(stack) && KeyIsPlain(key) && AllSpace(m.lead)
    requires Holds(js, m.start, Written(m, Call(stack[|stack| - 1], key)))
    ensures var q, p := stack[|stack| - 1], State(m.start + 1, stack);
            var e, t := m.start + 1 + |m.lead| + |Call(q, key)|, CallAt(m, q);
            && Run(js, p, e) == State(e, stack)
            && Run(js, p, t).i == t && !InString(Run(js, p, t).stack)
  {
    hide Run, Written, Holds, KeyIsPlain, StaysInside, WellFormed, AllSpace, Call;
    var q, a := stack[|stack| - 1], m.start;
    var call, c, t := Call(q, key), a + 1 + |m.lead|, CallAt(m, q);
    WrittenParts(js, m, call);
    CallStarts(q, key);
    SpaceStaysInside(q, m.lead);
    RunInside(js, a + 1, stack, m.lead);
    var inner := if q == '`' then stack + ['{'] else stack[..|stack| - 1];
    if q == '`' {
      RunTemplateCall(js, c, stack, key);
    } else {
      RunConcatCall(js, c, stack, key);
    }
    RunOn(js, State(a + 1, stack), State(c, stack), State(c + |call|, stack));
    RunOn(js, State(a + 1, stack), State(c, stack), State(t, inner));
  }

  /** What is written instead is passed over with the same stack, and the call's t is
      scanned as code. */
  lemma RunWritten(js: string, m: Match, key: string, p: State)
    requires InString(p.stack) && WellFormed(p.stack) && m.start <= p.i <= m.start + 1 && KeyIsPlain(key)
    requires AllSpace(m.lead) && AllSpace(m.tail)
    requires Holds(js, m.start, Written(m, Call(p.stack[|p.stack| - 1], key)))
    ensures var end := End(m, Call(p.stack[|p.stack| - 1], key));
            Run(js, p, end) == State(end, p.stack)
    ensures var t := CallAt(m, p.stack[|p.stack| - 1]);
            Run(js, p, t).i == t && !InString(Run(js, p, t).stack)
  {
    hide Run, Written, Holds, KeyIsPlain, StaysInside, WellFormed, AllSpace, Call;
    var q, a, stack := p.stack[|p.stack| - 1], m.start, p.stack;
    var call := Call(q, key);
    var e, body := a + 1 + |m.lead| + |call|, m.lead + call + m.tail;
    WrittenParts(js, m, call);
    RunLeadAndCall(js, m, key, stack);
    SpaceStaysInside(q, m.tail);
    RunInside(js, e, stack, m.tail);
    RunOn(js, State(a + 1, stack), State(e, stack), State(a + 1 + |body|, stack));
    RunThrough(js, a, p, body);
    var t := CallAt(m, q);
    RunOn(js, p, State(a + 1, stack), Run(js, State(a + 1, stack), t));
    WrittenLength(m, call);
  }

  lemma WrittenLength(m: Match, s: string)
    ensures End(m, s) == m.start + |m.lead| + |s| + |m.tail| + 2
  {
  }

  /** The position of the t of a call written at `m` in a literal opened with `q`. */
  function CallAt(m: Match, q: char): nat {
    m.start + 1 + |m.lead| + if q == '`' then 2 else 4
  }

  lemma SuffixAfterBracket(a: string, b: string, t: string, p: State, q: State, pos: nat)
    requires a != [] && b != [] && a[|a| - 1] == '<' && b[|b| - 1] == '<'
    requires p == State(|a|, p.stack) && q == State(|b|, p.stack) && |a| <= pos
    ensures Run(a + t, p, pos).stack == Run(b + t, q, pos - |a| + |b|).stack
  {
    assert LastNonSpace(a) == Some('<') == LastNonSpace(b);
    hide Run, LastNonSpace;
    RunInSuffix(a, b, t, 0, p.stack, pos - |a|);
  }

  lemma EmptyIsWellFormed()
    ensures WellFormed(START.stack)
  {
  }

  /** How the text and its rewrite compare: alike up to the '>', alike after the '<'. */
  lemma SpliceShape(js: string, text: string, m: Match, call: string)
    requires Matches(js, text, m)
    ensures var after, a, b, b' := Splice(js, text, m, call), m.start, End(m, text), End(m, call);
            && a < b <= |js| && a < b' <= |after|
            && js[..a + 1] == after[..a + 1] && Holds(after, a, Written(m, call))
            && after[b'..] == js[b..] && js[b - 1] == '<' && after[b' - 1] == '<'
  {
    WrittenParts(js, m, text);
    WrittenLength(m, text);
    WrittenLength(m, call);
    WrittenEnds(m, call);
    hide Written, Matches, Holds;
    ReplaceShape(js, m.start, End(m, text), Written(m, call));
  }

  lemma WrittenEnds(m: Match, s: string)
    ensures var w := Written(m, s); |w| >= 2 && w[0] == '>' && w[|w| - 1] == '<'
  {
  }

  lemma ReplaceShape(js: string, a: nat, b: nat, w: string)
    requires a < b <= |js| && |w| > 0 && js[a] == w[0]
    ensures var after, b' := js[..a] + w + js[b..], a + |w|;
            && b' <= |after| && js[..a + 1] == after[..a + 1] && Holds(after, a, w)
            && after[b'..] == js[b..] && after[b' - 1] == w[|w| - 1]
  {
  }

  /** Both texts reach the same state at the '>', and again after the '<'. */
  lemma SpliceRuns(js: string, text: string, m: Match, key: string)
    requires Matches(js, text, m) && KeyIsPlain(key)
    requires QuoteAt(js, m.start).Some? && StaysInside(QuoteAt(js, m.start).value, text)
    ensures var p := Run(js, START, m.start);
            var call := Call(p.stack[|p.stack| - 1], key);
            var after := Splice(js, text, m, call);
            && InString(p.stack) && Run(after, START, m.start) == p
            && Run(js, START, End(m, text)) == State(End(m, text), p.stack)
            && Run(after, START, End(m, call)) == State(End(m, call), p.stack)
            && !InString(Run(after, START, CallAt(m, p.stack[|p.stack| - 1])).stack)
  {
    hide Run, Written, Splice, Holds, StaysInside, KeyIsPlain, AllSpace, WellFormed, Call;
    var a, p := m.start, Run(js, START, m.start);
    var q := p.stack[|p.stack| - 1];
    var call := Call(q, key);
    var after := Splice(js, text, m, call);
    SpliceShape(js, text, m, call);
    StopInString(js, START, a);
    EmptyIsWellFormed();
    RunKeepsStacksWellFormed(js, START, a);
    RunInPrefix(js, after, START, a, a);
    RunFound(js, text, m, p);
    RunWritten(after, m, key, p);
    RunInTwoParts(after, START, a, CallAt(m, q));
    RunInTwoParts(js, START, a, End(m, text));
    RunInTwoParts(after, START, a, End(m, call));
  }

  /** The rewrite of one text. Positions up to the text's '>' and from after its '<' keep
      their enclosing quote, and their whole stack, for any text the literal goes on
      through; and the call is code. */
  lemma SpliceKeepsQuotes(js: string, text: string, m: Match, key: string, pos: nat)
    requires Matches(js, text, m) && KeyIsPlain(key)
    requires QuoteAt(js, m.start).Some? && StaysInside(QuoteAt(js, m.start).value, text)
    ensures var call := Call(QuoteAt(js, m.start).value, key);
            var after := Splice(js, text, m, call);
            && (pos <= m.start ==> Run(after, START, pos) == Run(js, START, pos))
            && (End(m, text) <= pos ==>
                  Run(after, START, pos - End(m, text) + End(m, call)).stack == Run(js, START, pos).stack)
            && QuoteAt(after, CallAt(m, QuoteAt(js, m.start).value)) == None
  {
    hide Run, Written, Splice, Holds, StaysInside, KeyIsPlain, AllSpace, Call, End;
    var a, b, p := m.start, End(m, text), Run(js, START, m.start);
    var call := Call(p.stack[|p.stack| - 1], key);
    var after, b' := Splice(js, text, m, call), End(m, call);
    SpliceShape(js, text, m, call);
    SpliceRuns(js, text, m, key);
    if pos <= a {
      RunInPrefix(js, after, START, a, pos);
    }
    if b <= pos {
      RunInTwoParts(js, START, b, pos);
      RunInTwoParts(after, START, b', pos - b + b');
      assert js == js[..b] + js[b..] && after == after[..b'] + js[b..];
      SuffixAfterBracket(js[..b], after[..b'], js[b..], State(b, p.stack), State(b', p.stack), pos);
    }
  }

  lemma ConcatCallStarts(js: string, c: nat, key: string)
    requires Holds(js, c, Call('\'', key))
    ensures Holds(js, c, "' + ") && js[c] == '\'' && c + 4 < |js| && js[c + 4] == 't' && StaysInside('`', "' + ")
  {
    var call := Call('\'', key);
    assert call == "" + "' + " + ("t('" + key + "') + '");
    HoldsPart(js, c, call, "", "' + ", "t('" + key + "') + '");
    assert js[c + 0] == call[0] && js[c + 4] == call[4];
    PlainTextStaysInside('`', "' + ");
  }

  /** Why the form of the call matters: written the single-quoted way inside a template
      literal, the call is text. */
  lemma ConcatCallInTemplateIsText(js: string, m: Match, key: string, p: State)
    requires InString(p.stack) && p.stack[|p.stack| - 1] == '`' && m.start <= p.i <= m.start + 1
    requires KeyIsPlain(key) && AllSpace(m.lead) && Holds(js, m.start, Written(m, Call('\'', key)))
    ensures Run(js, p, CallAt(m, '\'')) == State(CallAt(m, '\''), p.stack)
  {
    hide Run, IsSpace, AllSpace, Written, Call, Holds, StaysInside;
    var a := m.start;
    LeadAndQuoteStayInside(js, m, key, p.stack);
    if p.i == a {
      RunChar(js, a, p.stack);
    } else {
      RunStopped(js, p, a + 1);
    }
    RunOn(js, p, State(a + 1, p.stack), State(CallAt(m, '\''), p.stack));
  }

  lemma LeadAndQuoteStayInside(js: string, m: Match, key: string, stack: Stack)
    requires InString(stack) && stack[|stack| - 1] == '`'
    requires KeyIsPlain(key) && AllSpace(m.lead) && Holds(js, m.start, Written(m, Call('\'', key)))
    ensures m.start < |js| && js[m.start] == '>'
    ensures CallAt(m, '\'') <= |js|
    ensures Run(js, State(m.start + 1, stack), CallAt(m, '\'')) == State(CallAt(m, '\''), stack)
  {
    hide Run, IsSpace, AllSpace, Written, Call, Holds, StaysInside, KeyIsPlain;
    var a := m.start;
    var c := a + 1 + |m.lead|;
    LeadAndQuoteParts(js, m, key);
    RunInside(js, a + 1, stack, m.lead);
    RunInside(js, c, stack, "' + ");
    RunOn(js, State(a + 1, stack), State(c, stack), State(c + 4, stack));
  }

  lemma LeadAndQuoteParts(js: string, m: Match, key: string)
    requires KeyIsPlain(key) && AllSpace(m.lead) && Holds(js, m.start, Written(m, Call('\'', key)))
    ensures m.start < |js| && js[m.start] == '>'
    ensures var c := m.start + 1 + |m.lead|;
            && c + 4 < |js| && js[c] != '{' && js[c + 4] != '{' && CallAt(m, '\'') == c + 4
            && Holds(js, m.start + 1, m.lead) && StaysInside('`', m.lead)
            && Holds(js, c, "' + ") && StaysInside('`', "' + ")
  {
    var c := m.start + 1 + |m.lead|;
    WrittenParts(js, m, Call('\'', key));
    ConcatCallStarts(js, c, key);
    HoldsFits(js, m.start + 1, m.lead);
    SpaceStaysInside('`', m.lead);
    hide IsSpace, AllSpace, Written, Call, KeyIsPlain;
  }

  const QUOTED_TEXT := "'>a'b<"
  const QUOTED_MATCH := Match(1, "", "")

  lemma QuotedTextMatches()
    ensures Matches(QUOTED_TEXT, "a'b", QUOTED_MATCH) && End(QUOTED_MATCH, "a'b") == 6
    ensures StaysInside('\'', ">a")
  {
    var js, m := QUOTED_TEXT, QUOTED_MATCH;
    assert Written(m, "a'b") == ">a'b<";
  }

  lemma RunQuotedText()
    ensures Matches(QUOTED_TEXT, "a'b", QUOTED_MATCH) && End(QUOTED_MATCH, "a'b") == 6
    ensures Run(QUOTED_TEXT, START, 1) == State(1, ['\''])
    ensures Run(QUOTED_TEXT, START, 6) == State(6, [])
  {
    hide Run, StaysInside, Matches, End;
    var js, open := QUOTED_TEXT, ['\''];
    QuotedTextMatches();
    RunChar(js, 0, []);
    RunInside(js, 1, open, ">a");
    RunChar(js, 3, open);
    RunNeutral(js, 4, [], "b<");
    RunOn(js, State(1, open), State(3, open), State(4, []));
    RunOn(js, State(1, open), State(4, []), State(6, []));
    RunOn(js, START, State(1, open), State(6, []));
  }

  /** The condition on the text is needed: an unescaped enclosing quote in it ends the
      literal, and what follows changes sides. */
  lemma QuoteInTextMovesWhatFollows()
    ensures var js, m, text, call := QUOTED_TEXT, QUOTED_MATCH, "a'b", Call('\'', "k");
            && Matches(js, text, m) && QuoteAt(js, m.start) == Some('\'')
            && QuoteAt(js, End(m, text)) == None
            && QuoteAt(Splice(js, text, m, call), m.start + |Written(m, call)|) == Some('\'')
  {
    hide Run, Holds, Matches, Written, Splice, Call;
    RunQuotedText();
    SplicedTextStaysOpen();
  }

  lemma SplicedTextStaysOpen()
    ensures var js, m, text, call := QUOTED_TEXT, QUOTED_MATCH, "a'b", Call('\'', "k");
            Matches(js, text, m) && QuoteAt(Splice(js, text, m, call), m.start + |Written(m, call)|) == Some('\'')
  {
    hide Run, Holds, Matches, Written, Call;
    RunQuotedText();
    var m, call, open := QUOTED_MATCH, Call('\'', "k"), ['\''];
    var after, end := Splice(QUOTED_TEXT, "a'b", m, call), 1 + |Written(m, call)|;
    RunChar(after, 0, []);
    SpliceShape(QUOTED_TEXT, "a'b", m, call);
    RunWritten(after, m, "k", State(1, open));
    RunOn(after, START, State(1, open), State(end, open));
  }

  // ---------------------------------------------------------------- the whole file

  datatype Row = Row(key: string, text: string)

  function SpaceLength(s: string): nat {
    if s != [] && IsSpace(s[0]) then 1 + SpaceLength(s[1..]) else 0
  }

  lemma {:induction false} SpaceLengthIsMaximal(s: string)
    ensures SpaceLength(s) <= |s| && forall k :: 0 <= k < SpaceLength(s) ==> IsSpace(s[k])
    ensures SpaceLength(s) < |s| ==> !IsSpace(s[SpaceLength(s)])
    decreases |s|
  {
    if s != [] && IsSpace(s[0]) {
      SpaceLengthIsMaximal(s[1..]);
    }
  }

  /** The match at `start` with at most `n` characters of leading space, longest first. */
  function MatchAt(js: string, text: string, start: nat, n: nat): Option<Match>
    requires start + 1 + n <= |js|
    decreases n
  {
    var from := start + 1 + n;
    if Holds(js, from, text) then
      var end := from + |text|;
      SpaceLengthIsMaximal(js[end..]);
      var t := SpaceLength(js[end..]);
      if end + t < |js| && js[end + t] == '<' then Some(Match(start, js[start + 1..from], js[end..end + t]))
      else if n == 0 then None else MatchAt(js, text, start, n - 1)
    else if n == 0 then None else MatchAt(js, text, start, n - 1)
  }

  /** The first match at or after `from`. */
  function Search(js: string, text: string, from: nat): Option<Match>
    decreases |js| - from
  {
    if from >= |js| then None
    else if js[from] == '>' then
      SpaceLengthIsMaximal(js[from + 1..]);
      var here := MatchAt(js, text, from, SpaceLength(js[from + 1..]));
      if here.Some? then here else Search(js, text, from + 1)
    else Search(js, text, from + 1)
  }

  lemma MatchFromParts(js: string, text: string, start: nat, n: nat, t: nat)
    requires start < |js| && js[start] == '>'
    requires Holds(js, start + 1 + n, text)
    requires var end := start + 1 + n + |text|;
             && end + t < |js| && js[end + t] == '<'
             && (forall k :: start + 1 <= k < start + 1 + n ==> IsSpace(js[k]))
             && (forall k :: end <= k < end + t ==> IsSpace(js[k]))
    ensures var from := start + 1 + n;
            Matches(js, text, Match(start, js[start + 1..from], js[from + |text|..from + |text| + t]))
  {
  }

  lemma {:induction false} MatchAtMatches(js: string, text: string, start: nat, n: nat)
    requires start + 1 + n <= |js| && js[start] == '>'
    requires forall k :: start + 1 <= k < start + 1 + n ==> IsSpace(js[k])
    ensures MatchAt(js, text, start, n).Some? ==>
              Matches(js, text, MatchAt(js, text, start, n).value) && MatchAt(js, text, start, n).value.start == start
    decreases n
  {
    hide Matches, Holds, IsSpace, SpaceLength, Written;
    if n > 0 {
      MatchAtMatches(js, text, start, n - 1);
    }
    if Holds(js, start + 1 + n, text) {
      var end := start + 1 + n + |text|;
      HoldsFits(js, start + 1 + n, text);
      SpaceLengthIsMaximal(js[end..]);
      var t := SpaceLength(js[end..]);
      if end + t < |js| && js[end + t] == '<' {
        assert forall k :: end <= k < end + t ==> js[k] == js[end..][k - end];
        MatchFromParts(js, text, start, n, t);
      }
    }
  }

  lemma HoldsFits(js: string, i: nat, s: string)
    ensures Holds(js, i, s) ==> i + |s| <= |js|
  {
  }

  /** The white space at `from` is exactly `space` when another character follows it. */
  lemma SpaceLengthIs(js: string, from: nat, space: string)
    requires Holds(js, from, space) && AllSpace(space)
    ensures |space| <= SpaceLength(js[from..])
    ensures from + |space| < |js| && !IsSpace(js[from + |space|]) ==> SpaceLength(js[from..]) == |space|
  {
    SpaceLengthIsMaximal(js[from..]);
    forall k | 0 <= k < |space| ensures IsSpace(js[from..][k]) {
      assert js[from + k] == space[k];
    }
  }

  lemma MatchesParts(js: string, text: string, m: Match)
    requires Matches(js, text, m)
    ensures m.start < |js| && js[m.start] == '>' && m.start + 1 + |m.lead| <= |js|
    ensures |m.lead| <= SpaceLength(js[m.start + 1..])
    ensures var end := m.start + 1 + |m.lead| + |text|;
            && end + |m.tail| < |js| && js[end + |m.tail|] == '<'
            && Holds(js, m.start + 1 + |m.lead|, text) && SpaceLength(js[end..]) == |m.tail|
  {
    hide Written;
    WrittenParts(js, m, text);
    hide Holds, AllSpace, SpaceLength;
    SpaceLengthIs(js, m.start + 1, m.lead);
    SpaceLengthIs(js, m.start + 1 + |m.lead| + |text|, m.tail);
    HoldsFits(js, m.start + 1, m.lead);
  }

  lemma {:induction false} MatchAtFinds(js: string, text: string, n: nat, m: Match)
    requires Matches(js, text, m) && m.start + 1 + n <= |js| && |m.lead| <= n
    ensures MatchAt(js, text, m.start, n).Some? && |MatchAt(js, text, m.start, n).value.lead| >= |m.lead|
    decreases n
  {
    hide Matches, SpaceLength, IsSpace;
    if |m.lead| < n {
      MatchAtFinds(js, text, n - 1, m);
    } else {
      MatchesParts(js, text, m);
    }
  }

  lemma {:induction false} SearchMatches(js: string, text: string, from: nat)
    ensures Search(js, text, from).Some? ==> Matches(js, text, Search(js, text, from).value)
    decreases |js| - from
  {
    hide Matches;
    if from < |js| {
      SearchMatches(js, text, from + 1);
      if js[from] == '>' {
        SpaceLengthIsMaximal(js[from + 1..]);
        MatchAtMatches(js, text, from, SpaceLength(js[from + 1..]));
      }
    }
  }

  /** The search misses nothing, and finds the first; of several that begin in one place, the one with
      the most white space before the text. */
  lemma {:induction false} SearchFindsFirst(js: string, text: string, from: nat, m: Match)
    requires Matches(js, text, m) && from <= m.start
    ensures var found := Search(js, text, from);
            && found.Some? && found.value.start <= m.start
            && (found.value.start == m.start ==> |found.value.lead| >= |m.lead|)
    decreases m.start - from
  {
    hide Matches, MatchAt, SpaceLength, Search;
    MatchesParts(js, text, m);
    var here := SearchStep(js, text, from);
    if from == m.start {
      SpaceLengthIsMaximal(js[from + 1..]);
      MatchAtFinds(js, text, SpaceLength(js[from + 1..]), m);
    } else {
      SearchFindsFirst(js, text, from + 1, m);
    }
  }

  /** The search ends where it is if there is a match here, and goes on otherwise. */
  lemma SearchStep(js: string, text: string, from: nat) returns (here: Option<Match>)
    requires from < |js|
    ensures SpaceLength(js[from + 1..]) <= |js| - from - 1
    ensures js[from] == '>' ==> here == MatchAt(js, text, from, SpaceLength(js[from + 1..]))
    ensures js[from] != '>' ==> here.None?
    ensures here.Some? ==> here.value.start == from
    ensures Search(js, text, from) == if here.Some? then here else Search(js, text, from + 1)
  {
    hide MatchAt, SpaceLength;
    here := None;
    SpaceLengthIsMaximal(js[from + 1..]);
    if js[from] == '>' {
      here := MatchAt(js, text, from, SpaceLength(js[from + 1..]));
      hide Search, Matches;
      MatchAtMatches(js, text, from, SpaceLength(js[from + 1..]));
    }
  }

  /** One row: its first occurrence, when that is inside a string literal. */
  function Rewritten(js: string, row: Row): Option<string> {
    var m := Search(js, row.text, 0);
    if m.None? || QuoteAt(js, m.value.start).None? then None
    else
      SearchMatches(js, row.text, 0);
      Some(Splice(js, row.text, m.value, Call(QuoteAt(js, m.value.start).value, row.key)))
  }

  ghost predicate FirstMatch(js: string, text: string, m: Match) {
    && Matches(js, text, m)
    && forall other :: Matches(js, text, other) ==>
         m.start < other.start || (m.start == other.start && |m.lead| >= |other.lead|)
  }

  /** A row is rewritten exactly when its text's first occurrence is inside a string literal. What is
      written there is the call with the row's own key, in the form the literal's quote asks for,
      between the white space that was there; nothing else changes. */
  lemma RewrittenIs(js: string, row: Row)
    ensures Rewritten(js, row).Some? <==>
              exists m :: FirstMatch(js, row.text, m) && QuoteAt(js, m.start).Some?
    ensures Rewritten(js, row).Some? ==>
              exists m ::
                && FirstMatch(js, row.text, m)
                && var q := QuoteAt(js, m.start);
                   q.Some?
                   && Rewritten(js, row).value
                      == js[..m.start] + ">" + m.lead
                         + (if q.value == '`' then "${t('" + row.key + "')}"
                            else [q.value] + " + t('" + row.key + "') + " + [q.value])
                         + m.tail + "<" + js[m.start + |m.lead| + |row.text| + |m.tail| + 2..]
  {
    hide Search, Matches, QuoteAt;
    var found := Search(js, row.text, 0);
    SearchMatches(js, row.text, 0);
    forall m | Matches(js, row.text, m) 
      ensures found.Some?
      ensures found.value.start < m.start || (found.value.start == m.start && |found.value.lead| >= |m.lead|)
    {
      SearchFindsFirst(js, row.text, 0, m);
    }
    if found.Some? {
      assert FirstMatch(js, row.text, found.value);
      var m, q := found.value, QuoteAt(js, found.value.start);
      WrittenLength(m, row.text);
      if q.Some? {
        SplicedText(js, row.text, m, q.value, row.key);
      }
    }
  }

  lemma SplicedText(js: string, text: string, m: Match, q: char, key: string)
    requires Matches(js, text, m)
    ensures End(m, text) <= |js|
    ensures Splice(js, text, m, Call(q, key))
         == js[..m.start] + ">" + m.lead
            + (if q == '`' then "${t('" + key + "')}" else [q] + " + t('" + key + "') + " + [q])
            + m.tail + "<" + js[End(m, text)..]
  {
    MatchParts(js, text, m);
    CallIs(q, key);
    hide Matches, Holds, AllSpace, Call;
    InOneRow(js[..m.start], m, Call(q, key), js[End(m, text)..]);
  }

  lemma CallIs(q: char, key: string)
    ensures Call(q, key) == if q == '`' then "${t('" + key + "')}" else [q] + " + t('" + key + "') + " + [q]
  {
    if q == '`' {
      assert "${" + ("t('" + key + "')") + "}" == "${t('" + key + "')}";
    } else {
      assert [q] + " + " + ("t('" + key + "')") + " + " + [q] == [q] + " + t('" + key + "') + " + [q];
    }
  }

  lemma InOneRow(front: string, m: Match, call: string, back: string)
    ensures front + Written(m, call) + back == front + ">" + m.lead + call + m.tail + "<" + back
  {
  }

  /** How many of the rows are rewritten, each in what the ones before it left. */
  function Applied(js: string, rows: seq<Row>): nat
    decreases |rows|
  {
    if rows == [] then 0
    else if Rewritten(js, rows[0]).None? then Applied(js, rows[1..])
    else 1 + Applied(Rewritten(js, rows[0]).value, rows[1..])
  }

  function RewrittenByAll(js: string, rows: seq<Row>): string
    decreases |rows|
  {
    if rows == [] then js
    else RewrittenByAll(if Rewritten(js, rows[0]).Some? then Rewritten(js, rows[0]).value else js, rows[1..])
  }

  /** One row more: it is applied, or skipped, in the text that all rows before it have left. */
  lemma {:induction false} OneRowMore(js: string, rows: seq<Row>, row: Row)
    ensures RewrittenByAll(js, []) == js && Applied(js, []) == 0
    ensures var before, after := RewrittenByAll(js, rows), RewrittenByAll(js, rows + [row]);
            && after == (if Rewritten(before, row).Some? then Rewritten(before, row).value else before)
            && Applied(js, rows + [row]) == Applied(js, rows) + if Rewritten(before, row).Some? then 1 else 0
    decreases |rows|
  {
    hide Rewritten;
    if rows == [] {
      assert ([] + [row])[1..] == [];
    } else {
      assert (rows + [row])[0] == rows[0] && (rows + [row])[1..] == rows[1..] + [row];
      OneRowMore(if Rewritten(js, rows[0]).Some? then Rewritten(js, rows[0]).value else js, rows[1..], row);
    }
  }

  predicate RowIsPlain(row: Row) {
    && KeyIsPlain(row.key)
    && forall q :: q in {'\'', '"', '`'} ==> StaysInside(q, row.text)
  }

  lemma RewrittenKeepsEnd(js: string, row: Row)
    requires RowIsPlain(row) && Rewritten(js, row).Some?
    ensures var after := Rewritten(js, row).value;
            Run(after, START, |after|).stack == Run(js, START, |js|).stack
  {
    hide Search, Run, Matches, KeyIsPlain, StaysInside;
    var m := Search(js, row.text, 0).value;
    SearchMatches(js, row.text, 0);
    SpliceShape(js, row.text, m, Call(QuoteAt(js, m.start).value, row.key));
    SpliceKeepsQuotes(js, row.text, m, row.key, |js|);
  }

  /** However many rows are applied, the scan ends the file with the same stack. */
  lemma {:induction false} RewriteKeepsEnd(js: string, rows: seq<Row>)
    requires forall k :: 0 <= k < |rows| ==> RowIsPlain(rows[k])
    ensures var after := RewrittenByAll(js, rows);
            Run(after, START, |after|).stack == Run(js, START, |js|).stack
    decreases |rows|
  {
    if rows != [] {
      if Rewritten(js, rows[0]).Some? {
        RewrittenKeepsEnd(js, rows[0]);
      }
      RewriteKeepsEnd(if Rewritten(js, rows[0]).Some? then Rewritten(js, rows[0]).value else js, rows[1..]);
    }
  }

  method ApplyRows(source: string, rows: seq<Row>) returns (js: string, applied: nat, skipped: nat)
    ensures js == RewrittenByAll(source, rows)
    ensures applied == Applied(source, rows) && skipped == |rows| - applied
    ensures (forall k :: 0 <= k < |rows| ==> RowIsPlain(rows[k])) ==>
              Run(js, START, |js|).stack == Run(source, START, |source|).stack
  {
    js, applied, skipped := source, 0, 0;
    for k := 0 to |rows|
      invariant applied + skipped == k && applied + Applied(js, rows[k..]) == Applied(source, rows)
      invariant RewrittenByAll(js, rows[k..]) == RewrittenByAll(source, rows)
    {
      assert rows[k..][1..] == rows[k + 1..];
      var row := rows[k];
      var m := Search(js, row.text, 0);
      if m.None? {
        skipped := skipped + 1;
      } else {
        SearchMatches(js, row.text, 0);
        var quote := EnclosingQuote(js, m.value.start);
        if quote.Some? {
          js := Splice(js, row.text, m.value, Call(quote.value, row.key));
          applied := applied + 1;
        } else {
          skipped := skipped + 1;
        }
      }
    }
    if forall k :: 0 <= k < |rows| ==> RowIsPlain(rows[k]) {
      RewriteKeepsEnd(source, rows);
    }
  }
}
