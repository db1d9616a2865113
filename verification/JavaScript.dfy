/** What the scanner promises: a JavaScript file as a syntax tree, and where in its text a string
    literal encloses a position. The tree has what the scanner can tell apart; whether a slash
    divides or opens a regular expression is settled, as there, by the character before it. */
module JavaScript {
  import opened Options
  import opened Text
  import opened Scanner

  datatype Code = Nothing | Then(item: Item, rest: Code)

  datatype Item =
    | Char(c: char)                             // neither a slash, a quote nor a brace
    | Slash                                     // a division
    | LineComment(text: string)                 // with the end of its line
    | BlockComment(text: string)
    | Regex(text: string)
    | Literal(quote: char, text: string)        // single- or double-quoted
    | Template(parts: Parts)
    | Braces(code: Code)

  /** A template literal up to its closing backtick: text, and code in "${" and "}". */
  datatype Parts = Closing | Words(text: string, rest: Parts) | Hole(code: Code, rest: Parts)

  // ---------------------------------------------------------------- the text of a tree

  function Shown(code: Code): string {
    match code
    case Nothing => ""
    case Then(item, rest) => ShownItem(item) + Shown(rest)
  }

  function ShownItem(item: Item): string {
    match item
    case Char(c) => [c]
    case Slash => "/"
    case LineComment(text) => "//" + text + "\n"
    case BlockComment(text) => "/*" + text + "*/"
    case Regex(text) => "/" + text + "/"
    case Literal(quote, text) => [quote] + text + [quote]
    case Template(parts) => "`" + ShownParts(parts)
    case Braces(code) => "{" + Shown(code) + "}"
  }

  function ShownParts(parts: Parts): string {
    match parts
    case Closing => "`"
    case Words(text, rest) => text + ShownParts(rest)
    case Hole(code, rest) => "${" + Shown(code) + "}" + ShownParts(rest)
  }

  // ---------------------------------------------------------------- which trees there are

  /** The last character that is not white space, with `s` coming after what was before. */
  function Before(before: Option<char>, s: string): Option<char> {
    if LastNonSpace(s).Some? then LastNonSpace(s) else before
  }

  predicate OpensNoComment(s: string) {
    s == "" || (s[0] != '/' && s[0] != '*')
  }

  predicate Fine(code: Code, before: Option<char>) {
    match code
    case Nothing => true
    case Then(item, rest) =>
      && FineItem(item, before)
      && (item.Slash? ==> OpensNoComment(Shown(rest)))
      && Fine(rest, Before(before, ShownItem(item)))
  }

  predicate FineItem(item: Item, before: Option<char>) {
    match item
    case Char(c) => IsNeutral(c)
    case Slash => before.None? || EndsOperand(before.value)
    case LineComment(text) => '\n' !in text
    case BlockComment(text) => forall k :: 0 <= k < |text| + 2 ==> !ClosesComment(ShownItem(item), k)
    case Regex(text) =>
      text != "" && text[0] != '*' && RegexText(text) && before.Some? && !EndsOperand(before.value)
    case Literal(quote, text) => (quote == '\'' || quote == '"') && StaysInside(quote, text)
    case Template(parts) => FineParts(parts)
    case Braces(code) => Fine(code, Some('{'))
  }

  predicate FineParts(parts: Parts) {
    match parts
    case Closing => true
    case Words(text, rest) => StaysInside('`', text) && !rest.Words? && FineParts(rest)
    case Hole(code, rest) => Fine(code, Some('{')) && FineParts(rest)
  }

  // ---------------------------------------------------------------- what encloses a position

  /** The quote of the innermost literal around the k-th character, its closing quote included; none in
      code, comments, regular expressions and at the brace of "${". */
  function Around(code: Code, k: nat): Option<char> {
    match code
    case Nothing => None
    case Then(item, rest) =>
      if k < |ShownItem(item)| then AroundIn(item, k) else Around(rest, k - |ShownItem(item)|)
  }

  function AroundIn(item: Item, k: nat): Option<char> {
    match item
    case Literal(quote, text) => if 0 < k < |text| + 2 then Some(quote) else None
    case Template(parts) => if k == 0 then None else AroundParts(parts, k - 1)
    case Braces(code) => if k == 0 then None else Around(code, k - 1)
    case _ => None
  }

  function AroundParts(parts: Parts, k: nat): Option<char> {
    match parts
    case Closing => if k == 0 then Some('`') else None
    case Words(text, rest) => if k < |text| then Some('`') else AroundParts(rest, k - |text|)
    case Hole(code, rest) =>
      if k == 0 then Some('`')
      else if k == 1 then None
      else if k < |Shown(code)| + 3 then Around(code, k - 2)
      else AroundParts(rest, k - |Shown(code)| - 3)
  }

  // ---------------------------------------------------------------- the scan follows the tree

  /** The scan from i to e leaves the stack as it was; and at `pos` it is in a literal with this quote. */
  ghost predicate Passes(js: string, i: nat, stack: Stack, e: nat, pos: nat, quote: Option<char>) {
    && Run(js, State(i, stack), e) == State(e, stack)
    && (i <= pos < e ==> QuoteOf(Run(js, State(i, stack), pos).stack) == quote)
  }

  lemma PassesOn(js: string, i: nat, stack: Stack, m: nat, e: nat, pos: nat, quote: Option<char>)
    requires i <= m <= e && Passes(js, i, stack, m, pos, quote) && Passes(js, m, stack, e, pos, quote)
    ensures Passes(js, i, stack, e, pos, quote)
  {
    RunInTwoParts(js, State(i, stack), m, e);
    if m <= pos {
      RunInTwoParts(js, State(i, stack), m, pos);
    }
  }

  lemma PassedInOneTurn(js: string, i: nat, stack: Stack, e: nat, pos: nat)
    requires i < |js| && !InString(stack) && Next(js, State(i, stack)) == State(e, stack)
    ensures Passes(js, i, stack, e, pos, None)
  {
    if i < pos <= e { RunTurn(js, State(i, stack), e, pos); }
    RunTurn(js, State(i, stack), e, e);
  }

  /** This is the last character before `i` that is not white space. */
  ghost predicate Comes(js: string, i: nat, before: Option<char>) {
    i <= |js| && LastNonSpace(js[..i]) == before
  }

  /** No comment begins with a slash just before `e`. */
  predicate Quiet(js: string, e: nat) {
    e < |js| ==> js[e] != '/' && js[e] != '*'
  }

  lemma HoldsBoth(js: string, i: nat, a: string, b: string)
    requires Holds(js, i, a + b)
    ensures Holds(js, i, a) && Holds(js, i + |a|, b) && i + |a| <= |js|
    ensures b != [] ==> i + |a| < |js| && js[i + |a|] == b[0]
    ensures b != [] && b[0] != '/' && b[0] != '*' ==> Quiet(js, i + |a|)
  {
    HoldsPart(js, i, a + b, "", a, b);
    HoldsPart(js, i, a + b, a, b, "");
    assert b != [] ==> js[i + |a| + 0] == b[0];
  }

  lemma ComesAfter(js: string, i: nat, before: Option<char>, s: string)
    requires Comes(js, i, before) && Holds(js, i, s)
    ensures Comes(js, i + |s|, Before(before, s))
  {
    assert js[i..i + |s|] == s;
    assert js[..i + |s|] == js[..i] + js[i..i + |s|];
    SpacesDoNotMatter(js[..i], s);
  }

  lemma OpenBraceComes(js: string, i: nat, before: Option<char>, s: string)
    requires Comes(js, i, before) && Holds(js, i, s) && s != "" && s[|s| - 1] == '{'
    ensures Comes(js, i + |s|, Some('{'))
  {
    ComesAfter(js, i, before, s);
  }

  lemma ScanChar(js: string, i: nat, stack: Stack, c: char, pos: nat)
    requires !InString(stack) && Holds(js, i, [c]) && IsNeutral(c)
    ensures Passes(js, i, stack, i + 1, pos, None)
  {
    RunNeutral(js, i, stack, [c]);
  }

  lemma ScanSlash(js: string, i: nat, stack: Stack, before: Option<char>, pos: nat)
    requires !InString(stack) && Holds(js, i, "/") && Comes(js, i, before) && FineItem(Slash, before)
    requires Quiet(js, i + 1)
    ensures Passes(js, i, stack, i + 1, pos, None)
  {
    assert js[i + 0] == "/"[0];
    StartsWithTwo(js[i..], "//");
    StartsWithTwo(js[i..], "/*");
    PassedInOneTurn(js, i, stack, i + 1, pos);
  }

  lemma ScanLineComment(js: string, i: nat, stack: Stack, text: string, pos: nat)
    requires !InString(stack) && Holds(js, i, ShownItem(LineComment(text))) && '\n' !in text
    ensures Passes(js, i, stack, i + |text| + 3, pos, None)
  {
    var all, e := "//" + text + "\n", i + 2 + |text|;
    assert all[0] == '/' && all[1] == '/' && all[|text| + 2] == '\n';
    assert js[i + 0] == all[0] && js[i + 1] == all[1] && js[i + (|text| + 2)] == all[|text| + 2];
    forall k | i <= k < e ensures js[k] != '\n' {
      assert js[i + (k - i)] == all[k - i];
      assert k - i >= 2 ==> all[k - i] == text[k - i - 2];
    }
    if i < pos <= e { RunLineComment(js, i, stack, e, pos); }
    RunLineComment(js, i, stack, e, e);
    RunChar(js, e, stack);
    hide Run, Holds;
    RunOn(js, State(i, stack), State(e, stack), State(e + 1, stack));
    RunHere(js, State(i, stack));
  }

  lemma RunHere(js: string, p: State)
    ensures Run(js, p, p.i) == p
  {
  }

  lemma ScanBlockComment(js: string, i: nat, stack: Stack, text: string, pos: nat)
    requires !InString(stack) && Holds(js, i, ShownItem(BlockComment(text))) && FineItem(BlockComment(text), None)
    ensures Passes(js, i, stack, i + |text| + 4, pos, None)
  {
    var all, n := "/*" + text + "*/", i + 2 + |text|;
    assert all[0] == '/' && all[1] == '*' && all[|text| + 2] == '*' && all[|text| + 3] == '/';
    assert js[i + 0] == all[0] && js[i + 1] == all[1];
    assert js[i + (|text| + 2)] == all[|text| + 2] && js[i + (|text| + 3)] == all[|text| + 3];
    forall k | i <= k < n ensures !ClosesComment(js, k) {
      assert !ClosesComment(all, k - i);
      assert js[i + (k - i)] == all[k - i] && js[i + (k + 1 - i)] == all[k + 1 - i];
    }
    if i < pos <= n + 2 { RunBlockComment(js, i, stack, n, pos); }
    RunBlockComment(js, i, stack, n, n + 2);
  }

  lemma ScanRegex(js: string, i: nat, stack: Stack, before: Option<char>, text: string, pos: nat)
    requires !InString(stack) && Holds(js, i, ShownItem(Regex(text)))
    requires Comes(js, i, before) && FineItem(Regex(text), before)
    ensures Passes(js, i, stack, i + |text| + 2, pos, None)
  {
    var all, e := "/" + text + "/", i + 1 + |text|;
    assert all[0] == '/' && all[1] == text[0] && all[|text| + 1] == '/';
    assert js[i + 0] == all[0] && js[i + 1] == all[1] && js[i + (|text| + 1)] == all[|text| + 1];
    HoldsPart(js, i, all, "/", text, "/");
    StartsWithTwo(js[i..], "//");
    StartsWithTwo(js[i..], "/*");
    assert js[i..][1..] == js[i + 1..] == text + js[e..];
    RegexLengthIs(js[i + 1..], text, js[e..]);
    PassedInOneTurn(js, i, stack, e + 1, pos);
  }

  /** Inside a literal, over text that stays there, nothing is opened or closed at any position. */
  lemma {:induction false} InsideThroughout(js: string, i: nat, stack: Stack, s: string, pos: nat)
    requires Holds(js, i, s) && i + |s| < |js| && js[i + |s|] != '{'
    requires InString(stack) && StaysInside(stack[|stack| - 1], s)
    ensures Passes(js, i, stack, i + |s|, pos, Some(stack[|stack| - 1]))
    decreases |s|
  {
    RunInside(js, i, stack, s);
    if s != [] && i < pos < i + |s| {
      var n := if s[0] == '\\' then 2 else 1;
      assert js[i] == js[i + 0] == s[0];
      StartsWithTwo(js[i..], "${");
      StartsWithTwo(s, "${");
      assert |s| > 1 ==> js[i + 1] == s[1];
      assert Next(js, State(i, stack)) == State(i + n, stack);
      if pos < i + n {
        RunTurn(js, State(i, stack), i + n, pos);
      } else {
        assert Holds(js, i + n, s[n..]);
        InsideThroughout(js, i + n, stack, s[n..], pos);
      }
    }
  }

  lemma ScanLiteral(js: string, i: nat, stack: Stack, quote: char, text: string, pos: nat)
    requires !InString(stack) && Holds(js, i, ShownItem(Literal(quote, text)))
    requires FineItem(Literal(quote, text), None)
    ensures Passes(js, i, stack, i + |text| + 2, pos, if i < pos < i + |text| + 2 then Some(quote) else None)
  {
    hide Run, Holds, StaysInside, LastNonSpace;
    var e, inner := i + 1 + |text|, stack + [quote];
    LiteralParts(js, i, quote, text);
    RunHere(js, State(i, stack));
    RunHere(js, State(e, inner));
    RunChar(js, i, stack);
    InsideThroughout(js, i + 1, inner, text, pos);
    RunChar(js, e, inner);
    assert inner[..|inner| - 1] == stack;
    RunOn(js, State(i + 1, inner), State(e, inner), State(e + 1, stack));
    Onwards(js, State(i, stack), State(i + 1, inner), pos, e + 1);
  }

  lemma LiteralParts(js: string, i: nat, quote: char, text: string)
    requires Holds(js, i, ShownItem(Literal(quote, text)))
    ensures i + |text| + 1 < |js| && js[i] == quote && js[i + 1 + |text|] == quote && Holds(js, i + 1, text)
  {
    var all := [quote] + text + [quote];
    assert js[i + 0] == all[0] && js[i + (|text| + 1)] == all[|text| + 1];
    HoldsPart(js, i, all, [quote], text, [quote]);
  }

  /** Over the text of any tree the scan leaves the stack as it was, and at each position it is in just
      the literal that encloses it in the tree. */
  lemma {:induction false} ScanCode(js: string, i: nat, stack: Stack, before: Option<char>, code: Code, k: nat)
    requires !InString(stack) && Holds(js, i, Shown(code)) && Comes(js, i, before) && Fine(code, before)
    requires Quiet(js, i + |Shown(code)|)
    ensures Passes(js, i, stack, i + |Shown(code)|, i + k, Around(code, k))
    decreases code, 1
  {
    hide *;
    CodeParts(code, before, k);
    match code
    case Nothing => ScanNothing(js, i, stack, k);
    case Then(item, rest) => ScanThen(js, i, stack, before, item, rest, k);
  }

  lemma {:induction false} ScanThen(js: string, i: nat, stack: Stack, before: Option<char>, item: Item, rest: Code,
                                    k: nat)
    requires !InString(stack) && Holds(js, i, ShownItem(item) + Shown(rest)) && Comes(js, i, before)
    requires FineItem(item, before) && Fine(rest, Before(before, ShownItem(item)))
    requires item.Slash? && Shown(rest) != "" ==> Shown(rest)[0] != '/' && Shown(rest)[0] != '*'
    requires Quiet(js, i + |ShownItem(item)| + |Shown(rest)|)
    ensures var m := i + |ShownItem(item)|;
            Passes(js, i, stack, m + |Shown(rest)|, i + k,
                   if i + k < m then AroundIn(item, k) else Around(rest, i + k - m))
    decreases Then(item, rest), 0
  {
    hide *;
    var s, t := ShownItem(item), Shown(rest);
    var m, j := i + |s|, if k < |s| then 0 else k - |s|;
    HoldsBoth(js, i, s, t);
    ComesAfter(js, i, before, s);
    ScanItem(js, i, stack, before, item, k);
    ScanCode(js, m, stack, Before(before, s), rest, j);
    PassesBoth(js, i, stack, m, m + |t|, i + k, AroundIn(item, k), Around(rest, j));
  }

  lemma ScanNothing(js: string, i: nat, stack: Stack, k: nat)
    ensures Shown(Nothing) == "" && Passes(js, i, stack, i, i + k, Around(Nothing, k))
  {
    RunHere(js, State(i, stack));
  }

  lemma CodeParts(code: Code, before: Option<char>, k: nat)
    requires Fine(code, before)
    ensures code.Nothing? ==> Shown(code) == ""
    ensures code.Then? ==>
              var s, t := ShownItem(code.item), Shown(code.rest);
              && Shown(code) == s + t
              && FineItem(code.item, before) && Fine(code.rest, Before(before, s))
              && (code.item.Slash? && t != "" ==> t[0] != '/' && t[0] != '*')
              && Around(code, k) == (if k < |s| then AroundIn(code.item, k) else Around(code.rest, k - |s|))
  {
  }

  lemma PassesBoth(js: string, i: nat, stack: Stack, m: nat, e: nat, pos: nat, a: Option<char>, b: Option<char>)
    requires i <= m <= e && i <= pos
    requires Passes(js, i, stack, m, pos, a) && Passes(js, m, stack, e, if pos < m then m else pos, b)
    ensures Passes(js, i, stack, e, pos, if pos < m then a else b)
  {
    PassesOn(js, i, stack, m, e, pos, if pos < m then a else b);
  }

  lemma {:induction false} ScanItem(js: string, i: nat, stack: Stack, before: Option<char>, item: Item, k: nat)
    requires !InString(stack) && Holds(js, i, ShownItem(item)) && Comes(js, i, before) && FineItem(item, before)
    requires item.Slash? ==> Quiet(js, i + |ShownItem(item)|)
    ensures Passes(js, i, stack, i + |ShownItem(item)|, i + k, AroundIn(item, k))
    decreases item, 0
  {
    hide Run, Holds, StaysInside, RegexText, Comes, Passes, Quiet, Shown, Fine, ShownParts, FineParts;
    hide AroundParts, Around;
    match item
    case Char(c) => ScanChar(js, i, stack, c, i + k);
    case Slash => ScanSlash(js, i, stack, before, i + k);
    case LineComment(text) => ScanLineComment(js, i, stack, text, i + k);
    case BlockComment(text) => ScanBlockComment(js, i, stack, text, i + k);
    case Regex(text) => ScanRegex(js, i, stack, before, text, i + k);
    case Literal(quote, text) => ScanLiteral(js, i, stack, quote, text, i + k);
    case Template(parts) => ScanTemplate(js, i, stack, before, parts, k);
    case Braces(inside) => ScanBraces(js, i, stack, before, inside, k);
  }

  lemma {:induction false} ScanTemplate(js: string, i: nat, stack: Stack, before: Option<char>, parts: Parts, k: nat)
    requires !InString(stack) && Holds(js, i, "`" + ShownParts(parts)) && FineParts(parts) && Comes(js, i, before)
    ensures Passes(js, i, stack, i + 1 + |ShownParts(parts)|, i + k, AroundIn(Template(parts), k))
    decreases parts, 2
  {
    hide Run, Holds, Comes, ShownParts, AroundParts, FineParts;
    var inner, e := stack + ['`'], i + 1 + |ShownParts(parts)|;
    HoldsBoth(js, i, "`", ShownParts(parts));
    ComesAfter(js, i, before, "`");
    RunFirst(js, i, stack, '`');
    ScanParts(js, i + 1, inner, Before(before, "`"), parts, if k == 0 then 0 else k - 1);
    assert inner[..|inner| - 1] == stack;
    PartsStart(parts);
    Onwards(js, State(i, stack), State(i + 1, inner), i + k, e);
  }

  lemma RunFirst(js: string, i: nat, stack: Stack, c: char)
    requires Holds(js, i, [c]) && c != '/' && c != '$' && c != '\\'
    ensures Run(js, State(i, stack), i + 1) == State(i + 1, AfterChar(c, stack))
    ensures Run(js, State(i, stack), i) == State(i, stack)
  {
    assert js[i + 0] == [c][0];
    RunChar(js, i, stack);
  }

  lemma {:induction false} ScanBraces(js: string, i: nat, stack: Stack, before: Option<char>, inside: Code, k: nat)
    requires !InString(stack) && Holds(js, i, "{" + Shown(inside) + "}") && Fine(inside, Some('{'))
    requires Comes(js, i, before)
    ensures Passes(js, i, stack, i + |Shown(inside)| + 2, i + k, AroundIn(Braces(inside), k))
    decreases inside, 2
  {
    hide Run, Holds, Comes, Shown, Around, Fine, AfterChar;
    var inner, e := AfterChar('{', stack), i + 1 + |Shown(inside)|;
    var j := if k == 0 then 0 else k - 1;
    assert "{" + (Shown(inside) + "}") == "{" + Shown(inside) + "}";
    HoldsBoth(js, i, "{", Shown(inside) + "}");
    HoldsBoth(js, i + 1, Shown(inside), "}");
    OpenBraceComes(js, i, before, "{");
    BracesMatch(stack);
    RunFirst(js, i, stack, '{');
    ScanCode(js, i + 1, inner, Some('{'), inside, j);
    NothingAroundTheEnd(inside, j);
    RunFirst(js, e, inner, '}');
    RunOn(js, State(i + 1, inner), State(e, inner), State(e + 1, stack));
    Onwards(js, State(i, stack), State(i + 1, inner), i + k, e + 1);
  }

  lemma BracesMatch(stack: Stack)
    requires !InString(stack)
    ensures !InString(AfterChar('{', stack)) && AfterChar('}', AfterChar('{', stack)) == stack
  {
    assert (stack + ['{'])[..|stack|] == stack;
  }

  lemma {:induction false} NothingAroundTheEnd(code: Code, k: nat)
    ensures k >= |Shown(code)| ==> Around(code, k) == None
  {
    if code.Then? && k >= |Shown(code)| {
      NothingAroundTheEnd(code.rest, k - |ShownItem(code.item)|);
    }
  }

  /** From inside a template literal to just after its closing backtick. */
  lemma {:induction false} ScanParts(js: string, i: nat, inner: Stack, before: Option<char>, parts: Parts, k: nat)
    requires inner != [] && inner[|inner| - 1] == '`' && !InString(inner[..|inner| - 1])
    requires Holds(js, i, ShownParts(parts)) && FineParts(parts) && Comes(js, i, before)
    ensures var e := i + |ShownParts(parts)|; Run(js, State(i, inner), e) == State(e, inner[..|inner| - 1])
    ensures k < |ShownParts(parts)| ==> QuoteOf(Run(js, State(i, inner), i + k).stack) == AroundParts(parts, k)
    decreases parts, 0
  {
    hide Run, Holds, Comes, Fine, StaysInside, Shown, Around;
    match parts
    case Closing =>
      RunFirst(js, i, inner, '`');
    case Words(text, rest) =>
      PartsStart(rest);
      hide ShownParts, AroundParts, FineParts;
      ScanWords(js, i, inner, before, text, ShownParts(rest), k);
      var m := i + |text|;
      ScanParts(js, m, inner, Before(before, text), rest, if k < |text| then 0 else k - |text|);
      Onwards(js, State(i, inner), State(m, inner), i + k, m + |ShownParts(rest)|);
    case Hole(code, rest) =>
      hide ShownParts, AroundParts, FineParts;
      ScanHole(js, i, inner, before, code, ShownParts(rest), k);
      var m := i + |Shown(code)| + 3;
      var held := "${" + Shown(code) + "}";
      ScanParts(js, m, inner, Before(before, held), rest, if i + k < m then 0 else i + k - m);
      Onwards(js, State(i, inner), State(m, inner), i + k, m + |ShownParts(rest)|);
  }

  lemma ScanWords(js: string, i: nat, inner: Stack, before: Option<char>, text: string, after: string, k: nat)
    requires inner != [] && inner[|inner| - 1] == '`' && Holds(js, i, text + after) && StaysInside('`', text)
    requires after != "" && after[0] != '{' && Comes(js, i, before)
    ensures var m := i + |text|;
            && Holds(js, m, after) && Comes(js, m, Before(before, text))
            && Run(js, State(i, inner), m) == State(m, inner)
            && (k < |text| ==> QuoteOf(Run(js, State(i, inner), i + k).stack) == Some('`'))
  {
    hide Run, Holds, Comes, StaysInside;
    HoldsBoth(js, i, text, after);
    ComesAfter(js, i, before, text);
    InsideThroughout(js, i, inner, text, i + k);
  }

  lemma PartsStart(parts: Parts)
    ensures ShownParts(parts) != "" && (!parts.Words? ==> ShownParts(parts)[0] != '{')
  {
  }

  lemma Onwards(js: string, p: State, q: State, pos: nat, e: nat)
    requires Run(js, p, q.i) == q
    ensures q.i <= pos ==> Run(js, p, pos) == Run(js, q, pos)
    ensures q.i <= e ==> Run(js, p, e) == Run(js, q, e)
  {
    if q.i <= pos { RunInTwoParts(js, p, q.i, pos); }
    if q.i <= e { RunInTwoParts(js, p, q.i, e); }
  }

  lemma {:induction false} ScanHole(js: string, i: nat, inner: Stack, before: Option<char>, code: Code, after: string,
                                    k: nat)
    requires inner != [] && inner[|inner| - 1] == '`' && Holds(js, i, "${" + Shown(code) + "}" + after)
    requires Fine(code, Some('{')) && Comes(js, i, before)
    ensures var m, held := i + |Shown(code)| + 3, "${" + Shown(code) + "}";
            && Holds(js, m, after) && Comes(js, m, Before(before, held))
            && Run(js, State(i, inner), m) == State(m, inner)
            && (i + k < m ==>
                  QuoteOf(Run(js, State(i, inner), i + k).stack)
                  == if k == 0 then Some('`') else if k == 1 then None else Around(code, k - 2))
    decreases code, 2
  {
    hide Run, Holds, Comes, Fine, Shown, Around, LastNonSpace;
    var hole, a, b := inner + ['{'], i + 2, i + 2 + |Shown(code)|;
    HoleParts(js, i, before, Shown(code), after);
    var j := if k < 2 then 0 else k - 2;
    RunHere(js, State(i, inner));
    RunOpenBrace(js, i, inner);
    ScanCode(js, a, hole, Some('{'), code, j);
    NothingAroundTheEnd(code, j);
    RunFirst(js, b, hole, '}');
    assert AfterChar('}', hole) == inner by { assert hole[..|inner|] == inner; }
    RunOn(js, State(a, hole), State(b, hole), State(b + 1, inner));
    Onwards(js, State(i, inner), State(a, hole), i + k, b + 1);
    if k == 1 { AtTheBrace(js, i, inner); }
  }

  lemma HoleParts(js: string, i: nat, before: Option<char>, inside: string, after: string)
    requires Holds(js, i, "${" + inside + "}" + after) && Comes(js, i, before)
    ensures var a, b := i + 2, i + 2 + |inside|;
            && b < |js| && js[i] == '$' && js[i + 1] == '{' && Comes(js, a, Some('{')) && Holds(js, a, inside)
            && Quiet(js, b) && Holds(js, b, "}") && Holds(js, b + 1, after)
            && Comes(js, b + 1, Before(before, "${" + inside + "}"))
  {
    hide Holds, Comes, Quiet;
    assert "${" + (inside + ("}" + after)) == "${" + inside + "}" + after;
    HoldsBoth(js, i, "${", inside + ("}" + after));
    HoldsBoth(js, i + 2, inside, "}" + after);
    HoldsBoth(js, i + 2 + |inside|, "}", after);
    HoldsBoth(js, i, "${" + inside + "}", after);
    TwoCharacters(js, i, "${");
    OpenBraceComes(js, i, before, "${");
    ComesAfter(js, i, before, "${" + inside + "}");
  }

  lemma TwoCharacters(js: string, i: nat, s: string)
    requires Holds(js, i, s) && |s| == 2
    ensures i + 1 < |js| && js[i] == s[0] && js[i + 1] == s[1]
  {
    assert js[i + 0] == s[0];
  }

  /** A position between the dollar and the brace is stepped over. */
  lemma AtTheBrace(js: string, i: nat, stack: Stack)
    requires i + 1 < |js| && js[i] == '$' && js[i + 1] == '{'
    requires InString(stack) && stack[|stack| - 1] == '`'
    ensures Run(js, State(i, stack), i + 1) == State(i + 2, stack + ['{'])
  {
  }

  /** For the text of every such tree: at each position the scanner answers the quote of the innermost
      literal that encloses it, or none where none does; and at its end it is outside all of them. */
  lemma TheQuoteIsTheTrees(code: Code, pos: nat)
    requires Fine(code, None)
    ensures QuoteAt(Shown(code), pos) == Around(code, pos)
  {
    var js := Shown(code);
    hide Run, Fine;
    assert js[..0] == "" && Holds(js, 0, js);
    ScanCode(js, 0, [], None, code, pos);
    NothingAroundTheEnd(code, pos);
    if pos >= |js| { RunPastTheEnd(js, START, pos); }
  }

  lemma {:induction false} RunPastTheEnd(js: string, p: State, pos: nat)
    requires pos >= |js|
    ensures Run(js, p, pos) == Run(js, p, |js|)
    decreases |js| - p.i
  {
    if p.i < |js| {
      RunPastTheEnd(js, Next(js, p), pos);
    }
  }
}
