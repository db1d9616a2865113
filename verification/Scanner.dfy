/** The scanner that tells which JavaScript string literal a position sits in, and the
    rewrite that turns a text inside such a literal into a translation call.

    A position of the scan is an index and a stack, bottom first. A stack entry is an open
    quote, or '{' for each brace opened since a template literal's "${". */
module Scanner {
  import opened Options
  import opened Text

  type Stack = seq<char>

  datatype State = State(i: nat, stack: Stack)

  predicate IsQuote(c: char) {
    c == '\'' || c == '"' || c == '`'
  }

  predicate InString(stack: Stack) {
    stack != [] && IsQuote(stack[|stack| - 1])
  }

  /** The enclosing quote a stack stands for. */
  function QuoteOf(stack: Stack): Option<char> {
    if InString(stack) then Some(stack[|stack| - 1]) else None
  }

  function LastNonSpace(s: string): Option<char> {
    if s == [] then None
    else if IsSpace(s[|s| - 1]) then LastNonSpace(s[..|s| - 1])
    else Some(s[|s| - 1])
  }

  // After one of these, a slash divides.
  predicate EndsOperand(c: char) {
    'A' <= c <= 'Z' || 'a' <= c <= 'z' || '0' <= c <= '9' || c == '_' || c == '$' || c == ')' || c == ']'
  }

  predicate StartsWith(s: string, prefix: string) {
    |prefix| <= |s| && s[..|prefix|] == prefix
  }

  /** Length of a line comment: up to the next newline, or to the end. */
  function LineLength(s: string): nat {
    if s == [] || s[0] == '\n' then 0 else 1 + LineLength(s[1..])
  }

  /** Length of a block comment: past the next asterisk-slash, or to the end. */
  function BlockLength(s: string): nat {
    if s == [] then 0 else if StartsWith(s, "*/") then 2 else 1 + BlockLength(s[1..])
  }

  /** Length of a regular expression's body: up to an unescaped slash or newline. */
  function RegexLength(s: string): nat
    decreases |s|
  {
    if s == [] || s[0] == '/' || s[0] == '\n' then 0
    else if s[0] == '\\' then 2 + (if |s| == 1 then 0 else RegexLength(s[2..]))
    else 1 + RegexLength(s[1..])
  }

  datatype Move = Move(width: nat, stack: Stack)

  /** One turn of the scan inside a string: the rest of the text from here on. */
  function StringMove(rest: string, stack: Stack): Move
    requires rest != [] && InString(stack)
  {
    var c := rest[0];
    var cur := stack[|stack| - 1];
    if c == '\\' then Move(2, stack)
    else if c == cur then Move(1, stack[..|stack| - 1])
    else if cur == '`' && StartsWith(rest, "${") then Move(2, stack + ['{'])
    else Move(1, stack)
  }

  /** One turn outside strings: `before` is the last character that is not white space. */
  function CodeMove(rest: string, before: Option<char>, stack: Stack): Move
    requires rest != []
  {
    var c := rest[0];
    if StartsWith(rest, "//") then Move(LineLength(rest), stack)
    else if StartsWith(rest, "/*") then Move(BlockLength(rest), stack)
    else if c == '/' then
      if before.Some? && !EndsOperand(before.value) then Move(RegexLength(rest[1..]) + 2, stack)
      else Move(1, stack)
    else if IsQuote(c) then Move(1, stack + [c])
    else if c == '{' && stack != [] && stack[|stack| - 1] == '{' then Move(1, stack + ['{'])
    else if c == '}' && stack != [] && stack[|stack| - 1] == '{' then Move(1, stack[..|stack| - 1])
    else Move(1, stack)
  }

  function Next(js: string, p: State): (q: State)
    requires p.i < |js|
    ensures p.i < q.i
  {
    var m := if InString(p.stack) then StringMove(js[p.i..], p.stack)
             else CodeMove(js[p.i..], LastNonSpace(js[..p.i]), p.stack);
    State(p.i + m.width, m.stack)
  }

  /** The state in which the scan stops at or after `pos`. */
  function Run(js: string, p: State, pos: nat): State
    decreases |js| - p.i
  {
    if p.i < pos && p.i < |js| then Run(js, Next(js, p), pos) else p
  }

  const START := State(0, [])

  function QuoteAt(js: string, pos: nat): Option<char> {
    QuoteOf(Run(js, START, pos).stack)
  }

  /** Where the scan goes on after the regular expression that starts at `i`. */
  method SkipRegex(js: string, i: nat) returns (end: nat)
    requires i < |js|
    ensures end == i + RegexLength(js[i + 1..]) + 2
  {
    var j := i + 1;
    while j < |js| && js[j] != '/' && js[j] != '\n'
      invariant i < j
      invariant j + RegexLength(if j <= |js| then js[j..] else []) == i + 1 + RegexLength(js[i + 1..])
      decreases |js| - j
    {
      j := j + if js[j] == '\\' then 2 else 1;
    }
    end := j + 1;
  }

  /** The scan as it runs. */
  method EnclosingQuote(js: string, pos: nat) returns (quote: Option<char>)
    ensures quote == QuoteAt(js, pos)
  {
    var stack: Stack := [];
    var i := 0;
    while i < pos && i < |js|
      invariant Run(js, State(i, stack), pos) == Run(js, START, pos)
      decreases |js| - i
    {
      var c, rest := js[i], js[i..];
      ghost var here := State(i, stack);
      if InString(stack) {
        var cur := stack[|stack| - 1];
        if c == '\\' {
          i := i + 2;
        } else if c == cur {
          stack, i := stack[..|stack| - 1], i + 1;
        } else if cur == '`' && StartsWith(rest, "${") {
          stack, i := stack + ['{'], i + 2;
        } else {
          i := i + 1;
        }
      } else if StartsWith(rest, "//") {
        i := i + LineLength(rest);
      } else if StartsWith(rest, "/*") {
        i := i + BlockLength(rest);
      } else if c == '/' {
        var before := LastNonSpace(js[..i]);
        if before.Some? && !EndsOperand(before.value) {
          assert rest[1..] == js[i + 1..];
          i := SkipRegex(js, i);
        } else {
          i := i + 1;
        }
      } else if IsQuote(c) {
        stack, i := stack + [c], i + 1;
      } else if c == '{' && stack != [] && stack[|stack| - 1] == '{' {
        stack, i := stack + ['{'], i + 1;
      } else if c == '}' && stack != [] && stack[|stack| - 1] == '{' {
        stack, i := stack[..|stack| - 1], i + 1;
      } else {
        i := i + 1;
      }
      assert State(i, stack) == Next(js, here);
    }
    quote := QuoteOf(stack);
  }

  // ---------------------------------------------------------------- stacks

  /** Only a template literal can have something open inside it, and that is a brace;
      a brace is only counted inside a template literal's "${". */
  ghost predicate WellFormed(stack: Stack) {
    && (forall k :: 0 <= k < |stack| ==> IsQuote(stack[k]) || stack[k] == '{')
    && (forall k :: 0 <= k < |stack| - 1 && IsQuote(stack[k]) ==> stack[k] == '`' && stack[k + 1] == '{')
    && (forall k :: 0 <= k < |stack| && stack[k] == '{' ==> 0 < k && (stack[k - 1] == '`' || stack[k - 1] == '{'))
  }

  lemma {:induction false} RunKeepsStacksWellFormed(js: string, p: State, pos: nat)
    requires WellFormed(p.stack)
    ensures WellFormed(Run(js, p, pos).stack)
    decreases |js| - p.i
  {
    if p.i < pos && p.i < |js| {
      NextKeepsWellFormed(js, p);
      hide Next, WellFormed;
      RunKeepsStacksWellFormed(js, Next(js, p), pos);
    }
  }

  lemma NextKeepsWellFormed(js: string, p: State)
    requires WellFormed(p.stack) && p.i < |js|
    ensures WellFormed(Next(js, p).stack)
  {
    hide LineLength, BlockLength, RegexLength, LastNonSpace;
  }

  /** A single or double quote is only ever on top of the stack. */
  lemma PlainQuotesAreOnTop(js: string, pos: nat, k: nat)
    requires k < |Run(js, START, pos).stack|
    requires Run(js, START, pos).stack[k] == '\'' || Run(js, START, pos).stack[k] == '"'
    ensures k == |Run(js, START, pos).stack| - 1
  {
    RunKeepsStacksWellFormed(js, START, pos);
  }

  // ---------------------------------------------------------------- runs compose

  lemma {:induction false} RunInTwoParts(js: string, p: State, mid: nat, pos: nat)
    requires mid <= pos
    ensures Run(js, p, pos) == Run(js, Run(js, p, mid), pos)
    decreases |js| - p.i
  {
    if p.i < mid && p.i < |js| {
      RunInTwoParts(js, Next(js, p), mid, pos);
    }
  }

  lemma {:induction false} SpacesDoNotMatter(s: string, t: string)
    ensures LastNonSpace(s + t) == if LastNonSpace(t).Some? then LastNonSpace(t) else LastNonSpace(s)
    decreases |t|
  {
    if t == [] {
      assert s + t == s;
    } else {
      assert (s + t)[..|s + t| - 1] == s + t[..|t| - 1];
      SpacesDoNotMatter(s, t[..|t| - 1]);
    }
  }

  lemma {:induction false} NextInSuffix(a: string, b: string, t: string, k: nat, stack: Stack)
    requires LastNonSpace(a) == LastNonSpace(b) && LastNonSpace(a).Some? && k < |t|
    ensures var p, q := Next(a + t, State(|a| + k, stack)), Next(b + t, State(|b| + k, stack));
            p.stack == q.stack && p.i - |a| == q.i - |b|
  {
    hide LastNonSpace, StringMove, CodeMove;
    assert (a + t)[|a| + k..] == t[k..] == (b + t)[|b| + k..];
    assert (a + t)[..|a| + k] == a + t[..k] && (b + t)[..|b| + k] == b + t[..k];
    SpacesDoNotMatter(a, t[..k]);
    SpacesDoNotMatter(b, t[..k]);
  }

  /** What follows is scanned alike after any two texts with the same last character. */
  lemma {:induction false} RunInSuffix(a: string, b: string, t: string, k: nat, stack: Stack, pos: nat)
    requires LastNonSpace(a) == LastNonSpace(b) && LastNonSpace(a).Some?
    ensures var p := Run(a + t, State(|a| + k, stack), |a| + pos);
            var q := Run(b + t, State(|b| + k, stack), |b| + pos);
            p.stack == q.stack && p.i - |a| == q.i - |b|
    decreases |t| - k
  {
    hide Next, LastNonSpace;
    if k < pos && k < |t| {
      NextInSuffix(a, b, t, k, stack);
      var p := Next(a + t, State(|a| + k, stack));
      RunInSuffix(a, b, t, p.i - |a|, p.stack, pos);
    }
  }

  // ---------------------------------------------------------------- the text before the splice

  lemma StartsWithTwo(s: string, p: string)
    requires |p| == 2
    ensures StartsWith(s, p) <==> |s| >= 2 && s[0] == p[0] && s[1] == p[1]
  {
  }

  lemma {:induction false} LineLengthInPrefix(s: string, t: string, n: nat)
    requires n <= |s| && n <= |t| && s[..n] == t[..n] && LineLength(s) < n
    ensures LineLength(t) == LineLength(s)
    decreases n
  {
    assert s[0] == s[..n][0] == t[0];
    if s[0] != '\n' {
      assert s[1..][..n - 1] == s[..n][1..] == t[1..][..n - 1];
      LineLengthInPrefix(s[1..], t[1..], n - 1);
    }
  }

  lemma {:induction false} BlockLengthInPrefix(s: string, t: string, n: nat)
    requires n <= |s| && n <= |t| && s[..n] == t[..n] && BlockLength(s) < n
    ensures BlockLength(t) == BlockLength(s)
    decreases n
  {
    assert s[0] == s[..n][0] == t[0];
    assert n >= 2 && s[1] == s[..n][1] == t[1];
    if !StartsWith(s, "*/") {
      StartsWithTwo(s, "*/");
      StartsWithTwo(t, "*/");
      assert s[1..][..n - 1] == s[..n][1..] == t[1..][..n - 1];
      BlockLengthInPrefix(s[1..], t[1..], n - 1);
    } else {
      assert s[..2][0] == '*' && s[..2][1] == '/';
      assert t[..2] == "*/";
    }
  }

  lemma {:induction false} RegexLengthInPrefix(s: string, t: string, n: nat)
    requires n <= |s| && n <= |t| && s[..n] == t[..n] && RegexLength(s) < n
    ensures RegexLength(t) == RegexLength(s)
    decreases n
  {
    assert s[0] == s[..n][0] == t[0];
    if s[0] == '/' || s[0] == '\n' {
    } else if s[0] == '\\' {
      assert s[2..][..n - 2] == s[..n][2..] == t[2..][..n - 2];
      RegexLengthInPrefix(s[2..], t[2..], n - 2);
    } else {
      assert s[1..][..n - 1] == s[..n][1..] == t[1..][..n - 1];
      RegexLengthInPrefix(s[1..], t[1..], n - 1);
    }
  }

  /** A turn is decided by the characters it passes over and the one after it; inside
      a string by two characters. */
  lemma NextInPrefix(js: string, other: string, p: State, a: nat)
    requires p.i < a < |js| && a < |other| && js[..a + 1] == other[..a + 1]
    requires InString(p.stack) || Next(js, p).i <= a
    ensures Next(other, p) == Next(js, p)
  {
    var s, t, n := js[p.i..], other[p.i..], a + 1 - p.i;
    assert s[..n] == js[..a + 1][p.i..] == other[..a + 1][p.i..] == t[..n];
    assert s[0] == s[..n][0] == t[0] && s[1] == s[..n][1] == t[1];
    assert js[..p.i] == js[..a + 1][..p.i] == other[..a + 1][..p.i] == other[..p.i];
    forall pat | |pat| == 2 ensures StartsWith(s, pat) == StartsWith(t, pat) {
      StartsWithTwo(s, pat);
      StartsWithTwo(t, pat);
    }
    if !InString(p.stack) {
      if StartsWith(s, "//") {
        LineLengthInPrefix(s, t, n);
      } else if StartsWith(s, "/*") {
        BlockLengthInPrefix(s, t, n);
      } else if Next(js, p).i == p.i + RegexLength(s[1..]) + 2 {
        assert s[1..][..n - 1] == s[..n][1..] == t[1..][..n - 1];
        RegexLengthInPrefix(s[1..], t[1..], n - 1);
      }
    }
  }

  /** Up to a position inside a string, the scan does not look past that position. */
  lemma {:induction false} RunInPrefix(js: string, other: string, p: State, a: nat, pos: nat)
    requires a < |js| && a < |other| && js[..a + 1] == other[..a + 1] && pos <= a
    requires InString(Run(js, p, a).stack)
    ensures Run(other, p, pos) == Run(js, p, pos)
    decreases |js| - p.i
  {
    if p.i < pos {
      var q := Next(js, p);
      assert q.i > a ==> Run(js, q, a) == q;
      NextInPrefix(js, other, p, a);
      RunInPrefix(js, other, q, a, pos);
    }
  }

  /** A scan that stops inside a string stops on the position, or one past it when the
      position is escaped. */
  lemma {:induction false} StopInString(js: string, p: State, a: nat)
    requires a < |js| && p.i <= a + 1
    requires InString(Run(js, p, a).stack)
    ensures a <= Run(js, p, a).i <= a + 1
    decreases |js| - p.i
  {
    if p.i < a {
      var q := Next(js, p);
      assert q.i >= a ==> Run(js, q, a) == q;
      assert q.i > p.i + 2 ==> q.stack == p.stack && !InString(q.stack);
      StopInString(js, q, a);
    }
  }

  // ---------------------------------------------------------------- the spliced text

  /** A text a string literal opened with `q` goes on through. */
  predicate StaysInside(q: char, s: string)
    decreases |s|
  {
    s == [] ||
    if s[0] == '\\' then |s| >= 2 && StaysInside(q, s[2..])
    else s[0] != q && !(q == '`' && StartsWith(s, "${")) && StaysInside(q, s[1..])
  }

  /** Texts without quotes, backslashes and "${" stay inside any literal. */
  lemma {:induction false} PlainTextStaysInside(q: char, s: string)
    requires forall k :: 0 <= k < |s| ==> s[k] != q && s[k] != '\\'
    requires forall k :: 0 <= k < |s| - 1 ==> !(s[k] == '$' && s[k + 1] == '{')
    ensures StaysInside(q, s)
    decreases |s|
  {
    if s != [] {
      StartsWithTwo(s, "${");
      PlainTextStaysInside(q, s[1..]);
    }
  }

  lemma {:induction false} StaysInsideConcat(q: char, s: string, t: string)
    requires StaysInside(q, s) && StaysInside(q, t)
    requires t == [] || t[0] != '{'
    ensures StaysInside(q, s + t)
    decreases |s|
  {
    if s == [] {
      assert s + t == t;
    } else if s[0] == '\\' {
      assert (s + t)[2..] == s[2..] + t;
      StaysInsideConcat(q, s[2..], t);
    } else {
      assert (s + t)[1..] == s[1..] + t;
      StartsWithTwo(s, "${");
      StartsWithTwo(s + t, "${");
      StaysInsideConcat(q, s[1..], t);
    }
  }

  predicate Holds(js: string, i: nat, s: string) {
    i + |s| <= |js| && forall k :: 0 <= k < |s| ==> js[i + k] == s[k]
  }

  /** Such a text, up to a character that is not a brace, leaves the scan where it was. */
  lemma {:induction false} RunInside(js: string, i: nat, stack: Stack, s: string)
    requires Holds(js, i, s) && i + |s| < |js| && js[i + |s|] != '{'
    requires InString(stack) && StaysInside(stack[|stack| - 1], s)
    ensures Run(js, State(i, stack), i + |s|) == State(i + |s|, stack)
    decreases |s|
  {
    if s != [] {
      assert js[i] == js[i + 0] == s[0];
      StartsWithTwo(js[i..], "${");
      StartsWithTwo(s, "${");
      if s[0] == '\\' {
        assert Holds(js, i + 2, s[2..]);
        RunInside(js, i + 2, stack, s[2..]);
      } else {
        assert |s| > 1 ==> js[i + 1] == s[1];
        assert Holds(js, i + 1, s[1..]);
        RunInside(js, i + 1, stack, s[1..]);
      }
    }
  }

  /** Characters that mean nothing outside strings. */
  predicate IsNeutral(c: char) {
    c != '/' && !IsQuote(c) && c != '{' && c != '}'
  }

  lemma {:induction false} RunNeutral(js: string, i: nat, stack: Stack, s: string)
    requires Holds(js, i, s) && !InString(stack)
    requires forall k :: 0 <= k < |s| ==> IsNeutral(s[k])
    ensures Run(js, State(i, stack), i + |s|) == State(i + |s|, stack)
    decreases |s|
  {
    if s != [] {
      assert js[i] == js[i + 0] == s[0];
      StartsWithTwo(js[i..], "//");
      StartsWithTwo(js[i..], "/*");
      assert Holds(js, i + 1, s[1..]);
      RunNeutral(js, i + 1, stack, s[1..]);
    }
  }

  lemma RunOn(js: string, p: State, q: State, r: State)
    requires q.i <= r.i && Run(js, p, q.i) == q && Run(js, q, r.i) == r
    ensures Run(js, p, r.i) == r
  {
    RunInTwoParts(js, p, q.i, r.i);
  }

  // ---------------------------------------------------------------- comments and regular expressions

  lemma {:induction false} LineLengthIs(s: string, n: nat)
    requires n <= |s| && (forall k :: 0 <= k < n ==> s[k] != '\n') && (n == |s| || s[n] == '\n')
    ensures LineLength(s) == n
    decreases n
  {
    if n > 0 {
      LineLengthIs(s[1..], n - 1);
    }
  }

  predicate ClosesComment(s: string, k: nat) {
    k + 1 < |s| && s[k] == '*' && s[k + 1] == '/'
  }

  lemma {:induction false} BlockLengthIs(s: string, n: nat)
    requires forall k :: 0 <= k < n ==> !ClosesComment(s, k)
    ensures ClosesComment(s, n) ==> BlockLength(s) == n + 2
    ensures n == |s| ==> BlockLength(s) == n
    decreases n
  {
    StartsWithTwo(s, "*/");
    if n > 0 && s != [] {
      assert !ClosesComment(s, 0);
      forall k | 0 <= k < n - 1 ensures !ClosesComment(s[1..], k) {
        assert !ClosesComment(s, k + 1);
      }
      BlockLengthIs(s[1..], n - 1);
    }
  }

  /** A regular expression's text: no slash or line end that is not escaped. */
  predicate RegexText(s: string)
    decreases |s|
  {
    s == [] ||
    if s[0] == '\\' then |s| >= 2 && RegexText(s[2..])
    else s[0] != '/' && s[0] != '\n' && RegexText(s[1..])
  }

  lemma {:induction false} RegexLengthIs(s: string, body: string, rest: string)
    requires s == body + rest && RegexText(body) && (rest == [] || rest[0] == '/' || rest[0] == '\n')
    ensures RegexLength(s) == |body|
    decreases |body|
  {
    if body == [] {
      assert s == rest;
    } else if body[0] == '\\' {
      assert s[2..] == body[2..] + rest;
      RegexLengthIs(s[2..], body[2..], rest);
    } else {
      assert s[1..] == body[1..] + rest;
      RegexLengthIs(s[1..], body[1..], rest);
    }
  }

  /** A turn that goes to `e` is over by any position up to it. */
  lemma RunTurn(js: string, p: State, e: nat, pos: nat)
    requires p.i < |js| && Next(js, p) == State(e, p.stack) && p.i < pos <= e
    ensures Run(js, p, pos) == State(e, p.stack)
  {
  }

  /** A line comment is passed over up to its line's end, or the file's; no position in it is inside a
      string, whatever quotes it has. */
  lemma RunLineComment(js: string, i: nat, stack: Stack, e: nat, pos: nat)
    requires !InString(stack) && i + 2 <= e <= |js| && js[i] == '/' && js[i + 1] == '/' && i < pos <= e
    requires (forall k :: i <= k < e ==> js[k] != '\n') && (e == |js| || js[e] == '\n')
    ensures Run(js, State(i, stack), pos) == State(e, stack)
  {
    StartsWithTwo(js[i..], "//");
    LineLengthIs(js[i..], e - i);
    RunTurn(js, State(i, stack), e, pos);
  }

  /** A block comment is passed over up to just after the first asterisk and slash. */
  lemma RunBlockComment(js: string, i: nat, stack: Stack, n: nat, pos: nat)
    requires !InString(stack) && i + 1 < |js| && js[i] == '/' && js[i + 1] == '*'
    requires i <= n && ClosesComment(js, n) && (forall k :: i <= k < n ==> !ClosesComment(js, k))
    requires i < pos <= n + 2
    ensures Run(js, State(i, stack), pos) == State(n + 2, stack)
  {
    StartsWithTwo(js[i..], "//");
    StartsWithTwo(js[i..], "/*");
    forall k | 0 <= k < n - i ensures !ClosesComment(js[i..], k) {
      assert !ClosesComment(js, i + k);
    }
    BlockLengthIs(js[i..], n - i);
    RunTurn(js, State(i, stack), n + 2, pos);
  }

  /** One that is never closed, up to the end of the file. */
  lemma RunOpenComment(js: string, i: nat, stack: Stack, pos: nat)
    requires !InString(stack) && i + 1 < |js| && js[i] == '/' && js[i + 1] == '*'
    requires (forall k :: i <= k < |js| ==> !ClosesComment(js, k)) && i < pos <= |js|
    ensures Run(js, State(i, stack), pos) == State(|js|, stack)
  {
    StartsWithTwo(js[i..], "//");
    StartsWithTwo(js[i..], "/*");
    forall k | 0 <= k < |js| - i ensures !ClosesComment(js[i..], k) {
      assert !ClosesComment(js, i + k);
    }
    BlockLengthIs(js[i..], |js| - i);
    RunTurn(js, State(i, stack), |js|, pos);
  }

  /** The last character before `i` that is not white space. */
  ghost predicate LastBefore(js: string, i: nat, k: nat) {
    k < i <= |js| && !IsSpace(js[k]) && forall m :: k < m < i ==> IsSpace(js[m])
  }

  lemma {:induction false} LastBeforeIs(js: string, i: nat, k: nat)
    requires LastBefore(js, i, k)
    ensures LastNonSpace(js[..i]) == Some(js[k])
    decreases i
  {
    assert js[..i][..i - 1] == js[..i - 1];
    if k < i - 1 {
      LastBeforeIs(js, i - 1, k);
    }
  }

  lemma {:induction false} NothingBefore(js: string, i: nat)
    requires i <= |js| && forall m :: 0 <= m < i ==> IsSpace(js[m])
    ensures LastNonSpace(js[..i]) == None
    decreases i
  {
    if i > 0 {
      assert js[..i][..i - 1] == js[..i - 1];
      NothingBefore(js, i - 1);
    }
  }

  /** By code points: letters and digits of ASCII, the dollar, the closing parenthesis, the closing
      bracket and the underscore. */
  lemma OperandEnds(c: char)
    ensures EndsOperand(c) <==>
              var n := c as int; 48 <= n <= 57 || 65 <= n <= 90 || 97 <= n <= 122 || n in {36, 41, 93, 95}
  {
  }

  /** A slash that opens no comment divides after one of these, and where there is nothing before it. */
  lemma RunDivision(js: string, i: nat, stack: Stack)
    requires !InString(stack) && i < |js| && js[i] == '/'
    requires i + 1 < |js| ==> js[i + 1] != '/' && js[i + 1] != '*'
    requires || (forall m :: 0 <= m < i ==> IsSpace(js[m]))
             || exists k: nat :: LastBefore(js, i, k) && EndsOperand(js[k])
    ensures Run(js, State(i, stack), i + 1) == State(i + 1, stack)
  {
    StartsWithTwo(js[i..], "//");
    StartsWithTwo(js[i..], "/*");
    if k: nat :| LastBefore(js, i, k) && EndsOperand(js[k]) {
      LastBeforeIs(js, i, k);
    } else {
      NothingBefore(js, i);
    }
  }

  /** After any other character it opens a regular expression, which is passed over up to just after
      its closing slash, or after the line's end where it has none. */
  lemma RunRegex(js: string, i: nat, stack: Stack, k: nat, body: string, pos: nat)
    requires !InString(stack) && Holds(js, i, "/" + body) && RegexText(body)
    requires i + 1 < |js| && js[i + 1] != '/' && js[i + 1] != '*'
    requires var e := i + 1 + |body|; e == |js| || js[e] == '/' || js[e] == '\n'
    requires LastBefore(js, i, k)
    requires !EndsOperand(js[k])
    requires i < pos <= i + |body| + 2
    ensures Run(js, State(i, stack), pos) == State(i + |body| + 2, stack)
  {
    assert js[i + 0] == ("/" + body)[0];
    HoldsPart(js, i, "/" + body, "/", body, "");
    StartsWithTwo(js[i..], "//");
    StartsWithTwo(js[i..], "/*");
    LastBeforeIs(js, i, k);
    assert js[i..][1..] == js[i + 1..] == body + js[i + 1 + |body|..];
    RegexLengthIs(js[i + 1..], body, js[i + 1 + |body|..]);
    RunTurn(js, State(i, stack), i + |body| + 2, pos);
  }

  function AfterChar(c: char, stack: Stack): Stack {
    if InString(stack) then
      if c == stack[|stack| - 1] then stack[..|stack| - 1] else stack
    else if IsQuote(c) then stack + [c]
    else if c == '{' && stack != [] && stack[|stack| - 1] == '{' then stack + ['{']
    else if c == '}' && stack != [] && stack[|stack| - 1] == '{' then stack[..|stack| - 1]
    else stack
  }

  /** One character other than a slash, a dollar or a backslash. */
  lemma RunChar(js: string, i: nat, stack: Stack)
    requires i < |js| && js[i] != '/' && js[i] != '$' && js[i] != '\\'
    ensures Run(js, State(i, stack), i + 1) == State(i + 1, AfterChar(js[i], stack))
  {
    StartsWithTwo(js[i..], "//");
    StartsWithTwo(js[i..], "/*");
    StartsWithTwo(js[i..], "${");
  }

  predicate KeyIsPlain(key: string) {
    forall k :: 0 <= k < |key| ==> key[k] != '\'' && key[k] != '\\'
  }

  function KeyCall(key: string): string {
    "t('" + key + "')"
  }

  /** The translation call in the form the enclosing literal allows. */
  function Call(q: char, key: string): string {
    if q == '`' then "${" + KeyCall(key) + "}"
    else [q] + " + " + KeyCall(key) + " + " + [q]
  }

  lemma CallStarts(q: char, key: string)
    ensures Call(q, key) != [] && (IsQuote(q) ==> Call(q, key)[0] != '{')
  {
  }

  lemma {:induction false} KeyStaysInside(key: string)
    requires KeyIsPlain(key)
    ensures StaysInside('\'', key)
    decreases |key|
  {
    if key != [] {
      KeyStaysInside(key[1..]);
    }
  }

  lemma HoldsPart(js: string, i: nat, s: string, pre: string, mid: string, post: string)
    requires Holds(js, i, s) && s == pre + mid + post
    ensures Holds(js, i + |pre|, mid)
  {
    forall k | 0 <= k < |mid| ensures js[i + |pre| + k] == mid[k] {
      assert js[i + (|pre| + k)] == s[|pre| + k];
    }
  }

  lemma RunQuotedKey(js: string, i: nat, stack: Stack, key: string)
    requires KeyIsPlain(key) && !InString(stack) && Holds(js, i, "'" + key + "'")
    ensures var end := i + |key| + 2; Run(js, State(i, stack), end) == State(end, stack)
  {
    hide Run, KeyIsPlain, StaysInside;
    var quoted, close, open := "'" + key + "'", i + |key| + 1, stack + ['\''];
    assert js[i + 0] == quoted[0] == '\'' && js[i + (|key| + 1)] == quoted[|key| + 1] == '\'';
    RunChar(js, i, stack);
    HoldsPart(js, i, quoted, "'", key, "'");
    KeyStaysInside(key);
    RunInside(js, i + 1, open, key);
    RunChar(js, close, open);
    assert open[..|open| - 1] == stack;
    RunOn(js, State(i + 1, open), State(close, open), State(close + 1, stack));
    RunOn(js, State(i, stack), State(i + 1, open), State(close + 1, stack));
  }

  /** t('key') is passed over outside strings. */
  lemma RunKeyCall(js: string, i: nat, stack: Stack, key: string)
    requires KeyIsPlain(key) && !InString(stack) && Holds(js, i, KeyCall(key))
    ensures Run(js, State(i, stack), i + |KeyCall(key)|) == State(i + |KeyCall(key)|, stack)
  {
    hide Run;
    var call, mid := KeyCall(key), i + 4 + |key|;
    HoldsPart(js, i, call, "", "t(", "'" + key + "')");
    RunNeutral(js, i, stack, "t(");
    assert call == "t(" + ("'" + key + "'") + ")";
    HoldsPart(js, i, call, "t(", "'" + key + "'", ")");
    RunQuotedKey(js, i + 2, stack, key);
    HoldsPart(js, i, call, "t('" + key + "'", ")", "");
    RunNeutral(js, mid, stack, ")");
    RunOn(js, State(i, stack), State(i + 2, stack), State(mid, stack));
    RunOn(js, State(i, stack), State(mid, stack), State(mid + 1, stack));
  }

  lemma RunOpenBrace(js: string, i: nat, stack: Stack)
    requires i + 1 < |js| && js[i] == '$' && js[i + 1] == '{'
    requires InString(stack) && stack[|stack| - 1] == '`'
    ensures Run(js, State(i, stack), i + 2) == State(i + 2, stack + ['{'])
  {
  }

  lemma RunTemplateCall(js: string, i: nat, stack: Stack, key: string)
    requires KeyIsPlain(key) && InString(stack) && stack[|stack| - 1] == '`'
    requires Holds(js, i, Call('`', key))
    ensures Run(js, State(i, stack), i + 2) == State(i + 2, stack + ['{'])
    ensures Run(js, State(i, stack), i + |Call('`', key)|) == State(i + |Call('`', key)|, stack)
  {
    hide Run;
    var call, inner := Call('`', key), stack + ['{'];
    var last := i + |call| - 1;
    assert js[i + 0] == call[0] == '$' && js[i + 1] == call[1] == '{'
          && js[i + (|call| - 1)] == call[|call| - 1] == '}';
    RunOpenBrace(js, i, stack);
    HoldsPart(js, i, call, "${", KeyCall(key), "}");
    RunKeyCall(js, i + 2, inner, key);
    RunChar(js, last, inner);
    assert inner[..|inner| - 1] == stack;
    RunOn(js, State(i + 2, inner), State(last, inner), State(last + 1, stack));
    RunOn(js, State(i, stack), State(i + 2, inner), State(last + 1, stack));
  }

  lemma RunPlusCallPlus(js: string, i: nat, stack: Stack, key: string)
    requires KeyIsPlain(key) && !InString(stack) && Holds(js, i, " + " + KeyCall(key) + " + ")
    ensures Run(js, State(i, stack), i + 3) == State(i + 3, stack)
    ensures var end := i + 6 + |KeyCall(key)|; Run(js, State(i, stack), end) == State(end, stack)
  {
    hide Run;
    var text, mid := " + " + KeyCall(key) + " + ", i + 3 + |KeyCall(key)|;
    HoldsPart(js, i, text, "", " + ", KeyCall(key) + " + ");
    RunNeutral(js, i, stack, " + ");
    HoldsPart(js, i, text, " + ", KeyCall(key), " + ");
    RunKeyCall(js, i + 3, stack, key);
    HoldsPart(js, i, text, " + " + KeyCall(key), " + ", "");
    RunNeutral(js, mid, stack, " + ");
    RunOn(js, State(i + 3, stack), State(mid, stack), State(mid + 3, stack));
    RunOn(js, State(i, stack), State(i + 3, stack), State(mid + 3, stack));
  }

  lemma RunConcatCall(js: string, i: nat, stack: Stack, key: string)
    requires KeyIsPlain(key) && InString(stack) && WellFormed(stack) && stack[|stack| - 1] != '`'
    requires Holds(js, i, Call(stack[|stack| - 1], key))
    ensures !InString(stack[..|stack| - 1])
    ensures Run(js, State(i, stack), i + 4) == State(i + 4, stack[..|stack| - 1])
    ensures var end := i + |Call(stack[|stack| - 1], key)|; Run(js, State(i, stack), end) == State(end, stack)
  {
    hide Run, Holds, KeyIsPlain, Call, WellFormed, AfterChar, KeyCall;
    var q, outer := stack[|stack| - 1], stack[..|stack| - 1];
    var call := Call(q, key);
    var last := i + |call| - 1;
    ConcatCallParts(js, i, q, key);
    OnTop(stack);
    RunChar(js, i, stack);
    RunPlusCallPlus(js, i + 1, outer, key);
    RunChar(js, last, outer);
    AfterQuotes(stack);
    RunOn(js, State(i, stack), State(i + 1, outer), State(i + 4, outer));
    RunOn(js, State(i, stack), State(i + 1, outer), State(last, outer));
    RunOn(js, State(i, stack), State(last, outer), State(last + 1, stack));
  }

  lemma ConcatCallParts(js: string, i: nat, q: char, key: string)
    requires q != '`' && Holds(js, i, Call(q, key))
    ensures |Call(q, key)| == |KeyCall(key)| + 8 && i + |Call(q, key)| <= |js|
    ensures js[i] == q && js[i + |Call(q, key)| - 1] == q
    ensures Holds(js, i + 1, " + " + KeyCall(key) + " + ")
  {
    var call := Call(q, key);
    assert call == [q] + (" + " + KeyCall(key) + " + ") + [q];
    assert js[i + 0] == call[0] == q && js[i + (|call| - 1)] == call[|call| - 1] == q;
    HoldsPart(js, i, call, [q], " + " + KeyCall(key) + " + ", [q]);
  }

  /** A plain quote on top has no quote below it. */
  lemma OnTop(stack: Stack)
    requires InString(stack) && WellFormed(stack) && stack[|stack| - 1] != '`'
    ensures !InString(stack[..|stack| - 1])
  {
  }

  /** The quote closes and, outside, opens again. */
  lemma AfterQuotes(stack: Stack)
    requires InString(stack) && !InString(stack[..|stack| - 1])
    ensures var q, outer := stack[|stack| - 1], stack[..|stack| - 1];
            AfterChar(q, stack) == outer && AfterChar(q, outer) == stack
  {
    assert stack[..|stack| - 1] + [stack[|stack| - 1]] == stack;
  }
}
