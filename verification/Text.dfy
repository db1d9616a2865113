/** White space, as Python's str.strip and str.rstrip and the regular expression \s have it. */
module Text {

  predicate IsSpace(c: char) {
    || '\t' <= c <= '\r'
    || '\U{1c}' <= c <= ' '
    || c == '\U{85}' || c == '\U{a0}' || c == '\U{1680}'
    || '\U{2000}' <= c <= '\U{200a}'
    || c == '\U{2028}' || c == '\U{2029}' || c == '\U{202f}' || c == '\U{205f}' || c == '\U{3000}'
  }

  /** By code points: the controls from tab to carriage return and the separators from 1C on, the space,
      and the wider spaces and separators of Unicode. */
  lemma WhiteSpace(c: char)
    ensures IsSpace(c) <==>
              var n := c as int;
              9 <= n <= 13 || 28 <= n <= 32 || 8192 <= n <= 8202 || n in {133, 160, 5760, 8232, 8233, 8239, 8287, 12288}
  {
  }

  function Stripped(s: string): (r: string)
    ensures r != "" ==> !IsSpace(r[0]) && !IsSpace(r[|r| - 1])
    decreases |s|
  {
    if s == "" then ""
    else if IsSpace(s[0]) then Stripped(s[1..])
    else if IsSpace(s[|s| - 1]) then Stripped(s[..|s| - 1])
    else s
  }

  lemma StrippedStep(s: string)
    ensures Stripped(s) == if s == "" then ""
                           else if IsSpace(s[0]) then Stripped(s[1..])
                           else if IsSpace(s[|s| - 1]) then Stripped(s[..|s| - 1])
                           else s
  {
  }

  predicate AllSpace(s: string) {
    forall k :: 0 <= k < |s| ==> IsSpace(s[k])
  }

  /** Nothing but white space is taken off, at either end. */
  lemma {:induction false} StrippedOfSpace(s: string) returns (front: string, back: string)
    ensures s == front + Stripped(s) + back && AllSpace(front) && AllSpace(back)
    decreases |s|
  {
    hide IsSpace, Stripped;
    StrippedStep(s);
    front, back := "", "";
    if s != "" && IsSpace(s[0]) {
      front, back := StrippedOfSpace(s[1..]);
      front := [s[0]] + front;
      assert s == [s[0]] + s[1..];
    } else if s != "" && IsSpace(s[|s| - 1]) {
      front, back := StrippedOfSpace(s[..|s| - 1]);
      back := back + [s[|s| - 1]];
      assert s == s[..|s| - 1] + [s[|s| - 1]];
    }
  }

  /** Whatever white space is around it, what is left is the same. */
  lemma {:induction false} SpaceAroundIsNothing(front: string, s: string, back: string)
    requires AllSpace(front) && AllSpace(back) && (s != "" ==> !IsSpace(s[0]) && !IsSpace(s[|s| - 1]))
    ensures Stripped(front + s + back) == s
    decreases |front| + |back|
  {
    hide IsSpace, Stripped;
    StrippedStep(front + s + back);
    Ends(front, s, back);
    if front != "" {
      SpaceAroundIsNothing(front[1..], s, back);
    } else if s == "" && back != "" {
      SpaceAroundIsNothing("", "", back[1..]);
    } else if back != "" {
      SpaceAroundIsNothing("", s, back[..|back| - 1]);
    }
  }

  lemma Ends(front: string, s: string, back: string)
    ensures var t := front + s + back;
            && (front != "" ==> t[0] == front[0] && t[1..] == front[1..] + s + back)
            && (front == "" && s == "" && back != "" ==> t[0] == back[0] && t[1..] == "" + "" + back[1..])
            && (front == "" && s != "" ==> t[0] == s[0])
            && (front == "" && s != "" && back != "" ==>
                  t[|t| - 1] == back[|back| - 1] && t[..|t| - 1] == "" + s + back[..|back| - 1])
            && (front == "" && back == "" ==> t == s)
  {
  }
}
