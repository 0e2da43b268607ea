/** What the comment scanner leaves of a text, and of text that goes on. */
module AdderComments {
  import opened AdderSource

  /** The body of a logical line: its text without comment, indentation and trailing blanks. */
  function BodyOf(s: string): string {
    var text := Strip(s, false);
    TrimRight(text[Indent(text)..], true)
  }

  lemma StripNone(inStr: bool)
    ensures Strip("", inStr) == ""
  {
  }

  lemma StripStep(s: string, inStr: bool)
    requires s != ""
    ensures Strip(s, inStr)
            == if inStr then
                 if s[0] == '\\' && |s| >= 2 then s[..2] + Strip(s[2..], true)
                 else [s[0]] + Strip(s[1..], s[0] != '"')
               else if s[0] == '#' && |s| >= 2 && s[1] == '\\' then
                 if |s| >= 3 then s[..3] + Strip(s[3..], false) else s
               else if s[0] == ';' then ""
               else if s[0] == '#' && (|s| == 1 || s[1] in " \t!") then ""
               else [s[0]] + Strip(s[1..], s[0] == '"')
  {
  }

  lemma DepthStep(s: string, inStr: bool)
    ensures Depth(s, inStr)
            == if s == "" then (0, inStr)
               else if inStr then
                 if s[0] == '\\' && |s| >= 2 then Depth(s[2..], true) else Depth(s[1..], s[0] != '"')
               else if s[0] == '#' && |s| >= 2 && s[1] == '\\' then
                 if |s| >= 3 then Depth(s[3..], false) else (0, false)
               else (Depth(s[1..], s[0] == '"').0 + Nesting(s[0]), Depth(s[1..], s[0] == '"').1)
  {
  }

  /** Does a comment start here? */
  predicate CommentAt(s: string)
    requires s != ""
  {
    s[0] == ';' || (s[0] == '#' && (|s| == 1 || s[1] in " \t!"))
  }

  /** Does the text end inside a string literal, as the comment scanner sees it? */
  predicate Inside(s: string, inStr: bool) {
    if s == "" then inStr
    else if inStr then
      if s[0] == '\\' && |s| >= 2 then Inside(s[2..], true) else Inside(s[1..], s[0] != '"')
    else if s[0] == '#' && |s| >= 2 && s[1] == '\\' then |s| >= 3 && Inside(s[3..], false)
    else !CommentAt(s) && Inside(s[1..], s[0] == '"')
  }

  /** The bracket scanner, on what the comment scanner leaves, sees the same. */
  lemma {:induction false} InsideMeans(s: string, inStr: bool)
    ensures Depth(Strip(s, inStr), inStr).1 == Inside(s, inStr)
    decreases |s|
  {
    hide Strip, Depth;
    DepthStep(Strip(s, inStr), inStr);
    if s == "" {
      StripNone(inStr);
    } else {
      StripStep(s, inStr);
      var t := Strip(s, inStr);
      if inStr && s[0] == '\\' && |s| >= 2 {
        InsideMeans(s[2..], true);
        assert t[0] == s[0] && |t| >= 2 && t[2..] == Strip(s[2..], true);
      } else if !inStr && s[0] == '#' && |s| >= 2 && s[1] == '\\' {
        if |s| >= 3 {
          InsideMeans(s[3..], false);
          assert t[0] == s[0] && t[1] == s[1] && |t| >= 3 && t[3..] == Strip(s[3..], false);
        }
      } else if inStr || !CommentAt(s) {
        var in' := if inStr then s[0] != '"' else s[0] == '"';
        InsideMeans(s[1..], in');
        assert t[0] == s[0] && t[1..] == Strip(s[1..], in');
        StripSecond(s, inStr);
      }
    }
  }

  /** A character that is kept is followed by the next character, if that is kept. */
  lemma StripSecond(s: string, inStr: bool)
    requires s != ""
    ensures |Strip(s, inStr)| >= 2 && Strip(s, inStr)[0] == s[0] ==> |s| >= 2 && Strip(s, inStr)[1] == s[1]
  {
    hide Strip;
    StripStep(s, inStr);
    if |s| >= 2 {
      StripStep(s[1..], if inStr then s[0] != '"' else s[0] == '"');
    } else {
      StripNone(true);
      StripNone(false);
    }
  }

  /** What is left of a text stays when more text follows. */
  lemma {:induction false} StripPrefix(x: string, inStr: bool, u: string)
    ensures Strip(x, inStr) <= Strip(x + u, inStr)
    decreases |x|
  {
    hide Strip;
    if x == "" {
      StripNone(inStr);
    } else {
      StripStep(x, inStr);
      StripStep(x + u, inStr);
      assert (x + u)[1..] == x[1..] + u;
      StripPrefix(x[1..], if inStr then x[0] != '"' else x[0] == '"', u);
      if |x| >= 2 {
        assert (x + u)[2..] == x[2..] + u && (x + u)[..2] == x[..2];
        StripPrefix(x[2..], true, u);
      }
      if |x| >= 3 {
        assert (x + u)[3..] == x[3..] + u && (x + u)[..3] == x[..3];
        StripPrefix(x[3..], false, u);
      }
      if |x| == 1 && u != "" && inStr && x[0] == '\\' {
        assert (x + u)[..2] == x + [u[0]];
      }
    }
  }

  /** After text that ends inside a string literal, a line feed is kept. */
  lemma {:induction false} StripInString(x: string, inStr: bool, l: string)
    requires Inside(x, inStr)
    ensures Strip(x + "\n" + l, inStr) == x + "\n" + Strip(l, true)
    decreases |x|
  {
    hide Strip;
    var s := x + "\n" + l;
    StripStep(s, inStr);
    if x == "" {
      assert s == "\n" + l && s[1..] == l && x + "\n" + Strip(l, true) == "\n" + Strip(l, true);
    } else if inStr && x == "\\" {
      assert s[..2] == x + "\n" && s[2..] == l;
    } else {
      var n := if inStr then if x[0] == '\\' then 2 else 1
          else if x[0] == '#' && |x| >= 2 && x[1] == '\\' then 3 else 1;
      assert n <= |x| && s[0] == x[0] && (|x| >= 2 ==> s[1] == x[1]);
      assert s[n..] == x[n..] + "\n" + l && s[..n] == x[..n] && x == x[..n] + x[n..];
      StripInString(x[n..],
          if n == 3 then false else if n == 2 then true else if inStr then x[0] != '"' else x[0] == '"', l);
      assert s[..1] == [s[0]];
    }
  }
}
