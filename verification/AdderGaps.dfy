/** What a logical line says when a gap between its tokens is made wider: the same, or exactly one form differs. */
module AdderGaps {
  import opened Wrappers
  import opened AdderForms
  import opened AdderBlanks
  import opened AdderBlocks
  import opened AdderComments
  import opened AdderCounts
  import opened AdderReader
  import opened AdderSource
  import opened AdderWiden

  // ---- comments and brackets ----

  lemma {:induction false} StripBlanks(p: string, y: string)
    requires Blanks(p)
    ensures Strip(p + y, false) == p + Strip(y, false)
  {
    hide Strip;
    if p == "" {
      assert p + y == y && p + Strip(y, false) == Strip(y, false);
    } else {
      assert p[0] in p && (p + y)[1..] == p[1..] + y;
      StripStep(p + y, false);
      StripBlanks(p[1..], y);
      assert p == [p[0]] + p[1..];
    }
  }

  /** A comment that starts before the gap takes it away; otherwise text and gap stay. */
  lemma {:induction false} StripGap(x: string, inStr: bool, p: string, y: string)
    requires !Inside(x, inStr) && Gap(p)
    ensures Strip(x + (p + y), inStr)
            == if Strip(x, inStr) == x then x + (p + Strip(y, false)) else Strip(x, inStr)
    decreases |x|
  {
    hide Strip;
    var s := x + (p + y);
    StripStep(s, inStr);
    Ahead(x, p + y, 0);
    if x == "" {
      StripNone(false);
      assert s == p + y && x + (p + Strip(y, false)) == p + Strip(y, false);
      StripBlanks(p, y);
    } else {
      StripStep(x, inStr);
      FirstTwo(x, p, y);
      hide CommentAt, Gap;
      if inStr {
        StripOn(x, inStr, if x[0] == '\\' then 2 else 1, x[0] != '"', p, y);
      } else if x[0] == '#' && |x| >= 2 && x[1] == '\\' {
        if |x| == 2 {
          WaitingStrip(x, p, y);
        } else {
          StripOn(x, inStr, 3, false, p, y);
        }
      } else if !CommentAt(x) {
        StripOn(x, inStr, 1, x[0] == '"', p, y);
      }
    }
  }

  /** Text before a blank starts as it does on its own. */
  lemma FirstTwo(x: string, p: string, y: string)
    requires x != "" && Gap(p)
    ensures var s := x + (p + y);
            && |s| >= 2 && CommentAt(s) == CommentAt(x)
            && CommentAt(s) == (s[0] == ';' || (s[0] == '#' && s[1] in " \t!"))
            && (s[0] == '#' && s[1] == '\\' <==> x[0] == '#' && |x| >= 2 && x[1] == '\\')
  {
    var s := x + (p + y);
    assert p[0] in p && (|x| == 1 ==> s[1] == p[0]);
  }

  lemma WaitingStrip(x: string, p: string, y: string)
    requires x == "#\\" && Gap(p)
    ensures Strip(x, false) == x && Strip(x + (p + y), false) == x + (p + Strip(y, false))
  {
    hide Strip;
    var s := x + (p + y);
    StripStep(x, false);
    StripStep(s, false);
    assert s[..3] == x + [p[0]] && s[3..] == p[1..] + y;
    assert forall c | c in p[1..] :: c in p;
    StripBlanks(p[1..], y);
    assert x + [p[0]] + (p[1..] + Strip(y, false)) == x + (p + Strip(y, false));
  }

  lemma {:induction false} StripOn(x: string, inStr: bool, n: nat, in': bool, p: string, y: string)
    requires 0 < n <= |x| && !Inside(x[n..], in') && Gap(p)
    requires Strip(x, inStr) == x[..n] + Strip(x[n..], in')
    requires Strip(x + (p + y), inStr) == (x + (p + y))[..n] + Strip((x + (p + y))[n..], in')
    ensures Strip(x + (p + y), inStr)
            == if Strip(x, inStr) == x then x + (p + Strip(y, false)) else Strip(x, inStr)
    decreases |x|, 0
  {
    hide Strip;
    Ahead(x, p + y, n);
    StripGap(x[n..], in', p, y);
    assert x == x[..n] + x[n..];
    assert x[..n] + (x[n..] + (p + Strip(y, false))) == x + (p + Strip(y, false));
    assert (x[..n] + Strip(x[n..], in'))[n..] == Strip(x[n..], in');
  }

  lemma {:induction false} DepthBlanks(p: string, y: string)
    requires Blanks(p)
    ensures Depth(p + y, false) == Depth(y, false)
  {
    if p == "" {
      assert p + y == y;
    } else {
      assert p[0] in p && (p + y)[1..] == p[1..] + y;
      DepthBlanks(p[1..], y);
    }
  }

  lemma {:induction false} DepthGap(x: string, inStr: bool, p: string, y: string)
    requires !Depth(x, inStr).1 && Gap(p)
    ensures Depth(x + (p + y), inStr) == (Depth(x, inStr).0 + Depth(y, false).0, Depth(y, false).1)
    decreases |x|
  {
    hide Depth;
    var s := x + (p + y);
    DepthStep(s, inStr);
    DepthStep(x, inStr);
    Ahead(x, p + y, 0);
    if x == "" {
      assert s == p + y;
      DepthBlanks(p, y);
    } else {
      assert p[0] in p && (|x| == 1 ==> s[1] == p[0]);
      if inStr {
        var n := if x[0] == '\\' && |x| >= 2 then 2 else 1;
        if x == "\\" {
          DepthStep("", true);
        }
        Ahead(x, p + y, n);
        DepthGap(x[n..], if n == 2 then true else x[0] != '"', p, y);
      } else if x[0] == '#' && |x| >= 2 && x[1] == '\\' {
        if |x| == 2 {
          assert s[3..] == p[1..] + y;
          assert forall c | c in p[1..] :: c in p;
          DepthBlanks(p[1..], y);
        } else {
          Ahead(x, p + y, 3);
          DepthGap(x[3..], false, p, y);
        }
      } else {
        Ahead(x, p + y, 1);
        DepthGap(x[1..], x[0] == '"', p, y);
      }
    }
  }

  // ---- trimming ----

  lemma {:induction false} IndentGap(x: string, u: string)
    requires SkipBlanks(x, false) != ""
    ensures Indent(x + u) == Indent(x) < |x| && x[Indent(x)..] == SkipBlanks(x, false)
  {
    if IsBlank(x[0]) {
      IndentGap(x[1..], u);
      assert (x + u)[1..] == x[1..] + u;
      assert x[Indent(x)..] == x[1..][Indent(x[1..])..];
    }
  }

  lemma {:induction false} TrimGap(x: string, p: string, y: string, cr: bool)
    requires TrimRight(y, cr) != ""
    ensures TrimRight(x + (p + y), cr) == x + (p + TrimRight(y, cr))
    decreases |y|
  {
    assert Last(x + (p + y)) == Last(y) && Front(x + (p + y)) == x + (p + Front(y));
    if IsBlank(Last(y)) || (cr && Last(y) == '\r') {
      TrimGap(x, p, Front(y), cr);
    }
  }

  /** A closing bracket, which no trimming takes away. */
  predicate HasCloser(y: string) {
    exists i :: 0 <= i < |y| && y[i] in ")]}"
  }

  lemma {:induction false} TrimCloser(y: string, cr: bool)
    requires HasCloser(y)
    ensures HasCloser(TrimRight(y, cr)) && TrimRight(y, cr) != "" && TrimRight(y, cr)[0] == y[0]
    decreases |y|
  {
    if IsBlank(Last(y)) || (cr && Last(y) == '\r') {
      var i :| 0 <= i < |y| && y[i] in ")]}";
      assert Front(y)[i] == y[i];
      TrimCloser(Front(y), cr);
    }
  }

  lemma {:induction false} CloserStays(y: string)
    requires HasCloser(y)
    ensures SkipBlanks(y, false) != ""
  {
    var i :| 0 <= i < |y| && y[i] in ")]}";
    if IsBlank(y[0]) {
      assert y[1..][i - 1] == y[i];
      CloserStays(y[1..]);
    }
  }

  lemma {:induction false} DepthCloser(y: string, inStr: bool)
    requires Depth(y, inStr).0 < 0
    ensures HasCloser(y)
    decreases |y|
  {
    hide Depth;
    DepthStep(y, inStr);
    if y != "" {
      if Nesting(y[0]) == -1 {
        assert y[0] in ")]}";
      } else if inStr && y[0] == '\\' && |y| >= 2 {
        CloserAhead(y, 2, true);
      } else if !inStr && y[0] == '#' && |y| >= 2 && y[1] == '\\' {
        CloserAhead(y, 3, false);
      } else {
        CloserAhead(y, 1, if inStr then y[0] != '"' else y[0] == '"');
      }
    }
  }

  lemma {:induction false} CloserAhead(y: string, n: nat, inStr: bool)
    requires 0 < n <= |y| && Depth(y[n..], inStr).0 < 0
    ensures HasCloser(y)
    decreases |y|, 0
  {
    hide Depth;
    DepthCloser(y[n..], inStr);
    var i :| 0 <= i < |y[n..]| && y[n..][i] in ")]}";
    assert y[n + i] == y[n..][i];
  }

  // ---- colons ----

  lemma InStrStep(s: string, inStr: bool)
    ensures InStrAfter(s, inStr)
            == if s == "" then inStr else if inStr && s[0] == '\\' then |s| < 2 || InStrAfter(s[2..], true)
               else InStrAfter(s[1..], if s[0] == '"' then !inStr else inStr)
  {
  }

  lemma {:induction false} InStrBlanks(p: string, y: string, inStr: bool)
    requires Blanks(p)
    ensures InStrAfter(p + y, inStr) == InStrAfter(y, inStr)
  {
    if p == "" {
      assert p + y == y;
    } else {
      assert p[0] in p && (p + y)[1..] == p[1..] + y;
      InStrBlanks(p[1..], y, inStr);
    }
  }

  lemma {:induction false} InStrGap(x: string, inStr: bool, p: string, y: string)
    requires Gap(p)
    ensures InStrAfter(x + (p + y), inStr) == InStrAfter(y, InStrAfter(x, inStr))
    decreases |x|
  {
    hide InStrAfter;
    var s := x + (p + y);
    InStrStep(s, inStr);
    InStrStep(x, inStr);
    if x == "" {
      assert s == p + y;
      InStrBlanks(p, y, inStr);
    } else {
      Ahead(x, p + y, 0);
      if inStr && x == "\\" {
        assert s[2..] == p[1..] + y;
        assert forall c | c in p[1..] :: c in p;
        InStrBlanks(p[1..], y, true);
      } else {
        var n := if inStr && x[0] == '\\' then 2 else 1;
        Ahead(x, p + y, n);
        InStrGap(x[n..], if n == 2 then true else if x[0] == '"' then !inStr else inStr, p, y);
      }
    }
  }

  /** Where `head: body` splits within the text before the gap. */
  function FirstColon(x: string, inStr: bool): (r: Option<nat>)
    ensures r.Some? ==> r.value < |x|
  {
    if x == "" then None
    else if inStr then
      if x[0] == '\\' && |x| >= 2 then Shift(2, FirstColon(x[2..], true))
      else Shift(1, FirstColon(x[1..], x[0] != '"'))
    else if x[0] == ':' && (|x| == 1 || IsBlank(x[1])) then Some(0)
    else Shift(1, FirstColon(x[1..], x[0] == '"'))
  }

  lemma FirstStep(x: string, inStr: bool)
    ensures FirstColon(x, inStr)
            == if x == "" then None
               else if inStr then
                 if x[0] == '\\' && |x| >= 2 then Shift(2, FirstColon(x[2..], true))
                 else Shift(1, FirstColon(x[1..], x[0] != '"'))
               else if x[0] == ':' && (|x| == 1 || IsBlank(x[1])) then Some(0)
               else Shift(1, FirstColon(x[1..], x[0] == '"'))
  {
  }

  lemma ColonStep(s: string, inStr: bool)
    ensures InlineColon(s, inStr)
            == if s == "" then None
               else if inStr then
                 if s[0] == '\\' && |s| >= 2 then Shift(2, InlineColon(s[2..], true))
                 else Shift(1, InlineColon(s[1..], s[0] != '"'))
               else if s[0] == ':' && |s| >= 2 && IsBlank(s[1]) then
                 if SkipBlanks(s[1..], false) == "" then None else Some(0)
               else Shift(1, InlineColon(s[1..], s[0] == '"'))
  {
  }

  lemma {:induction false} ColonBlanks(p: string, y: string, inStr: bool)
    requires Blanks(p)
    ensures InlineColon(p + y, inStr) == Shift(|p|, InlineColon(y, inStr))
  {
    if p == "" {
      assert p + y == y;
    } else {
      assert p[0] in p && (p + y)[1..] == p[1..] + y;
      ColonBlanks(p[1..], y, inStr);
    }
  }

  /** Text that is more than blanks is more than blanks after any other text. */
  lemma {:induction false} SkipSome(x: string, y: string)
    requires SkipBlanks(y, false) != ""
    ensures SkipBlanks(x + y, false) != ""
  {
    if x == "" {
      assert x + y == y;
    } else if IsBlank(x[0]) {
      SkipSome(x[1..], y);
      assert (x + y)[1..] == x[1..] + y;
    }
  }

  lemma {:induction false} ColonGap(x: string, inStr: bool, p: string, y: string)
    requires Gap(p) && SkipBlanks(y, false) != ""
    ensures InlineColon(x + (p + y), inStr)
            == if FirstColon(x, inStr).Some? then FirstColon(x, inStr)
               else Shift(|x| + |p|, InlineColon(y, InStrAfter(x, inStr)))
    decreases |x|
  {
    hide InlineColon, SkipBlanks, FirstColon, InStrAfter;
    var s := x + (p + y);
    ColonStep(s, inStr);
    FirstStep(x, inStr);
    InStrStep(x, inStr);
    if x == "" {
      assert s == p + y;
      ColonBlanks(p, y, inStr);
    } else {
      assert p[0] in p && (|x| == 1 ==> s[1] == p[0]);
      Ahead(x, p + y, 0);
      if inStr && x == "\\" {
        FirstStep("", true);
        assert s[2..] == p[1..] + y;
        assert forall c | c in p[1..] :: c in p;
        ColonBlanks(p[1..], y, true);
      } else {
        ColonAhead(x, inStr, p, y);
      }
    }
  }

  lemma SecondBlank(x: string, p: string, y: string)
    requires Gap(p) && x != "" && SkipBlanks(y, false) != ""
    ensures var s := x + (p + y);
            && |s| >= 2 && s[0] == x[0] && (IsBlank(s[1]) <==> |x| == 1 || IsBlank(x[1]))
            && SkipBlanks(s[1..], false) != ""
  {
    hide SkipBlanks;
    var s := x + (p + y);
    assert p[0] in p && (|x| == 1 ==> s[1] == p[0]);
    SkipSome(x[1..] + p, y);
    assert s[1..] == x[1..] + p + y;
  }

  lemma {:induction false} ColonAhead(x: string, inStr: bool, p: string, y: string)
    requires Gap(p) && SkipBlanks(y, false) != "" && x != "" && !(inStr && x == "\\")
    ensures InlineColon(x + (p + y), inStr)
            == if FirstColon(x, inStr).Some? then FirstColon(x, inStr)
               else Shift(|x| + |p|, InlineColon(y, InStrAfter(x, inStr)))
    decreases |x|, 0
  {
    hide InlineColon, SkipBlanks, FirstColon, InStrAfter, IsBlank, Gap;
    var s := x + (p + y);
    ColonStep(s, inStr);
    FirstStep(x, inStr);
    InStrStep(x, inStr);
    SecondBlank(x, p, y);
    var n := if inStr && x[0] == '\\' then 2 else 1;
    Ahead(x, p + y, n);
    ColonGap(x[n..], if n == 2 then true else if inStr then x[0] != '"' else x[0] == '"', p, y);
  }

  // ---- a line ----

  lemma SkipReads(s: string)
    ensures ReadLine(SkipBlanks(s, false)) == ReadLine(s)
  {
    hide ReadForms, NodeOf, SkipBlanks;
    SkipTwice(s, false);
    FormsSkip(SkipBlanks(s, false), s, "", []);
  }

  /** The part of the text before the gap that is read together with the gap. */
  function Piece(x: string, open: bool): string {
    if open then (if "elif" <= x && (|x| == 4 || IsBlank(x[4])) then x[4..] else x)
    else if FirstColon(x, false).Some? then x[FirstColon(x, false).value + 1..] else x
  }

  /** Two readings of a line that differ in one form. */
  predicate WhatUnlike(w: What, v: What) {
    match (w, v)
    case (Elif(c), Elif(d)) => c != d
    case (Stmt(f, b), Stmt(g, c)) => b == c && Unlike(f, g)
    case _ => false
  }

  lemma NotWord(t: string, i: nat, word: string)
    requires i < |t| && IsBlank(t[i]) && forall c | c in word :: !IsBlank(c)
    ensures word <= t ==> |word| <= i
  {
    if i < |word| {
      assert word[i] in word;
    }
  }

  lemma KeywordGap(x: string, u: string)
    requires Led(u)
    ensures var t := x + u;
            && t != "else"
            && (StartsWith(t, "elif") <==> "elif" <= x && (|x| == 4 || IsBlank(x[4])))
            && ("elif" <= x ==> t[4..] == x[4..] + u)
  {
    var t := x + u;
    assert t[|x|] == u[0];
    NotWord(t, |x|, "else");
    NotWord(t, |x|, "elif");
    if |x| >= 4 {
      Ahead(x, u, 4);
      assert |x| > 4 ==> t[4] == x[4];
    }
  }

  function ReadTail(t: string, open: bool): What {
    if open && t == "else" then Else
    else if open && StartsWith(t, "elif") then Elif(ReadLine(SkipBlanks(t[4..], false)))
    else
      var colon := if open then None else InlineColon(t, false);
      if colon.Some? then Split(ReadLine(t[..colon.value]), ReadLine(SkipBlanks(t[colon.value + 1..], false)))
      else Stmt(ReadLine(t), open)
  }

  /** What a line `head: body` says. */
  function Split(head: Form, tail: Form): What {
    Stmt(List((if head.List? then head.kids else [head]) + [tail]), false)
  }

  lemma TailIs(body: string)
    ensures ReadBody(body) == ReadTail(OpensBlock(body).0, OpensBlock(body).1)
  {
    hide OpensBlock, ReadLine, SkipBlanks, InlineColon;
  }

  lemma SplitHead(h: Form, g: Form, tail: Form)
    requires Unlike(h, g)
    ensures WhatUnlike(Split(h, tail), Split(g, tail))
  {
    var a, b := if h.List? then h.kids else [h], if g.List? then g.kids else [g];
    assert a != b;
    assert (a + [tail])[0] == a[0] && (b + [tail])[0] == b[0];
    assert (a + [tail])[..|a|] == a && (b + [tail])[..|b|] == b;
    assert h.Atom? ==> NoKeyword(h) && NoKeyword(g);
  }

  lemma SplitTail(head: Form, h: Form, g: Form)
    requires Unlike(h, g)
    ensures WhatUnlike(Split(head, h), Split(head, g))
  {
    var a := if head.List? then head.kids else [head];
    assert (a + [h])[|a|] == h && (a + [g])[|a|] == g;
    if a != [] {
      assert (a + [h])[0] == a[0] == (a + [g])[0];
    }
    assert h.Atom? ==> NoKeyword(h) && NoKeyword(g);
  }

  ghost predicate WhatGoes(w: What, v: What, same: bool) {
    if same then w == v else WhatUnlike(w, v)
  }

  lemma TailGap(x: string, p: string, q: string, y: string, open: bool)
    requires Gaps(p, q) && HasCloser(y)
    ensures WhatGoes(ReadTail(x + (p + y), open), ReadTail(x + (q + y), open),
                     Alike(LinePlace(Piece(x, open)), p, q, y))
  {
    hide ReadLine, SkipBlanks, InlineColon, FirstColon, Alike, LinePlace, Unlike;
    GapLed(p, y);
    GapLed(q, y);
    KeywordGap(x, p + y);
    KeywordGap(x, q + y);
    if open && "elif" <= x && (|x| == 4 || IsBlank(x[4])) {
      SkipReads((x + (p + y))[4..]);
      SkipReads((x + (q + y))[4..]);
      LineGap(x[4..], p, q, y);
      UnlikeDiffers(ReadLine(x[4..] + (p + y)), ReadLine(x[4..] + (q + y)));
    } else if open {
      LineGap(x, p, q, y);
    } else {
      ColonTailGap(x, p, q, y);
    }
  }

  lemma UnlikeDiffers(f: Form, g: Form)
    ensures Unlike(f, g) ==> f != g
  {
  }

  lemma ColonTailGap(x: string, p: string, q: string, y: string)
    requires Gaps(p, q) && HasCloser(y)
    ensures WhatGoes(ReadTail(x + (p + y), false), ReadTail(x + (q + y), false),
                     Alike(LinePlace(Piece(x, false)), p, q, y))
  {
    hide ReadLine, SkipBlanks, InlineColon, FirstColon, Alike, LinePlace, Unlike, InStrAfter, Split, WhatUnlike;
    CloserStays(y);
    ColonGap(x, false, p, y);
    ColonGap(x, false, q, y);
    var s, t := x + (p + y), x + (q + y);
    if FirstColon(x, false).Some? {
      var at := FirstColon(x, false).value;
      Ahead(x, p + y, at);
      Ahead(x, q + y, at);
      Ahead(x, p + y, at + 1);
      Ahead(x, q + y, at + 1);
      SkipReads(s[at + 1..]);
      SkipReads(t[at + 1..]);
      LineGap(x[at + 1..], p, q, y);
      if !Alike(LinePlace(x[at + 1..]), p, q, y) {
        SplitTail(ReadLine(s[..at]), ReadLine(s[at + 1..]), ReadLine(t[at + 1..]));
      }
    } else if InlineColon(y, InStrAfter(x, false)).Some? {
      ColonAt(y, InStrAfter(x, false));
      LaterColon(x, p, q, y, InlineColon(y, InStrAfter(x, false)).value);
    } else {
      LineGap(x, p, q, y);
      StmtUnlike(ReadLine(s), ReadLine(t));
    }
  }

  lemma StmtUnlike(f: Form, g: Form)
    ensures Unlike(f, g) ==> WhatUnlike(Stmt(f, false), Stmt(g, false))
  {
  }

  /** The line splits at a colon behind the gap. */
  lemma LaterColon(x: string, p: string, q: string, y: string, j: nat)
    requires Gaps(p, q) && j < |y| && y[j] == ':'
    ensures var s, t := x + (p + y), x + (q + y);
            WhatGoes(Split(ReadLine(s[..|x| + |p| + j]), ReadLine(SkipBlanks(s[|x| + |p| + j + 1..], false))),
                     Split(ReadLine(t[..|x| + |q| + j]), ReadLine(SkipBlanks(t[|x| + |q| + j + 1..], false))),
                     Alike(LinePlace(x), p, q, y))
  {
    hide ReadLine, SkipBlanks, LinePlace, Unlike, Split, WhatUnlike;
    var s, t := x + (p + y), x + (q + y);
    assert s[..|x| + |p| + j] == x + (p + y[..j]) && t[..|x| + |q| + j] == x + (q + y[..j]);
    assert s[|x| + |p| + j + 1..] == y[j + 1..] && t[|x| + |q| + j + 1..] == y[j + 1..];
    LineGap(x, p, q, y[..j]);
    assert Alike(LinePlace(x), p, q, y[..j]) <==> Alike(LinePlace(x), p, q, y);
    if !Alike(LinePlace(x), p, q, y) {
      SplitHead(ReadLine(s[..|x| + |p| + j]), ReadLine(t[..|x| + |q| + j]),
          ReadLine(SkipBlanks(y[j + 1..], false)));
    }
  }

  lemma BodyGap(x: string, p: string, q: string, y: string)
    requires Gaps(p, q) && HasCloser(y)
    ensures var s, t := x + (p + y), x + (q + y);
            && OpensBlock(s).1 == OpensBlock(t).1
            && WhatGoes(ReadBody(s), ReadBody(t), Alike(LinePlace(Piece(x, OpensBlock(s).1)), p, q, y))
  {
    hide ReadTail, InStrAfter, TrimRight, Alike, Piece, LinePlace, WhatUnlike, ReadBody;
    var s, t := x + (p + y), x + (q + y);
    assert Last(s) == Last(y) == Last(t) && Front(s) == x + (p + Front(y)) && Front(t) == x + (q + Front(y));
    InStrGap(x, false, p, Front(y));
    InStrGap(x, false, q, Front(y));
    TailIs(s);
    TailIs(t);
    if OpensBlock(s).1 {
      var i :| 0 <= i < |y| && y[i] in ")]}";
      assert Front(y)[i] == y[i];
      TrimCloser(Front(y), false);
      TrimGap(x, p, Front(y), false);
      TrimGap(x, q, Front(y), false);
      FirstOnly(LinePlace(Piece(x, true)), p, q, y, TrimRight(Front(y), false));
      TailGap(x, p, q, TrimRight(Front(y), false), true);
    } else {
      TailGap(x, p, q, y, false);
    }
  }

  lemma FirstOnly(at: Place, p: string, q: string, y: string, z: string)
    requires y != "" && z != "" && z[0] == y[0]
    ensures Alike(at, p, q, z) <==> Alike(at, p, q, y)
  {
  }

  // ---- a logical line ----

  /** Where the reader stands in logical line `s` when it has read its part `x` and a blank comes. */
  function PlaceIn(s: string, x: string): Place {
    LinePlace(Piece(SkipBlanks(x, false), OpensBlock(BodyOf(s)).1))
  }

  /** After `text` a bracket is open and no string is. */
  predicate InBrackets(text: string) {
    var d := Depth(Strip(text, false), false);
    d.0 > 0 && !d.1
  }

  /** Brackets that balance behind a gap inside brackets: no comment starts before, and a closer comes after it. */
  lemma Balanced(x: string, p: string, y: string)
    requires InBrackets(x) && Gap(p) && Depth(Strip(x + (p + y), false), false) == (0, false)
    ensures Strip(x, false) == x && Strip(x + (p + y), false) == x + (p + Strip(y, false))
    ensures HasCloser(Strip(y, false))
  {
    hide Strip, Depth;
    InsideMeans(x, false);
    StripGap(x, false, p, y);
    DepthGap(x, false, p, Strip(y, false));
    DepthCloser(Strip(y, false), false);
  }

  /** The depth of both texts, whatever they are. */
  lemma SameDepth(x: string, p: string, q: string, y: string)
    requires InBrackets(x) && Gap(p) && Gap(q)
    ensures Depth(Strip(x + (p + y), false), false) == Depth(Strip(x + (q + y), false), false)
  {
    hide Strip, Depth;
    InsideMeans(x, false);
    StripGap(x, false, p, y);
    StripGap(x, false, q, y);
    if Strip(x, false) == x {
      DepthGap(x, false, p, Strip(y, false));
      DepthGap(x, false, q, Strip(y, false));
    }
  }

  /** Indentation and body of the two texts. */
  lemma TextGap(x: string, p: string, y: string)
    requires Gap(p) && SkipBlanks(x, false) != "" && HasCloser(y)
    ensures var s := x + (p + y);
            && Indent(s) == Indent(x) < |x| && s[..Indent(x)] == x[..Indent(x)]
            && TrimRight(s[Indent(x)..], true) == SkipBlanks(x, false) + (p + TrimRight(y, true))
            && HasCloser(TrimRight(y, true)) && TrimRight(y, true) != "" && TrimRight(y, true)[0] == y[0]
  {
    hide TrimRight, Indent;
    IndentGap(x, p + y);
    Ahead(x, p + y, Indent(x));
    TrimCloser(y, true);
    TrimGap(SkipBlanks(x, false), p, y, true);
  }

  lemma StripFirst(y: string)
    requires Strip(y, false) != ""
    ensures y != "" && Strip(y, false)[0] == y[0]
  {
  }

  /** What a logical line says, with a gap of another width: the same indentation, and the same line exactly where
      the gap's place allows it. */
  lemma LogicalGap(x: string, p: string, q: string, y: string)
    requires Gaps(p, q) && SkipBlanks(x, false) != "" && InBrackets(x)
    requires Depth(Strip(x + (p + y), false), false) == (0, false)
    ensures var s, t := x + (p + y), x + (q + y);
            && Depth(Strip(t, false), false) == (0, false) && BodyOf(s) != "" && BodyOf(t) != ""
            && Indent(Strip(s, false)) == Indent(Strip(t, false))
            && Strip(s, false)[..Indent(Strip(s, false))] == Strip(t, false)[..Indent(Strip(t, false))]
            && WhatGoes(ReadBody(BodyOf(s)), ReadBody(BodyOf(t)), Alike(PlaceIn(s, x), p, q, y))
  {
    hide Strip, Depth, ReadBody, Indent, TrimRight, Alike, Piece, LinePlace, WhatUnlike, OpensBlock, InBrackets;
    Balanced(x, p, y);
    SameDepth(x, p, q, y);
    Balanced(x, q, y);
    var z := Strip(y, false);
    StripFirst(y);
    TextGap(x, p, z);
    TextGap(x, q, z);
    BodyGap(SkipBlanks(x, false), p, q, TrimRight(z, true));
    FirstOnly(PlaceIn(x + (p + y), x), p, q, y, TrimRight(z, true));
  }
}
