/**
 Sources in which a line breaks badly inside brackets: three where the width of the gap belongs to a literal, and those
 with a comment before the break.
 */
module AdderBreaks {
  import opened Wrappers
  import opened AdderForms
  import opened AdderBlanks
  import opened AdderBlocks
  import opened AdderComments
  import opened AdderCounts
  import opened AdderGaps
  import opened AdderJoin
  import opened AdderReader
  import opened AdderRoundTrip
  import opened AdderSource
  import opened AdderWiden
  import P = AdderPrinter

  /** A source of one line in brackets is read without a diagnosis. */
  lemma SingleLine(s: string)
    requires OneLine(s) && s != "" && s[0] == '(' && Depth(Strip(s, false), false) == (0, false)
    ensures Transpile(P.JoinLines([s])).err.None? && WholeLine([s], 0) == s
    ensures BodyOf(s) != "" && BodyOf(s)[0] == '('
  {
    AdderSource.StartGood();
    hide Depth, ReadBody, Good, Start;
    StripStep(s, false);
    BodyStarts(Strip(s, false));
    hide Strip;
    BodyStmt(BodyOf(s));
    SplitJoined([s]);
    JoinStop(s, []);
    assert [s][1..] == [];
    var st := Source(Start(), None, false);
    StartStep(st, s);
    var e := Logical(st, s, 1);
    assert [s][1 + 0..] == [];
    ReadFirst(st, [s], 1);
    ReadNone(e, 2);
  }

  lemma StartStep(st: Source, s: string)
    requires st == Source(Start(), None, false) && Good(st.engine) && BodyOf(s) != "" && ReadBody(BodyOf(s)).Stmt?
    requires Depth(Strip(s, false), false) == (0, false) && Indent(Strip(s, false)) == 0
    ensures Logical(st, s, 1).engine.err.None?
  {
    hide Strip, Depth, ReadBody, Good;
  }

  lemma BodyStarts(text: string)
    requires text != "" && text[0] == '('
    ensures Indent(text) == 0 && var body := TrimRight(text[Indent(text)..], true); body != "" && body[0] == '('
  {
    assert text[0..] == text;
    TrimStarts(text);
  }

  lemma {:induction false} TrimStarts(text: string)
    requires text != "" && text[0] == '('
    ensures TrimRight(text, true) != "" && TrimRight(text, true)[0] == '('
    decreases |text|
  {
    if IsBlank(Last(text)) || Last(text) == '\r' {
      TrimStarts(Front(text));
    }
  }

  lemma BodyStmt(body: string)
    requires body != "" && body[0] == '('
    ensures ReadBody(body).Stmt?
  {
    hide ReadLine, InlineColon, InStrAfter;
    assert OpensBlock(body).0 <= body;
  }

  /** A line in brackets that is broken where the reader stands in a literal: the forms change, and nothing says so. */
  lemma BreaksBadly(a: string, c: string)
    requires OneLine(a) && OneLine(c) && a != "" && a[0] == '(' && c != "" && Last(c) == ')'
    requires Strip(a, false) == a && Depth(a, false).0 > 0 && !Depth(a, false).1
    requires Strip(c, false) == c && Depth(c, false) == (-Depth(a, false).0, false)
    requires !Alike(LinePlace(Piece(a, false)), GapOf(a, c).0, " ", SkipBlanks(c, false))
    ensures var whole, broken := Transpile(a + " " + c), Transpile(a + "\n" + c);
            whole.err.None? && broken.err.None? && whole.forms != broken.forms
  {
    hide Strip, Depth, Alike, LinePlace, Piece, SkipBlanks, BodyOf, OpensBlock, Transpile;
    var s := a + " " + c;
    assert s == a + (" " + c);
    InsideMeans(a, false);
    StripGap(a, false, " ", c);
    DepthGap(a, false, " ", c);
    assert s[0] == '(' && Last(s) == ')';
    SingleLine(s);
    EndsPlain(s);
    NotIndent(a);
    assert "" + c == c && [s][..0] == [] && [s][1..] == [];
    assert Broken([s], 0, a, "", c) == [a, c];
    BreakSource([s], 0, a, "", c);
    assert [a, c][1..] == [c];
    assert P.JoinLines([a, c]) == a + "\n" + c && P.JoinLines([s]) == s;
  }

  lemma NotIndent(a: string)
    requires a != "" && a[0] == '('
    ensures SkipBlanks(a, false) == a && !InIndent(a)
  {
  }

  lemma EndsPlain(s: string)
    requires Strip(s, false) == s && s != "" && s[0] == '(' && Last(s) == ')'
    ensures BodyOf(s) == s && !OpensBlock(s).1
  {
    assert s[0..] == s && Indent(s) == 0;
  }

  // ---- reading known text ----

  /** No comment starts in the text, and it goes `d` brackets deeper. */
  predicate Deepens(s: string, d: int) {
    Strip(s, false) == s && Depth(s, false) == (d, false)
  }

  lemma DeepensNone()
    ensures Deepens("", 0) && Deepens("#\\", 0)
  {
  }

  lemma DeepensOne(t: string, s: string, d: int)
    requires t != "" && t[1..] == s && t[0] !in "\"#;" && Deepens(s, d)
    ensures Deepens(t, d + Nesting(t[0]))
  {
    hide Strip, Depth;
    StripStep(t, false);
    DepthStep(t, false);
  }

  lemma DeepensChar(t: string, s: string, d: int)
    requires |t| >= 3 && t[0] == '#' && t[1] == '\\' && t[3..] == s && Deepens(s, d)
    ensures Deepens(t, d)
  {
    hide Strip, Depth;
    StripStep(t, false);
    DepthStep(t, false);
  }

  lemma {:induction false} DeepensIn(t: string, s: string, d: int)
    requires Deepens(s, d) && forall c | c in t :: c !in "\"\\"
    ensures Strip(t + ("\"" + s), true) == t + ("\"" + s) && Depth(t + ("\"" + s), true) == (d, false)
  {
    hide Strip, Depth;
    var u := t + ("\"" + s);
    StripStep(u, true);
    DepthStep(u, true);
    if t == "" {
      assert u == "\"" + s && u[1..] == s;
    } else {
      assert t[0] in t && u[1..] == t[1..] + ("\"" + s);
      DeepensIn(t[1..], s, d);
    }
  }

  lemma DeepensString(t: string, inner: string, s: string, d: int)
    requires t == "\"" + (inner + ("\"" + s)) && Deepens(s, d) && forall c | c in inner :: c !in "\"\\"
    ensures Deepens(t, d)
  {
    hide Strip, Depth;
    DeepensIn(inner, s, d);
    StripStep(t, false);
    DepthStep(t, false);
    assert t[1..] == inner + ("\"" + s);
  }

  lemma {:induction false} NoColon(s: string)
    requires forall c | c in s :: c !in ":\""
    ensures FirstColon(s, false).None?
  {
    if s != "" {
      assert s[0] in s;
      NoColon(s[1..]);
    }
  }

  lemma ColonOn(t: string, s: string, inStr: bool)
    requires t != "" && t[1..] == s && !(inStr && t[0] == '\\') && (inStr || t[0] != ':')
    ensures FirstColon(t, inStr) == Shift(1, FirstColon(s, if inStr then t[0] != '"' else t[0] == '"'))
  {
    hide FirstColon;
    FirstStep(t, inStr);
  }

  lemma PlaceSpace(t: string, v: string, term: string, out: seq<Form>)
    requires |term| <= 1 && t != "" && t[0] == ' ' && t[1..] == v
    ensures FormsPlace(t, term, out) == FormsPlace(v, term, out)
  {
    hide OnePlace, RestPlace, ReadOne, AfterBinder;
  }

  lemma PlaceOpen(t: string, v: string, out: seq<Form>)
    requires t != "" && t[0] == '(' && t[1..] == v && FormsPlace(v, ")", []).Some?
    ensures FormsPlace(t, "", out) == FormsPlace(v, ")", [])
  {
    hide RestPlace, ReadOne, AfterBinder, FormsPlace;
    assert SkipBlanks(t, false) == t;
    assert OnePlace(t) == FormsPlace(v, ")", []);
    FormsPlaceStep(t, "", out);
  }

  lemma FormsPlaceStep(s: string, term: string, out: seq<Form>)
    requires |term| <= 1
    ensures var t := SkipBlanks(s, term == "}");
            FormsPlace(s, term, out)
            == if t == "" then Some(Free) else if term == [t[0]] then None
               else match OnePlace(t)
                 case Some(Waiting(bare)) => Some(AtChar(bare && !AfterBinder(out)))
                 case Some(at) => Some(at)
                 case None => RestPlace(ReadOne(t).0, ReadOne(t).1, term, out)
  {
    hide SkipBlanks, OnePlace, RestPlace, ReadOne, AfterBinder;
  }

  lemma {:induction false} TokenEnds(tok: string, v: string)
    requires (forall c | c in tok :: !IsDelim(c)) && (v == "" || IsDelim(v[0]))
    ensures TokEnd(tok + v) == |tok|
  {
    if tok == "" {
      assert tok + v == v;
    } else {
      assert tok[0] in tok && (tok + v)[1..] == tok[1..] + v;
      TokenEnds(tok[1..], v);
    }
  }

  /** A symbol, and what comes after it. */
  lemma PlaceToken(t: string, tok: string, v: string, term: string, out: seq<Form>)
    requires |term| <= 1 && tok != "" && tok[0] !in "#)]}" && (forall c | c in tok :: !IsDelim(c)) && t == tok + v
    requires term != "" ==> term[0] in ")]}"
    requires v != "" && IsDelim(v[0]) && v[0] != '('
    ensures FormsPlace(t, term, out) == FormsPlace(v, term, out + [AtomOf(tok)])
  {
    hide TokEnd, SkipBlanks, FormsPlace, ReadForms;
    assert tok[0] in tok && t[0] == tok[0];
    TokenEnds(tok, v);
    assert t[..|tok|] == tok && t[|tok|..] == v;
    FormsPlaceStep(t, term, out);
    SkipFirst(t, term == "}");
    assert OnePlace(t).None? && ReadOne(t) == (AtomOf(tok), v);
  }

  lemma SkipFirst(s: string, comma: bool)
    requires s != "" && !IsDelim(s[0])
    ensures SkipBlanks(s, comma) == s
  {
  }

  lemma PlaceText(t: string, v: string, term: string, out: seq<Form>)
    requires |term| <= 1 && (term != "" ==> term[0] in ")]}") && t != "" && t[0] == '"' && t[1..] == v && !Closes(v)
    ensures FormsPlace(t, term, out) == Some(InText)
  {
    hide Closes, RestPlace, ReadOne, AfterBinder, FormsPlace;
    assert SkipBlanks(t, term == "}") == t;
    FormsPlaceStep(t, term, out);
  }

  /** Broken at the first of two blanks. */
  lemma TwoBlanks(a: string, c: string, z: string)
    requires a != "" && a[0] == '(' && c == " " + z && z != "" && !IsBlank(z[0])
    ensures GapOf(a, c) == ("  ", " ") && SkipBlanks(c, false) == z
  {
    NotIndent(a);
    assert c[1..] == z && Indent(c) == 1 && c[..1] == " ";
    assert " " + " " == "  ";
  }

  // ---- the character of a literal ----

  lemma CharScans()
    ensures Deepens("(f #\\", 1) && Deepens(" (x))", -1)
  {
    hide Deepens;
    DeepensNone();
    DeepensOne(" #\\", "#\\", 0);
    DeepensOne("f #\\", " #\\", 0);
    DeepensOne("(f #\\", "f #\\", 0);
    DeepensOne(")", "", 0);
    DeepensOne("))", ")", -1);
    DeepensOne("x))", "))", -2);
    DeepensOne("(x))", "x))", -2);
    DeepensOne(" (x))", "(x))", -1);
  }

  lemma CharPlace()
    ensures LinePlace(Piece("(f #\\", false)) == AtChar(true)
  {
    hide FormsPlace, FirstColon;
    NoColon("(f #\\");
    var f := [] + [AtomOf("f")];
    PlaceWaits(f);
    PlaceSpace(" #\\", "#\\", ")", f);
    PlaceToken("f #\\", "f", " #\\", ")", []);
    PlaceOpen("(f #\\", "f #\\", []);
  }

  lemma PlaceWaits(out: seq<Form>)
    requires !AfterBinder(out)
    ensures FormsPlace("#\\", ")", out) == Some(AtChar(true))
  {
    assert SkipBlanks("#\\", false) == "#\\";
  }

  /** `(f #\  (x))`, with two blanks: the literal and the list are two forms; broken at the first blank they are one
      call. */
  lemma SpaceLiteralGlues()
    ensures var whole, broken := Transpile("(f #\\  (x))"), Transpile("(f #\\\n (x))");
            whole.err.None? && broken.err.None? && whole.forms != broken.forms
  {
    hide LinePlace, Piece, Strip, Depth, Transpile;
    CharScans();
    CharPlace();
    TwoBlanks("(f #\\", " (x))", "(x))");
    BreaksBadly("(f #\\", " (x))");
    assert "(f #\\" + " " + " (x))" == "(f #\\  (x))" && "(f #\\" + "\n" + " (x))" == "(f #\\\n (x))";
  }

  // ---- a quote that the scanners take for a character ----

  lemma QuoteScans()
    ensures Deepens("(f x#\\\"", 1) && Deepens(" y\" z \"w)", -1)
  {
    hide Deepens;
    DeepensNone();
    DeepensChar("#\\\"", "", 0);
    DeepensOne("x#\\\"", "#\\\"", 0);
    DeepensOne(" x#\\\"", "x#\\\"", 0);
    DeepensOne("f x#\\\"", " x#\\\"", 0);
    DeepensOne("(f x#\\\"", "f x#\\\"", 0);
    DeepensOne(")", "", 0);
    DeepensOne("w)", ")", -1);
    DeepensString("\" z \"w)", " z ", "w)", -1);
    DeepensOne("y\" z \"w)", "\" z \"w)", -1);
    DeepensOne(" y\" z \"w)", "y\" z \"w)", -1);
  }

  lemma QuotePlace()
    ensures LinePlace(Piece("(f x#\\\"", false)) == InText
  {
    hide FormsPlace, FirstColon, AtomOf;
    QuoteColon();
    QuoteSymbol([] + [AtomOf("f")]);
    PlaceToken("f x#\\\"", "f", " x#\\\"", ")", []);
    PlaceOpen("(f x#\\\"", "f x#\\\"", []);
  }

  lemma QuoteSymbol(out: seq<Form>)
    ensures FormsPlace(" x#\\\"", ")", out) == Some(InText)
  {
    hide FormsPlace, AtomOf;
    assert !Closes("");
    PlaceText("\"", "", ")", out + [AtomOf("x#\\")]);
    PlaceToken("x#\\\"", "x#\\", "\"", ")", out);
    PlaceSpace(" x#\\\"", "x#\\\"", ")", out);
  }

  lemma QuoteColon()
    ensures FirstColon("(f x#\\\"", false).None?
  {
    hide FirstColon;
    FirstStep("", true);
    ColonOn("\"", "", false);
    ColonOn("\\\"", "\"", false);
    ColonOn("#\\\"", "\\\"", false);
    ColonOn("x#\\\"", "#\\\"", false);
    ColonOn(" x#\\\"", "x#\\\"", false);
    ColonOn("f x#\\\"", " x#\\\"", false);
    ColonOn("(f x#\\\"", "f x#\\\"", false);
  }

  /** `(f x#\"  y" z "w)`, with two blanks before `y`: the scanners see a character literal where the reader sees a
      string literal start, and the gap is in it. */
  lemma QuoteInSymbolShrinks()
    ensures var whole, broken := Transpile("(f x#\\\"  y\" z \"w)"), Transpile("(f x#\\\"\n y\" z \"w)");
            whole.err.None? && broken.err.None? && whole.forms != broken.forms
  {
    hide LinePlace, Piece, Strip, Depth, Transpile;
    QuoteScans();
    QuotePlace();
    TwoBlanks("(f x#\\\"", " y\" z \"w)", "y\" z \"w)");
    BreaksBadly("(f x#\\\"", " y\" z \"w)");
    QuoteTexts();
  }

  lemma QuoteTexts()
    ensures "(f x#\\\"" + " " + " y\" z \"w)" == "(f x#\\\"  y\" z \"w)"
    ensures "(f x#\\\"" + "\n" + " y\" z \"w)" == "(f x#\\\"\n y\" z \"w)"
  {
  }

  // ---- a colon that the line is split at inside a string literal ----

  lemma ColonScans()
    ensures Deepens("(#\\\" \"a: b\" c", 1) && Deepens(" \"d\")", -1)
  {
    hide Deepens;
    DeepensNone();
    DeepensOne("c", "", 0);
    DeepensOne(" c", "c", 0);
    DeepensString("\"a: b\" c", "a: b", " c", 0);
    DeepensOne(" \"a: b\" c", "\"a: b\" c", 0);
    DeepensChar("#\\\" \"a: b\" c", " \"a: b\" c", 0);
    DeepensOne("(#\\\" \"a: b\" c", "#\\\" \"a: b\" c", 0);
    DeepensOne(")", "", 0);
    DeepensString("\"d\")", "d", ")", -1);
    DeepensOne(" \"d\")", "\"d\")", -1);
  }

  lemma ColonInText()
    ensures FirstColon("(#\\\" \"a: b\" c", false) == Some(7)
  {
    hide FirstColon;
    FirstStep(": b\" c", false);
    ColonOn("a: b\" c", ": b\" c", false);
    ColonOn("\"a: b\" c", "a: b\" c", true);
    ColonOn(" \"a: b\" c", "\"a: b\" c", true);
    ColonOn("\" \"a: b\" c", " \"a: b\" c", false);
    ColonOn("\\\" \"a: b\" c", "\" \"a: b\" c", false);
    ColonOn("#\\\" \"a: b\" c", "\\\" \"a: b\" c", false);
    ColonOn("(#\\\" \"a: b\" c", "#\\\" \"a: b\" c", false);
  }

  lemma ColonPlace()
    ensures LinePlace(Piece("(#\\\" \"a: b\" c", false)) == InText
  {
    hide FormsPlace, FirstColon;
    ColonInText();
    assert "(#\\\" \"a: b\" c"[8..] == " b\" c";
    assert " c"[1..] == "c" && "c"[1..] == "";
    assert !Closes("c") && !Closes(" c");
    PlaceText("\" c", " c", "", [] + [AtomOf("b")]);
    PlaceToken("b\" c", "b", "\" c", "", []);
    PlaceSpace(" b\" c", "b\" c", "", []);
  }

  /** `(#\" "a: b" c  "d")`, with two blanks before `"d"`: the character literal puts the colon scanner in the wrong
      state, it splits the line inside a string literal, and the gap ends up in another one. */
  lemma ColonInTextShrinks()
    ensures var whole, broken := Transpile("(#\\\" \"a: b\" c  \"d\")"), Transpile("(#\\\" \"a: b\" c\n \"d\")");
            whole.err.None? && broken.err.None? && whole.forms != broken.forms
  {
    hide LinePlace, Piece, Strip, Depth, Transpile;
    ColonScans();
    ColonPlace();
    TwoBlanks("(#\\\" \"a: b\" c", " \"d\")", "\"d\")");
    BreaksBadly("(#\\\" \"a: b\" c", " \"d\")");
    ColonTexts();
  }

  lemma ColonTexts()
    ensures "(#\\\" \"a: b\" c" + " " + " \"d\")" == "(#\\\" \"a: b\" c  \"d\")"
    ensures "(#\\\" \"a: b\" c" + "\n" + " \"d\")" == "(#\\\" \"a: b\" c\n \"d\")"
  {
  }

  // ---- a comment inside brackets ----

  /** A comment on a line that leaves a bracket open takes in every line that follows. */
  lemma {:induction false} CommentSwallows(raw: string, rest: seq<string>)
    requires InBrackets(raw) && Strip(raw, false) != raw
    ensures Join(raw, rest).1 == |rest| && Strip(Join(raw, rest).0, false) == Strip(raw, false)
    decreases |rest|
  {
    hide Strip, Depth, Join;
    if rest == [] {
      JoinStop(raw, rest);
    } else {
      var more := SkipBlanks(rest[0], false);
      InsideMeans(raw, false);
      StripGap(raw, false, " ", more);
      assert raw + (" " + more) == raw + " " + more;
      StripCount(raw, false);
      JoinMore(raw, rest);
      CommentSwallows(Extend(raw, rest[0]), rest[1..]);
    }
  }

  lemma {:induction false} JoinSwallows(raw: string, rest: seq<string>, k: nat)
    requires k < |rest| && InBrackets(TextUpTo(raw, rest, k, rest[k])) && Join(raw, rest).1 > k
    requires Strip(TextUpTo(raw, rest, k, rest[k]), false) != TextUpTo(raw, rest, k, rest[k])
    ensures Depth(Strip(Join(raw, rest).0, false), false).0 > 0
    decreases k
  {
    hide Strip, Depth, Join, Extend;
    if !GoesOn(raw) {
      JoinStop(raw, rest);
      assert false;
    } else {
      JoinMore(raw, rest);
      if k == 0 {
        CommentSwallows(Extend(raw, rest[0]), rest[1..]);
      } else {
        JoinSwallows(Extend(raw, rest[0]), rest[1..], k - 1);
      }
    }
  }

  lemma {:induction false} ReadComment(st: Source, lines: seq<string>, k: nat, n: nat)
    requires Good(st.engine) && k < |lines| && ReadLines(st, lines, n).engine.err.None?
    requires InBrackets(LogicalUpTo(lines, k, lines[k]))
    ensures Strip(LogicalUpTo(lines, k, lines[k]), false) == LogicalUpTo(lines, k, lines[k])
    decreases |lines|
  {
    hide Good, Strip, Depth, Join, Logical, InBrackets, TextUpTo;
    var j := Join(lines[0], lines[1..]);
    var text := LogicalUpTo(lines, k, lines[k]);
    ReadFirst(st, lines, n);
    if Strip(text, false) != text {
      if k == 0 {
        CommentSwallows(lines[0], lines[1..]);
        OpenDeep(lines[0]);
        OpenFails(st, j.0, n);
      } else if j.1 > k - 1 {
        JoinSwallows(lines[0], lines[1..], k - 1);
        OpenFails(st, j.0, n);
      } else {
        JoinBefore(lines[0], lines[1..], lines[1..], k - 1, lines[k]);
        var rest := lines[1 + j.1..];
        assert rest[0] == lines[1..][j.1] && rest[1..] == lines[1..][j.1 + 1..] && rest[k - 1 - j.1] == lines[k];
        ReadComment(Logical(st, j.0, n), rest, k - 1 - j.1, n + 1 + j.1);
      }
    }
  }

  lemma OpenDeep(text: string)
    requires InBrackets(text)
    ensures Depth(Strip(text, false), false).0 > 0
  {
  }

  lemma OpenFails(st: Source, raw: string, n: nat)
    requires Good(st.engine) && Depth(Strip(raw, false), false).0 > 0
    ensures Logical(st, raw, n).engine.err.Some?
  {
    hide Good, Strip, Depth;
  }

  /** In a source without diagnoses no comment stands on a line that leaves a bracket open: it would swallow every line
      that is joined to it. */
  lemma NoCommentInside(lines: seq<string>, k: nat)
    requires k < |lines| && (forall l | l in lines :: OneLine(l)) && Transpile(P.JoinLines(lines)).err.None?
    requires InBrackets(LogicalUpTo(lines, k, lines[k]))
    ensures Strip(LogicalUpTo(lines, k, lines[k]), false) == LogicalUpTo(lines, k, lines[k])
  {
    hide Good, ReadLines, InBrackets, LogicalUpTo, Strip, OneLine, SplitLines, Finish, P.JoinLines;
    SplitJoined(lines);
    AdderSource.StartGood();
    ReadComment(Source(Start(), None, false), lines, k, 1);
  }

  /** `(a ; c` and ` b)` on two lines are diagnosed. */
  lemma CommentUnterminated()
    ensures Transpile("(a ; c\n b)").err.Some?
  {
    hide Transpile;
    var lines := ["(a ; c", " b)"];
    assert "(a ; c"[1..] == "a ; c" && "a ; c"[1..] == " ; c" && " ; c"[1..] == "; c";
    assert Strip("; c", false) == "" && Strip(" ; c", false) == " " && Strip("a ; c", false) == "a ";
    assert Strip("(a ; c", false) == "(a ";
    assert "(a "[1..] == "a " && "a "[1..] == " " && " "[1..] == "";
    assert Depth(" ", false) == (0, false) && Depth("a ", false) == (0, false) && Depth("(a ", false) == (1, false);
    assert lines[1..] == [" b)"] && P.JoinLines([" b)"]) == " b)";
    assert P.JoinLines(lines) == "(a ; c" + "\n" + " b)" == "(a ; c\n b)";
    assert OneLine("(a ; c") && OneLine(" b)");
    if Transpile("(a ; c\n b)").err.None? {
      NoCommentInside(lines, 0);
    }
  }
}
