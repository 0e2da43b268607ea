/** Transpiling what the printer writes gives back the printed forms. */
module AdderRoundTrip {
  import opened Wrappers
  import opened AdderForms
  import opened AdderBlocks
  import opened AdderCounts
  import opened AdderReader
  import opened AdderInline
  import opened AdderOutput
  import opened AdderSource
  import opened AdderLayout
  import opened AdderText
  import P = AdderPrinter

  /** The line is read as the printer means it, its column is in range, and it does not end in white space. */
  predicate OutReads(o: P.Out) {
    o.indent < MAXD && LineReads(o) && Body(o.piece) != "" && !P.IsSpace(Last(Body(o.piece)))
  }

  /** Every line that the file is printed as is read as the printer means it. */
  ghost predicate FileReads(fs: seq<Form>) {
    forall f, o | f in fs && o in P.Stmt(f, 0) :: OutReads(o)
  }

  lemma OutFits(o: P.Out)
    requires OutReads(o)
    ensures LineFits(o)
  {
    match o.piece
    case Header(f, hi) => HeadNotWord(f, "macro");
    case Flat(f) => HeadNotWord(f, "macro");
    case Call(h) => CallKept(h);
    case Whole(f) => WholeKept(f);
    case _ =>
  }

  // ---- one line ----

  lemma StripSpace(v: string)
    ensures Strip(" " + v, false) == " " + Strip(v, false) && Depth(" " + v, false) == Depth(v, false)
  {
    assert (" " + v)[1..] == v;
  }

  lemma {:induction false} StripSpaces(n: nat, u: string)
    ensures Strip(P.Spaces(n) + u, false) == P.Spaces(n) + Strip(u, false)
    ensures Depth(P.Spaces(n) + u, false) == Depth(u, false)
  {
    hide Strip, Depth;
    if n == 0 {
      assert P.Spaces(n) + u == u && P.Spaces(n) + Strip(u, false) == Strip(u, false);
    } else {
      StripSpaces(n - 1, u);
      StripSpace(P.Spaces(n - 1) + u);
      assert P.Spaces(n) == " " + P.Spaces(n - 1);
      assert P.Spaces(n) + u == " " + (P.Spaces(n - 1) + u);
      assert P.Spaces(n) + Strip(u, false) == " " + (P.Spaces(n - 1) + Strip(u, false));
    }
  }

  lemma {:induction false} IndentSpaces(n: nat, u: string)
    requires u != "" && !IsBlank(u[0])
    ensures Indent(P.Spaces(n) + u) == n
  {
    var s := P.Spaces(n) + u;
    if n == 0 {
      assert s == u;
    } else {
      IndentSpaces(n - 1, u);
      assert s[0] == ' ' && s[1..] == P.Spaces(n - 1) + u;
    }
  }

  /** A printed line comes through the scanners as it is. */
  lemma RenderScans(o: P.Out)
    requires LineReads(o)
    ensures var raw := P.Render(o);
            && Strip(raw, false) == raw && Depth(raw, false) == (0, false)
            && Indent(raw) == o.indent && raw[..o.indent] == P.Spaces(o.indent) && raw[o.indent..] == Body(o.piece)
  {
    hide PieceLegible, Strip, Depth, TrimRight, P.Text;
    var b := Body(o.piece);
    TextSome(o.piece);
    assert b[0] == P.Text(o.piece)[0];
    IndentSpaces(o.indent, b);
    assert P.Render(o) == P.Spaces(o.indent) + b;
  }

  /** A line of atoms that survive wherever they stand. */
  lemma CleanOut(o: P.Out)
    requires PieceReads(o.piece) && o.indent < MAXD
    ensures OutReads(o)
  {
    hide Clean, PieceAtomsOk, Strip, Depth, Scans, PieceLegible;
    var t, b := P.Text(o.piece), Body(o.piece);
    PieceReadsLegible(o.piece);
    CleanScans(o.piece);
    TextClean(o.piece);
    ColonClean(t, 0, false);
    var u := if P.Opens(o.piece) then ":" else "";
    assert b == t + u;
    StripClean(t, 0, false, u);
    DepthClean(t, 0, false, u);
    ColonText(u);
    StripSpaces(o.indent, b);
    assert P.Render(o) == P.Spaces(o.indent) + b;
    assert Last(b) == if u == "" then Last(t) else ':';
    TrimNone(b);
  }

  lemma ColonText(u: string)
    requires u == "" || u == ":"
    ensures Strip(u, false) == u && Depth(u, false) == (0, false)
  {
  }

  /** The source committed to spaces, or not yet, and had no mix. */
  predicate Spaced(st: Source) {
    !st.mixed && (st.style.None? || st.style == Some(' '))
  }

  lemma SpacesMix(st: Source, n: nat, number: nat)
    requires Good(st.engine) && Spaced(st)
    ensures var r := CheckIndent(st, P.Spaces(n), number); Spaced(r) && r.engine == st.engine
  {
    var lead := P.Spaces(n);
    if n > 0 {
      assert lead[0] == ' ';
      assert ' ' in lead;
    }
    assert '\t' !in lead;
  }

  lemma TrimNone(s: string)
    requires s != "" && !P.IsSpace(Last(s))
    ensures TrimRight(s, true) == s
  {
  }

  /** A printed line takes the engine one step, as the printer means it. */
  lemma RenderStep(st: Source, o: P.Out, number: nat, rest: seq<string>)
    requires Good(st.engine) && Spaced(st) && OutReads(o)
    ensures Join(P.Render(o), rest) == (P.Render(o), 0)
    ensures var r := Logical(st, P.Render(o), number);
            Spaced(r) && r.engine == Step(st.engine, Line(o.indent, number, Meant(o.piece)))
  {
    hide Good, PieceLegible, Strip, Depth, Indent, ReadBody, CheckIndent, Step, P.Render, Meant, Body, Scans;
    var raw := P.Render(o);
    RenderScans(o);
    SpacesMix(st, o.indent, number);
    ReadPiece(o.piece);
  }

  lemma BlankStep(st: Source, number: nat, rest: seq<string>)
    requires Good(st.engine)
    ensures Join("", rest) == ("", 0) && Logical(st, "", number) == st
  {
  }

  lemma BlankLine(st: Source, rest: seq<string>, number: nat)
    requires Good(st.engine)
    ensures ReadLines(st, [""] + rest, number) == ReadLines(st, rest, number + 1)
  {
    hide Good, Join, Logical;
    BlankStep(st, number, rest);
    assert ([""] + rest)[1..] == rest;
  }

  // ---- whole files ----

  /** One printed line, then the rest. */
  lemma RenderLine(st: Source, o: P.Out, number: nat, rest: seq<string>)
    requires Good(st.engine) && Spaced(st) && OutReads(o)
    ensures var st1 := Logical(st, P.Render(o), number);
            Good(st1.engine) && Spaced(st1) && st1.engine == Step(st.engine, Line(o.indent, number, Meant(o.piece)))
            && ReadLines(st, [P.Render(o)] + rest, number) == ReadLines(st1, rest, number + 1)
  {
    hide Good, Join, Logical, P.Render, Step, OutReads;
    RenderFits(o);
    RenderStep(st, o, number, rest);
    assert ([P.Render(o)] + rest)[1..] == rest;
  }

  lemma RenderFits(o: P.Out)
    requires OutReads(o)
    ensures P.PieceOk(o.piece)
  {
  }

  ghost predicate Reached(st: Source, outs: seq<P.Out>, number: nat, rest: seq<string>, st1: Source)
    requires Good(st.engine) && Fits(outs) && forall o | o in outs :: P.PieceOk(o.piece)
  {
    && Good(st1.engine) && Spaced(st1)
    && st1.engine == Run(st.engine, Lines(outs, number))
    && ReadLines(st, P.Renders(outs) + rest, number) == ReadLines(st1, rest, number + |outs|)
  }

  lemma {:induction false} RendersRun(st: Source, outs: seq<P.Out>, number: nat, rest: seq<string>)
      returns (st1: Source)
    requires Good(st.engine) && Spaced(st) && forall o | o in outs :: OutReads(o)
    ensures Fits(outs) && forall o | o in outs :: P.PieceOk(o.piece)
    ensures Reached(st, outs, number, rest, st1)
    decreases |outs|
  {
    hide Good, Run, ReadLines, OutReads, Step, Lines, Fits, Spaced, P.Render;
    AllFit(outs);
    if outs == [] {
      assert P.Renders(outs) + rest == rest;
      RunNothing(st.engine, number);
      st1 := st;
    } else {
      var o := outs[0];
      assert o in outs;
      RenderLine(st, o, number, P.Renders(outs[1..]) + rest);
      var mid := Logical(st, P.Render(o), number);
      st1 := RendersRun(mid, outs[1..], number + 1, rest);
      HeadSplit(st.engine, outs, number);
      assert P.Renders(outs) + rest == [P.Render(o)] + (P.Renders(outs[1..]) + rest);
    }
  }

  lemma HeadSplit(e: Engine, outs: seq<P.Out>, number: nat)
    requires Good(e) && outs != [] && Fits(outs)
    ensures LineFits(outs[0]) && Fits(outs[1..])
    ensures var l := Line(outs[0].indent, number, Meant(outs[0].piece));
            Good(Step(e, l)) && Run(e, Lines(outs, number)) == Run(Step(e, l), Lines(outs[1..], number + 1))
  {
    hide Good, Run, Step, Lines, Fits;
    assert outs == [outs[0]] + outs[1..];
    HeadLine(e, outs[0], outs[1..], number);
  }

  lemma AllFit(outs: seq<P.Out>)
    requires forall o | o in outs :: OutReads(o)
    ensures Fits(outs) && forall o | o in outs :: P.PieceOk(o.piece)
  {
    forall k | 0 <= k < |outs| ensures LineFits(outs[k]) {
      OutFits(outs[k]);
    }
  }

  lemma RunNothing(e: Engine, number: nat)
    requires Good(e)
    ensures Run(e, Lines([], number)) == e
  {
  }

  lemma ReadNone(st: Source, number: nat)
    requires Good(st.engine)
    ensures ReadLines(st, [], number) == st
  {
  }

  lemma AllReads(fs: seq<Form>)
    requires FileReads(fs)
    ensures forall f | f in fs :: Fits(P.Stmt(f, 0))
  {
    forall f | f in fs ensures Fits(P.Stmt(f, 0)) {
      AllFit(P.Stmt(f, 0));
    }
  }

  lemma FileTextParts(fs: seq<Form>)
    ensures fs == [] ==> P.FileText(fs) == []
    ensures fs != [] ==> (forall o | o in P.Stmt(fs[0], 0) :: P.PieceOk(o.piece))
                         && P.FileText(fs) == P.Renders(P.Stmt(fs[0], 0)) + ([""] + P.FileText(fs[1..]))
  {
    hide P.Stmt, P.Renders, P.Render;
    if fs != [] {
      P.StmtPieces(fs[0], 0);
    }
  }

  lemma {:induction false} FileLinesRun(st: Source, fs: seq<Form>, number: nat)
    requires Good(st.engine) && Spaced(st) && FileReads(fs)
    ensures forall f | f in fs :: Fits(P.Stmt(f, 0))
    ensures ReadLines(st, P.FileText(fs), number).engine == Run(st.engine, FileLines(fs, number))
    decreases |fs|
  {
    hide Good, Run, ReadLines, OutReads, P.Stmt, Lines, Fits, FileLines, P.FileText, P.Renders, P.Render;
    AllReads(fs);
    FileTextParts(fs);
    if fs == [] {
      FileNone(st.engine, number);
      ReadNone(st, number);
    } else {
      assert fs[0] in fs;
      var outs, tail := P.Stmt(fs[0], 0), P.FileText(fs[1..]);
      var rest := [""] + tail;
      var st1 := RendersRun(st, outs, number, rest);
      BlankLine(st1, tail, number + |outs|);
      FileLinesRun(st1, fs[1..], number + |outs| + 1);
      FileSplit(st.engine, fs, number);
    }
  }

  // ---- the text as a whole ----

  lemma {:induction false} SplitJoined(lines: seq<string>)
    requires lines != [] && forall l | l in lines :: OneLine(l)
    ensures SplitLines(P.JoinLines(lines), "") == lines
    decreases |lines|
  {
    hide SplitLines, OneLine;
    assert lines[0] in lines;
    if |lines| == 1 {
      SplitOne(lines[0], "", "");
      assert "" + lines[0] == lines[0];
    } else {
      SplitOne(lines[0], "", P.JoinLines(lines[1..]));
      SplitJoined(lines[1..]);
      assert "" + lines[0] == lines[0];
    }
  }

  lemma {:induction false} JoinLast(lines: seq<string>)
    requires lines != [] && Last(lines) != ""
    ensures P.JoinLines(lines) != "" && Last(P.JoinLines(lines)) == Last(Last(lines))
    ensures P.JoinLines(lines + [""]) == P.JoinLines(lines) + "\n"
    decreases |lines|
  {
    if |lines| == 1 {
      assert (lines + [""])[1..] == [""];
      assert P.JoinLines([""]) == "";
    } else {
      JoinLast(lines[1..]);
      assert (lines + [""])[1..] == lines[1..] + [""];
      assert Last(lines[1..]) == Last(lines);
    }
  }

  lemma RenderOneLine(o: P.Out)
    requires OutReads(o)
    ensures OneLine(P.Render(o)) && P.Render(o) != "" && !P.IsSpace(Last(P.Render(o)))
  {
    hide PieceLegible, Scanned, P.Text;
    PieceLegibleTokens(o.piece);
    TextNoFeed(o.piece);
    assert P.Render(o) == P.Spaces(o.indent) + Body(o.piece);
    assert Last(P.Render(o)) == Last(Body(o.piece));
  }

  predicate SolidLine(l: string) {
    OneLine(l) && l != "" && !P.IsSpace(Last(l))
  }

  lemma FormLines(f: Form)
    requires forall o | o in P.Stmt(f, 0) :: OutReads(o)
    ensures P.Stmt(f, 0) != [] && forall o | o in P.Stmt(f, 0) :: P.PieceOk(o.piece)
    ensures forall l | l in P.Renders(P.Stmt(f, 0)) :: SolidLine(l)
  {
    hide OutReads, P.Stmt, P.Render;
    var outs := P.Stmt(f, 0);
    AllFit(outs);
    StmtSome(f);
    forall k | 0 <= k < |outs| ensures SolidLine(P.Render(outs[k])) {
      RenderOneLine(outs[k]);
    }
  }

  lemma {:induction false} FileTextLines(fs: seq<Form>)
    requires FileReads(fs)
    ensures forall l | l in P.FileText(fs) :: OneLine(l)
    ensures fs != [] ==> |P.FileText(fs)| >= 2 && Last(P.FileText(fs)) == "" && SolidLine(Last(Front(P.FileText(fs))))
    decreases |fs|
  {
    hide OneLine, OutReads, P.Stmt, P.Renders;
    if fs != [] {
      assert fs[0] in fs;
      FormLines(fs[0]);
      var head, tail := P.Renders(P.Stmt(fs[0], 0)), P.FileText(fs[1..]);
      FileTextLines(fs[1..]);
      assert P.FileText(fs) == head + [""] + tail;
      EmptyOneLine();
      RendersSome(P.Stmt(fs[0], 0));
      hide P.FileText, SolidLine, FileReads;
      if |fs| == 1 {
        NoLines(tail, fs[1..]);
        assert Front(head + [""] + tail) == head;
      } else {
        assert Front(head + [""] + tail) == head + [""] + Front(tail);
      }
    }
  }

  lemma NoLines(lines: seq<string>, fs: seq<Form>)
    requires fs == [] && lines == P.FileText(fs)
    ensures lines == []
  {
  }

  lemma RendersSome(outs: seq<P.Out>)
    requires forall o | o in outs :: P.PieceOk(o.piece)
    ensures |P.Renders(outs)| == |outs|
  {
  }

  lemma EmptyOneLine()
    ensures OneLine("")
  {
  }

  lemma StmtSome(f: Form)
    ensures P.Stmt(f, 0) != []
  {
  }

  lemma TrimFeed(x: string)
    requires x != "" && !P.IsSpace(Last(x))
    ensures P.RightTrim(x + "\n") == x
  {
    assert Front(x + "\n") == x && Last(x + "\n") == '\n';
  }

  /** Printing ends in exactly one line feed. */
  lemma ConvertLines(fs: seq<Form>)
    requires FileReads(fs)
    ensures P.Convert(fs) == P.JoinLines(if fs == [] then ["", ""] else P.FileText(fs))
  {
    hide OutReads, OneLine, P.RightTrim, P.FileText, P.JoinLines;
    if fs == [] {
      ConvertNone();
    } else {
      var lines := P.FileText(fs);
      FileTextLines(fs);
      assert lines == Front(lines) + [""];
      JoinLast(Front(lines));
      TrimFeed(P.JoinLines(Front(lines)));
    }
  }

  lemma ConvertNone()
    ensures P.Convert([]) == P.JoinLines(["", ""])
  {
    assert P.JoinLines([""]) == "";
    assert ["", ""][1..] == [""];
  }

  /** The printed file splits back into its lines. */
  lemma ConvertSplits(fs: seq<Form>)
    requires FileReads(fs)
    ensures SplitLines(P.Convert(fs), "") == if fs == [] then ["", ""] else P.FileText(fs)
  {
    hide OutReads, OneLine, P.Convert, P.FileText, P.JoinLines, SplitLines;
    ConvertLines(fs);
    FileTextLines(fs);
    EmptyOneLine();
    SplitJoined(if fs == [] then ["", ""] else P.FileText(fs));
  }

  /** Transpiling a printed file gives back its forms, head aliases and escapes aside; every form is mapped
      to the source line it starts on, and nothing is diagnosed. */
  lemma TextRoundTrip(fs: seq<Form>)
    requires FileReads(fs)
    ensures Transpile(P.Convert(fs)) == Output(CanonAll(fs), StartLines(fs, 1), None)
  {
    hide Good, Run, Join, Logical, OutReads, P.Stmt, Lines, Fits, P.Convert, Finish, Step, SplitLines;
    AllReads(fs);
    LayoutRoundTrip(fs);
    ConvertSplits(fs);
    var st := SourceStart();
    if fs == [] {
      BlankStep(st, 1, [""]);
      BlankStep(st, 2, []);
      FileNone(Start(), 1);
      assert ReadLines(st, ["", ""], 1) == ReadLines(st, ["", ""][1..], 2);
      assert ReadLines(st, [""], 2) == ReadLines(st, [""][1..], 3);
    } else {
      FileLinesRun(st, fs, 1);
    }
    LayoutQuiet(fs);
  }

  function SourceStart(): (st: Source)
    ensures Good(st.engine) && Spaced(st)
  {
    AdderSource.StartGood();
    Source(Start(), None, false)
  }

  lemma LayoutQuiet(fs: seq<Form>)
    requires forall f | f in fs :: Fits(P.Stmt(f, 0))
    ensures Good(Start()) && Run(Start(), FileLines(fs, 1)).err == None
  {
    hide Run, FileLines, Fits, P.Stmt;
    AdderSource.StartGood();
    FileRun(Start(), fs, 1);
  }

  // ---- a condition on the trees ----

  /** A tree that prints faithfully: its atoms survive, no list has `=` second, no one-element list is
      headed by a list or a string, there is no bare `(fn)` or `(lambda)`, and no symbol is a block keyword. */
  predicate Printable(f: Form) {
    match f
    case Atom(t) => AtomOk(t) && t !in ["macro", "elif", "else"]
    case List(kids) =>
      && (|kids| == 1 ==> P.IsSym(kids[0]) && kids[0].text !in ["fn", "lambda"])
      && (|kids| >= 2 ==> !P.Named(kids[1], "="))
      && forall i | 0 <= i < |kids| :: Printable(kids[i])
  }

  lemma {:induction false} PrintableAtoms(f: Form)
    requires Printable(f)
    ensures AtomsOk(f)
  {
    if f.List? {
      forall i | 0 <= i < |f.kids| ensures AtomsOk(f.kids[i]) {
        PrintableAtoms(f.kids[i]);
      }
    }
  }

  lemma {:induction false} PrintableStmt(f: Form, indent: nat)
    requires Printable(f)
    ensures forall o | o in P.Stmt(f, indent) :: PieceReads(o.piece)
    decreases f, 1, 0
  {
    hide AtomOk;
    PrintableAtoms(f);
    if f.Atom? || f.kids == [] || P.IsQuote(f) {
    } else if |f.kids| == 1 && P.IsSym(f.kids[0]) {
      assert Printable(f.kids[0]);
    } else if P.Named(f.kids[0], "if") && |f.kids| > 2 {
      PrintableStmt(f.kids[2], indent + 2);
      PrintableLadder(f, 3, indent);
      assert PieceReads(P.If(f.kids[1]));
    } else {
      var k := P.HeaderSize(f, indent);
      assert Printable(f.kids[0]);
      if k == 0 {
        assert PieceReads(P.Flat(f));
      } else {
        assert PieceReads(P.Header(f, k));
        PrintableStmts(f, k, indent + 2);
      }
    }
  }

  lemma {:induction false} PrintableStmts(f: Form, k: nat, indent: nat)
    requires f.List? && k <= |f.kids| && Printable(f)
    ensures forall o | o in P.Stmts(f, k, indent) :: PieceReads(o.piece)
    decreases f, 0, |f.kids| - k
  {
    hide PieceReads, P.Stmt;
    if k < |f.kids| {
      PrintableStmt(f.kids[k], indent);
      PrintableStmts(f, k + 1, indent);
    }
  }

  lemma {:induction false} PrintableLadder(f: Form, k: nat, indent: nat)
    requires f.List? && Printable(f)
    ensures forall o | o in P.Ladder(f, k, indent) :: PieceReads(o.piece)
    decreases f, 0, if k < |f.kids| then |f.kids| - k else 0
  {
    hide P.Stmt;
    if k + 1 < |f.kids| {
      PrintableAtoms(f.kids[k]);
      PrintableStmt(f.kids[k + 1], indent + 2);
      PrintableLadder(f, k + 2, indent);
    } else if k < |f.kids| {
      PrintableStmt(f.kids[k], indent + 2);
    }
  }

  /** The columns that a file's lines start at stay inside the table of open `if`s. */
  ghost predicate Shallow(fs: seq<Form>) {
    forall f, o | f in fs && o in P.Stmt(f, 0) :: o.indent < MAXD
  }

  /** Printable trees of bounded depth survive the round trip. */
  lemma RoundTrip(fs: seq<Form>)
    requires (forall f | f in fs :: Printable(f)) && Shallow(fs)
    ensures Transpile(P.Convert(fs)) == Output(CanonAll(fs), StartLines(fs, 1), None)
  {
    hide OutReads, PieceReads, P.Stmt, Printable;
    forall f, o | f in fs && o in P.Stmt(f, 0) ensures OutReads(o) {
      PrintableStmt(f, 0);
      CleanOut(o);
    }
    TextRoundTrip(fs);
  }

  /** Whatever the source, the map has one entry per form that is written out. */
  lemma MapTotal(src: string)
    ensures |Transpile(src).map_| == |Transpile(src).forms|
  {
    hide ReadLines, SplitLines;
    AdderSource.StartGood();
    var st := ReadLines(Source(Start(), None, false), SplitLines(src, ""), 1);
    FinishTrees(st.engine);
  }
}
