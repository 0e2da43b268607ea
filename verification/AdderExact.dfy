/** Exactly which printed lines are read as the printer means them. */
module AdderExact {
  import opened Wrappers
  import opened AdderForms
  import opened AdderBlocks
  import opened AdderCounts
  import opened AdderReader
  import opened AdderInline
  import opened AdderRoundTrip
  import opened AdderSource
  import opened AdderLayout
  import opened AdderText
  import P = AdderPrinter

  /** A piece as the printer makes it. */
  predicate Shape(p: P.Piece) {
    && P.PieceOk(p) && PieceTokens(p)
    && match p
       case Whole(f) => f.Atom? || f.kids == [] || P.IsQuote(f)
       case Call(h) => P.IsSym(h)
       case Header(f, hi) => hi == 1 ==> P.IsSym(f.kids[0])
       case Flat(f) => |f.kids| == 1 ==> !P.IsSym(f.kids[0])
       case _ => true
  }

  /** What the line is to say to the block engine: a lone head that opens a block becomes a list. */
  function Intended(p: P.Piece): What
    requires P.PieceOk(p)
  {
    var w := Meant(p);
    if w.Stmt? && w.block && w.node.Atom? then Stmt(List([w.node]), true) else w
  }

  /** What a line's text does say, its node wrapped and remapped. */
  function Says(body: string): What {
    var w := ReadBody(body);
    if w.Stmt? then Stmt(LineNode(w.node, w.block), w.block) else w
  }

  /** What a physical line says on its own, and at which column; nothing if its brackets or strings do not close
      or if it is blank. */
  function LineSays(raw: string): Option<(nat, What)> {
    var text := Strip(raw, false);
    var n := Indent(text);
    var body := TrimRight(text[n..], true);
    if Depth(text, false) != (0, false) || body == "" then None else Some((n, Says(body)))
  }

  lemma SaysMeant(p: P.Piece)
    requires HeadsRight(p) && PieceLegible(p) && Scans(p)
    ensures Says(Body(p)) == Intended(p)
  {
    hide ReadBody, P.Text, Legibles, Scans;
    ReadPiece(p);
    match p
    case Header(f, hi) =>
      HeadNotWord(f, "macro");
      assert hi == 1 ==> P.Canons(f)[..hi] == [P.CanonHead(f.kids[0])];
    case Flat(f) => HeadNotWord(f, "macro");
    case Whole(f) => WholeKept(f);
    case Call(h) => CallKept(h);
    case _ =>
  }

  // ---- illegible atoms ----

  /** An atom that the reader can give: no attribute token. */
  predicate ClearAtom(t: string) {
    AttrSegments(t) == []
  }

  predicate Clear(f: Form) {
    match f
    case Atom(t) => ClearAtom(t)
    case List(kids) => AllClear(kids)
  }

  predicate AllClear(fs: seq<Form>) {
    forall i | 0 <= i < |fs| :: Clear(fs[i])
  }

  lemma {:induction false} SegmentsPlain(t: string, seg: string)
    requires '.' !in seg
    ensures forall i | 0 <= i < |Segments(t, seg)| :: '.' !in Segments(t, seg)[i]
    decreases |t|
  {
    if t != "" {
      SegmentsPlain(t[1..], if t[0] == '.' then "" else seg + [t[0]]);
    }
  }

  lemma SegmentClear(t: string)
    requires '.' !in t
    ensures Clear(AtomOf(t)) && Clear(Atom(Quoted(t)))
  {
    assert Quoted(t)[0] == '"';
  }

  lemma {:induction false} ChainClear(segs: seq<string>)
    requires segs != [] && forall i | 0 <= i < |segs| :: '.' !in segs[i]
    ensures Clear(ReadChain(segs))
  {
    SegmentClear(Last(segs));
    if |segs| > 1 {
      ChainClear(Front(segs));
      var all := [ReadChain(Front(segs)), Atom(Quoted(Last(segs)))];
      assert Clear(all[0]) && Clear(all[1]);
    }
  }

  lemma {:induction false} DesugarClear(f: Form)
    ensures Clear(Desugar(f))
  {
    match f
    case Atom(t) =>
      if AttrSegments(t) != [] {
        SegmentsPlain(t, "");
        ChainClear(AttrSegments(t));
      }
    case List(kids) =>
      forall i | 0 <= i < |kids| ensures Clear(Desugar(kids[i])) {
        DesugarClear(kids[i]);
      }
  }

  lemma LineClear(text: string)
    ensures Clear(ReadLine(text))
  {
    hide ReadForms, Desugar, Clear;
    var fs := ReadForms(text, "", []).0;
    DesugarClear(if |fs| == 1 then fs[0] else if Infix(fs) then Assignment(fs) else List(fs));
  }

  predicate WhatClear(w: What) {
    match w
    case Else => true
    case Elif(c) => Clear(c)
    case Stmt(f, _) => Clear(f)
  }

  lemma SaysClear(body: string)
    ensures WhatClear(Says(body))
  {
    hide ReadLine, InStrAfter, SkipBlanks, TrimRight, LineNode, InlineColon;
    var open := OpensBlock(body);
    var t := open.0;
    var w := ReadBody(body);
    if open.1 && t == "else" {
    } else if open.1 && StartsWith(t, "elif") {
      LineClear(SkipBlanks(t[4..], false));
    } else {
      var colon := if open.1 then None else InlineColon(t, false);
      if colon.Some? {
        var head, tail := ReadLine(t[..colon.value]), ReadLine(SkipBlanks(t[colon.value + 1..], false));
        LineClear(t[..colon.value]);
        LineClear(SkipBlanks(t[colon.value + 1..], false));
        AddClear(if head.List? then head.kids else [head], tail);
      } else {
        LineClear(t);
      }
      RemapClear(w.node, w.block);
    }
  }

  lemma AddClear(fs: seq<Form>, f: Form)
    requires AllClear(fs) && Clear(f)
    ensures Clear(List(fs + [f]))
  {
  }

  lemma RemapClear(f: Form, block: bool)
    requires Clear(f)
    ensures Clear(LineNode(f, block))
  {
    var g := if block && f.Atom? then List([f]) else f;
    assert Clear(g);
    if g.List? && g.kids != [] && g.kids[0] == Atom("macro") {
      var all := [Atom("defmacro")] + g.kids[1..];
      assert Clear(all[0]);
      assert AllClear(g.kids[1..]);
      assert AllClear(all);
    }
  }

  lemma TokenClear(t: string)
    requires Token(t)
    ensures Legible(t) <==> ClearAtom(P.Canon(Atom(t)).text)
  {
    if StrOk(t) {
      TokStr(t);
      assert !IsAttr(t);
    } else if SymToken(t) {
      SymHead(t, "");
    }
  }

  lemma {:induction false} TokensClear(f: Form)
    requires Tokens(f)
    ensures Legibles(f) <==> Clear(P.Canon(f))
  {
    match f
    case Atom(t) => TokenClear(t);
    case List(kids) =>
      var cs := P.Canons(f);
      forall i | 0 <= i < |kids| ensures Legibles(kids[i]) <==> Clear(cs[i]) {
        TokensClear(kids[i]);
        SetfClear();
      }
      assert Clear(P.Canon(f)) <==> AllClear(cs);
  }

  lemma SetfClear()
    ensures Clear(Atom("setf")) && Clear(Atom("=")) && Clear(Atom("if")) && Legibles(Atom("="))
  {
    assert SymText("=") by { assert "="[1..] == ""; }
  }

  lemma FirstClear(f: Form, hi: nat)
    requires f.List? && hi <= |f.kids| && FirstTokens(f, hi)
    ensures FirstLegible(f, hi) <==> AllClear(P.Canons(f)[..hi])
  {
    hide Legibles, Clear;
    var cs := P.Canons(f)[..hi];
    forall i | 0 <= i < hi ensures Legibles(f.kids[i]) <==> Clear(cs[i]) {
      TokensClear(f.kids[i]);
      SetfClear();
    }
  }

  /** A line is meant to hold only what the reader can give exactly when its atoms are legible. */
  lemma IntendedClear(p: P.Piece)
    requires Shape(p)
    ensures PieceLegible(p) <==> WhatClear(Intended(p))
  {
    hide Legibles;
    SetfClear();
    match p
    case Whole(f) => TokensClear(f);
    case Call(h) =>
      TokensClear(h);
      OneClear(P.CanonHead(h));
    case Header(f, hi) =>
      FirstClear(f, hi);
      var cs := P.Canons(f)[..hi];
      assert hi == 1 ==> cs == [P.CanonHead(f.kids[0])];
    case Flat(f) => TokensClear(f);
    case If(c) =>
      TokensClear(c);
      var all := [Atom("if"), P.Canon(c)];
      assert Clear(all[0]);
      assert AllClear(all) <==> Clear(all[1]);
    case Elif(c) => TokensClear(c);
    case Else =>
  }

  lemma OneClear(f: Form)
    ensures Clear(List([f])) <==> Clear(f)
  {
    assert [f][0] == f;
  }

  // ---- marks ----

  /** The characters that open comments and blocks. */
  const MARKS: set<char> := {':', '#', ';'}

  function Marks(s: string): nat {
    Count(s, MARKS)
  }

  lemma MarksRare()
    ensures Rare(MARKS)
  {
  }

  lemma PlainMarks(s: string)
    requires forall c | c in s :: c !in MARKS
    ensures Marks(s) == 0
  {
    CountNone(s, MARKS);
  }

  /** The printer writes exactly the marks that the tree's atoms have. */
  lemma {:induction false} ExprMarks(f: Form)
    ensures Marks(P.Expr(f)) == CountOf(P.Canon(f), MARKS)
    decreases f, 1
  {
    hide Count;
    match f
    case Atom(t) =>
      PlainMarks("true");
      PlainMarks("false");
      PlainMarks("t");
      PlainMarks("nil");
    case List(kids) =>
      if kids == [] {
        PlainMarks("()");
        assert P.Canons(f) == [];
      } else if P.IsQuote(f) {
        ExprMarks(kids[1]);
        PlainMarks("'");
        PlainMarks("quote");
        CountConcat("'", P.Expr(kids[1]), MARKS);
        CountTwo(Atom("quote"), P.Canon(kids[1]), MARKS);
        assert P.Canons(f) == [Atom("quote"), P.Canon(kids[1])];
      } else {
        JoinedMarks(f, |kids|);
        PlainMarks("(");
        PlainMarks(")");
        CountConcat("(" + P.Joined(f, |kids|), ")", MARKS);
        CountConcat("(", P.Joined(f, |kids|), MARKS);
        assert P.Canons(f)[..|kids|] == P.Canons(f);
      }
  }

  lemma {:induction false} JoinedMarks(f: Form, hi: nat)
    requires f.List? && 1 <= hi <= |f.kids|
    ensures Marks(P.Joined(f, hi)) == CountAll(P.Canons(f)[..hi], MARKS)
    decreases f, 0, hi
  {
    hide Count, CountOf, CountAll, P.Expr, P.Canon;
    var cs := P.Canons(f);
    if hi == 1 {
      HeadMarks(f.kids[0]);
      CountOne(P.CanonHead(f.kids[0]), MARKS);
      assert cs[..1] == [P.CanonHead(f.kids[0])];
    } else {
      JoinedMarks(f, hi - 1);
      ExprMarks(f.kids[hi - 1]);
      var a, b := P.Joined(f, hi - 1), P.Expr(f.kids[hi - 1]);
      PlainMarks(" ");
      CountConcat(a + " ", b, MARKS);
      CountConcat(a, " ", MARKS);
      assert cs[..hi] == cs[..hi - 1] + [P.Canon(f.kids[hi - 1])];
      CountMore(cs[..hi - 1], P.Canon(f.kids[hi - 1]), MARKS);
    }
  }

  lemma {:induction false} HeadMarks(h: Form)
    ensures Marks(P.HeadTok(h)) == CountOf(P.CanonHead(h), MARKS)
    decreases h, 2
  {
    if !P.Named(h, "=") {
      ExprMarks(h);
    }
  }

  lemma TextMarks(p: P.Piece)
    requires P.PieceOk(p)
    ensures CountWhat(Intended(p), MARKS) == Marks(P.Text(p))
  {
    hide Count, P.Expr, P.Canon, P.Joined, CountOf, CountAll;
    match p
    case Whole(f) => ExprMarks(f);
    case Call(h) =>
      HeadMarks(h);
      PlainMarks("()");
      CountConcat(P.HeadTok(h), "()", MARKS);
      SingleMarks(P.CanonHead(h));
    case Header(f, hi) =>
      JoinedMarks(f, hi);
      ListCount(P.Canons(f)[..hi], MARKS);
      SingleMarks(P.CanonHead(f.kids[0]));
      assert hi == 1 ==> P.Canons(f)[..hi] == [P.CanonHead(f.kids[0])];
      CountOne(P.CanonHead(f.kids[0]), MARKS);
    case Flat(f) =>
      JoinedMarks(f, |f.kids|);
      ListCount(P.Canons(f), MARKS);
      assert P.Canons(f)[..|f.kids|] == P.Canons(f);
    case If(c) =>
      ExprMarks(c);
      PlainMarks("if ");
      PlainMarks("if");
      CountConcat("if ", P.Expr(c), MARKS);
      AtomMarks("if");
      CountTwo(Atom("if"), P.Canon(c), MARKS);
      ListCount([Atom("if"), P.Canon(c)], MARKS);
    case Elif(c) =>
      ExprMarks(c);
      PlainMarks("elif ");
      CountConcat("elif ", P.Expr(c), MARKS);
    case Else => PlainMarks("else");
  }

  lemma AtomMarks(t: string)
    ensures CountOf(Atom(t), MARKS) == Marks(t)
  {
  }

  lemma SingleMarks(f: Form)
    ensures CountOf(List([f]), MARKS) == CountOf(f, MARKS)
  {
    hide Count;
    CountOne(f, MARKS);
  }

  lemma SaysMarks(body: string)
    ensures CountWhat(Says(body), MARKS) <= Marks(body)
  {
    hide ReadBody, LineNode, Count, CountOf;
    MarksRare();
    BodyCount(body, MARKS);
    var w := ReadBody(body);
    if w.Stmt? {
      RemapCount(w.node, w.block, MARKS);
    }
  }

  /** Trimming at both ends. */
  lemma TrimMarks(text: string, n: nat)
    requires n <= |text|
    ensures Marks(TrimRight(text[n..], true)) <= Marks(text)
  {
    hide Count, TrimRight;
    PrefixCount(TrimRight(text[n..], true), text[n..], MARKS);
    CountSplit(text, n, MARKS);
  }

  lemma SpacesMarks(n: nat)
    ensures Marks(P.Spaces(n)) == 0
  {
    CountNone(P.Spaces(n), MARKS);
  }

  /** A comment sign takes marks away. */
  lemma CutMarks(o: P.Out)
    requires P.PieceOk(o.piece) && Strip(P.Render(o), false) != P.Render(o)
    ensures Marks(Strip(P.Render(o), false)) < Marks(P.Text(o.piece))
  {
    hide Strip, Count, P.Text;
    var raw, t := P.Render(o), P.Text(o.piece);
    var text := Strip(raw, false);
    StripCount(raw, false);
    assert text == raw[..|text|] && raw[..|raw|] == raw;
    var m := |text|;
    CountSplit(raw, m, MARKS);
    SpacesMarks(o.indent);
    var u := if P.Opens(o.piece) then ":" else "";
    assert raw == P.Spaces(o.indent) + t + u;
    CountConcat(P.Spaces(o.indent) + t, u, MARKS);
    CountConcat(P.Spaces(o.indent), t, MARKS);
    CountFirst(raw[m..], MARKS);
    ColonMarks();
    if P.Opens(o.piece) {
      assert raw[|raw| - 1] == ':';
      CountSome(raw[m..][1..], |raw| - 2 - m, MARKS);
    }
    assert raw[m..][0] in MARKS;
    assert Count(raw, MARKS) == Count(t, MARKS) + Count(u, MARKS);
    assert text == raw[..m];
  }

  lemma ColonMarks()
    ensures Marks(":") == 1 && Marks("") == 0
  {
    assert ":"[1..] == "";
  }

  // ---- the lines that go wrong ----

  lemma CutWrong(o: P.Out)
    requires P.PieceOk(o.piece) && Strip(P.Render(o), false) != P.Render(o)
    ensures LineSays(P.Render(o)) != Some((o.indent, Intended(o.piece)))
  {
    hide Strip, Depth, TrimRight, Indent, Says, Intended, Count, P.Text, P.Render;
    CutMarks(o);
    TextMarks(o.piece);
    var text := Strip(P.Render(o), false);
    var n := Indent(text);
    TrimMarks(text, n);
    SaysMarks(TrimRight(text[n..], true));
  }

  /** The scanners for colons find no block colon, or one that is none. */
  lemma ScanWrong(p: P.Piece)
    requires Shape(p) && !Scans(p)
    ensures Says(Body(p)) != Intended(p)
  {
    hide ReadLine, P.Text, LineNode, InStrAfter, Shape;
    ShapeOk(p);
    BodySolid(p);
    var t := P.Text(p);
    if P.Opens(p) {
      OpensWrong(p, t);
    } else {
      ClosedWrong(p, t);
    }
  }

  lemma ShapeOk(p: P.Piece)
    requires Shape(p)
    ensures P.PieceOk(p) && PieceTokens(p)
  {
  }

  lemma TrimSolid(t: string)
    requires Solid(t)
    ensures TrimRight(t, false) == t
  {
  }

  lemma OpensWrong(p: P.Piece, t: string)
    requires P.PieceOk(p) && P.Opens(p) && t == P.Text(p) && Solid(t) && !Scans(p)
    ensures Says(Body(p)) != Intended(p)
  {
    hide ReadLine, P.Text, LineNode, InStrAfter, TrimRight, InlineColon;
    TrimSolid(t);
    assert Front(Body(p)) == t && Last(Body(p)) == ':';
    assert OpensBlock(Body(p)) == (Body(p), false);
    assert Intended(p).Stmt? ==> Intended(p).block;
  }

  lemma ClosedWrong(p: P.Piece, t: string)
    requires P.PieceOk(p) && !P.Opens(p) && t == P.Text(p) && !Scans(p)
    ensures Says(Body(p)) != Intended(p)
  {
    hide ReadLine, P.Text, LineNode, InStrAfter, TrimRight, InlineColon, Count;
    assert Body(p) == t;
    assert Intended(p).Stmt? && !Intended(p).block;
    if !OpensBlock(t).1 {
      assert OpensBlock(t) == (t, false);
      var at := InlineColon(t, false).value;
      ColonAt(t, false);
      TextMarks(p);
      SplitMarks(t, at);
    }
  }

  lemma {:induction false} ColonAt(s: string, inStr: bool)
    requires InlineColon(s, inStr).Some?
    ensures s[InlineColon(s, inStr).value] == ':'
    decreases |s|
  {
    if inStr && s[0] == '\\' && |s| >= 2 {
      ColonAt(s[2..], true);
    } else if inStr {
      ColonAt(s[1..], s[0] != '"');
    } else if s[0] == ':' && |s| >= 2 && IsBlank(s[1]) {
    } else {
      ColonAt(s[1..], s[0] == '"');
    }
  }

  /** An inline colon is one mark less. */
  lemma SplitMarks(t: string, at: nat)
    requires OpensBlock(t) == (t, false) && InlineColon(t, false) == Some(at) && t[at] == ':'
    ensures CountWhat(Says(t), MARKS) < Marks(t)
  {
    hide ReadLine, LineNode, OpensBlock, InlineColon, Count, CountOf, SkipBlanks;
    MarksRare();
    ColonCount(t, at, MARKS);
    var w := ReadBody(t);
    RemapCount(w.node, w.block, MARKS);
  }

  /** `fn()` is read as a parameter list. */
  lemma BareLambda(h: Form)
    requires P.IsSym(h) && Legibles(h) && h.text in ["fn", "lambda"] && Scans(P.Call(h))
    ensures Says(P.Text(P.Call(h))) == Stmt(List([h, List([])]), false)
  {
    hide ReadOne, SymText, StrBody, OpensBlock, Depth;
    var t := h.text + "()";
    ReadAtom(h.text, "()");
    assert P.Text(P.Call(h)) == t && t + "" == t;
    assert !IsBlank(t[0]) && SkipBlanks(t, false) == t;
    assert ReadOne(t) == (h, "()");
    assert "()"[1..] == ")";
    ReadClose("", []);
    assert ")" + "" == ")";
    var none: seq<Form> := [];
    assert none + [h, List(none)] == [h, List(none)];
    assert ReadForms(t, "", none) == ReadForms("", "", [h, List(none)]);
    ReadEnd([h, List(none)]);
    DesugarAtom(h.text);
    assert Desugar(List(none)).kids == none;
    assert Desugar(List([h, List(none)])).kids == [h, List(none)];
  }

  /** The elements of a line with `=` second are read as an assignment. */
  lemma InfixNode(f: Form, hi: nat)
    requires f.List? && 3 <= hi <= |f.kids| && FirstLegible(f, hi) && P.Named(f.kids[1], "=")
    ensures var g := NodeOf(P.Canons(f)[..hi]); g.List? && |g.kids| == 3 && g.kids[0] == Atom("=")
  {
    var fs := P.Canons(f)[..hi];
    assert fs[1] == Atom("=") && Infix(fs);
    HeadNoAttr(f);
    DesugarAtom("=");
  }

  lemma HeadNoAttr(f: Form)
    requires f.List? && f.kids != [] && Legibles(f.kids[0])
    ensures var h := P.Canons(f)[0]; h != Atom("=") && (h.Atom? ==> AttrSegments(h.text) == [])
  {
    if !P.Named(f.kids[0], "=") {
      HeadNotWord(f, "=");
      if f.kids[0].Atom? {
        ReadAtom(f.kids[0].text, "");
      }
    }
  }

  /** A line that holds several elements but that is not read as meant says something else. */
  lemma ElementsWrong(f: Form, hi: nat, block: bool)
    requires f.List? && 1 <= hi <= |f.kids| && FirstLegible(f, hi)
    requires P.Named(f.kids[0], "macro") || (hi >= 3 && P.Named(f.kids[1], "="))
    ensures var node := NodeOf(P.Canons(f)[..hi]); LineNode(node, block) != List(P.Canons(f)[..hi])
  {
    hide Legibles;
    var fs := P.Canons(f)[..hi];
    if hi >= 3 && P.Named(f.kids[1], "=") {
      InfixNode(f, hi);
      HeadNoAttr(f);
    } else {
      DesugarSome(f, hi);
      NotInfix(f, hi);
      assert fs[0] == Atom("macro");
      assert hi >= 2 ==> NodeOf(fs) == List(fs);
      assert hi == 1 ==> NodeOf(fs) == Atom("macro");
    }
  }

  lemma HeaderWrong(f: Form, hi: nat)
    requires var p := P.Header(f, hi); Shape(p) && PieceLegible(p) && Scans(p) && !HeadsRight(p)
    ensures Says(Body(P.Header(f, hi))) != Intended(P.Header(f, hi))
  {
    hide ReadForms, P.Joined, StartsWith, OpensBlock, Legibles, NodeOf, P.Canon, Tokens;
    var t := P.Joined(f, hi);
    JoinedHead(f, hi);
    ReadElements(f, hi);
    if P.Named(f.kids[0], "elif") {
      ElifHead(f, hi);
    } else if hi == 1 && P.Named(f.kids[0], "else") {
      ElseHead(f);
    } else {
      ElementsWrong(f, hi, true);
      HeaderIntended(f, hi);
    }
  }

  lemma HeaderIntended(f: Form, hi: nat)
    requires P.PieceOk(P.Header(f, hi)) && (hi == 1 ==> P.IsSym(f.kids[0]))
    ensures Intended(P.Header(f, hi)) == Stmt(List(P.Canons(f)[..hi]), true)
  {
    assert hi == 1 ==> P.Canons(f)[..hi] == [P.CanonHead(f.kids[0])];
  }

  lemma ElseHead(f: Form)
    requires f.List? && f.kids != [] && P.Named(f.kids[0], "else")
    ensures P.Joined(f, 1) == "else"
  {
  }

  lemma {:induction false} ElifHead(f: Form, hi: nat)
    requires f.List? && 1 <= hi <= |f.kids| && P.Named(f.kids[0], "elif")
    ensures StartsWith(P.Joined(f, hi), "elif")
  {
    if hi > 1 {
      ElifHead(f, hi - 1);
      var j := P.Joined(f, hi - 1);
      assert P.Joined(f, hi) == j + (" " + P.Expr(f.kids[hi - 1]));
      assert |j| > 4 ==> P.Joined(f, hi)[4] == j[4];
    }
  }

  lemma FlatWrong(f: Form)
    requires var p := P.Flat(f); Shape(p) && PieceLegible(p) && Scans(p) && !HeadsRight(p)
    ensures Says(Body(P.Flat(f))) != Intended(P.Flat(f))
  {
    hide ReadForms, P.Joined, StartsWith, OpensBlock, NodeOf, P.Canon, Tokens;
    var t := P.Joined(f, |f.kids|);
    assert t + "" == t;
    ReadElements(f, |f.kids|);
    var fs := P.Canons(f)[..|f.kids|];
    assert fs == P.Canons(f);
    if |f.kids| == 1 {
      DesugarSome(f, 1);
      LoneElement(f);
    } else {
      ElementsWrong(f, |f.kids|, false);
    }
  }

  /** A lone element is not wrapped. */
  lemma LoneElement(f: Form)
    requires f.List? && |f.kids| == 1 && !P.IsSym(f.kids[0]) && Legibles(f)
    ensures LineNode(NodeOf(P.Canons(f)), false) != List(P.Canons(f))
  {
    var fs := P.Canons(f);
    DesugarSome(f, 1);
    assert NodeOf(fs) == Desugar(fs[0]) && P.Canons(f)[..1] == fs;
  }

  /** `macro()` is remapped. */
  lemma MacroCall(h: Form)
    requires h == Atom("macro") && Shape(P.Call(h)) && Legibles(h) && Scans(P.Call(h))
    ensures Says(Body(P.Call(h))) != Intended(P.Call(h))
  {
    hide ReadForms, SymText, StrBody, OpensBlock, NodeOf, P.HeadTok;
    ReadCallAny(h);
    HeadText(h);
    assert P.HeadTok(h) + "()" + "" == P.HeadTok(h) + "()";
    DesugarAtom("macro");
    assert Desugar(List([h])).kids == [h];
    assert NodeOf([List([h])]) == List([h]) by { NodeOfOne(List([h])); }
  }

  lemma NodeOfOne(f: Form)
    ensures NodeOf([f]) == Desugar(f)
  {
  }

  lemma HeadText(h: Form)
    requires P.IsSym(h) && !P.Named(h, "=")
    ensures P.HeadTok(h) == h.text && P.CanonHead(h) == P.Canon(h)
  {
  }

  /** A glued `()` makes a call of any other symbol. */
  lemma ReadCallAny(h: Form)
    requires P.IsSym(h) && Legible(h.text) && !SelfBinder(h) && !P.Named(h, "=") && P.Canon(h) == h
    ensures ReadForms(P.HeadTok(h) + "()", "", []) == ([List([h])], "")
  {
    hide ReadOne, SymText, StrBody, Token;
    var t := h.text + "()";
    HeadText(h);
    ReadAtom(h.text, "()");
    assert !IsBlank(t[0]) && SkipBlanks(t, false) == t;
    assert ReadOne(t) == (h, "()");
    assert "()"[1..] == ")";
    ReadClose("", []);
    assert ")" + "" == ")";
    var none: seq<Form> := [];
    assert [h] + none == [h] && none + [List([h])] == [List([h])];
    assert ReadCalls(List([h]), "") == (List([h]), "");
    assert ReadForms(t, "", none) == ReadForms("", "", [List([h])]);
    ReadEnd([List([h])]);
  }

  lemma CallWrong(h: Form)
    requires var p := P.Call(h); Shape(p) && PieceLegible(p) && Scans(p) && !HeadsRight(p)
    ensures Says(Body(P.Call(h))) != Intended(P.Call(h))
  {
    hide Says, SymText, StrBody, Scans, Tokens;
    if h.text == "macro" {
      MacroCall(h);
    } else {
      BareLambda(h);
      assert P.Text(P.Call(h)) + "" == P.Text(P.Call(h));
    }
  }

  lemma HeadsWrong(p: P.Piece)
    requires Shape(p) && PieceLegible(p) && Scans(p) && !HeadsRight(p)
    ensures Says(Body(p)) != Intended(p)
  {
    hide Says, Intended, Scans;
    match p
    case Call(h) => CallWrong(h);
    case Header(f, hi) => HeaderWrong(f, hi);
    case Flat(f) => FlatWrong(f);
    case _ =>
  }

  // ---- the theorem ----

  /** The line as it is printed says, at its column, what the printer means. */
  predicate Right(o: P.Out)
    requires P.PieceOk(o.piece)
  {
    LineSays(P.Render(o)) == Some((o.indent, Intended(o.piece)))
  }

  /** A printed line is read as the printer means it exactly when each of its atoms is legible where it stands:
      no atom is a truth value of the source or an attribute token; no `#` starts a comment, no character
      literal hides a bracket, no string state is lost before a block colon, no colon is taken for a block's;
      and its head is right: no bare `fn()` or `lambda()`, no keyword, no `=` second, no lone list or string. */
  lemma LineExact(o: P.Out)
    requires Shape(o.piece)
    ensures Right(o) <==> LineReads(o)
  {
    hide Says, Intended, HeadsRight, PieceLegible, Strip, Depth, Scans, P.Render, P.Text, Indent, TrimRight, Shape,
        PieceTokens;
    ShapeOk(o.piece);
    var raw := P.Render(o);
    if LineReads(o) {
      RenderScans(o);
      BodySolid(o.piece);
      SaysMeant(o.piece);
    } else if !PieceLegible(o.piece) {
      IllegibleWrong(o);
    } else if Strip(raw, false) != raw {
      CutWrong(o);
    } else if Depth(raw, false) == (0, false) {
      BodyAlone(o);
      if !Scans(o.piece) {
        ScanWrong(o.piece);
      } else {
        HeadsWrong(o.piece);
      }
    }
  }

  lemma IllegibleWrong(o: P.Out)
    requires Shape(o.piece) && !PieceLegible(o.piece)
    ensures !Right(o)
  {
    hide Says, Intended, PieceLegible, Strip, Depth, P.Render, Shape, WhatClear;
    ShapeOk(o.piece);
    IntendedClear(o.piece);
    var text := Strip(P.Render(o), false);
    SaysClear(TrimRight(text[Indent(text)..], true));
  }

  /** Where no comment is cut, what the line says is what its body says, or its column is not the printed one. */
  lemma BodyAlone(o: P.Out)
    requires Shape(o.piece) && PieceLegible(o.piece) && Strip(P.Render(o), false) == P.Render(o)
    ensures Right(o) ==> Says(Body(o.piece)) == Intended(o.piece)
  {
    hide Says, Intended, PieceLegible, Strip, Depth, Shape, P.Text;
    ShapeOk(o.piece);
    BodySolid(o.piece);
    var raw := P.Render(o);
    assert raw == P.Spaces(o.indent) + Body(o.piece);
    assert raw[o.indent..] == Body(o.piece);
  }
}
