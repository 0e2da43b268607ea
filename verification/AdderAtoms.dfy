/** Where a symbol that ends in `#`, and the character literals of a colon and of a quote, survive printing. */
module AdderAtoms {
  import opened Wrappers
  import opened AdderForms
  import opened AdderReader
  import opened AdderInline
  import opened AdderSource
  import opened AdderText
  import opened AdderExact
  import P = AdderPrinter

  const CHAR_COLON: string := "#\\:"
  const CHAR_QUOTE: string := "#\\\""

  // ---- by position ----

  lemma PlainStrip(s: string)
    requires s != "" && s[0] != ';' && s[0] != '"' && (s[0] == '#' ==> |s| >= 2 && s[1] !in " \t!\\")
    ensures Strip(s, false) == [s[0]] + Strip(s[1..], false)
  {
  }

  lemma HashFirst(rest: string)
    requires rest != "" ==> rest[0] != '\\'
    ensures Strip("#" + rest, false) == if rest == "" || rest[0] in " \t!" then "" else "#" + Strip(rest, false)
  {
    assert ("#" + rest)[1..] == rest;
  }

  /** A `#` that ends a symbol starts a comment exactly before a blank, before `!`, and at the end of the text; before
      a closing bracket or a block colon it stays. */
  lemma {:induction false} HashStands(w: string, rest: string)
    requires SymChars(w) && (rest != "" ==> rest[0] != '\\')
    ensures Strip(w + "#" + rest, false)
            == w + if rest == "" || rest[0] in " \t!" then "" else "#" + Strip(rest, false)
  {
    hide Strip;
    HashFirst(rest);
    var s, kept := w + "#" + rest, if rest == "" || rest[0] in " \t!" then "" else "#" + Strip(rest, false);
    if w == "" {
      assert s == "#" + rest && w + kept == kept;
    } else {
      HashStands(w[1..], rest);
      assert s[0] == w[0] && s[1..] == w[1..] + "#" + rest;
      SymHashFirst(w, rest);
      PlainStrip(s);
      assert [w[0]] + (w[1..] + kept) == w + kept;
    }
  }

  lemma SymHashFirst(w: string, rest: string)
    requires SymChars(w) && w != ""
    ensures var s := w + "#" + rest; s[0] != ';' && s[0] != '"' && (s[0] == '#' ==> |s| >= 2 && s[1] !in " \t!\\")
  {
    var s := w + "#" + rest;
    if w[0] == '#' {
      assert s[1] == w[1] && SymChars(w[1..]) && w[1..][0] == w[1];
    }
  }

  /** A colon that ends a symbol is taken for a block's exactly before a blank that something follows. */
  lemma {:induction false} ColonStands(w: string, rest: string)
    requires SymChars(w)
    ensures InlineColon(w + ":" + rest, false)
            == if rest == "" || !IsBlank(rest[0]) then Shift(|w| + 1, InlineColon(rest, false))
               else if SkipBlanks(rest, false) == "" then None else Some(|w|)
  {
    hide SkipBlanks;
    var s := w + ":" + rest;
    if w == "" {
      assert s[0] == ':' && s[1..] == rest;
    } else {
      ColonStands(w[1..], rest);
      assert s[0] == w[0] && s[1..] == w[1..] + ":" + rest;
      assert |w| >= 2 ==> s[1] == w[1];
    }
  }

  /** The quote of a character literal turns the string state of the block scanner around for the rest of the line. */
  lemma CharQuoteStands(rest: string)
    ensures InStrAfter(CHAR_QUOTE + rest, false) == InStrAfter(rest, true)
  {
    var s := CHAR_QUOTE + rest;
    assert s[0] == '#' && s[1..][0] == '\\' && s[1..][1..][0] == '"' && s[1..][1..][1..] == rest;
    assert InStrAfter(s[1..][1..], false) == InStrAfter(rest, true);
    assert InStrAfter(s[1..], false) == InStrAfter(s[1..][1..], false);
  }

  // ---- the scanners pass a symbol ----

  lemma SymStep(a: string, v: string)
    requires SymChars(a) && a != "" && v != "" && v[0] == ' '
    ensures Strip(a + v, false) == [a[0]] + Strip(a[1..] + v, false)
  {
    hide Strip;
    var s := a + v;
    assert s[0] == a[0] && s[1..] == a[1..] + v;
    if a[0] == '#' {
      assert s[1] == a[1] && SymChars(a[1..]) && a[1..][0] == a[1];
    }
    PlainStrip(s);
  }

  lemma {:induction false} SymStrips(a: string, v: string)
    requires SymChars(a) && v != "" && v[0] == ' '
    ensures Strip(a + v, false) == a + Strip(v, false)
  {
    hide Strip;
    if a == "" {
      assert a + v == v && a + Strip(v, false) == Strip(v, false);
    } else {
      SymStrips(a[1..], v);
      SymStep(a, v);
      assert [a[0]] + (a[1..] + Strip(v, false)) == a + Strip(v, false);
    }
  }

  lemma {:induction false} SymDepth(a: string, v: string)
    requires SymChars(a) && v != "" && v[0] == ' '
    ensures Depth(a + v, false) == Depth(v, false)
  {
    var s := a + v;
    if a == "" {
      assert s == v;
    } else {
      SymDepth(a[1..], v);
      assert s[0] == a[0] && s[1..] == a[1..] + v && (|a| >= 2 ==> s[1] == a[1]);
    }
  }

  lemma {:induction false} SymColons(a: string, v: string)
    requires SymChars(a) && v != "" && v[0] == ' '
    ensures InlineColon(a + v, false) == Shift(|a|, InlineColon(v, false))
        && InStrAfter(a + v, false) == InStrAfter(v, false)
  {
    var s := a + v;
    if a == "" {
      assert s == v;
    } else {
      SymColons(a[1..], v);
      assert s[0] == a[0] && s[1..] == a[1..] + v && (|a| >= 2 ==> s[1] == a[1]);
    }
  }

  lemma SpacePasses(v: string)
    ensures Strip(" " + v, false) == " " + Strip(v, false) && Depth(" " + v, false) == Depth(v, false)
    ensures InlineColon(" " + v, false) == Shift(1, InlineColon(v, false))
        && InStrAfter(" " + v, false) == InStrAfter(v, false)
  {
    assert (" " + v)[1..] == v;
  }

  // ---- lines ----

  function Flat(kids: seq<Form>): P.Out
    requires kids != []
  {
    P.Out(0, P.Flat(List(kids)))
  }

  lemma FlatText(kids: seq<Form>, t: string)
    requires kids != [] && P.Joined(List(kids), |kids|) == t
    ensures P.Text(Flat(kids).piece) == P.Render(Flat(kids)) == Body(Flat(kids).piece) == t
  {
    hide P.Joined, P.Expr;
    assert P.Spaces(0) + t + "" == t && t + "" == t;
  }

  /** A symbol that no line treats specially. */
  predicate Plain(a: string) {
    SymOk(a) && a !in ["=", "quote", "macro", "elif", "else"]
  }

  lemma PlainLegible(a: string)
    requires Plain(a)
    ensures Legible(a) && Token(a) && !P.IsStr(a)
  {
    AtomLegible(a);
    SymHead(a, "");
  }

  lemma JoinTwo(a: string, b: string)
    requires Plain(a) && !P.IsStr(b)
    ensures P.Joined(List([Atom(a), Atom(b)]), 2) == a + " " + b
  {
    hide SymOk;
    PlainLegible(a);
    var f := List([Atom(a), Atom(b)]);
    assert f.kids[0] == Atom(a) && P.Joined(f, 1) == P.HeadTok(f.kids[0]) == P.Tok(a) == a;
  }

  lemma JoinThree(a: string, b: string, c: string)
    requires Plain(a) && !P.IsStr(b) && !P.IsStr(c)
    ensures P.Joined(List([Atom(a), Atom(b), Atom(c)]), 3) == a + " " + b + " " + c
  {
    hide SymOk;
    PlainLegible(a);
    var f := List([Atom(a), Atom(b), Atom(c)]);
    assert f.kids[0] == Atom(a) && P.Joined(f, 1) == P.HeadTok(f.kids[0]) == P.Tok(a) == a;
    assert P.Joined(f, 2) == P.Joined(f, 1) + " " + P.Expr(f.kids[1]);
  }

  lemma JoinNested(a: string, b: string, c: string)
    requires Plain(a) && Plain(b) && !P.IsStr(c)
    ensures P.Joined(List([Atom(a), List([Atom(b), Atom(c)])]), 2) == a + (" " + ("(" + (b + (" " + (c + ")")))))
  {
    hide SymOk;
    PlainLegible(a);
    JoinTwo(b, c);
    var g := List([Atom(b), Atom(c)]);
    var f := List([Atom(a), g]);
    assert f.kids[0] == Atom(a) && P.Joined(f, 1) == P.HeadTok(f.kids[0]) == P.Tok(a) == a;
    assert P.Expr(g) == "(" + P.Joined(g, 2) + ")";
    assert P.Joined(f, 2) == a + " " + ("(" + (b + " " + c) + ")");
  }

  lemma LegibleToken(t: string)
    requires Legible(t)
    ensures Token(t)
  {
  }

  lemma WrongBy(o: P.Out)
    requires Shape(o.piece) && !LineReads(o)
    ensures !Right(o)
  {
    hide Right, Shape, LineReads;
    ShapeOk(o.piece);
    LineExact(o);
  }

  lemma FlatShape(kids: seq<Form>)
    requires |kids| >= 2 && forall i | 0 <= i < |kids| :: Tokens(kids[i])
    ensures Shape(Flat(kids).piece)
  {
  }

  // ---- a symbol that ends in `#` ----

  /** `(a w# b)` is printed as `a w# b`, and the reader sees `a w`: every such symbol is lost before another element. */
  lemma HashLost(a: string, w: string, b: string)
    requires Plain(a) && SymChars(w) && Legible(w + "#") && Legible(b) && !P.IsStr(b)
    ensures var o := Flat([Atom(a), Atom(w + "#"), Atom(b)]);
            P.Render(o) == a + " " + (w + "#") + " " + b && Strip(P.Render(o), false) == a + " " + w && !Right(o)
  {
    hide Right, Legible, SymOk, Strip, Shape, P.Render, P.Joined, SymChars, LineReads;
    var kids := [Atom(a), Atom(w + "#"), Atom(b)];
    var t := a + " " + (w + "#") + " " + b;
    PlainLegible(a);
    HashSym(w);
    LegibleToken(w + "#");
    LegibleToken(b);
    JoinThree(a, w + "#", b);
    FlatText(kids, t);
    HashText(a, w, b);
    assert Tokens(kids[0]) && Tokens(kids[1]) && Tokens(kids[2]);
    FlatShape(kids);
    CutNotRead(Flat(kids));
    WrongBy(Flat(kids));
  }

  lemma CutNotRead(o: P.Out)
    requires P.PieceOk(o.piece) && Strip(P.Render(o), false) != P.Render(o)
    ensures !LineReads(o)
  {
    hide Strip, P.Render, HeadsRight, PieceLegible, Scans, Depth;
  }

  lemma HashText(a: string, w: string, b: string)
    requires Plain(a) && SymChars(w)
    ensures var t := a + " " + (w + "#") + " " + b; Strip(t, false) == a + " " + w && Strip(t, false) != t
  {
    hide Strip, SymChars;
    var t := a + " " + (w + "#") + " " + b;
    assert t == a + (" " + (w + "#" + (" " + b)));
    HashStands(w, " " + b);
    SpacePasses(w + "#" + (" " + b));
    PlainChars(a);
    SymStrips(a, " " + (w + "#" + (" " + b)));
    assert a + (" " + (w + "")) == a + " " + w;
    assert |a + " " + w| < |t|;
  }

  lemma HashSym(w: string)
    requires SymChars(w)
    ensures !P.IsStr(w + "#")
  {
    assert w != "" ==> (w + "#")[0] == w[0];
  }

  lemma PlainChars(a: string)
    requires Plain(a)
    ensures SymChars(a) && a != ""
  {
  }

  /** `(a (b w#))` survives. */
  lemma HashKept(a: string, b: string, w: string)
    requires Plain(a) && Plain(b) && SymChars(w) && Legible(w + "#")
    ensures Right(Flat([Atom(a), List([Atom(b), Atom(w + "#")])]))
  {
    hide Right, Legible, SymOk, Clean, SymChars;
    HashSym(w);
    CleanHash(w);
    NestedRight(a, b, w + "#");
  }

  lemma {:induction false} CleanHash(w: string)
    requires SymChars(w)
    ensures Clean(w + "#" + ")", 1, false)
  {
    var s := w + "#" + ")";
    if w == "" {
      assert s[0] == '#' && s[1..] == ")" && ")"[1..] == "";
    } else {
      CleanHash(w[1..]);
      assert s[0] == w[0] && s[1..] == w[1..] + "#" + ")" && (|w| >= 2 ==> s[1] == w[1]);
    }
  }

  /** An atom that is clean before a closing bracket survives there. */
  lemma NestedRight(a: string, b: string, c: string)
    requires Plain(a) && Plain(b) && Legible(c) && !P.IsStr(c) && Clean(c + ")", 1, false)
    ensures Right(Flat([Atom(a), List([Atom(b), Atom(c)])]))
  {
    hide Right, Legible, SymOk, Clean;
    var g := List([Atom(b), Atom(c)]);
    var kids := [Atom(a), g];
    var t := a + (" " + ("(" + (b + (" " + (c + ")")))));
    PlainLegible(a);
    PlainLegible(b);
    JoinNested(a, b, c);
    FlatText(kids, t);
    LegibleSome(c);
    CleanNested(a, b, c);
    assert Legibles(Atom(a)) && Legibles(Atom(b)) && Legibles(Atom(c)) && Legibles(g);
    assert Legibles(kids[0]) && Legibles(kids[1]);
    assert P.Named(kids[0], a);
    CleanRight(kids, t);
  }

  lemma LegibleSome(c: string)
    requires Legible(c)
    ensures c != ""
  {
  }

  lemma CleanNested(a: string, b: string, c: string)
    requires Plain(a) && Plain(b) && Clean(c + ")", 1, false) && c != ""
    ensures Clean(a + (" " + ("(" + (b + (" " + (c + ")"))))), 0, false)
  {
    hide Clean;
    PlainChars(a);
    PlainChars(b);
    CleanSpace(c + ")", 1);
    CleanSym(b, " " + (c + ")"), 1);
    CleanPunct('(', b + (" " + (c + ")")), 0, 1);
    assert ['('] + (b + (" " + (c + ")"))) == "(" + (b + (" " + (c + ")")));
    CleanSpace("(" + (b + (" " + (c + ")"))), 0);
    CleanSym(a, " " + ("(" + (b + (" " + (c + ")")))), 0);
  }

  /** A flat line whose text is clean is read as it is meant. */
  lemma CleanRight(kids: seq<Form>, t: string)
    requires |kids| == 2 && kids[0].Atom? && !P.Named(kids[0], "macro") && Legibles(List(kids))
    requires P.Text(Flat(kids).piece) == P.Render(Flat(kids)) == Body(Flat(kids).piece) == t && Clean(t, 0, false)
    ensures Right(Flat(kids))
  {
    hide Right, Clean, Strip, Depth, OpensBlock, P.Text, P.Render, Legibles, Tokens;
    var o := Flat(kids);
    LegibleTokens(List(kids));
    assert t + "" == t && "" + t == t;
    StripClean(t, 0, false, "");
    DepthClean(t, 0, false, "");
    NothingLeft();
    NoColon(t);
    LineExact(o);
  }

  lemma NothingLeft()
    ensures Strip("", false) == "" && Depth("", false) == (0, false)
  {
  }

  // ---- the character literal of a colon ----

  /** `(a #\:)` is printed as `a #\:`, which the reader takes for the opening of a block. */
  lemma CharColonLost(a: string)
    requires Plain(a)
    ensures var o := Flat([Atom(a), Atom(CHAR_COLON)]);
            P.Render(o) == a + " " + CHAR_COLON && OpensBlock(P.Render(o)).1 && !Right(o)
  {
    hide Right, Legible, SymOk, Strip, Depth, Shape;
    var kids := [Atom(a), Atom(CHAR_COLON)];
    var t := a + " " + CHAR_COLON;
    PlainLegible(a);
    PlainChars(a);
    CharsLegible();
    JoinTwo(a, CHAR_COLON);
    FlatText(kids, t);
    assert Tokens(kids[0]) && Tokens(kids[1]);
    FlatShape(kids);
    assert Front(t) == a + (" " + "#\\") && Last(t) == ':';
    SymColons(a, " " + "#\\");
    SpacePasses("#\\");
    assert "#\\"[1..] == "\\" && "\\"[1..] == "";
    assert !InStrAfter("\\", false) && !InStrAfter("#\\", false);
    WrongBy(Flat(kids));
  }

  lemma CharsLegible()
    ensures Legible(CHAR_COLON) && Token(CHAR_COLON) && Legible(CHAR_QUOTE) && Token(CHAR_QUOTE)
    ensures !P.IsStr(CHAR_COLON) && !P.IsStr(CHAR_QUOTE)
  {
    hide SymText, StrBody;
    assert IsCharLit(CHAR_COLON) && IsCharLit(CHAR_QUOTE);
  }

  /** `(a (b #\:))` survives. */
  lemma CharColonKept(a: string, b: string)
    requires Plain(a) && Plain(b)
    ensures Right(Flat([Atom(a), List([Atom(b), Atom(CHAR_COLON)])]))
  {
    hide Right, Legible, SymOk;
    CharsLegible();
    var s := CHAR_COLON + ")";
    assert s[0] == '#' && s[1] == '\\' && s[2] == ':' && s[3] == ')' && s[3..] == ")" && ")"[1..] == "";
    assert Clean(")", 1, false);
    NestedRight(a, b, CHAR_COLON);
  }

  // ---- the character literal of a quote ----

  /** `(a #\")` survives: the line opens no block. */
  lemma CharQuoteKept(a: string)
    requires Plain(a)
    ensures Right(Flat([Atom(a), Atom(CHAR_QUOTE)]))
  {
    hide Right, Legible, SymOk, Strip, Depth, InlineColon, InStrAfter, Shape, SymChars, P.Render, P.Joined;
    var kids := [Atom(a), Atom(CHAR_QUOTE)];
    var o := Flat(kids);
    var t := a + " " + CHAR_QUOTE;
    PlainLegible(a);
    PlainChars(a);
    CharsLegible();
    JoinTwo(a, CHAR_QUOTE);
    FlatText(kids, t);
    assert Legibles(kids[0]) && Legibles(kids[1]);
    assert Tokens(kids[0]) && Tokens(kids[1]);
    FlatShape(kids);
    assert t == a + (" " + CHAR_QUOTE) && Last(t) == '"';
    SymStrips(a, " " + CHAR_QUOTE);
    SymDepth(a, " " + CHAR_QUOTE);
    SymColons(a, " " + CHAR_QUOTE);
    SpacePasses(CHAR_QUOTE);
    CharQuoteScans();
    assert P.Named(kids[0], a);
    LineExact(o);
  }

  lemma CharQuoteScans()
    ensures Strip(CHAR_QUOTE, false) == CHAR_QUOTE && Depth(CHAR_QUOTE, false) == (0, false)
    ensures InlineColon(CHAR_QUOTE, false).None?
  {
    var t := CHAR_QUOTE;
    assert t[..3] == t && t[3..] == "" && t[1..][0] == '\\' && t[1..][1..][0] == '"' && t[1..][1..][1..] == "";
    assert InlineColon("", true).None?;
    assert InlineColon(t[1..][1..], false).None?;
    assert InlineColon(t[1..], false).None?;
  }

  /** In the header of a block, `a #\":`, the same literal hides the block colon. */
  lemma CharQuoteLost(a: string, kids: seq<Form>)
    requires Plain(a) && |kids| > 2 && kids[0] == Atom(a) && kids[1] == Atom(CHAR_QUOTE)
    ensures var o := P.Out(0, P.Header(List(kids), 2));
            P.Render(o) == a + " " + CHAR_QUOTE + ":" && !OpensBlock(P.Render(o)).1 && !Right(o)
  {
    hide Right, Legible, SymOk, Strip, Depth, SymChars, InStrAfter, P.Joined, P.Render, LineReads;
    var f := List(kids);
    var o := P.Out(0, P.Header(f, 2));
    var t := a + " " + CHAR_QUOTE;
    HeaderText(a, kids);
    PlainLegible(a);
    PlainChars(a);
    CharsLegible();
    assert Front(t + ":") == t && Last(t + ":") == ':';
    assert t == a + (" " + CHAR_QUOTE);
    SymColons(a, " " + CHAR_QUOTE);
    SpacePasses(CHAR_QUOTE);
    CharQuoteStands("");
    assert CHAR_QUOTE + "" == CHAR_QUOTE;
    InStrNone();
    assert Tokens(kids[0]) && Tokens(kids[1]);
    ScansNotRead(o);
    WrongBy(o);
  }

  lemma ScansNotRead(o: P.Out)
    requires P.PieceOk(o.piece) && P.Opens(o.piece) && !OpensBlock(Body(o.piece)).1
    ensures !LineReads(o)
  {
    hide Strip, P.Render, HeadsRight, PieceLegible, OpensBlock, Depth;
  }

  lemma HeaderText(a: string, kids: seq<Form>)
    requires Plain(a) && |kids| > 2 && kids[0] == Atom(a) && kids[1] == Atom(CHAR_QUOTE)
    ensures var o, t := P.Out(0, P.Header(List(kids), 2)), a + " " + CHAR_QUOTE;
            P.Text(o.piece) == t && Body(o.piece) == P.Render(o) == t + ":"
  {
    hide SymOk;
    PlainLegible(a);
    var f, t := List(kids), a + " " + CHAR_QUOTE;
    assert P.Joined(f, 1) == P.HeadTok(kids[0]) == P.Tok(a) == a;
    assert P.Joined(f, 2) == P.Joined(f, 1) + " " + P.Expr(kids[1]) == t;
    assert P.Spaces(0) + t + ":" == t + ":";
  }

  lemma InStrNone()
    ensures InStrAfter("", true)
  {
  }

  // ---- the character literal of a space ----

  /** `(a #\ )` is printed with the literal's space at the end of the line, where the reader trims it. */
  lemma CharSpaceLost(a: string)
    requires Plain(a)
    ensures var raw := P.Render(Flat([Atom(a), Atom("#\\ ")]));
            raw == a + " " + "#\\ " && TrimRight(raw, true) == a + " " + "#\\"
  {
    hide SymOk;
    var kids := [Atom(a), Atom("#\\ ")];
    JoinTwo(a, "#\\ ");
    FlatText(kids, a + " " + "#\\ ");
    var t := a + " " + "#\\ ";
    assert Front(t) == a + " " + "#\\" && Last(t) == ' ' && Last(Front(t)) == '\\';
    assert TrimRight(Front(t), true) == Front(t);
  }
}
