/** Printed lines pass the scanners unharmed, and are read as the printer means them. */
module AdderText {
  import opened AdderForms
  import opened AdderBlocks
  import opened AdderCounts
  import opened AdderReader
  import opened AdderInline
  import opened AdderSource
  import opened AdderLayout
  import P = AdderPrinter

  /** Text on which every scanner agrees: no comment, no stray colon, closed strings, and `d` brackets to close. */
  predicate Clean(s: string, d: nat, inStr: bool) {
    if s == "" then d == 0 && !inStr
    else if inStr then
      s[0] != '\n' && if s[0] == '\\' then |s| >= 2 && s[1] != '\n' && Clean(s[2..], d, true)
          else Clean(s[1..], d, s[0] != '"')
    else if s[0] == '#' && |s| >= 2 && s[1] == '\\' then CharStands(s) && Clean(s[3..], d, false)
    else
      && s[0] != ';' && (s[0] == '#' ==> |s| >= 2 && s[1] !in " \t!")
      && (P.IsSpace(s[0]) ==> s[0] == ' ' && |s| >= 2)
      && (s[0] == ':' ==> |s| >= 2 && !IsBlank(s[1]))
      && d + Nesting(s[0]) >= 0 && Clean(s[1..], d + Nesting(s[0]), s[0] == '"')
  }

  /** A character literal that no scanner trips over; one of a colon must have something right behind it. */
  predicate CharStands(s: string) {
    |s| >= 3 && s[2] != '"' && !P.IsSpace(s[2]) && (s[2] == ':' ==> |s| >= 4 && !IsBlank(s[3]))
  }

  // ---- the scanners on clean text ----

  /** Characters that the scanners take at once. */
  function Unit(s: string, inStr: bool): nat {
    if inStr then (if s != "" && s[0] == '\\' then 2 else 1)
    else if |s| >= 2 && s[0] == '#' && s[1] == '\\' then 3 else 1
  }

  /** String state after one unit. */
  predicate StrAfter(s: string, inStr: bool)
    requires s != ""
  {
    if Unit(s, inStr) > 1 then inStr else if inStr then s[0] != '"' else s[0] == '"'
  }

  /** Brackets still to close after one unit. */
  function DepthAfter(s: string, d: nat, inStr: bool): int
    requires s != ""
  {
    if Unit(s, inStr) > 1 || inStr then d else d + Nesting(s[0])
  }

  lemma CleanStep(s: string, d: nat, inStr: bool)
    requires Clean(s, d, inStr) && s != ""
    ensures Unit(s, inStr) <= |s| && DepthAfter(s, d, inStr) >= 0
    ensures Clean(s[Unit(s, inStr)..], DepthAfter(s, d, inStr), StrAfter(s, inStr))
  {
  }

  /** The first unit of clean text. */
  lemma CleanHead(s: string, d: nat, inStr: bool)
    requires Clean(s, d, inStr) && s != ""
    ensures Unit(s, inStr) <= |s|
    ensures !inStr ==> s[0] != ';' && (s[0] == '#' ==> |s| >= 2 && s[1] !in " \t!")
  {
  }

  /** A longer text starts with the same unit. */
  lemma UnitPrefix(s: string, inStr: bool, u: string)
    requires s != "" && Unit(s, inStr) <= |s| && (s[0] == '#' && !inStr ==> |s| >= 2)
    ensures var t, n := s + u, Unit(s, inStr);
            && t[0] == s[0] && (|s| >= 2 ==> t[1] == s[1]) && Unit(t, inStr) == n
            && t[..n] == s[..n] && t[n..] == s[n..] + u && StrAfter(t, inStr) == StrAfter(s, inStr)
  {
    var t := s + u;
    assert t[0] == s[0] && (|s| >= 2 ==> t[1] == s[1]);
  }

  /** `Strip`, one unit at a time. */
  lemma StripOne(t: string, inStr: bool)
    requires t != "" && Unit(t, inStr) <= |t|
    requires !inStr ==> t[0] != ';' && (t[0] == '#' ==> |t| >= 2 && t[1] !in " \t!")
    ensures Strip(t, inStr) == t[..Unit(t, inStr)] + Strip(t[Unit(t, inStr)..], StrAfter(t, inStr))
  {
    assert t[..1] == [t[0]];
  }

  lemma StripUnit(s: string, d: nat, inStr: bool, u: string)
    requires Clean(s, d, inStr) && s != "" && Unit(s, inStr) <= |s|
    ensures Strip(s + u, inStr) == s[..Unit(s, inStr)] + Strip(s[Unit(s, inStr)..] + u, StrAfter(s, inStr))
  {
    hide Strip, Clean;
    CleanHead(s, d, inStr);
    UnitPrefix(s, inStr, u);
    StripOne(s + u, inStr);
  }

  /** No comment is cut out of clean text. */
  lemma {:induction false} StripClean(s: string, d: nat, inStr: bool, u: string)
    requires Clean(s, d, inStr)
    ensures Strip(s + u, inStr) == s + Strip(u, false)
    decreases |s|
  {
    if s == "" {
      assert s + u == u && s + Strip(u, false) == Strip(u, false);
    } else {
      hide Clean, Strip, Unit, StrAfter, DepthAfter;
      var n := Unit(s, inStr);
      CleanStep(s, d, inStr);
      UnitSome(s, inStr);
      StripUnit(s, d, inStr, u);
      StripClean(s[n..], DepthAfter(s, d, inStr), StrAfter(s, inStr), u);
      Rejoin(s, n, Strip(u, false));
    }
  }

  lemma UnitSome(s: string, inStr: bool)
    ensures Unit(s, inStr) > 0
  {
  }

  lemma Rejoin(s: string, n: nat, v: string)
    requires n <= |s|
    ensures s[..n] + (s[n..] + v) == s + v
  {
    assert s == s[..n] + s[n..];
  }

  lemma DepthOne(t: string, inStr: bool)
    requires t != "" && Unit(t, inStr) <= |t|
    ensures var r := Depth(t[Unit(t, inStr)..], StrAfter(t, inStr));
            Depth(t, inStr) == (r.0 + DepthAfter(t, 0, inStr), r.1)
  {
  }

  lemma DepthUnit(s: string, d: nat, inStr: bool, u: string)
    requires Clean(s, d, inStr) && s != "" && Unit(s, inStr) <= |s|
    ensures var r := Depth(s[Unit(s, inStr)..] + u, StrAfter(s, inStr));
            Depth(s + u, inStr) == (r.0 + DepthAfter(s, d, inStr) - d, r.1)
  {
    hide Depth, Clean;
    CleanHead(s, d, inStr);
    UnitPrefix(s, inStr, u);
    DepthOne(s + u, inStr);
  }

  /** Clean text closes what it opens. */
  lemma {:induction false} DepthClean(s: string, d: nat, inStr: bool, u: string)
    requires Clean(s, d, inStr)
    ensures Depth(s + u, inStr) == (Depth(u, false).0 - d, Depth(u, false).1)
    decreases |s|
  {
    if s == "" {
      assert s + u == u;
    } else {
      hide Clean, Depth;
      CleanStep(s, d, inStr);
      DepthUnit(s, d, inStr, u);
      DepthClean(s[Unit(s, inStr)..], DepthAfter(s, d, inStr), StrAfter(s, inStr), u);
    }
  }

  lemma CharUnit(s: string)
    requires |s| >= 3 && s[0] == '#' && s[1] == '\\' && CharStands(s)
    ensures InStrAfter(s, false) == InStrAfter(s[3..], false)
    ensures InlineColon(s, false) == Shift(3, InlineColon(s[3..], false))
  {
    assert s[1..][0] == '\\' && s[1..][1..] == s[2..] && s[2..][0] == s[2] && s[2..][1..] == s[3..];
    assert InStrAfter(s[2..], false) == InStrAfter(s[3..], false);
    assert InStrAfter(s[1..], false) == InStrAfter(s[2..], false);
    assert InlineColon(s[2..], false) == Shift(1, InlineColon(s[3..], false));
    assert InlineColon(s[1..], false) == Shift(1, InlineColon(s[2..], false));
  }

  /** Clean text ends outside a string, has no inline colon, and ends in neither a blank nor a colon. */
  lemma {:induction false} ColonClean(s: string, d: nat, inStr: bool)
    requires Clean(s, d, inStr)
    ensures !InStrAfter(s, inStr) && InlineColon(s, inStr).None?
    ensures s != "" ==> Last(s) != ':' && !P.IsSpace(Last(s))
    decreases |s|
  {
    if s != "" {
      var n := Unit(s, inStr);
      CleanStep(s, d, inStr);
      ColonClean(s[n..], DepthAfter(s, d, inStr), StrAfter(s, inStr));
      assert s[n..] != "" ==> Last(s) == Last(s[n..]);
      if n == 3 {
        CharUnit(s);
      }
    }
  }

  // ---- printed text is clean ----

  lemma {:induction false} CleanSym(t: string, rest: string, d: nat)
    requires SymChars(t) && Clean(rest, d, false)
    ensures Clean(t + rest, d, false)
  {
    if t == "" {
      assert t + rest == rest;
    } else {
      CleanSym(t[1..], rest, d);
      var s := t + rest;
      assert s[0] == t[0] && s[1..] == t[1..] + rest;
      if |t| >= 2 {
        assert s[1] == t[1] && SymChars(t[1..]) && t[1..][0] == t[1];
      }
    }
  }

  lemma CleanChar(t: string, rest: string, d: nat)
    requires CharOk(t) && Clean(rest, d, false)
    ensures Clean(t + rest, d, false)
  {
    var s := t + rest;
    assert s[..3] == t && s[3..] == rest;
  }

  lemma {:induction false} CleanBody(b: string, rest: string, d: nat)
    requires StrBody(b) && '\n' !in b && Clean(rest, d, false)
    ensures Clean(b + "\"" + rest, d, true)
    decreases |b|
  {
    var s := b + "\"" + rest;
    if b == "" {
      assert s[0] == '"' && s[1..] == rest;
    } else if b[0] == '\\' {
      CleanBody(b[2..], rest, d);
      assert b[1] in b;
      assert s[0] == b[0] && s[1] == b[1] && s[2..] == b[2..] + "\"" + rest;
    } else {
      CleanBody(b[1..], rest, d);
      assert b[0] in b;
      assert s[0] == b[0] && s[1..] == b[1..] + "\"" + rest;
    }
  }

  lemma {:induction false} EscapedNoFeed(b: string)
    ensures '\n' !in P.Escaped(b)
  {
    if b != "" {
      EscapedNoFeed(b[1..]);
    }
  }

  lemma CleanStr(t: string, rest: string, d: nat)
    requires StrOk(t) && Clean(rest, d, false)
    ensures Clean(P.Tok(t) + rest, d, false)
  {
    hide StrOk, P.Tok, Clean, P.Escaped;
    StrInside(t);
    var b := P.Escaped(t[1..|t| - 1]);
    TokStr(t);
    EscapedBody(t[1..|t| - 1]);
    EscapedNoFeed(t[1..|t| - 1]);
    CleanBody(b, rest, d);
    CleanQuote(b + "\"" + rest, d);
    assert P.Tok(t) + rest == "\"" + (b + "\"" + rest);
  }

  lemma StrInside(t: string)
    requires StrOk(t)
    ensures |t| >= 2 && StrBody(t[1..|t| - 1])
  {
  }

  lemma CleanQuote(s: string, d: nat)
    requires Clean(s, d, true)
    ensures Clean("\"" + s, d, false)
  {
    assert ("\"" + s)[1..] == s;
  }

  lemma CleanAtom(t: string, rest: string, d: nat)
    requires AtomOk(t) && Clean(rest, d, false)
    ensures Clean(P.Tok(t) + rest, d, false)
  {
    hide Clean, StrBody;
    if StrOk(t) {
      CleanStr(t, rest, d);
    } else if CharOk(t) {
      CleanChar(t, rest, d);
    } else {
      SymCharsText(t);
      SymHead(t, "");
      CleanSym(t, rest, d);
    }
  }

  lemma CleanPunct(c: char, rest: string, d: nat, d': nat)
    requires c in "()'" && Clean(rest, d', false) && d' == d + Nesting(c)
    ensures Clean([c] + rest, d, false)
  {
    assert ([c] + rest)[1..] == rest;
  }

  lemma CleanSpace(rest: string, d: nat)
    requires rest != "" && Clean(rest, d, false)
    ensures Clean(" " + rest, d, false)
  {
    assert (" " + rest)[1..] == rest;
  }

  lemma CleanParens(inner: string, rest: string, d: nat)
    requires Clean(inner + (")" + rest), d + 1, false)
    ensures Clean("(" + inner + ")" + rest, d, false)
  {
    hide Clean;
    CleanPunct('(', inner + (")" + rest), d, d + 1);
    assert "(" + inner + ")" + rest == ['('] + (inner + (")" + rest));
  }

  lemma CleanNil(rest: string, d: nat)
    requires Clean(")" + rest, d + 1, false)
    ensures Clean("()" + rest, d, false)
  {
    hide Clean;
    assert "" + (")" + rest) == ")" + rest;
    CleanParens("", rest, d);
    assert "(" + "" + ")" + rest == "()" + rest;
  }

  lemma CleanTick(f: Form, rest: string, d: nat)
    requires P.IsQuote(f) && Clean(P.Expr(f.kids[1]) + rest, d, false)
    ensures Clean(P.Expr(f) + rest, d, false)
  {
    hide Clean;
    CleanPunct('\'', P.Expr(f.kids[1]) + rest, d, d);
    assert P.Expr(f) + rest == ['\''] + (P.Expr(f.kids[1]) + rest);
  }

  lemma {:induction false} CleanExpr(f: Form, rest: string, d: nat)
    requires AtomsOk(f) && Boundary(rest) && Clean(rest, d, false)
    ensures Clean(P.Expr(f) + rest, d, false)
    decreases f, 0
  {
    hide Clean, P.Joined;
    match f
    case Atom(t) => CleanAtom(t, rest, d);
    case List(kids) =>
      CleanPunct(')', rest, d + 1, d);
      if kids == [] {
        CleanNil(rest, d);
      } else if P.IsQuote(f) {
        CleanExpr(kids[1], rest, d);
        CleanTick(f, rest, d);
      } else {
        CleanJoined(f, |kids|, ")" + rest, d + 1);
        CleanParens(P.Joined(f, |kids|), rest, d);
      }
  }

  lemma {:induction false} CleanJoined(f: Form, hi: nat, rest: string, d: nat)
    requires f.List? && 1 <= hi <= |f.kids| && FirstOk(f, hi) && Boundary(rest) && Clean(rest, d, false)
    ensures Clean(P.Joined(f, hi) + rest, d, false)
    decreases f, 0, hi
  {
    hide Clean, P.Expr;
    var k := hi - 1;
    if hi == 1 {
      if P.Named(f.kids[0], "=") {
        SetfOk();
        CleanAtom("setf", rest, d);
      } else {
        CleanExpr(f.kids[0], rest, d);
      }
    } else {
      hide P.Joined;
      CleanExpr(f.kids[k], rest, d);
      AtomsLegible(f.kids[k]);
      ReadExpr(f.kids[k], rest);
      CleanSpace(P.Expr(f.kids[k]) + rest, d);
      assert " " + P.Expr(f.kids[k]) + rest == " " + (P.Expr(f.kids[k]) + rest);
      CleanJoined(f, k, " " + P.Expr(f.kids[k]) + rest, d);
      JoinedStep(f, hi, rest);
    }
  }

  // ---- printed lines are read as meant ----

  lemma {:induction false} ReadPrefix(s: string, term: string, out: seq<Form>)
    requires |term| <= 1
    ensures out <= ReadForms(s, term, out).0
    decreases |s|
  {
    hide ReadOne, ReadCalls;
    var t := SkipBlanks(s, term == "}");
    if t != "" && term != [t[0]] {
      var one := ReadOne(t);
      if one.0.Atom? && one.1 != "" && one.1[0] == '(' {
        var args := ReadForms(one.1[1..], ")", []);
        var segs := AttrSegments(one.0.text);
        if segs == [] && ((out != [] && Binder(Last(out))) || SelfBinder(one.0)) {
          ReadPrefix(args.1, term, out + [one.0, List(args.0)]);
        } else {
          var call := if segs != [] then List([AtomOf(Last(segs)), ReadChain(Front(segs))] + args.0)
              else List([one.0] + args.0);
          var more := ReadCalls(call, args.1);
          ReadPrefix(more.1, term, out + [more.0]);
        }
      } else {
        ReadPrefix(one.1, term, out + [one.0]);
      }
    }
  }

  /** Text that starts with a keyword is read with that keyword first. */
  lemma KeywordFirst(t: string, word: string)
    requires SymToken(word) && Legible(word) && StartsWith(t, word) && P.Canon(Atom(word)) == Atom(word)
    ensures var fs := ReadForms(t, "", []).0; fs != [] && fs[0] == Atom(word)
  {
    hide ReadOne, SymText;
    var rest := t[|word|..];
    assert t == word + rest && t[0] == word[0];
    ReadAtom(word, rest);
    SymHead(word, rest);
    assert rest == "" || IsBlank(rest[0]);
    assert ReadOne(t) == (Atom(word), rest);
    assert !IsBlank(t[0]) && SkipBlanks(t, false) == t;
    var none: seq<Form> := [];
    assert none + [Atom(word)] == [Atom(word)];
    assert ReadForms(t, "", none) == ReadForms(rest, "", [Atom(word)]);
    ReadPrefix(rest, "", [Atom(word)]);
  }

  lemma ElifOk()
    ensures SymChars("elif") && SymChars("if")
  {
    assert SymChars("");
    hide SymChars;
    LetterFirst('f', "");
    LetterFirst('i', "f");
    LetterFirst('l', "if");
    LetterFirst('e', "lif");
    assert ['f'] + "" == "f" && ['i'] + "f" == "if" && ['l'] + "if" == "lif" && ['e'] + "lif" == "elif";
  }

  lemma ElseOk()
    ensures SymChars("else")
  {
    assert SymChars("");
    hide SymChars;
    LetterFirst('e', "");
    LetterFirst('s', "e");
    LetterFirst('l', "se");
    LetterFirst('e', "lse");
    assert ['e'] + "" == "e" && ['s'] + "e" == "se" && ['l'] + "se" == "lse" && ['e'] + "lse" == "else";
  }

  lemma WordsOk()
    ensures SymOk("elif") && SymOk("else") && SymOk("if")
    ensures Keyword("elif") && Keyword("else") && Keyword("if")
    ensures P.Canon(Atom("if")) == Atom("if") && P.Canon(Atom("else")) == Atom("else")
  {
    hide SymChars, SymText;
    ElifOk();
    ElseOk();
    KeywordOk("elif");
    KeywordOk("else");
    KeywordOk("if");
  }

  predicate Keyword(word: string) {
    SymToken(word) && Legible(word)
  }

  lemma KeywordOk(word: string)
    requires SymOk(word)
    ensures Keyword(word)
  {
    SymCharsText(word);
  }

  /** The forms that a piece's text holds. */
  function Forms(p: P.Piece): seq<Form>
    requires P.PieceOk(p)
  {
    match p
    case Whole(f) => [P.Canon(f)]
    case Call(h) => [List([P.CanonHead(h)])]
    case Header(f, hi) => P.Canons(f)[..hi]
    case Flat(f) => P.Canons(f)
    case If(c) => [Atom("if"), P.Canon(c)]
    case Elif(c) => [P.Canon(c)]
    case Else => []
  }

  predicate PieceTokens(p: P.Piece)
    requires P.PieceOk(p)
  {
    match p
    case Call(h) => Tokens(h)
    case Whole(f) => Tokens(f)
    case Header(f, hi) => FirstTokens(f, hi)
    case Flat(f) => Tokens(f)
    case If(c) => Tokens(c)
    case Elif(c) => Tokens(c)
    case Else => true
  }

  predicate PieceLegible(p: P.Piece)
    requires P.PieceOk(p)
  {
    match p
    case Call(h) => Legibles(h)
    case Whole(f) => Legibles(f)
    case Header(f, hi) => FirstLegible(f, hi)
    case Flat(f) => Legibles(f)
    case If(c) => Legibles(c)
    case Elif(c) => Legibles(c)
    case Else => true
  }

  predicate PieceAtomsOk(p: P.Piece)
    requires P.PieceOk(p)
  {
    match p
    case Call(h) => AtomsOk(h)
    case Whole(f) => AtomsOk(f)
    case Header(f, hi) => FirstOk(f, hi)
    case Flat(f) => AtomsOk(f)
    case If(c) => AtomsOk(c)
    case Elif(c) => AtomsOk(c)
    case Else => true
  }

  /** No head that lines treat specially, no `=` second, no bare `fn()`, no lone list or string. */
  predicate HeadsRight(p: P.Piece) {
    && P.PieceOk(p)
    && match p
       case Whole(f) => f.Atom? || f.kids == [] || P.IsQuote(f)
       case Call(h) => P.IsSym(h) && h.text !in ["fn", "lambda", "macro"]
       case Header(f, hi) => !P.Named(f.kids[0], "macro") && !P.Named(f.kids[0], "elif")
                             && (if hi == 1 then P.IsSym(f.kids[0]) && f.kids[0].text != "else"
                               else hi == 2 || !P.Named(f.kids[1], "="))
       case Flat(f) => |f.kids| >= 2 && !P.Named(f.kids[0], "macro") && (|f.kids| == 2 || !P.Named(f.kids[1], "="))
       case _ => true
  }

  lemma CallKept(h: Form)
    requires P.IsSym(h) && h.text != "macro"
    ensures P.CanonHead(h) != Atom("macro")
  {
  }

  lemma WholeKept(f: Form)
    requires f.Atom? || f.kids == [] || P.IsQuote(f)
    ensures Remap(P.Canon(f)) == P.Canon(f)
  {
    if f.List? && f.kids != [] {
      assert P.Canons(f)[0] == Atom("quote");
    }
  }

  function Body(p: P.Piece): string
    requires P.PieceOk(p)
  {
    P.Text(p) + if P.Opens(p) then ":" else ""
  }

  /** The scanners for colons find the block colon, if there is one, and no other. */
  predicate Scans(p: P.Piece)
    requires P.PieceOk(p)
  {
    if P.Opens(p) then OpensBlock(Body(p)) == (P.Text(p), true)
    else OpensBlock(Body(p)) == (P.Text(p), false) && InlineColon(P.Text(p), false).None?
  }

  /** A piece of atoms that survive wherever they stand, with a head that survives. */
  predicate PieceReads(p: P.Piece) {
    HeadsRight(p) && PieceAtomsOk(p)
  }

  lemma PieceReadsLegible(p: P.Piece)
    requires PieceReads(p)
    ensures PieceLegible(p)
  {
    match p
    case Call(h) => AtomsLegible(h);
    case Whole(f) => AtomsLegible(f);
    case Header(f, hi) =>
      forall i | 0 <= i < hi ensures Legibles(f.kids[i]) {
        AtomsLegible(f.kids[i]);
      }
    case Flat(f) => AtomsLegible(f);
    case If(c) => AtomsLegible(c);
    case Elif(c) => AtomsLegible(c);
    case Else =>
  }

  /** Reading a printed atom gives no attribute syntax to expand. */
  lemma {:induction false} DesugarCanon(f: Form)
    requires Legibles(f)
    ensures Desugar(P.Canon(f)) == P.Canon(f)
  {
    match f
    case Atom(t) => ReadAtom(t, "");
    case List(kids) =>
      var cs := P.Canons(f);
      forall i | 0 <= i < |kids| ensures Desugar(cs[i]) == cs[i] {
        DesugarCanon(kids[i]);
        DesugarAtom("setf");
      }
      assert Desugar(List(cs)).kids == cs;
  }

  lemma DesugarAtom(t: string)
    requires AttrSegments(t) == []
    ensures Desugar(Atom(t)) == Atom(t)
  {
  }

  lemma ReadEnd(out: seq<Form>)
    ensures ReadForms("", "", out) == (out, "")
  {
  }

  /** `head()` is a call without arguments. */
  lemma ReadCall(h: Form)
    requires HeadsRight(P.Call(h)) && Legibles(h)
    ensures var t := P.HeadTok(h) + "()";
            ReadForms(t, "", []) == ([List([P.CanonHead(h)])], "") && !IsBlank(t[0])
  {
    hide ReadOne, SymText, StrBody;
    SetfOk();
    var name := if P.Named(h, "=") then "setf" else h.text;
    ReadAtom(name, "()");
    var head := P.CanonHead(h);
    assert P.HeadTok(h) == P.Tok(name) && head == P.Canon(Atom(name));
    var t := P.Tok(name) + "()";
    assert !IsBlank(t[0]) && SkipBlanks(t, false) == t;
    assert ReadOne(t) == (head, "()");
    assert "()"[1..] == ")";
    ReadClose("", []);
    assert ")" + "" == ")";
    var none: seq<Form> := [];
    assert ReadForms(")", ")", none) == (none, "");
    var call := List([head]);
    assert [head] + none == [head];
    assert ReadCalls(call, "") == (call, "");
    assert none + [call] == [call];
    assert !SelfBinder(head);
    assert ReadForms(t, "", none) == ReadForms("", "", [call]);
    ReadEnd([call]);
  }

  lemma ReadIf(c: Form)
    requires Legibles(c)
    ensures ReadForms("if " + P.Expr(c), "", []) == ([Atom("if"), P.Canon(c)], "")
  {
    hide ReadOne, ReadForms, SymText, Legibles, P.Expr, P.Canon;
    var e, none: seq<Form> := P.Expr(c), [];
    ReadExpr(c, "");
    WordsOk();
    SymHead("if", "");
    ReadAtom("if", " " + e);
    ReadNext("if", Atom("if"), " " + e, "", none);
    ReadNext(e, P.Canon(c), "", "", none + [Atom("if")]);
    assert "if" + (" " + e) == "if " + e && " " + e + "" == " " + e;
    assert none + [Atom("if")] + [P.Canon(c)] == [Atom("if"), P.Canon(c)];
    ReadEnd([Atom("if"), P.Canon(c)]);
  }

  lemma ReadWhole(f: Form)
    requires Legibles(f)
    ensures ReadForms(P.Expr(f), "", []) == ([P.Canon(f)], "") && P.Expr(f) != "" && !IsBlank(P.Expr(f)[0])
  {
    hide ReadOne, ReadForms, Legibles, P.Expr, P.Canon;
    ReadExpr(f, "");
    var none: seq<Form> := [];
    ReadNext(P.Expr(f), P.Canon(f), "", "", none);
    assert P.Expr(f) + "" == P.Expr(f) && none + [P.Canon(f)] == [P.Canon(f)];
    ReadEnd([P.Canon(f)]);
  }

  lemma ReadElements(f: Form, hi: nat)
    requires f.List? && 1 <= hi <= |f.kids| && FirstLegible(f, hi)
    ensures ReadForms(P.Joined(f, hi), "", []) == (P.Canons(f)[..hi], "")
  {
    hide ReadOne, ReadForms, Legibles, P.Joined, P.Canon;
    ReadJoined(f, hi, "", "", []);
    var none: seq<Form> := [];
    assert P.Joined(f, hi) + "" == P.Joined(f, hi) && none + P.Canons(f)[..hi] == P.Canons(f)[..hi];
    ReadEnd(P.Canons(f)[..hi]);
  }

  /** A piece's text holds its forms. */
  lemma TextForms(p: P.Piece)
    requires HeadsRight(p) && PieceLegible(p) && !p.Elif? && !p.Else?
    ensures ReadForms(P.Text(p), "", []) == (Forms(p), "")
  {
    hide ReadForms;
    match p
    case Whole(f) => ReadWhole(f);
    case Call(h) => ReadCall(h);
    case Header(f, hi) => ReadElements(f, hi);
    case Flat(f) => ReadElements(f, |f.kids|); assert P.Canons(f)[..|f.kids|] == P.Canons(f);
    case If(c) => ReadIf(c);
  }

  lemma DesugarSome(f: Form, hi: nat)
    requires f.List? && hi <= |f.kids| && FirstLegible(f, hi)
    ensures Desugar(List(P.Canons(f)[..hi])) == List(P.Canons(f)[..hi])
    ensures hi >= 1 ==> Desugar(P.CanonHead(f.kids[0])) == P.CanonHead(f.kids[0])
  {
    hide Legibles;
    var cs := P.Canons(f)[..hi];
    forall i | 0 <= i < hi ensures Desugar(cs[i]) == cs[i] {
      DesugarCanon(f.kids[i]);
      DesugarAtom("setf");
    }
    assert Desugar(List(cs)).kids == cs;
    assert hi >= 1 ==> cs[0] == P.CanonHead(f.kids[0]);
  }

  lemma NotInfix(f: Form, hi: nat)
    requires f.List? && 1 <= hi <= |f.kids| && (hi >= 3 ==> !P.Named(f.kids[1], "="))
    ensures !Infix(P.Canons(f)[..hi])
  {
    if hi >= 3 && f.kids[1].Atom? && P.IsStr(f.kids[1].text) {
      assert P.Escaped(f.kids[1].text)[0] == '"';
    }
  }

  /** The node of a piece's forms is what the printer means. */
  lemma NodeForms(p: P.Piece)
    requires HeadsRight(p) && PieceLegible(p) && !p.Else?
    ensures var w := Meant(p); NodeOf(Forms(p)) == if w.Elif? then w.cond else w.node
  {
    match p
    case Whole(f) => DesugarCanon(f);
    case Call(h) => DesugarCall(h);
    case Header(f, hi) => DesugarSome(f, hi); NotInfix(f, hi);
    case Flat(f) => DesugarCanon(f); NotInfix(f, |f.kids|); assert P.Canons(f)[..|f.kids|] == P.Canons(f);
    case If(c) => DesugarIf(c);
    case Elif(c) => DesugarCanon(c);
  }

  lemma DesugarCall(h: Form)
    requires HeadsRight(P.Call(h)) && Legibles(h)
    ensures Desugar(List([P.CanonHead(h)])) == List([P.CanonHead(h)])
  {
    DesugarAtom("setf");
    ReadAtom(h.text, "");
    assert Desugar(P.CanonHead(h)) == P.CanonHead(h);
    assert Desugar(List([P.CanonHead(h)])).kids == [P.CanonHead(h)];
  }

  lemma DesugarIf(c: Form)
    requires Legibles(c)
    ensures Desugar(List([Atom("if"), P.Canon(c)])) == List([Atom("if"), P.Canon(c)])
  {
    DesugarAtom("if");
    DesugarCanon(c);
    assert Desugar(List([Atom("if"), P.Canon(c)])).kids == [Atom("if"), P.Canon(c)];
  }

  lemma ColonOpens(t: string)
    requires Clean(t, 0, false) && t != ""
    ensures OpensBlock(t + ":") == (t, true)
  {
    ColonClean(t, 0, false);
    assert Front(t + ":") == t && Last(t + ":") == ':';
  }

  lemma NoColon(t: string)
    requires Clean(t, 0, false)
    ensures OpensBlock(t) == (t, false) && InlineColon(t, false).None?
  {
    ColonClean(t, 0, false);
  }

  lemma CleanEnd()
    ensures Clean("", 0, false)
  {
  }

  lemma CleanCall(h: Form)
    requires PieceReads(P.Call(h))
    ensures Clean(P.HeadTok(h) + "()", 0, false)
  {
    hide SymChars, StrBody;
    CleanEnd();
    assert ")" == [')'] + "" && "()" == ['('] + ")";
    CleanPunct(')', "", 1, 0);
    CleanPunct('(', ")", 0, 1);
    SetfOk();
    CleanAtom(if P.Named(h, "=") then "setf" else h.text, "()", 0);
  }

  lemma CleanWord(word: string, e: string)
    requires SymOk(word) && Clean(e, 0, false) && e != ""
    ensures Clean(word + " " + e, 0, false)
  {
    hide Clean;
    CleanSpace(e, 0);
    CleanSym(word, " " + e, 0);
    assert word + " " + e == word + (" " + e);
  }

  lemma CleanWhole(f: Form)
    requires AtomsOk(f)
    ensures Clean(P.Expr(f), 0, false) && P.Expr(f) != "" && !IsBlank(P.Expr(f)[0])
  {
    hide Clean, AtomsOk, P.Expr;
    CleanEnd();
    CleanExpr(f, "", 0);
    AtomsLegible(f);
    ReadWhole(f);
    assert P.Expr(f) + "" == P.Expr(f);
  }

  lemma CleanElements(f: Form, hi: nat)
    requires f.List? && 1 <= hi <= |f.kids| && FirstOk(f, hi)
    ensures Clean(P.Joined(f, hi), 0, false)
  {
    hide Clean, AtomsOk, P.Joined;
    CleanEnd();
    CleanJoined(f, hi, "", 0);
    assert P.Joined(f, hi) + "" == P.Joined(f, hi);
  }

  lemma {:induction false} JoinedHead(f: Form, hi: nat)
    requires f.List? && 1 <= hi <= |f.kids| && FirstLegible(f, hi)
    ensures P.Joined(f, hi) != "" && !IsBlank(P.Joined(f, hi)[0])
  {
    if hi == 1 {
      HeadTokSome(f.kids[0]);
    } else {
      JoinedHead(f, hi - 1);
    }
  }

  lemma HeadTokSome(h: Form)
    requires Legibles(h)
    ensures P.HeadTok(h) != "" && !IsBlank(P.HeadTok(h)[0])
  {
    if !P.Named(h, "=") {
      ReadWhole(h);
    }
  }

  /** A piece's text is clean and starts with no blank. */
  lemma TextClean(p: P.Piece)
    requires PieceReads(p)
    ensures Clean(P.Text(p), 0, false) && P.Text(p) != "" && !IsBlank(P.Text(p)[0])
  {
    hide Clean, P.Expr, P.Joined, SymChars;
    PieceReadsLegible(p);
    match p
    case Whole(f) => CleanWhole(f);
    case Call(h) => CleanCall(h); HeadTokSome(h);
    case Header(f, hi) => CleanElements(f, hi); JoinedHead(f, hi);
    case Flat(f) => CleanElements(f, |f.kids|); JoinedHead(f, |f.kids|);
    case If(c) => WordsOk(); CleanWhole(c); CleanWord("if", P.Expr(c));
        assert "if" + " " + P.Expr(c) == "if " + P.Expr(c);
    case Elif(c) => WordsOk(); CleanWhole(c); CleanWord("elif", P.Expr(c));
        assert "elif" + " " + P.Expr(c) == "elif " + P.Expr(c);
    case Else => WordsOk(); CleanEnd(); CleanSym("else", "", 0); assert "else" + "" == "else";
  }

  /** A line whose text is read as several forms is no `elif` or `else`. */
  lemma NotKeyword(t: string, fs: seq<Form>)
    requires ReadForms(t, "", []) == (fs, "") && fs != [] && fs[0] != Atom("elif") && fs != [Atom("else")]
    ensures t != "else" && !StartsWith(t, "elif")
  {
    WordsOk();
    if StartsWith(t, "elif") {
      KeywordFirst(t, "elif");
    }
    if t == "else" {
      ReadElse();
    }
  }

  lemma ReadElse()
    ensures ReadForms("else", "", []) == ([Atom("else")], "")
  {
    hide ReadOne, ReadForms;
    WordsOk();
    SymHead("else", "");
    ReadAtom("else", "");
    var none: seq<Form> := [];
    ReadNext("else", Atom("else"), "", "", none);
    assert "else" + "" == "else" && none + [Atom("else")] == [Atom("else")];
    ReadEnd([Atom("else")]);
  }

  lemma HeadNotWord(f: Form, word: string)
    requires f.List? && f.kids != [] && word != "" && word[0] != '"' && !P.Named(f.kids[0], word)
    requires word !in ["setf", "t", "nil"]
    ensures P.Canons(f)[0] != Atom(word)
  {
    if f.kids[0].Atom? && P.IsStr(f.kids[0].text) {
      assert P.Escaped(f.kids[0].text)[0] == '"';
    }
  }

  lemma NoKeyword(p: P.Piece)
    requires HeadsRight(p) && PieceLegible(p) && (p.Header? || p.If?)
    ensures P.Text(p) != "else" && !StartsWith(P.Text(p), "elif")
  {
    hide ReadForms, StartsWith, Legibles;
    TextForms(p);
    if p.Header? {
      HeadNotWord(p.form, "elif");
      if p.hi == 1 {
        HeadNotWord(p.form, "else");
      }
    }
    NotKeyword(P.Text(p), Forms(p));
  }

  /** Text of atoms that survive passes the scanners. */
  lemma CleanScans(p: P.Piece)
    requires PieceReads(p)
    ensures Scans(p)
  {
    hide Clean, P.Text, OpensBlock, PieceAtomsOk;
    TextClean(p);
    var t := P.Text(p);
    if P.Opens(p) {
      ColonOpens(t);
    } else {
      NoColon(t);
      assert t + "" == t;
    }
  }

  /** A printed line says what the printer means. */
  lemma ReadPiece(p: P.Piece)
    requires HeadsRight(p) && PieceLegible(p) && Scans(p)
    ensures ReadBody(Body(p)) == Meant(p)
  {
    hide ReadForms, P.Expr, P.Joined, StartsWith, OpensBlock, Legibles, NodeOf;
    if p.Elif? {
      ReadElif(p.cond);
    } else if !p.Else? {
      TextForms(p);
      NodeForms(p);
      if P.Opens(p) {
        NoKeyword(p);
      }
    }
  }

  lemma ReadElif(c: Form)
    requires Legibles(c)
    ensures StartsWith("elif " + P.Expr(c), "elif") && "elif " + P.Expr(c) != "else"
    ensures ReadLine(SkipBlanks(("elif " + P.Expr(c))[4..], false)) == P.Canon(c)
  {
    hide ReadForms, Legibles, P.Expr;
    var e := P.Expr(c);
    ReadWhole(c);
    DesugarCanon(c);
    assert ("elif " + e)[4..] == " " + e && (" " + e)[1..] == e;
    assert SkipBlanks(e, false) == e;
  }

  // ---- a whole line ----

  /** No scanner finds a comment, an open or stray bracket, an open string or a stray colon. */
  predicate Scanned(o: P.Out)
    requires P.PieceOk(o.piece)
  {
    var raw := P.Render(o);
    Strip(raw, false) == raw && Depth(raw, false) == (0, false) && Scans(o.piece)
  }

  /** The line is read as the printer means it: `AdderExact.LineExact`. */
  predicate LineReads(o: P.Out) {
    HeadsRight(o.piece) && PieceLegible(o.piece) && Scanned(o)
  }

  /** A piece's text starts with no blank. */
  lemma TextSome(p: P.Piece)
    requires HeadsRight(p) && PieceLegible(p)
    ensures P.Text(p) != "" && !IsBlank(P.Text(p)[0])
  {
    hide P.Expr, P.Joined;
    match p
    case Whole(f) => ReadWhole(f);
    case Call(h) => HeadTokSome(h);
    case Header(f, hi) => JoinedHead(f, hi);
    case Flat(f) => JoinedHead(f, |f.kids|);
    case _ =>
  }

  lemma {:induction false} SymNoFeed(t: string)
    requires SymText(t)
    ensures OneLine(t)
  {
    if t != "" {
      SymNoFeed(t[1..]);
      assert t == [t[0]] + t[1..];
    }
  }

  lemma TokNoFeed(t: string)
    requires Token(t)
    ensures OneLine(P.Tok(t))
  {
    if StrOk(t) {
      EscapedNoFeed(t);
    } else if SymToken(t) {
      SymNoFeed(t);
    }
  }

  /** No token that the printer writes holds a line feed. */
  lemma {:induction false} ExprNoFeed(f: Form)
    requires Tokens(f)
    ensures OneLine(P.Expr(f))
    decreases f, 0
  {
    match f
    case Atom(t) => TokNoFeed(t);
    case List(kids) =>
      if P.IsQuote(f) {
        ExprNoFeed(kids[1]);
      } else if kids != [] {
        JoinedNoFeed(f, |kids|);
      }
  }

  lemma {:induction false} JoinedNoFeed(f: Form, hi: nat)
    requires f.List? && 1 <= hi <= |f.kids| && FirstTokens(f, hi)
    ensures OneLine(P.Joined(f, hi))
    decreases f, 0, hi
  {
    ExprNoFeed(f.kids[hi - 1]);
    if hi > 1 {
      JoinedNoFeed(f, hi - 1);
    }
  }

  lemma {:induction false} LegibleTokens(f: Form)
    requires Legibles(f)
    ensures Tokens(f)
  {
    if f.List? {
      forall i | 0 <= i < |f.kids| ensures Tokens(f.kids[i]) {
        LegibleTokens(f.kids[i]);
      }
    }
  }

  lemma TextNoFeed(p: P.Piece)
    requires P.PieceOk(p) && PieceTokens(p)
    ensures OneLine(P.Text(p))
  {
    hide P.Expr, P.Joined;
    match p
    case Whole(f) => ExprNoFeed(f);
    case Call(h) => ExprNoFeed(h);
    case Header(f, hi) => JoinedNoFeed(f, hi);
    case Flat(f) => JoinedNoFeed(f, |f.kids|);
    case If(c) => ExprNoFeed(c);
    case Elif(c) => ExprNoFeed(c);
    case Else =>
  }

  lemma PieceLegibleTokens(p: P.Piece)
    requires P.PieceOk(p) && PieceLegible(p)
    ensures PieceTokens(p)
  {
    match p
    case Call(h) => LegibleTokens(h);
    case Whole(f) => LegibleTokens(f);
    case Header(f, hi) =>
      forall i | 0 <= i < hi ensures Tokens(f.kids[i]) {
        LegibleTokens(f.kids[i]);
      }
    case Flat(f) => LegibleTokens(f);
    case If(c) => LegibleTokens(c);
    case Elif(c) => LegibleTokens(c);
    case Else =>
  }

  /** The text ends in nothing that a scanner trims. */
  predicate Solid(s: string) {
    s != "" && Last(s) !in " \t\r"
  }

  lemma {:induction false} SymSolid(t: string)
    requires SymText(t) && t != ""
    ensures Solid(t)
  {
    if |t| > 1 {
      SymSolid(t[1..]);
      assert Last(t) == Last(t[1..]);
    }
  }

  lemma TokSolid(t: string)
    requires Token(t)
    ensures Solid(P.Tok(t))
  {
    if StrOk(t) {
      TokStr(t);
    } else if SymToken(t) {
      SymSolid(t);
    }
  }

  lemma {:induction false} ExprSolid(f: Form)
    requires Tokens(f)
    ensures Solid(P.Expr(f))
  {
    match f
    case Atom(t) => TokSolid(t);
    case List(kids) =>
      if P.IsQuote(f) {
        ExprSolid(kids[1]);
        assert Last(P.Expr(f)) == Last(P.Expr(kids[1]));
      }
  }

  lemma JoinedSolid(f: Form, hi: nat)
    requires f.List? && 1 <= hi <= |f.kids| && FirstTokens(f, hi)
    ensures Solid(P.Joined(f, hi))
  {
    ExprSolid(f.kids[hi - 1]);
    assert hi > 1 ==> Last(P.Joined(f, hi)) == Last(P.Expr(f.kids[hi - 1]));
  }

  lemma BodySolid(p: P.Piece)
    requires P.PieceOk(p) && PieceTokens(p)
    ensures Solid(Body(p)) && Solid(P.Text(p)) && TrimRight(Body(p), true) == Body(p)
  {
    hide P.Expr, P.Joined;
    match p
    case Whole(f) => ExprSolid(f);
    case Call(h) =>
    case Header(f, hi) => JoinedSolid(f, hi);
    case Flat(f) => JoinedSolid(f, |f.kids|);
    case If(c) => ExprSolid(c);
    case Elif(c) => ExprSolid(c);
    case Else =>
  }
}
