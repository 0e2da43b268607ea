/** The inline reader undoes the inline printer. */
module AdderInline {
  import opened AdderForms
  import opened AdderReader
  import P = AdderPrinter

  // ---- atoms ----

  /** The printer's own delimiters end its symbols. */
  predicate SymText(t: string) {
    t == "" || (t[0] !in " \t()\"'`,[]{};\n\r" && SymText(t[1..]))
  }

  predicate IsCharLit(t: string) {
    |t| == 3 && t[0] == '#' && t[1] == '\\'
  }

  /** The inside of a string literal, escapes in pairs. */
  predicate StrBody(b: string) {
    b == "" || (b[0] == '\\' && |b| >= 2 && StrBody(b[2..])) || (b[0] != '\\' && b[0] != '"' && StrBody(b[1..]))
  }

  predicate StrOk(t: string) {
    |t| >= 2 && t[0] == '"' && t[|t| - 1] == '"' && StrBody(t[1..|t| - 1])
  }

  predicate SymToken(t: string) {
    t != "" && SymText(t) && !(|t| >= 2 && t[0] == '#' && t[1] == '\\')
  }

  /** An atom as the printer's reader makes it: a symbol, a character literal but not of white space, a string. */
  predicate Token(t: string) {
    SymToken(t) || (IsCharLit(t) && !P.IsSpace(t[2])) || StrOk(t)
  }

  /** A token that the inline reader takes as it is. */
  predicate Legible(t: string) {
    Token(t) && AttrSegments(t) == []
  }

  predicate Tokens(f: Form) {
    match f
    case Atom(t) => Token(t)
    case List(kids) => forall i | 0 <= i < |kids| :: Tokens(kids[i])
  }

  predicate Legibles(f: Form) {
    match f
    case Atom(t) => Legible(t)
    case List(kids) => forall i | 0 <= i < |kids| :: Legibles(kids[i])
  }

  predicate FirstTokens(f: Form, hi: nat)
    requires f.List? && hi <= |f.kids|
  {
    forall i | 0 <= i < hi :: Tokens(f.kids[i])
  }

  predicate FirstLegible(f: Form, hi: nat)
    requires f.List? && hi <= |f.kids|
  {
    forall i | 0 <= i < hi :: Legibles(f.kids[i])
  }

  // ---- atoms that survive wherever they stand ----

  /** A symbol's characters: none delimits, no `#` could start a comment or a character literal, and no
      colon ends the symbol. */
  predicate SymChars(t: string) {
    t == ""
    || (!IsDelim(t[0]) && t[0] != ';' && !P.IsSpace(t[0])
        && (t[0] == '#' ==> |t| >= 2 && t[1] != '!' && t[1] != '\\')
        && (t[0] == ':' ==> |t| >= 2)
        && SymChars(t[1..]))
  }

  predicate SymOk(t: string) {
    t != "" && SymChars(t) && !IsAttr(t)
  }

  /** A character literal; not of a blank, a quote or a colon. */
  predicate CharOk(t: string) {
    IsCharLit(t) && t[2] != '"' && t[2] != ':' && !P.IsSpace(t[2])
  }

  predicate AtomOk(t: string) {
    SymOk(t) || CharOk(t) || StrOk(t)
  }

  predicate AtomsOk(f: Form) {
    match f
    case Atom(t) => AtomOk(t)
    case List(kids) => forall i | 0 <= i < |kids| :: AtomsOk(kids[i])
  }

  predicate FirstOk(f: Form, hi: nat)
    requires f.List? && hi <= |f.kids|
  {
    forall i | 0 <= i < hi :: AtomsOk(f.kids[i])
  }

  lemma {:induction false} SymCharsText(t: string)
    requires SymChars(t)
    ensures SymText(t)
  {
    if t != "" {
      SymCharsText(t[1..]);
    }
  }

  lemma AtomLegible(t: string)
    requires AtomOk(t)
    ensures Legible(t)
  {
    if SymOk(t) {
      SymCharsText(t);
    }
  }

  lemma {:induction false} AtomsLegible(f: Form)
    requires AtomsOk(f)
    ensures Legibles(f)
  {
    match f
    case Atom(t) => AtomLegible(t);
    case List(kids) =>
      forall i | 0 <= i < |kids| ensures Legibles(kids[i]) {
        AtomsLegible(kids[i]);
      }
  }

  /** Text that may follow a printed form. */
  predicate Boundary(rest: string) {
    rest == "" || rest[0] == ' ' || rest[0] == ')'
  }

  // ---- tokens ----

  lemma {:induction false} TokEndSym(t: string, rest: string)
    requires SymText(t) && (rest == "" || IsDelim(rest[0]))
    ensures TokEnd(t + rest) == |t|
  {
    if t == "" {
      assert t + rest == rest;
    } else {
      TokEndSym(t[1..], rest);
      assert (t + rest)[1..] == t[1..] + rest;
    }
  }

  lemma PairBody(x: char, r: string)
    requires StrBody(r)
    ensures StrBody(['\\', x] + r)
  {
    assert (['\\', x] + r)[2..] == r;
  }

  lemma PlainBody(x: char, r: string)
    requires StrBody(r) && x != '\\' && x != '"'
    ensures StrBody([x] + r)
  {
    assert ([x] + r)[1..] == r;
  }

  lemma EscapedFirst(b: string)
    requires b != ""
    ensures P.Escaped(b) == P.Escape(b[0]) + P.Escaped(b[1..])
  {
  }

  lemma EscapeBody(c: char, r: string)
    requires StrBody(r) && c != '\\' && c != '"'
    ensures StrBody(P.Escape(c) + r)
  {
    hide StrBody;
    if c == '\n' || c == '\r' {
      PairBody(P.Escape(c)[1], r);
    } else {
      PlainBody(c, r);
    }
  }

  lemma EscapePair(c: char, r: string)
    requires StrBody(r)
    ensures StrBody(['\\'] + (P.Escape(c) + r))
  {
    hide StrBody;
    var x := P.Escape(c);
    if |x| == 1 {
      PairBody(c, r);
      assert ['\\'] + (x + r) == ['\\', c] + r;
    } else {
      PlainBody(x[1], r);
      PairBody('\\', [x[1]] + r);
      assert ['\\'] + (x + r) == ['\\', '\\'] + ([x[1]] + r);
    }
  }

  lemma {:induction false} EscapedBody(b: string)
    requires StrBody(b)
    ensures StrBody(P.Escaped(b))
    decreases |b|
  {
    hide P.Escaped, P.Escape;
    if b == "" {
      EscapedNone();
    } else if b[0] == '\\' {
      EscapedBody(b[2..]);
      EscapedFirst(b);
      EscapedFirst(b[1..]);
      assert b[1..][1..] == b[2..];
      EscapeBackslash();
      EscapePair(b[1], P.Escaped(b[2..]));
    } else {
      EscapedBody(b[1..]);
      EscapedFirst(b);
      EscapeBody(b[0], P.Escaped(b[1..]));
    }
  }

  lemma EscapedNone()
    ensures P.Escaped("") == ""
  {
  }

  lemma EscapeBackslash()
    ensures P.Escape('\\') == ['\\']
  {
  }

  lemma {:induction false} StrEndBody(b: string, rest: string)
    requires StrBody(b)
    ensures StrEnd(b + "\"" + rest) == |b| + 1
    decreases |b|
  {
    var s := b + "\"" + rest;
    if b == "" {
      assert s[0] == '"';
    } else if b[0] == '\\' {
      StrEndBody(b[2..], rest);
      assert s[2..] == b[2..] + "\"" + rest;
    } else {
      StrEndBody(b[1..], rest);
      assert s[1..] == b[1..] + "\"" + rest;
    }
  }

  lemma {:induction false} EscapedConcat(a: string, b: string)
    ensures P.Escaped(a + b) == P.Escaped(a) + P.Escaped(b)
  {
    hide P.Escaped, P.Escape;
    if a == "" {
      EscapedNone();
      assert a + b == b && "" + P.Escaped(b) == P.Escaped(b);
    } else {
      EscapedConcat(a[1..], b);
      EscapedFirst(a + b);
      EscapedFirst(a);
      assert (a + b)[0] == a[0] && (a + b)[1..] == a[1..] + b;
    }
  }

  /** Escaping keeps a literal a literal. */
  lemma TokStr(t: string)
    requires StrOk(t)
    ensures StrOk(P.Tok(t)) && P.Tok(t) == "\"" + P.Escaped(t[1..|t| - 1]) + "\"" && !IsAttr(P.Tok(t))
  {
    var b := t[1..|t| - 1];
    assert t == "\"" + (b + "\"");
    EscapedConcat(b, "\"");
    EscapedBody(b);
    assert P.Escaped("\"") == "\"" + P.Escaped("\""[1..]);
    var u := P.Tok(t);
    assert t[1..] == b + "\"";
    assert u == "\"" + (P.Escaped(b) + "\"");
    assert u[1..|u| - 1] == P.Escaped(b);
  }

  lemma SymHead(t: string, rest: string)
    requires SymToken(t) && (rest == "" || rest[0] in " \t()]},")
    ensures var s := t + rest;
            && P.Tok(t) == t && s != "" && !IsDelim(s[0]) && !(|s| >= 3 && s[0] == '#' && s[1] == '\\')
            && Opener(s) == 0 && !(|s| >= 3 && s[0] == '#' && s[1] == 'b' && s[2] == '"')
  {
    var s := t + rest;
    assert s[0] == t[0];
    if |t| >= 2 {
      assert s[1] == t[1] && SymText(t[1..]) && t[1..][0] == t[1];
      if |t| >= 3 {
        assert s[2] == t[2] && SymText(t[1..][1..]) && t[1..][1..][0] == t[2];
      } else if rest != "" {
        assert s[2] == rest[0];
      }
    } else if rest != "" {
      assert s[1] == rest[0];
    }
  }

  lemma ReadStr(t: string, rest: string)
    requires StrOk(t)
    ensures P.Tok(t) != "" && P.Tok(t)[0] == '"' && ReadOne(P.Tok(t) + rest) == (Atom(P.Tok(t)), rest)
  {
    TokStr(t);
    var s, b := P.Tok(t) + rest, P.Escaped(t[1..|t| - 1]);
    EscapedBody(t[1..|t| - 1]);
    StrEndBody(b, rest);
    hide StrBody, P.Escaped, P.Tok, StrEnd, ReadForms;
    assert s[0] == '"' && s[1..] == b + "\"" + rest;
    assert s[..|b| + 2] == P.Tok(t) && s[|b| + 2..] == rest;
  }

  lemma ReadChar(t: string, rest: string)
    requires IsCharLit(t)
    ensures P.Tok(t) == t && ReadOne(t + rest) == (Atom(t), rest)
  {
    var s := t + rest;
    assert s[0] == '#' && s[1] == '\\' && s[..3] == t && s[3..] == rest;
  }

  lemma ReadSym(t: string, rest: string)
    requires SymToken(t) && (rest == "" || rest[0] in " \t()]},")
    ensures P.Tok(t) == t && ReadOne(t + rest) == (P.Canon(Atom(t)), rest)
  {
    var s := t + rest;
    SymHead(t, rest);
    TokEndSym(t, rest);
    assert s[..|t|] == t && s[|t|..] == rest;
  }

  /** A legible atom is read back from its own text. */
  lemma ReadAtom(t: string, rest: string)
    requires Legible(t) && (rest == "" || rest[0] in " \t()]},")
    ensures P.Tok(t) != "" && ReadOne(P.Tok(t) + rest) == (P.Canon(Atom(t)), rest)
    ensures !IsBlank(P.Tok(t)[0]) && P.Tok(t)[0] != ')' && AttrSegments(P.Canon(Atom(t)).text) == []
  {
    if StrOk(t) {
      ReadStr(t, rest);
      TokStr(t);
    } else if IsCharLit(t) {
      ReadChar(t, rest);
    } else {
      ReadSym(t, rest);
    }
  }

  // ---- forms ----

  /** `text` is read as `form`, whatever follows it. */
  ghost predicate Reads(text: string, form: Form, rest: string) {
    text != "" && !IsBlank(text[0]) && text[0] != ')' && ReadOne(text + rest) == (form, rest)
  }

  lemma ReadNext(text: string, form: Form, rest: string, term: string, out: seq<Form>)
    requires Reads(text, form, rest) && Boundary(rest) && (term == "" || term == ")")
    ensures ReadForms(text + rest, term, out) == ReadForms(rest, term, out + [form])
    ensures ReadForms(" " + text + rest, term, out) == ReadForms(rest, term, out + [form])
  {
    hide ReadOne;
    var s := text + rest;
    assert s[0] == text[0];
    assert SkipBlanks(s, false) == s;
    var b := " " + text + rest;
    assert b[0] == ' ' && b[1..] == s;
    assert SkipBlanks(b, false) == s;
  }

  /** A letter in front keeps a symbol a symbol. */
  lemma LetterFirst(c: char, t: string)
    requires 'a' <= c <= 'z' && SymChars(t)
    ensures SymChars([c] + t)
  {
    assert ([c] + t)[1..] == t;
  }

  lemma SetfOk()
    ensures AtomOk("setf") && Legible("setf") && P.Tok("setf") == "setf" && P.Canon(Atom("setf")) == Atom("setf")
  {
    assert SymChars("");
    hide SymChars;
    LetterFirst('f', "");
    LetterFirst('t', "f");
    LetterFirst('e', "tf");
    LetterFirst('s', "etf");
    assert ['f'] + "" == "f" && ['t'] + "f" == "tf" && ['e'] + "tf" == "etf" && ['s'] + "etf" == "setf";
    assert !IsAttr("setf");
    AtomLegible("setf");
  }

  lemma ReadHead(head: Form, rest: string)
    requires Legibles(head) && Boundary(rest)
    requires Reads(P.Expr(head), P.Canon(head), rest)
    ensures Reads(P.HeadTok(head), P.CanonHead(head), rest)
  {
    hide ReadOne, Legibles, P.Canon;
    if P.Named(head, "=") {
      SetfOk();
      ReadAtom("setf", rest);
    }
  }

  lemma {:induction false} ReadExpr(f: Form, rest: string)
    requires Legibles(f) && Boundary(rest)
    ensures Reads(P.Expr(f), P.Canon(f), rest)
    decreases f, 0
  {
    hide ReadOne, ReadForms;
    match f
    case Atom(t) => ReadAtom(t, rest);
    case List(kids) =>
      if kids == [] {
        ReadNil(rest);
        assert P.Canons(f) == [];
      } else if P.IsQuote(f) {
        ReadExpr(kids[1], rest);
        ReadQuote(f, rest);
      } else {
        ReadJoined(f, |kids|, ")" + rest, ")", []);
        assert [] + P.Canons(f)[..|kids|] == P.Canons(f);
        ReadParens(f, rest);
      }
  }

  lemma ReadNil(rest: string)
    ensures Reads("()", List([]), rest)
  {
    var s := "()" + rest;
    assert s[1..] == ")" + rest;
    assert (")" + rest)[1..] == rest;
  }

  lemma ReadTick(t: string)
    requires t != "" && !IsBlank(t[0])
    ensures ReadOne("'" + t) == (List([Atom("quote"), ReadOne(t).0]), ReadOne(t).1)
  {
    assert ("'" + t)[1..] == t && SkipBlanks(t, false) == t;
  }

  lemma ReadQuote(f: Form, rest: string)
    requires P.IsQuote(f) && Reads(P.Expr(f.kids[1]), P.Canon(f.kids[1]), rest)
    ensures Reads(P.Expr(f), P.Canon(f), rest)
  {
    hide ReadOne;
    var t := P.Expr(f.kids[1]);
    ReadTick(t + rest);
    assert P.Expr(f) + rest == "'" + (t + rest);
    assert P.Canons(f) == [Atom("quote"), P.Canon(f.kids[1])];
  }

  lemma ReadClose(rest: string, out: seq<Form>)
    ensures ReadForms(")" + rest, ")", out) == (out, rest)
  {
    assert (")" + rest)[1..] == rest;
    assert SkipBlanks(")" + rest, false) == ")" + rest;
  }

  lemma ReadOpen(inner: string)
    ensures ReadOne("(" + inner) == (List(ReadForms(inner, ")", []).0), ReadForms(inner, ")", []).1)
  {
    hide ReadForms;
    assert ("(" + inner)[1..] == inner;
  }

  lemma ReadParens(f: Form, rest: string)
    requires f.List? && f.kids != [] && !P.IsQuote(f)
    requires ReadForms(P.Joined(f, |f.kids|) + (")" + rest), ")", []) == ReadForms(")" + rest, ")", P.Canons(f))
    ensures Reads(P.Expr(f), P.Canon(f), rest)
  {
    hide ReadForms, ReadOne, P.Joined;
    var inner := P.Joined(f, |f.kids|) + (")" + rest);
    assert P.Expr(f) + rest == "(" + inner;
    ReadOpen(inner);
    ReadClose(rest, P.Canons(f));
  }

  lemma JoinedStep(f: Form, hi: nat, rest: string)
    requires f.List? && 1 < hi <= |f.kids|
    ensures P.Joined(f, hi) + rest == P.Joined(f, hi - 1) + (" " + P.Expr(f.kids[hi - 1]) + rest)
  {
    hide P.Expr;
    var j, t := P.Joined(f, hi - 1), P.Expr(f.kids[hi - 1]);
    assert P.Joined(f, hi) == j + " " + t;
  }

  /** The first elements of a call form are read one after the other. */
  lemma {:induction false} ReadJoined(f: Form, hi: nat, rest: string, term: string, out: seq<Form>)
    requires f.List? && 1 <= hi <= |f.kids| && FirstLegible(f, hi) && Boundary(rest) && (term == "" || term == ")")
    ensures ReadForms(P.Joined(f, hi) + rest, term, out) == ReadForms(rest, term, out + P.Canons(f)[..hi])
    decreases f, 0, hi
  {
    hide ReadOne, ReadForms, P.Expr, Reads, P.Canon;
    var k := hi - 1;
    ReadExpr(f.kids[k], rest);
    if hi == 1 {
      ReadHead(f.kids[0], rest);
      ReadNext(P.HeadTok(f.kids[0]), P.CanonHead(f.kids[0]), rest, term, out);
      assert P.Canons(f)[..1] == [P.CanonHead(f.kids[0])];
    } else {
      hide P.Joined;
      JoinedStep(f, hi, rest);
      ReadJoined(f, k, " " + P.Expr(f.kids[k]) + rest, term, out);
      ReadNext(P.Expr(f.kids[k]), P.Canon(f.kids[k]), rest, term, out + P.Canons(f)[..k]);
      assert out + P.Canons(f)[..k] + [P.Canon(f.kids[k])] == out + P.Canons(f)[..hi];
    }
  }
}
