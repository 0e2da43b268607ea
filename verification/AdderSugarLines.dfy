/** Lines in the surface syntax: the scanners let them through, and a file of them is the trees they are short for. */
module AdderSugarLines {
  import opened Wrappers
  import opened AdderForms
  import opened AdderBlocks
  import opened AdderCounts
  import opened AdderReader
  import opened AdderInline
  import opened AdderSource
  import opened AdderText
  import RoundTrip = AdderRoundTrip
  import S = AdderSugar
  import R = AdderSugarReads
  import P = AdderPrinter

  // ---- surface text that the scanners let through ----

  predicate FirmText(t: string) {
    SymChars(t) || CharOk(t) || (StrOk(t) && OneLine(t))
  }

  predicate FirmGap(gap: string) {
    forall c | c in gap :: c == ' ' || c == ','
  }

  /** Nothing in the term looks like a comment or a colon that ends a header. */
  predicate Firm(x: S.Term) {
    match x
    case Word(t) => FirmText(t)
    case Path(names) => SymChars(S.Dots(names))
    case Bytes(t) => OneLine(t)
    case Mark(_, y) => Firm(y)
    case Group(_, xs) => FirmAll(xs)
    case Call(h, args, more) => Firm(h) && FirmAll(args) && FirmGroups(more)
  }

  predicate FirmGroups(gs: S.Groups) {
    match gs
    case Done => true
    case Again(args, more) => FirmAll(args) && FirmGroups(more)
  }

  predicate FirmAll(xs: S.Terms) {
    match xs
    case Nil => true
    case Cons(x, gap, rest) => Firm(x) && FirmGap(gap) && FirmAll(rest)
    case Bind(name, params, gap, rest) => FirmText(name) && FirmAll(params) && FirmGap(gap) && FirmAll(rest)
  }

  /** No gap at the end. */
  predicate Tight(xs: S.Terms) {
    match xs
    case Nil => true
    case Cons(_, gap, rest) => if rest.Nil? then gap == "" else Tight(rest)
    case Bind(_, _, gap, rest) => if rest.Nil? then gap == "" else Tight(rest)
  }

  /** One character that no scanner cares about but for its bracket. */
  lemma CleanChar1(c: char, rest: string, d: nat, d': nat)
    requires c !in ";#:\"" && !P.IsSpace(c) && Clean(rest, d', false) && d' == d + Nesting(c)
    ensures Clean([c] + rest, d, false)
  {
    assert ([c] + rest)[1..] == rest;
  }

  lemma CleanHash(rest: string, d: nat)
    requires rest != "" && rest[0] !in " \t!\\" && Clean(rest, d, false)
    ensures Clean("#" + rest, d, false)
  {
    assert ("#" + rest)[1..] == rest;
  }

  lemma CleanText(t: string, rest: string, d: nat)
    requires FirmText(t) && Clean(rest, d, false)
    ensures Clean(t + rest, d, false)
  {
    hide Clean, SymChars, StrBody, CharOk;
    if StrOk(t) && OneLine(t) {
      CleanString(t, rest, d);
    } else if CharOk(t) {
      CleanChar(t, rest, d);
    } else {
      CleanSym(t, rest, d);
    }
  }

  lemma CleanString(t: string, rest: string, d: nat)
    requires StrOk(t) && OneLine(t) && Clean(rest, d, false)
    ensures Clean(t + rest, d, false)
  {
    hide Clean, StrBody;
    var b := t[1..|t| - 1];
    CleanBody(b, rest, d);
    CleanQuote(b + "\"" + rest, d);
    assert t + rest == "\"" + (b + "\"" + rest);
  }

  lemma {:induction false} CleanGap(gap: string, rest: string, d: nat)
    requires FirmGap(gap) && Clean(rest, d, false) && (gap != "" ==> rest != "")
    ensures Clean(gap + rest, d, false)
  {
    hide Clean;
    if gap == "" {
      assert gap + rest == rest;
    } else {
      assert gap[0] in gap;
      assert forall c | c in gap[1..] :: c in gap;
      CleanGap(gap[1..], rest, d);
      var u := gap[1..] + rest;
      if gap[0] == ' ' {
        CleanSpace(u, d);
        assert " " + u == gap + rest;
      } else {
        CleanChar1(',', u, d, d);
        assert [','] + u == gap + rest;
      }
    }
  }

  lemma CleanOpen(b: S.Bracket, u: string, d: nat)
    requires Clean(u, d + 1, false)
    ensures Clean(S.OpenText(b) + u, d, false)
  {
    hide Clean;
    match b
    case Round => CleanChar1('(', u, d, d + 1);
    case Square => CleanChar1('[', u, d, d + 1);
    case Brace => CleanChar1('{', u, d, d + 1);
    case Vector => CleanNamed("", '[', u, d); assert "#" + "" + ['['] == S.OpenText(b);
    case HashSet => CleanNamed("", '{', u, d); assert "#" + "" + ['{'] == S.OpenText(b);
    case ListFor => CleanNamed("l", '[', u, d); assert "#" + "l" + ['['] == S.OpenText(b);
    case GenFor => CleanNamed("g", '[', u, d); assert "#" + "g" + ['['] == S.OpenText(b);
    case SetFor => CleanNamed("s", '{', u, d); assert "#" + "s" + ['{'] == S.OpenText(b);
    case DictFor => CleanNamed("d", '{', u, d); assert "#" + "d" + ['{'] == S.OpenText(b);
  }

  /** `#`, a letter or none, a bracket. */
  lemma CleanNamed(letter: string, c: char, u: string, d: nat)
    requires (letter == "" || letter in ["l", "g", "s", "d"]) && (c == '[' || c == '{') && Clean(u, d + 1, false)
    ensures Clean("#" + letter + [c] + u, d, false)
  {
    hide Clean;
    CleanChar1(c, u, d, d + 1);
    if letter == "" {
      CleanHash([c] + u, d);
      assert "#" + letter + [c] + u == "#" + ([c] + u);
    } else {
      CleanChar1(letter[0], [c] + u, d, d);
      CleanHash([letter[0]] + ([c] + u), d);
      assert "#" + letter + [c] + u == "#" + ([letter[0]] + ([c] + u));
    }
  }

  lemma CleanMark(m: S.Sign, u: string, d: nat)
    requires Clean(u, d, false)
    ensures Clean(S.SignText(m) + u, d, false)
  {
    hide Clean;
    match m
    case Quote => CleanChar1('\'', u, d, d);
    case Back => CleanChar1('`', u, d, d);
    case Comma => CleanChar1(',', u, d, d);
    case Splice =>
      CleanChar1('@', u, d, d);
      CleanChar1(',', ['@'] + u, d, d);
      assert S.SignText(m) + u == [','] + (['@'] + u);
  }

  lemma CleanBytes(t: string, rest: string, d: nat)
    requires StrOk(t) && OneLine(t) && Clean(rest, d, false)
    ensures Clean("#b" + t + rest, d, false)
  {
    hide Clean, StrBody;
    CleanString(t, rest, d);
    CleanChar1('b', t + rest, d, d);
    CleanHash(['b'] + (t + rest), d);
    assert "#b" + t + rest == "#" + (['b'] + (t + rest));
  }

  lemma {:induction false} CleanTerm(x: S.Term, rest: string, d: nat)
    requires S.Fine(x) && Firm(x) && Clean(rest, d, false)
    ensures Clean(S.Show(x) + rest, d, false)
    decreases x, 0
  {
    hide Clean, S.OpenText, S.SignText, Token, S.Attribute, SymChars, StrOk, OneLine, FirmText, S.Dots;
    match x
    case Word(t) => CleanText(t, rest, d);
    case Path(names) => CleanSym(S.Dots(names), rest, d);
    case Bytes(t) => CleanBytes(t, rest, d);
    case Mark(m, y) =>
      CleanTerm(y, rest, d);
      CleanMark(m, S.Show(y) + rest, d);
      R.MarkText(m, y, rest);
    case Group(b, xs) =>
      CleanChar1(S.CloseChar(b), rest, d + 1, d);
      CleanTerms(xs, S.CloseChar(b) == '}', false, [S.CloseChar(b)] + rest, d + 1);
      CleanOpen(b, S.ShowAll(xs) + ([S.CloseChar(b)] + rest), d);
      R.GroupText(b, xs, rest);
    case Call(h, args, more) =>
      var u := S.ShowGroups(more) + rest;
      CleanGroups(more, rest, d);
      CleanArgs(args, u, d);
      CleanTerm(h, "(" + R.ArgsText(args, u), d);
      R.CallText(x, rest);
  }

  lemma {:induction false} CleanArgs(args: S.Terms, u: string, d: nat)
    requires S.FineAll(args, false, false) && FirmAll(args) && Clean(u, d, false)
    ensures Clean("(" + R.ArgsText(args, u), d, false)
    decreases args, 1
  {
    hide Clean, S.ShowAll, S.FineAll, FirmAll, Tight;
    CleanChar1(')', u, d + 1, d);
    CleanTerms(args, false, false, ")" + u, d + 1);
    CleanChar1('(', S.ShowAll(args) + (")" + u), d, d + 1);
    assert ['('] + (S.ShowAll(args) + (")" + u)) == "(" + R.ArgsText(args, u);
  }

  lemma {:induction false} CleanGroups(gs: S.Groups, rest: string, d: nat)
    requires S.FineGroups(gs) && FirmGroups(gs) && Clean(rest, d, false)
    ensures Clean(S.ShowGroups(gs) + rest, d, false)
    decreases gs, 0
  {
    hide Clean;
    match gs
    case Done => assert S.ShowGroups(gs) + rest == rest;
    case Again(args, more) =>
      CleanGroups(more, rest, d);
      CleanArgs(args, S.ShowGroups(more) + rest, d);
      R.AgainText(args, more, rest);
  }

  /** The text of terms passes, before text that passes; a gap at the end needs something to stand before. */
  lemma {:induction false} CleanTerms(xs: S.Terms, commas: bool, binder: bool, rest: string, d: nat)
    requires S.FineAll(xs, commas, binder) && FirmAll(xs) && Clean(rest, d, false) && (rest == "" ==> Tight(xs))
    ensures Clean(S.ShowAll(xs) + rest, d, false)
    decreases xs, 0
  {
    hide Clean, S.Fine, Firm, S.Show, FirmText, S.Binds, S.ShowAll, S.GapOk, FirmGap, S.WordOk;
    match xs
    case Nil => R.NilText(rest, []);
    case Cons(x, gap, more) =>
      CleanMore(gap, more, commas, S.Binds(x), rest, d);
      CleanTerm(x, gap + (S.ShowAll(more) + rest), d);
      R.ConsText(x, gap, more, rest, []);
    case Bind(name, params, gap, more) =>
      var v := gap + (S.ShowAll(more) + rest);
      CleanMore(gap, more, commas, false, rest, d);
      CleanArgs(params, v, d);
      CleanText(name, "(" + R.ArgsText(params, v), d);
      R.BindText(name, params, gap, more, rest, []);
      BindArgs(name, params, v);
  }

  lemma BindArgs(name: string, params: S.Terms, v: string)
    ensures name + ("(" + S.ShowAll(params) + ")") + v == name + ("(" + R.ArgsText(params, v))
  {
    hide S.ShowAll;
  }

  /** A gap, and the terms after it. */
  lemma {:induction false} CleanMore(gap: string, more: S.Terms, commas: bool, binder: bool, rest: string, d: nat)
    requires S.FineAll(more, commas, binder) && FirmAll(more) && Clean(rest, d, false) && FirmGap(gap)
    requires rest == "" ==> if more.Nil? then gap == "" else Tight(more)
    ensures Clean(gap + (S.ShowAll(more) + rest), d, false)
    decreases more, 1
  {
    hide Clean, S.FineAll, FirmAll, S.ShowAll, FirmGap;
    CleanTerms(more, commas, binder, rest, d);
    TermsSome(more, commas, binder, rest);
    if more.Nil? {
      R.NilText(rest, []);
    }
    CleanGap(gap, S.ShowAll(more) + rest, d);
  }

  lemma TermsSome(xs: S.Terms, commas: bool, binder: bool, rest: string)
    requires S.FineAll(xs, commas, binder)
    ensures !xs.Nil? ==> S.ShowAll(xs) != "" && S.ShowAll(xs)[0] !in " \t)]}"
    ensures !xs.Nil? ==> S.ShowAll(xs) + rest != ""
  {
    hide S.Fine, S.Show, Token;
    if xs.Cons? {
      R.ShowFirst(xs.first);
    } else if xs.Bind? {
      R.TokenFirst(xs.name);
    }
  }

  // ---- one line ----

  /** Terms that make a line of their own. */
  predicate LineOk(xs: S.Terms) {
    !xs.Nil? && S.FineAll(xs, false, false) && FirmAll(xs) && Tight(xs)
  }

  lemma LineClean(xs: S.Terms)
    requires LineOk(xs)
    ensures var t := S.ShowAll(xs); Clean(t, 0, false) && t != "" && !IsBlank(t[0])
  {
    hide Clean, S.FineAll, FirmAll, Tight, S.ShowAll;
    CleanEnd();
    CleanTerms(xs, false, false, "", 0);
    TermsSome(xs, false, false, "");
    assert S.ShowAll(xs) + "" == S.ShowAll(xs);
  }

  /** A line of terms, or a header with its one statement behind the colon. */
  datatype Saying = Plain(terms: S.Terms) | Split(head: S.Terms, gap: string, body: S.Terms)

  predicate SayingOk(l: Saying) {
    match l
    case Plain(xs) => LineOk(xs)
    case Split(h, gap, b) => LineOk(h) && LineOk(b) && gap != "" && forall c | c in gap :: c == ' '
  }

  function SayingText(l: Saying): string {
    match l
    case Plain(xs) => S.ShowAll(xs)
    case Split(h, gap, b) => S.ShowAll(h) + ":" + gap + S.ShowAll(b)
  }

  /** The statement behind the colon is the header's last element. */
  function SayingTree(l: Saying): Form {
    match l
    case Plain(xs) => S.LineTree(xs)
    case Split(h, _, b) =>
      var f := S.LineTree(h);
      List((if f.Atom? then [f] else f.kids) + [S.LineTree(b)])
  }

  /** Splitting scans pass over clean text. */
  lemma {:induction false} ColonAfter(s: string, d: nat, inStr: bool, u: string)
    requires Clean(s, d, inStr) && u != ""
    ensures InlineColon(s + u, inStr) == Shift(|s|, InlineColon(u, false))
    decreases |s|
  {
    hide Clean, InlineColon, StrAfter, DepthAfter;
    if s == "" {
      CleanNone(d, inStr);
      assert s + u == u;
    } else {
      var n := Unit(s, inStr);
      CleanStep(s, d, inStr);
      ColonUnit(s, d, inStr, u);
      ColonAfter(s[n..], DepthAfter(s, d, inStr), StrAfter(s, inStr), u);
    }
  }

  lemma CleanNone(d: nat, inStr: bool)
    requires Clean("", d, inStr)
    ensures d == 0 && !inStr
  {
  }

  lemma ColonUnit(s: string, d: nat, inStr: bool, u: string)
    requires Clean(s, d, inStr) && s != ""
    ensures var n := Unit(s, inStr); n <= |s| && (s + u)[n..] == s[n..] + u
    ensures var n := Unit(s, inStr);
            InlineColon(s + u, inStr) == Shift(n, InlineColon(s[n..] + u, StrAfter(s, inStr)))
  {
    var t, n := s + u, Unit(s, inStr);
    CleanStep(s, d, inStr);
    CleanHead(s, d, inStr);
    UnitPrefix(s, inStr, u);
    assert t[..n] == s[..n];
    if n == 3 {
      assert t[..3] == s[..3] && t[2] == s[2];
      CharSteps(t);
    }
  }

  /** A character literal of anything but a quote or a colon before a blank. */
  lemma CharSteps(t: string)
    requires |t| >= 3 && t[0] == '#' && t[1] == '\\' && t[2] != '"' && !(t[2] == ':' && |t| >= 4 && IsBlank(t[3]))
    ensures InlineColon(t, false) == Shift(3, InlineColon(t[3..], false))
  {
    assert t[1..][0] == '\\' && t[1..][1..] == t[2..] && t[2..][0] == t[2] && t[2..][1..] == t[3..];
    assert InlineColon(t[2..], false) == Shift(1, InlineColon(t[3..], false));
    assert InlineColon(t[1..], false) == Shift(1, InlineColon(t[2..], false));
  }

  /** A line of terms opens no block, and says its tree. */
  lemma PlainSays(xs: S.Terms)
    requires LineOk(xs)
    ensures ReadBody(S.ShowAll(xs)) == Stmt(S.LineTree(xs), false)
  {
    hide Clean, S.ShowAll, S.LineTree, ReadLine, OpensBlock, InlineColon, StartsWith, FirmAll, Tight, S.FineAll;
    LineClean(xs);
    NoColon(S.ShowAll(xs));
    R.LineReads(xs);
  }

  /** The same line with a colon at its end opens a block, unless it is an arm of an `if`. */
  lemma HeaderSays(xs: S.Terms)
    requires LineOk(xs) && !(xs.Cons? && xs.first in [S.Word("elif"), S.Word("else")])
    ensures ReadBody(S.ShowAll(xs) + ":") == Stmt(S.LineTree(xs), true)
  {
    hide Clean, S.ShowAll, S.LineTree, ReadLine, OpensBlock, InlineColon, StartsWith, FirmAll, Tight, S.FineAll;
    LineClean(xs);
    ColonOpens(S.ShowAll(xs));
    NoArm(xs);
    R.LineReads(xs);
  }

  lemma NoArm(xs: S.Terms)
    requires !xs.Nil? && S.FineAll(xs, false, false) && !(xs.Cons? && xs.first in [S.Word("elif"), S.Word("else")])
    ensures S.ShowAll(xs) != "else" && !StartsWith(S.ShowAll(xs), "elif")
  {
    hide S.ShowAll, ReadForms, StartsWith;
    var none: seq<Form> := [];
    R.TermsRead(xs, false, false, "", none, "");
    R.EndReads(S.Trees(xs, false));
    assert S.ShowAll(xs) + "" == S.ShowAll(xs) && none + S.Trees(xs, false) == S.Trees(xs, false);
    FirstNoArm(xs);
    NotKeyword(S.ShowAll(xs), S.Trees(xs, false));
  }

  lemma FirstNoArm(xs: S.Terms)
    requires !xs.Nil? && S.FineAll(xs, false, false) && !(xs.Cons? && xs.first in [S.Word("elif"), S.Word("else")])
    ensures S.Trees(xs, false) != [] && S.Trees(xs, false)[0] !in [Atom("elif"), Atom("else")]
  {
    hide S.ShowAll, Token, S.Attribute;
    if xs.Cons? {
      TermNoArm(xs.first);
    }
  }

  lemma TermNoArm(x: S.Term)
    requires S.Fine(x) && x !in [S.Word("elif"), S.Word("else")]
    ensures S.Tree(x, false) !in [Atom("elif"), Atom("else")]
  {
    hide Token, S.Dots;
    match x
    case Path(names) =>
      assert '.' in S.Dots(names);
      assert '.' !in "elif" && '.' !in "else";
    case Call(h, args, more) => R.AppliedList(List(S.Heads(h, false) + S.Trees(args, false)), more);
    case _ =>
  }

  lemma ElifSays(xs: S.Terms)
    requires LineOk(xs)
    ensures ReadBody("elif " + S.ShowAll(xs) + ":") == Elif(S.LineTree(xs))
  {
    hide Clean, S.ShowAll, S.LineTree, ReadLine, OpensBlock, InlineColon, FirmAll, Tight, S.FineAll, SymOk;
    LineClean(xs);
    WordsOk();
    var e := S.ShowAll(xs);
    CleanWord("elif", e);
    var t := "elif " + e;
    assert "elif" + " " + e == t;
    ColonOpens(t);
    R.LineReads(xs);
    assert t[4..] == " " + e && (" " + e)[1..] == e && SkipBlanks(e, false) == e;
    assert |t| > 4;
  }

  lemma ElseSays()
    ensures ReadBody("else:") == Else
  {
    hide Clean, SymOk;
    WordsOk();
    CleanEnd();
    CleanSym("else", "", 0);
    assert "else" + "" == "else" && "else" + ":" == "else:";
    ColonOpens("else");
  }

  lemma SplitSays(h: S.Terms, gap: string, b: S.Terms)
    requires SayingOk(Split(h, gap, b))
    ensures ReadBody(SayingText(Split(h, gap, b))) == Stmt(SayingTree(Split(h, gap, b)), false)
  {
    hide Clean, S.ShowAll, S.LineTree, ReadLine, OpensBlock, InlineColon, StartsWith, LineOk, SkipBlanks;
    var s, e := S.ShowAll(h), S.ShowAll(b);
    var t := SayingText(Split(h, gap, b));
    LineClean(h);
    LineClean(b);
    SplitAt(s, gap, e);
    LineTerms(h);
    LineTerms(b);
    R.LineReads(h);
    R.LineReads(b);
    assert t == s + (":" + gap + e) && t[..|s|] == s && t[|s| + 1..] == gap + e;
  }

  lemma LineTerms(xs: S.Terms)
    requires LineOk(xs)
    ensures S.FineAll(xs, false, false)
  {
  }

  /** Where a header splits from its statement. */
  lemma SplitAt(s: string, gap: string, e: string)
    requires Clean(s, 0, false) && s != "" && Clean(e, 0, false) && e != "" && !IsBlank(e[0])
    requires gap != "" && forall c | c in gap :: c == ' '
    ensures var t := s + (":" + gap + e); OpensBlock(t) == (t, false) && InlineColon(t, false) == Some(|s|)
    ensures SkipBlanks(gap + e, false) == e
  {
    hide Clean, InlineColon, InStrAfter, SkipBlanks, TrimRight, OpensBlock;
    var u := ":" + gap + e;
    ColonAfter(s, 0, false, u);
    ColonClean(e, 0, false);
    GapSkip(gap, e);
    ColonFirst(gap, e);
    NoBlock(s + (":" + gap), e);
    assert s + (":" + gap) + e == s + u;
  }

  lemma NoBlock(s: string, e: string)
    requires e != "" && Last(e) != ':'
    ensures OpensBlock(s + e) == (s + e, false)
  {
    assert Last(s + e) == Last(e);
  }

  lemma ColonFirst(gap: string, e: string)
    requires gap != "" && (forall c | c in gap :: c == ' ') && SkipBlanks(gap + e, false) == e && e != ""
    ensures InlineColon(":" + gap + e, false) == Some(0)
  {
    hide SkipBlanks;
    var u := ":" + gap + e;
    assert u[1..] == gap + e && u[1] == gap[0] && gap[0] in gap;
  }

  lemma {:induction false} GapSkip(gap: string, e: string)
    requires e != "" && !IsBlank(e[0]) && forall c | c in gap :: c == ' '
    ensures SkipBlanks(gap + e, false) == e
  {
    if gap == "" {
      assert gap + e == e;
    } else {
      assert gap[0] in gap && (gap + e)[1..] == gap[1..] + e;
      assert forall c | c in gap[1..] :: c in gap;
      GapSkip(gap[1..], e);
    }
  }

  lemma SayingSays(l: Saying)
    requires SayingOk(l)
    ensures ReadBody(SayingText(l)) == Stmt(SayingTree(l), false)
  {
    hide ReadBody, LineOk, S.ShowAll;
    match l
    case Plain(xs) => PlainSays(xs);
    case Split(h, gap, b) => SplitSays(h, gap, b);
  }

  /** The text holds no comment, no line feed, no open bracket or string, and no blank at either end. */
  predicate Whole(t: string) {
    && Strip(t, false) == t && Depth(t, false) == (0, false) && OneLine(t)
    && t != "" && !IsBlank(t[0]) && !P.IsSpace(Last(t))
  }

  lemma {:induction false} CleanOneLine(s: string, d: nat, inStr: bool)
    requires Clean(s, d, inStr)
    ensures OneLine(s)
    decreases |s|
  {
    if s != "" {
      var n := Unit(s, inStr);
      CleanStep(s, d, inStr);
      CleanOneLine(s[n..], DepthAfter(s, d, inStr), StrAfter(s, inStr));
      UnitOneLine(s, d, inStr);
      assert s == s[..n] + s[n..];
    }
  }

  lemma UnitOneLine(s: string, d: nat, inStr: bool)
    requires Clean(s, d, inStr) && s != "" && Unit(s, inStr) <= |s|
    ensures OneLine(s[..Unit(s, inStr)])
  {
  }

  lemma CleanWhole2(t: string)
    requires Clean(t, 0, false) && t != "" && !IsBlank(t[0])
    ensures Whole(t)
  {
    hide Clean, Strip, Depth;
    assert t + "" == t;
    StripClean(t, 0, false, "");
    DepthClean(t, 0, false, "");
    ColonClean(t, 0, false);
    CleanOneLine(t, 0, false);
    RoundTrip.ColonText("");
  }

  lemma SplitWhole(s: string, gap: string, e: string)
    requires Clean(s, 0, false) && s != "" && !IsBlank(s[0]) && Clean(e, 0, false) && e != ""
    requires gap != "" && forall c | c in gap :: c == ' '
    ensures Whole(s + ":" + gap + e)
  {
    hide Clean, Strip, Depth;
    CleanGap(gap, e, 0);
    var g := gap + e;
    var u := ":" + g;
    ColonStrips(g, 0);
    StripClean(s, 0, false, u);
    DepthClean(s, 0, false, u);
    CleanOneLine(s, 0, false);
    CleanOneLine(e, 0, false);
    ColonClean(e, 0, false);
    var t := s + ":" + gap + e;
    assert t == s + u && t[0] == s[0] && Last(t) == Last(e);
    assert OneLine(":") && OneLine(gap);
  }

  lemma ColonStrips(g: string, d: nat)
    requires Clean(g, 0, false)
    ensures Strip(":" + g, false) == ":" + g && Depth(":" + g, false) == (0, false)
  {
    assert (":" + g)[1..] == g && g + "" == g;
    StripClean(g, 0, false, "");
    DepthClean(g, 0, false, "");
    RoundTrip.ColonText("");
  }

  lemma SayingWhole(l: Saying)
    requires SayingOk(l)
    ensures Whole(SayingText(l))
  {
    hide Whole, Clean, S.ShowAll, LineOk;
    match l
    case Plain(xs) =>
      LineClean(xs);
      CleanWhole2(S.ShowAll(xs));
    case Split(h, gap, b) =>
      LineClean(h);
      LineClean(b);
      SplitWhole(S.ShowAll(h), gap, S.ShowAll(b));
  }

  // ---- files ----

  /** A line that starts with `macro` defines one. */
  function Renamed(f: Form): Form {
    if f.List? && f.kids != [] && f.kids[0] == Atom("macro") then List([Atom("defmacro")] + f.kids[1..]) else f
  }

  function SayingTexts(ls: seq<Saying>): seq<string> {
    seq(|ls|, i requires 0 <= i < |ls| => SayingText(ls[i]))
  }

  function SayingTrees(ls: seq<Saying>): seq<Form> {
    seq(|ls|, i requires 0 <= i < |ls| => Renamed(SayingTree(ls[i])))
  }

  function From(n: nat, k: nat): seq<nat> {
    seq(k, i requires 0 <= i < k => n + i)
  }

  /** Lines at the left edge that open no block, so far. */
  function Flat(fs: seq<Form>): Source {
    Source(Engine([], [], seq(MAXD, _ => None), Vals(fs), From(1, |fs|), None, []), None, false)
  }

  lemma FlatGood(fs: seq<Form>)
    ensures Good(Flat(fs).engine)
  {
    var e := Flat(fs).engine;
    assert e.wraps == [] && e.arena == [];
  }

  lemma FlatStep(fs: seq<Form>, f: Form)
    requires Good(Flat(fs).engine)
    ensures Step(Flat(fs).engine, Line(0, |fs| + 1, Stmt(f, false))) == Flat(fs + [Renamed(f)]).engine
  {
    hide Good;
    var e := Flat(fs).engine;
    assert e.ifs[Column(0) := None] == e.ifs;
    assert Vals(fs) + [Val(Renamed(f))] == Vals(fs + [Renamed(f)]);
    assert From(1, |fs|) + [|fs| + 1] == From(1, |fs| + 1);
  }

  lemma WholeLine(st: Source, t: string, number: nat, rest: seq<string>)
    requires Good(st.engine) && Whole(t)
    ensures Join(t, rest) == (t, 0)
    ensures Logical(st, t, number) == st.(engine := Step(st.engine, Line(0, number, ReadBody(t))))
  {
    hide Good, Strip, Depth, ReadBody, Step;
    assert Indent(t) == 0 && t[0..] == t && t[..0] == "";
    RoundTrip.TrimNone(t);
  }

  lemma {:induction false} FlatLines(fs: seq<Form>, ls: seq<Saying>)
    requires Good(Flat(fs).engine) && forall i {:trigger ls[i]} | 0 <= i < |ls| :: SayingOk(ls[i])
    ensures ReadLines(Flat(fs), SayingTexts(ls), |fs| + 1) == Flat(fs + SayingTrees(ls))
    decreases |ls|
  {
    hide Good, SayingOk, SayingText, SayingTree, Join, Logical, Step, Flat, ReadBody, Whole;
    if ls == [] {
      assert fs + SayingTrees(ls) == fs;
    } else {
      var t, f := SayingText(ls[0]), SayingTree(ls[0]);
      SayingWhole(ls[0]);
      SayingSays(ls[0]);
      assert SayingTexts(ls)[1..] == SayingTexts(ls[1..]);
      WholeLine(Flat(fs), t, |fs| + 1, SayingTexts(ls)[1..]);
      FlatStep(fs, f);
      FlatEngine(fs, fs + [Renamed(f)]);
      FlatGood(fs + [Renamed(f)]);
      FlatLines(fs + [Renamed(f)], ls[1..]);
      assert fs + [Renamed(f)] + SayingTrees(ls[1..]) == fs + SayingTrees(ls);
    }
  }

  lemma FlatEngine(fs: seq<Form>, gs: seq<Form>)
    ensures Flat(fs).(engine := Flat(gs).engine) == Flat(gs)
  {
  }

  lemma FlatFinish(fs: seq<Form>)
    requires Good(Flat(fs).engine)
    ensures Finish(Flat(fs).engine) == fs
  {
    hide Good;
    var e := Flat(fs).engine;
    FinishTrees(e);
    forall k | 0 <= k < |fs| ensures Finish(e)[k] == fs[k] {
      assert e.roots[k] == Val(fs[k]);
    }
  }

  /** A file of such lines is the trees that they are short for, each mapped to its line, without a diagnosis. */
  lemma SugarFile(ls: seq<Saying>)
    requires ls != [] && forall i {:trigger ls[i]} | 0 <= i < |ls| :: SayingOk(ls[i])
    ensures Transpile(P.JoinLines(SayingTexts(ls))) == Output(SayingTrees(ls), From(1, |ls|), None)
  {
    hide Good, SayingOk, SayingText, SayingTree, ReadLines, Flat, Finish, SplitLines, Whole;
    var texts := SayingTexts(ls);
    forall i | 0 <= i < |texts| ensures OneLine(texts[i]) {
      SayingWhole(ls[i]);
      assert Whole(texts[i]);
      WholeOne(texts[i]);
    }
    RoundTrip.SplitJoined(texts);
    FlatGood([]);
    StartFlat();
    FlatLines([], ls);
    assert [] + SayingTrees(ls) == SayingTrees(ls);
    FlatGood(SayingTrees(ls));
    FlatFinish(SayingTrees(ls));
    FlatParts(SayingTrees(ls));
  }

  lemma WholeOne(t: string)
    requires Whole(t)
    ensures OneLine(t)
  {
  }

  lemma StartFlat()
    ensures Source(Start(), None, false) == Flat([])
  {
    assert Vals([]) == [] && From(1, 0) == [];
  }

  lemma FlatParts(fs: seq<Form>)
    ensures Flat(fs).engine.map_ == From(1, |fs|) && Flat(fs).engine.err == None
  {
  }

  // ---- brackets left open ----

  lemma OpenScans(b: S.Bracket, u: string)
    ensures Strip(S.OpenText(b) + u, false) == S.OpenText(b) + Strip(u, false)
    ensures Depth(S.OpenText(b) + u, false) == (1 + Depth(u, false).0, Depth(u, false).1)
  {
    hide Strip, Depth;
    match b
    case Round => OneScans('(', u);
    case Square => OneScans('[', u);
    case Brace => OneScans('{', u);
    case Vector => NamedScans("", '[', u); assert "#" + "" + ['['] == S.OpenText(b);
    case HashSet => NamedScans("", '{', u); assert "#" + "" + ['{'] == S.OpenText(b);
    case ListFor => NamedScans("l", '[', u); assert "#" + "l" + ['['] == S.OpenText(b);
    case GenFor => NamedScans("g", '[', u); assert "#" + "g" + ['['] == S.OpenText(b);
    case SetFor => NamedScans("s", '{', u); assert "#" + "s" + ['{'] == S.OpenText(b);
    case DictFor => NamedScans("d", '{', u); assert "#" + "d" + ['{'] == S.OpenText(b);
  }

  lemma OneScans(c: char, u: string)
    requires c !in ";#:\""
    ensures Strip([c] + u, false) == [c] + Strip(u, false)
    ensures Depth([c] + u, false) == (Nesting(c) + Depth(u, false).0, Depth(u, false).1)
  {
    assert ([c] + u)[1..] == u;
  }

  lemma HashScans(u: string)
    requires u != "" && u[0] !in " \t!\\"
    ensures Strip("#" + u, false) == "#" + Strip(u, false) && Depth("#" + u, false) == Depth(u, false)
  {
    assert ("#" + u)[1..] == u;
  }

  lemma NamedScans(letter: string, c: char, u: string)
    requires (letter == "" || letter in ["l", "g", "s", "d"]) && (c == '[' || c == '{')
    ensures var o := "#" + letter + [c];
            && Strip(o + u, false) == o + Strip(u, false)
            && Depth(o + u, false) == (1 + Depth(u, false).0, Depth(u, false).1)
  {
    hide Strip, Depth;
    OneScans(c, u);
    var v := [c] + u;
    if letter == "" {
      HashScans(v);
      assert "#" + letter + [c] + u == "#" + v;
    } else {
      OneScans(letter[0], v);
      HashScans([letter[0]] + v);
      assert "#" + letter + [c] + u == "#" + ([letter[0]] + v);
      assert "#" + ([letter[0]] + ([c] + Strip(u, false))) == "#" + letter + [c] + Strip(u, false);
    }
  }

  /** A bracket of any kind keeps its line open until it is closed; the line that closes it is whole again. */
  lemma OpenDepth(b: S.Bracket, xs: S.Terms)
    requires S.FineAll(xs, S.CloseChar(b) == '}', false) && FirmAll(xs) && Tight(xs)
    ensures var t := S.OpenText(b) + S.ShowAll(xs);
            && Strip(t, false) == t && Depth(t, false) == (1, false)
            && Depth(t + [S.CloseChar(b)], false) == (0, false)
  {
    hide Clean, Strip, Depth, S.FineAll, FirmAll, Tight, S.ShowAll, S.OpenText;
    var a := S.ShowAll(xs);
    CleanEnd();
    CleanTerms(xs, S.CloseChar(b) == '}', false, "", 0);
    assert a + "" == a;
    StripClean(a, 0, false, "");
    DepthClean(a, 0, false, "");
    RoundTrip.ColonText("");
    OpenScans(b, a);
    CleanChar1(S.CloseChar(b), "", 1, 0);
    CleanTerms(xs, S.CloseChar(b) == '}', false, [S.CloseChar(b)] + "", 1);
    CleanOpen(b, a + ([S.CloseChar(b)] + ""), 0);
    var t := S.OpenText(b) + (a + ([S.CloseChar(b)] + ""));
    assert t == S.OpenText(b) + a + [S.CloseChar(b)] && t + "" == t;
    DepthClean(t, 0, false, "");
  }

  /** A source that is such a line and no more ends with a bracket open, and says so. */
  lemma OpenReported(b: S.Bracket, xs: S.Terms)
    requires S.FineAll(xs, S.CloseChar(b) == '}', false) && FirmAll(xs) && Tight(xs)
    ensures var out := Transpile(S.OpenText(b) + S.ShowAll(xs));
            && out.err.Some? && out.err.value.line == 1 && |out.forms| == 1 && out.map_ == [1]
            && out.err.value.what == "adder line 1: " + "unterminated ( [ or { - reached end of input"
  {
    hide S.FineAll, FirmAll, Tight, S.ShowAll, S.OpenText, Depth, Strip;
    OpenDepth(b, xs);
    OpenOne(b, xs);
    Unterminated(S.OpenText(b) + S.ShowAll(xs));
  }

  lemma Unterminated(t: string)
    requires OneLine(t) && Strip(t, false) == t && Depth(t, false) == (1, false)
    ensures var out := Transpile(t);
            && out.err.Some? && out.err.value.line == 1 && |out.forms| == 1 && out.map_ == [1]
            && out.err.value.what == "adder line 1: " + "unterminated ( [ or { - reached end of input"
  {
    hide Depth, Strip, Process, SplitLines, Good, Fail, Finish;
    AdderSource.StartGood();
    RoundTrip.SplitJoined([t]);
    assert [t][1..] == [];
    var st, what := Source(Start(), None, false), "unterminated ( [ or { - reached end of input";
    FailGood(Start(), 1, what);
    assert Join(t, []) == (t, 0);
    assert ReadLines(st, [t], 1) == st.(engine := Fail(Start(), 1, what));
    FailFirst(what);
    FinishTrees(Fail(Start(), 1, what));
  }

  lemma FailFirst(what: string)
    ensures var e := Fail(Start(), 1, what);
            && |e.roots| == 1 && e.map_ == [1] && e.err.Some? && e.err.value.line == 1
            && e.err.value.what == "adder line 1: " + what
  {
    assert Decimal(1) == "1";
    assert "adder line " + "1" + ": " + what == "adder line 1: " + what;
  }

  lemma OpenOne(b: S.Bracket, xs: S.Terms)
    requires S.FineAll(xs, S.CloseChar(b) == '}', false) && FirmAll(xs) && Tight(xs)
    ensures OneLine(S.OpenText(b) + S.ShowAll(xs))
  {
    hide Clean, S.FineAll, FirmAll, Tight, S.ShowAll;
    CleanEnd();
    CleanTerms(xs, S.CloseChar(b) == '}', false, "", 0);
    assert S.ShowAll(xs) + "" == S.ShowAll(xs);
    CleanOneLine(S.ShowAll(xs), 0, false);
    assert OneLine(S.OpenText(b));
  }
}
