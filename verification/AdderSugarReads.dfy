/** The inline reader gives a surface line's tree. */
module AdderSugarReads {
  import opened AdderForms
  import opened AdderReader
  import opened AdderInline
  import opened AdderSugar
  import P = AdderPrinter

  /** Text that may follow a term. */
  predicate Stops(rest: string) {
    rest == "" || rest[0] in " \t,)]}"
  }

  /** What a bracket's contents may end with. */
  predicate Closes(term: string, tail: string) {
    if term == "" then tail == "" else term in [")", "]", "}"] && tail != "" && term == [tail[0]]
  }

  // ---- single terms ----

  lemma WordReads(t: string, rest: string)
    requires WordOk(t) && (Stops(rest) || rest[0] == '(')
    ensures ReadOne(t + rest) == (Name(t), rest)
  {
    hide ReadOne, SymText, StrBody, Attribute;
    if StrOk(t) {
      StringReads(t, rest);
    } else if IsCharLit(t) {
      ReadChar(t, rest);
    } else {
      ReadSym(t, rest);
    }
  }

  lemma StringReads(t: string, rest: string)
    requires StrOk(t)
    ensures ReadOne(t + rest) == (Name(t), rest)
  {
    var b, s := t[1..|t| - 1], t + rest;
    StrEndBody(b, rest);
    hide StrBody, StrEnd, ReadForms;
    assert s[0] == '"' && s[1..] == b + "\"" + rest;
    assert s[..|b| + 2] == t && s[|b| + 2..] == rest;
  }

  lemma BytesRead(t: string, rest: string)
    requires StrOk(t)
    ensures ReadOne("#b" + t + rest) == (List([Atom("string->blob"), Atom(t)]), rest)
  {
    var b, s := t[1..|t| - 1], "#b" + t + rest;
    StrEndBody(b, rest);
    hide StrBody, StrEnd, ReadForms;
    assert s[0] == '#' && s[1] == 'b' && s[2] == '"' && s[3..] == b + "\"" + rest;
    assert Opener(s) == 0;
    assert s[2..|b| + 4] == t && s[|b| + 4..] == rest;
  }

  lemma MarkReads(m: Sign, u: string)
    requires u != "" && !IsBlank(u[0]) && (m.Comma? ==> u[0] != '@')
    ensures ReadOne(SignText(m) + u) == (Marking(m, ReadOne(u).0), ReadOne(u).1)
  {
    BlankFree(u);
    hide ReadForms, TokEnd, StrEnd, SkipBlanks, Opener, OpenerHead;
    var s := SignText(m) + u;
    if m.Splice? {
      SpliceReads(u);
    } else {
      assert s[0] == SignText(m)[0] && s[1] == u[0] && s[1..] == u;
    }
  }

  lemma SpliceReads(u: string)
    requires SkipBlanks(u, false) == u
    ensures ReadOne(",@" + u) == (Marking(Splice, ReadOne(u).0), ReadOne(u).1)
  {
    hide ReadForms, TokEnd, StrEnd, SkipBlanks, Opener, OpenerHead;
    var s := ",@" + u;
    assert s[0] == ',' && s[1] == '@' && s[2..] == u;
  }

  lemma BlankFree(u: string)
    requires u != "" && !IsBlank(u[0])
    ensures SkipBlanks(u, false) == u
  {
  }

  lemma BracketReads(b: Bracket, inner: string)
    ensures var r := ReadForms(inner, [CloseChar(b)], []);
            ReadOne(OpenText(b) + inner) == (Bracketing(b, r.0), r.1)
  {
    hide ReadForms, StrEnd, TokEnd;
    var s := OpenText(b) + inner;
    if b.Round? || b.Square? || b.Brace? {
      assert s[1..] == inner;
    } else if b.Vector? || b.HashSet? {
      assert s[0] == '#' && s[2..] == inner;
    } else {
      assert s[0] == '#' && s[3..] == inner;
    }
  }

  /** How a term's text starts. */
  lemma {:induction false} ShowFirst(x: Term)
    requires Fine(x)
    ensures Show(x) != "" && Show(x)[0] !in " \t)]}"
    ensures Show(x)[0] == ',' ==> x.Mark? && (x.sign.Comma? || x.sign.Splice?)
  {
    hide Token, Attribute, Dots, ShowAll, ShowGroups, StrOk, FineAll;
    match x
    case Word(t) => TokenFirst(t);
    case Path(names) => TokenFirst(Dots(names));
    case Bytes(t) =>
    case Mark(m, y) =>
    case Group(b, xs) =>
    case Call(h, args, more) => ShowFirst(h);
  }

  lemma TokenFirst(t: string)
    requires Token(t)
    ensures t != "" && t[0] !in " \t)]},"
  {
  }

  lemma AttributeDot(t: string)
    requires Attribute(t)
    ensures '.' in t
  {
  }

  lemma NotBinder(t: string)
    requires '.' in t
    ensures !Binder(Atom(t)) && !SelfBinder(Atom(t))
  {
    var all := ["def", "defn", "defc", "defmacro", "macro", "fn", "lambda"];
    forall i | 0 <= i < |all| ensures '.' !in all[i] {
    }
  }

  lemma {:induction false} AppliedList(f: Form, gs: Groups)
    requires f.List?
    ensures Applied(f, gs, false).List?
    decreases gs
  {
    match gs
    case Done =>
    case Again(args, more) => AppliedList(List([f] + Trees(args, false)), more);
  }

  /** A term counts as a binder for what follows exactly if it is one. */
  lemma BinderExact(x: Term)
    requires Fine(x)
    ensures Binder(Tree(x, false)) <==> Binds(x)
  {
    hide Token, Attribute, Dots;
    match x
    case Path(names) =>
      AttributeDot(Dots(names));
      NotBinder(Dots(names));
    case Call(h, args, more) => AppliedList(List(Heads(h, false) + Trees(args, false)), more);
    case _ =>
  }

  // ---- gaps and ends ----

  predicate GapChar(c: char, commas: bool) {
    c in " \t" || (commas && c == ',')
  }

  lemma {:induction false} GapSkips(gap: string, u: string, commas: bool)
    requires GapOk(gap, commas)
    ensures SkipBlanks(gap + u, commas) == SkipBlanks(u, commas)
  {
    if gap == "" {
      assert gap + u == u;
    } else {
      assert gap[0] in gap && (gap + u)[0] == gap[0] && (gap + u)[1..] == gap[1..] + u;
      GapSkips(gap[1..], u, commas);
    }
  }

  lemma GapReads(gap: string, u: string, commas: bool, term: string, out: seq<Form>)
    requires GapOk(gap, commas) && |term| <= 1 && (commas <==> term == "}")
    ensures ReadForms(gap + u, term, out) == ReadForms(u, term, out)
  {
    hide ReadOne, ReadCalls, SkipBlanks;
    GapSkips(gap, u, commas);
  }

  lemma GapStops(gap: string, rest: string, commas: bool, tail: string)
    requires GapOk(gap, commas) && (gap == "" ==> rest == tail) && Stops(tail)
    ensures Stops(gap + rest)
  {
    if gap != "" {
      assert (gap + rest)[0] == gap[0] && gap[0] in gap;
    } else {
      assert gap + rest == rest;
    }
  }

  lemma CloseReads(term: string, rest: string, out: seq<Form>)
    requires term in [")", "]", "}"]
    ensures ReadForms(term + rest, term, out) == (out, rest)
  {
    hide ReadOne, ReadCalls;
    assert (term + rest)[0] == term[0] && (term + rest)[1..] == rest;
    assert SkipBlanks(term + rest, term == "}") == term + rest;
  }

  /** Text that starts a term is read as that term. */
  lemma FormReads(u: string, rest: string, f: Form, term: string, out: seq<Form>)
    requires u != "" && u[0] !in " \t)]}" && (term == "}" ==> u[0] != ',') && (term == "" || term in [")", "]", "}"])
    requires ReadOne(u + rest) == (f, rest) && Stops(rest)
    ensures ReadForms(u + rest, term, out) == ReadForms(rest, term, out + [f])
  {
    hide ReadOne, ReadCalls;
    var s := u + rest;
    assert s[0] == u[0];
    assert SkipBlanks(s, term == "}") == s;
  }

  /** An atom with an argument group glued to it is a call. */
  lemma CallReads(u: string, inner: string, f: Form, term: string, out: seq<Form>)
    requires u != "" && u[0] !in " \t)]}," && (term == "" || term in [")", "]", "}"])
    requires ReadOne(u + ("(" + inner)) == (f, "(" + inner) && f.Atom?
    requires AttrSegments(f.text) == [] ==> !SelfBinder(f) && !(out != [] && Binder(Last(out)))
    ensures var args := ReadForms(inner, ")", []);
            var segs := AttrSegments(f.text);
            var heads := if segs != [] && |segs| >= 2 then [AtomOf(Last(segs)), ReadChain(Front(segs))] else [f];
            var more := ReadCalls(List(heads + args.0), args.1);
            ReadForms(u + ("(" + inner), term, out) == ReadForms(more.1, term, out + [more.0])
  {
    hide ReadOne, ReadCalls;
    AdderCounts.SegsMany(f.text);
    var s := u + ("(" + inner);
    assert s[0] == u[0] && ("(" + inner)[1..] == inner;
    assert SkipBlanks(s, term == "}") == s;
  }

  /** A name with a parameter list glued to it. */
  lemma BindReads(u: string, inner: string, f: Form, term: string, out: seq<Form>)
    requires u != "" && u[0] !in " \t)]}," && (term == "" || term in [")", "]", "}"])
    requires ReadOne(u + ("(" + inner)) == (f, "(" + inner) && f.Atom? && AttrSegments(f.text) == []
    requires SelfBinder(f) || (out != [] && Binder(Last(out)))
    ensures var args := ReadForms(inner, ")", []);
            ReadForms(u + ("(" + inner), term, out) == ReadForms(args.1, term, out + [f, List(args.0)])
  {
    hide ReadOne, ReadCalls;
    var s := u + ("(" + inner);
    assert s[0] == u[0] && ("(" + inner)[1..] == inner;
    assert SkipBlanks(s, term == "}") == s;
  }

  lemma AgainReads(call: Form, inner: string)
    ensures var args := ReadForms(inner, ")", []);
            ReadCalls(call, "(" + inner) == ReadCalls(List([call] + args.0), args.1)
  {
    hide ReadForms;
    assert ("(" + inner)[1..] == inner;
  }

  // ---- terms ----

  /** Argument groups: their text, split where the first closes. */
  function ArgsText(args: Terms, more: string): string {
    ShowAll(args) + (")" + more)
  }

  lemma {:induction false} GroupReads(args: Terms, more: string)
    requires FineAll(args, false, false)
    ensures ReadForms(ArgsText(args, more), ")", []) == (Trees(args, false), more)
    decreases args, 2
  {
    hide ReadForms;
    TermsRead(args, false, false, ")", [], ")" + more);
    CloseReads(")", more, [] + Trees(args, false));
    assert [] + Trees(args, false) == Trees(args, false);
  }

  lemma MarkText(m: Sign, y: Term, rest: string)
    ensures Show(Mark(m, y)) + rest == SignText(m) + (Show(y) + rest)
    ensures Show(y) != "" ==> Show(y) + rest != "" && (Show(y) + rest)[0] == Show(y)[0]
  {
    hide SignText;
  }

  lemma GroupText(b: Bracket, xs: Terms, rest: string)
    ensures Show(Group(b, xs)) + rest == OpenText(b) + (ShowAll(xs) + ([CloseChar(b)] + rest))
    ensures Closes([CloseChar(b)], [CloseChar(b)] + rest)
  {
    hide OpenText, ShowAll;
  }

  /** Any term that is no call is read on its own. */
  lemma {:induction false} TermReads(x: Term, rest: string)
    requires Fine(x) && !x.Call? && Stops(rest)
    ensures ReadOne(Show(x) + rest) == (Tree(x, false), rest)
    decreases x, 1
  {
    hide ReadOne, ReadForms, Token, Attribute, StrBody, SymText, Dots, SignText, FineAll, ShowAll, Trees, Stops;
    match x
    case Word(t) => WordReads(t, rest);
    case Path(names) =>
      PathSegments(names);
      PathReads(Dots(names), rest);
    case Bytes(t) => BytesRead(t, rest);
    case Mark(m, y) =>
      TermReads(y, rest);
      ShowFirst(y);
      MarkText(m, y, rest);
      MarkReads(m, Show(y) + rest);
    case Group(b, xs) => BracketTerm(b, xs, rest);
  }

  lemma {:induction false} BracketTerm(b: Bracket, xs: Terms, rest: string)
    requires Fine(Group(b, xs))
    ensures ReadOne(Show(Group(b, xs)) + rest) == (Tree(Group(b, xs), false), rest)
    decreases Group(b, xs), 0
  {
    hide ReadForms, ReadOne, Show, ShowAll, Trees, FineAll, CloseChar, OpenText, Closes, Bracketing;
    var close := [CloseChar(b)];
    var none: seq<Form> := [];
    CloseKinds(b);
    GroupText(b, xs, rest);
    TermsRead(xs, CloseChar(b) == '}', false, close, none, close + rest);
    CloseReads(close, rest, none + Trees(xs, false));
    assert none + Trees(xs, false) == Trees(xs, false);
    BracketReads(b, ShowAll(xs) + (close + rest));
  }

  lemma CloseKinds(b: Bracket)
    ensures [CloseChar(b)] in [")", "]", "}"] && (CloseChar(b) == '}' <==> [CloseChar(b)] == "}")
  {
  }

  lemma PathReads(t: string, rest: string)
    requires SymToken(t) && Name(t) == Atom(t) && (Stops(rest) || rest[0] == '(')
    ensures ReadOne(t + rest) == (Atom(t), rest)
  {
    hide ReadOne, SymText;
    ReadSym(t, rest);
  }

  /** A call's head, with its first group still to come. */
  lemma HeadReads(h: Term, inner: string)
    requires (h.Word? || h.Path?) && Fine(h)
    ensures ReadOne(Show(h) + ("(" + inner)) == (Tree(h, false), "(" + inner) && Tree(h, false).Atom?
  {
    hide ReadOne, Token, Attribute, Dots;
    match h
    case Word(t) => WordReads(t, "(" + inner);
    case Path(names) =>
      PathSegments(names);
      PathReads(Dots(names), "(" + inner);
  }

  /** What the reader puts first in a call is what the call's meaning puts first. */
  lemma HeadsRead(h: Term)
    requires (h.Word? || h.Path?) && Fine(h)
    ensures var segs := AttrSegments(Tree(h, false).text);
            && (segs == [] <==> h.Word?)
            && (if segs != [] && |segs| >= 2 then [AtomOf(Last(segs)), ReadChain(Front(segs))] else [Tree(h, false)])
              == Heads(h, false)
  {
    hide Token, Attribute, Dots, ReadChain, Chain;
    match h
    case Word(t) => NamePlain(t);
    case Path(names) =>
      PathSegments(names);
      ChainReads(Front(names));
  }

  lemma AgainText(args: Terms, more: Groups, rest: string)
    ensures ShowGroups(Again(args, more)) + rest == "(" + ArgsText(args, ShowGroups(more) + rest)
  {
  }

  lemma {:induction false} CallsRead(call: Form, gs: Groups, rest: string)
    requires FineGroups(gs) && Stops(rest)
    ensures ReadCalls(call, ShowGroups(gs) + rest) == (Applied(call, gs, false), rest)
    decreases gs, 1
  {
    hide ReadForms;
    match gs
    case Done =>
      assert ShowGroups(gs) + rest == rest;
    case Again(args, more) =>
      hide ReadCalls, ShowGroups, Trees, ShowAll, Stops, FineAll;
      var u := ShowGroups(more) + rest;
      GroupReads(args, u);
      AgainReads(call, ArgsText(args, u));
      AgainText(args, more, rest);
      CallsRead(List([call] + Trees(args, false)), more, rest);
  }

  /** One term among others. */
  lemma {:induction false} ItemReads(x: Term, rest: string, term: string, out: seq<Form>)
    requires Fine(x) && Stops(rest) && (term == "" || term in [")", "]", "}"])
    requires !(term == "}" && x.Mark? && (x.sign.Comma? || x.sign.Splice?))
    requires x.Call? && x.head.Word? ==> !(out != [] && Binder(Last(out)))
    ensures ReadForms(Show(x) + rest, term, out) == ReadForms(rest, term, out + [Tree(x, false)])
    decreases x, 2
  {
    hide ReadForms, ReadOne, ReadCalls, Token, Attribute, Show, Tree, Trees, ShowAll;
    ShowFirst(x);
    if x.Call? {
      CallItem(x, rest, term, out);
    } else {
      TermReads(x, rest);
      FormReads(Show(x), rest, Tree(x, false), term, out);
    }
  }

  lemma CallText(x: Term, rest: string)
    requires x.Call?
    ensures Show(x) + rest == Show(x.head) + ("(" + ArgsText(x.args, ShowGroups(x.more) + rest))
    ensures Tree(x, false) == Applied(List(Heads(x.head, false) + Trees(x.args, false)), x.more, false)
  {
    hide ShowAll, ShowGroups, Trees, Applied, Chain, Dots;
    var a, g := ShowAll(x.args), ShowGroups(x.more);
    assert Show(x) == Show(x.head) + ("(" + a + ")") + g;
  }

  lemma {:induction false} CallItem(x: Term, rest: string, term: string, out: seq<Form>)
    requires x.Call? && Fine(x) && Stops(rest) && (term == "" || term in [")", "]", "}"])
    requires x.head.Word? ==> !(out != [] && Binder(Last(out)))
    ensures ReadForms(Show(x) + rest, term, out) == ReadForms(rest, term, out + [Tree(x, false)])
    decreases x, 1
  {
    hide ReadForms, ReadOne, ReadCalls, Token, Attribute, AttrSegments, Dots, Chain, Trees, ShowAll, Show, Tree,
        ShowGroups, Applied, ArgsText, Heads, Stops;
    var h, args, more := x.head, x.args, x.more;
    var u := ShowGroups(more) + rest;
    var inner := ArgsText(args, u);
    GroupReads(args, u);
    ShowFirst(h);
    HeadReads(h, inner);
    HeadsRead(h);
    HeadNoBinder(h);
    CallReads(Show(h), inner, Tree(h, false), term, out);
    CallsRead(List(Heads(h, false) + Trees(args, false)), more, rest);
    CallText(x, rest);
  }

  lemma HeadNoBinder(h: Term)
    ensures h.Word? && h.text !in ["fn", "lambda"] ==> !SelfBinder(Tree(h, false))
  {
  }

  lemma NameBinder(name: string)
    requires name in ["fn", "lambda"]
    ensures SelfBinder(Name(name))
  {
  }

  /** A name and its parameters among other terms. */
  lemma {:induction false} BindItem(xs: Terms, rest: string, term: string, out: seq<Form>)
    requires xs.Bind? && WordOk(xs.name) && FineAll(xs.params, false, false)
    requires term == "" || term in [")", "]", "}"]
    requires xs.name in ["fn", "lambda"] || (out != [] && Binder(Last(out)))
    ensures ReadForms(xs.name + ("(" + ShowAll(xs.params) + ")") + rest, term, out)
         == ReadForms(rest, term, out + [Name(xs.name), List(Trees(xs.params, false))])
    decreases xs, 0
  {
    hide ReadForms, ReadOne, Token, Attribute, AttrSegments, Trees, ShowAll;
    var name, inner := xs.name, ArgsText(xs.params, rest);
    GroupReads(xs.params, rest);
    WordReads(name, "(" + inner);
    NamePlain(name);
    TokenFirst(name);
    if name in ["fn", "lambda"] {
      NameBinder(name);
    }
    BindReads(name, inner, Name(name), term, out);
    assert name + ("(" + ShowAll(xs.params) + ")") + rest == name + ("(" + inner);
  }

  lemma ConsText(x: Term, gap: string, rest: Terms, tail: string, out: seq<Form>)
    ensures ShowAll(Cons(x, gap, rest)) + tail == Show(x) + (gap + (ShowAll(rest) + tail))
    ensures out + Trees(Cons(x, gap, rest), false) == out + [Tree(x, false)] + Trees(rest, false)
    ensures rest.Nil? ==> ShowAll(rest) + tail == tail
  {
    hide Show, Tree;
    assert rest.Nil? ==> "" + tail == tail;
  }

  lemma BindText(name: string, params: Terms, gap: string, rest: Terms, tail: string, out: seq<Form>)
    ensures ShowAll(Bind(name, params, gap, rest)) + tail
         == name + ("(" + ShowAll(params) + ")") + (gap + (ShowAll(rest) + tail))
    ensures out + Trees(Bind(name, params, gap, rest), false)
         == out + [Name(name), List(Trees(params, false))] + Trees(rest, false)
  {
  }

  lemma LastBinder(out: seq<Form>, f: Form)
    ensures out + [f] != [] && Last(out + [f]) == f
  {
  }

  /** Terms are read one after the other. */
  lemma {:induction false} TermsRead(xs: Terms, commas: bool, binder: bool, term: string, out: seq<Form>, tail: string)
    requires FineAll(xs, commas, binder) && Closes(term, tail) && (commas <==> term == "}")
    requires binder <==> out != [] && Binder(Last(out))
    ensures ReadForms(ShowAll(xs) + tail, term, out) == ReadForms(tail, term, out + Trees(xs, false))
    decreases xs, 1
  {
    hide ReadForms, ReadOne, Token, Attribute, Show, Tree, GapOk, Binder, ShowAll, Trees, Binds, Fine;
    match xs
    case Nil => NilText(tail, out);
    case Cons(x, gap, rest) => ConsRead(x, gap, rest, commas, binder, term, out, tail);
    case Bind(name, params, gap, rest) =>
      var u := ShowAll(rest) + tail;
      var f, g := Name(name), List(Trees(params, false));
      BindItem(xs, gap + u, term, out);
      GapReads(gap, u, commas, term, out + [f, g]);
      ListNoBinder(g);
      assert out + [f, g] == out + [f] + [g];
      LastBinder(out + [f], g);
      TermsRead(rest, commas, false, term, out + [f, g], tail);
      BindText(name, params, gap, rest, tail, out);
  }

  lemma {:induction false} ConsRead(x: Term, gap: string, rest: Terms, commas: bool, binder: bool, term: string,
      out: seq<Form>, tail: string)
    requires FineAll(Cons(x, gap, rest), commas, binder) && Closes(term, tail) && (commas <==> term == "}")
    requires binder <==> out != [] && Binder(Last(out))
    ensures ReadForms(ShowAll(Cons(x, gap, rest)) + tail, term, out)
         == ReadForms(tail, term, out + Trees(Cons(x, gap, rest), false))
    decreases Cons(x, gap, rest), 0
  {
    hide ReadForms, ReadOne, Token, Attribute, Show, Tree, GapOk, Binder, ShowAll, Trees, Binds, Fine;
    var u := ShowAll(rest) + tail;
    ConsText(x, gap, rest, tail, out);
    GapStops(gap, u, commas, tail);
    ItemReads(x, gap + u, term, out);
    GapReads(gap, u, commas, term, out + [Tree(x, false)]);
    BinderExact(x);
    LastBinder(out, Tree(x, false));
    TermsRead(rest, commas, Binds(x), term, out + [Tree(x, false)], tail);
  }

  lemma NilText(tail: string, out: seq<Form>)
    ensures ShowAll(Nil) + tail == tail && out + Trees(Nil, false) == out
  {
  }

  lemma ListNoBinder(f: Form)
    requires f.List?
    ensures !Binder(f)
  {
  }

  // ---- lines ----

  /** A line of surface terms is read as the tree it is short for. */
  lemma LineReads(xs: Terms)
    requires FineAll(xs, false, false)
    ensures ReadLine(ShowAll(xs)) == LineTree(xs)
  {
    hide ReadForms, NodeOf, LineTree, Trees, FineAll, ShowAll;
    LineForms(xs);
    NodeReads(xs);
  }

  lemma LineForms(xs: Terms)
    requires FineAll(xs, false, false)
    ensures ReadForms(ShowAll(xs), "", []) == (Trees(xs, false), "")
  {
    hide ReadForms, Trees, FineAll, ShowAll, Binder;
    var none: seq<Form> := [];
    TermsRead(xs, false, false, "", none, "");
    assert ShowAll(xs) + "" == ShowAll(xs) && none + Trees(xs, false) == Trees(xs, false);
    EndReads(Trees(xs, false));
  }

  lemma EndReads(out: seq<Form>)
    ensures ReadForms("", "", out) == (out, "")
  {
  }

  lemma NodeReads(xs: Terms)
    requires FineAll(xs, false, false)
    ensures NodeOf(Trees(xs, false)) == LineTree(xs)
  {
    hide Desugar, Trees, FineAll, Assignment;
    TermsSpell(xs, false, false);
    var raw, fs := Trees(xs, false), Trees(xs, true);
    if |raw| >= 3 {
      EqualsSpells(raw[1]);
    }
    if |raw| != 1 && Infix(raw) {
      AssignReads(xs);
    } else if |raw| != 1 {
      ListSpells(raw, fs);
    }
  }

  lemma EqualsSpells(f: Form)
    ensures f == Atom("=") <==> Desugar(f) == Atom("=")
  {
    UndottedPlain("=");
    if f.Atom? && f != Atom("=") && AttrSegments(f.text) != [] {
      AdderCounts.SegsMany(f.text);
    }
  }

  lemma AssignReads(xs: Terms)
    requires FineAll(xs, false, false) && Infix(Trees(xs, false)) && Spells(Trees(xs, false), Trees(xs, true))
    ensures Desugar(Assignment(Trees(xs, false))) == LineTree(xs)
  {
    hide Desugar, Trees, FineAll, Token, Attribute;
    var raw, fs := Trees(xs, false), Trees(xs, true);
    EqualsSpells(raw[1]);
    var rhs := if |fs| == 3 then fs[2] else List(fs[2..]);
    var was := if |raw| == 3 then raw[2] else List(raw[2..]);
    RestSpells(raw, fs);
    ListSpells(raw[2..], fs[2..]);
    assert Desugar(was) == rhs;
    LeftReads(xs);
    var segs := if raw[0].Atom? then AttrSegments(raw[0].text) else [];
    if segs != [] {
      var names := xs.first.names;
      EntrySpells(names, was);
    } else {
      ThreeSpells(raw[1], raw[0], was);
    }
  }

  lemma RestSpells(raw: seq<Form>, fs: seq<Form>)
    requires Spells(raw, fs) && |raw| >= 2
    ensures Spells(raw[2..], fs[2..])
  {
  }

  predicate Chained(segs: seq<string>) {
    |segs| >= 2 && ReadChain(Front(segs)) == Chain(Front(segs)) && NoDots(segs)
  }

  /** The left side is taken apart exactly if it is a path. */
  lemma LeftReads(xs: Terms)
    requires FineAll(xs, false, false) && Trees(xs, false) != []
    ensures var f := Trees(xs, false)[0];
            var segs := if f.Atom? then AttrSegments(f.text) else [];
            && (segs != [] <==> xs.Cons? && xs.first.Path?)
            && (segs != [] ==> segs == xs.first.names && Chained(segs))
  {
    hide Token, Attribute, Dots, AttrSegments, ReadChain, Chain;
    if xs.Bind? {
      NamePlain(xs.name);
    } else {
      LeftTerm(xs.first);
    }
  }

  lemma LeftTerm(x: Term)
    requires Fine(x)
    ensures var f := Tree(x, false);
            var segs := if f.Atom? then AttrSegments(f.text) else [];
            && (segs != [] <==> x.Path?)
            && (segs != [] ==> segs == x.names && Chained(segs))
  {
    hide Token, Attribute, Dots, AttrSegments, ReadChain, Chain;
    match x
    case Word(t) => NamePlain(t);
    case Path(names) =>
      PathSegments(names);
      ChainReads(Front(names));
    case Call(h, args, more) => AppliedList(List(Heads(h, false) + Trees(args, false)), more);
    case _ =>
  }

  lemma EntrySpells(names: seq<string>, rhs: Form)
    requires |names| >= 2 && NoDots(names)
    ensures Desugar(List([Atom("assoc!"), Chain(Front(names)), Atom(Quoted(Last(names))), rhs]))
         == List([Atom("assoc!"), Chain(Front(names)), Atom("\"" + Last(names) + "\""), Desugar(rhs)])
  {
    hide Desugar, Chain;
    UndottedPlain("assoc!");
    ChainStays(Front(names));
    var q := Quoted(Last(names));
    assert q[0] == '"';
    LiteralPlain(q);
    var a, b := [Atom("assoc!"), Chain(Front(names))], [Atom(q), rhs];
    TwoSpell(a[0], a[1]);
    TwoSpell(b[0], b[1]);
    SpellsMore(a, a, b, [Atom(q), Desugar(rhs)]);
    ListSpells(a + b, a + [Atom(q), Desugar(rhs)]);
    assert a + b == [Atom("assoc!"), Chain(Front(names)), Atom(q), rhs];
    assert a + [Atom(q), Desugar(rhs)] == [Atom("assoc!"), Chain(Front(names)), Atom(q), Desugar(rhs)];
  }
}
