/** Reading a line never makes up a line feed, a colon, a hash sign or a semicolon, and never loses a line feed. */
module AdderCounts {
  import opened Wrappers
  import opened AdderForms
  import opened AdderBlocks
  import opened AdderReader
  import opened AdderSource

  /** Characters of a class. */
  function Count(s: string, cs: set<char>): nat {
    if s == "" then 0 else (if s[0] in cs then 1 else 0) + Count(s[1..], cs)
  }

  function CountOf(f: Form, cs: set<char>): nat
    decreases f, 1
  {
    match f
    case Atom(t) => Count(t, cs)
    case List(kids) => CountAll(kids, cs)
  }

  function CountAll(fs: seq<Form>, cs: set<char>): nat
    decreases fs, 0
  {
    if fs == [] then 0 else CountOf(fs[0], cs) + CountAll(fs[1..], cs)
  }

  /** A class of characters that no form's name has. */
  predicate Rare(cs: set<char>) {
    cs <= {'\n', ':', '#', ';'}
  }

  /** No more than there were, and of line feeds just as many. */
  predicate Near(a: nat, b: nat, cs: set<char>) {
    a <= b && (cs == {'\n'} ==> a == b)
  }

  predicate OneLine(s: string) {
    '\n' !in s
  }

  lemma {:induction false} CountConcat(s: string, t: string, cs: set<char>)
    ensures Count(s + t, cs) == Count(s, cs) + Count(t, cs)
  {
    if s == "" {
      assert s + t == t;
    } else {
      assert (s + t)[0] == s[0] && (s + t)[1..] == s[1..] + t;
      CountConcat(s[1..], t, cs);
    }
  }

  lemma CountSplit(s: string, i: nat, cs: set<char>)
    requires i <= |s|
    ensures Count(s, cs) == Count(s[..i], cs) + Count(s[i..], cs)
  {
    CountConcat(s[..i], s[i..], cs);
    assert s[..i] + s[i..] == s;
  }

  /** A part has no more than the whole. */
  lemma CountPart(s: string, i: nat, j: nat, cs: set<char>)
    requires i <= j <= |s|
    ensures Count(s[..i], cs) + Count(s[i..j], cs) + Count(s[j..], cs) == Count(s, cs)
  {
    CountSplit(s, i, cs);
    CountSplit(s[i..], j - i, cs);
    assert s[i..][..j - i] == s[i..j] && s[i..][j - i..] == s[j..];
  }

  lemma CountFirst(s: string, cs: set<char>)
    requires s != ""
    ensures Count(s, cs) == (if s[0] in cs then 1 else 0) + Count(s[1..], cs)
  {
  }

  lemma {:induction false} CountSome(s: string, i: nat, cs: set<char>)
    requires i < |s| && s[i] in cs
    ensures Count(s, cs) > 0
  {
    if i > 0 {
      CountSome(s[1..], i - 1, cs);
    }
  }

  lemma {:induction false} CountNone(s: string, cs: set<char>)
    requires forall c | c in s :: c !in cs
    ensures Count(s, cs) == 0
  {
    if s != "" {
      assert s[0] in s;
      assert forall c | c in s[1..] :: c in s;
      CountNone(s[1..], cs);
    }
  }

  lemma {:induction false} CountAllConcat(a: seq<Form>, b: seq<Form>, cs: set<char>)
    ensures CountAll(a + b, cs) == CountAll(a, cs) + CountAll(b, cs)
  {
    hide CountOf;
    if a == [] {
      assert a + b == b;
    } else {
      assert (a + b)[0] == a[0] && (a + b)[1..] == a[1..] + b;
      CountAllConcat(a[1..], b, cs);
    }
  }

  lemma CountOne(f: Form, cs: set<char>)
    ensures CountAll([f], cs) == CountOf(f, cs)
  {
    hide CountOf;
    assert [f][1..] == [];
  }

  lemma CountTwo(f: Form, g: Form, cs: set<char>)
    ensures CountAll([f, g], cs) == CountOf(f, cs) + CountOf(g, cs)
  {
    hide CountOf;
    CountOne(g, cs);
    assert [f, g][1..] == [g];
  }

  lemma CountCons(f: Form, fs: seq<Form>, cs: set<char>)
    ensures CountAll([f] + fs, cs) == CountOf(f, cs) + CountAll(fs, cs)
  {
    hide CountOf;
    assert ([f] + fs)[1..] == fs;
  }

  // ---- names ----

  lemma NameCount(name: string, cs: set<char>)
    requires Rare(cs) && name in ["", "t", "nil", "fn", "_", "quote", "quasiquote", "unquote", "unquote-splicing",
        "assoc!"]
    ensures Count(name, cs) == 0
  {
    CountNone(name, cs);
  }

  lemma HeadCount(name: string, cs: set<char>)
    requires Rare(cs) && name in ["string->blob", "hash-map", "vector", "hash-set", "lfor", "gfor", "sfor", "dfor",
        "macro", "defmacro"]
    ensures Count(name, cs) == 0
  {
    CountNone(name, cs);
  }

  lemma QuotedCount(t: string, cs: set<char>)
    requires Rare(cs)
    ensures Count(Quoted(t), cs) == Count(t, cs)
  {
    CountConcat("\"" + t, "\"", cs);
    CountConcat("\"", t, cs);
    CountNone("\"", cs);
  }

  lemma AtomCount(t: string, cs: set<char>)
    requires Rare(cs)
    ensures Near(CountOf(AtomOf(t), cs), Count(t, cs), cs)
  {
    NameCount("t", cs);
    NameCount("nil", cs);
    if t in ["true", "false"] && cs == {'\n'} {
      CountNone(t, cs);
    }
  }

  // ---- attribute tokens ----

  function CountTexts(ts: seq<string>, cs: set<char>): nat {
    if ts == [] then 0 else Count(ts[0], cs) + CountTexts(ts[1..], cs)
  }

  lemma {:induction false} CountTextsLast(ts: seq<string>, cs: set<char>)
    requires ts != []
    ensures CountTexts(ts, cs) == CountTexts(Front(ts), cs) + Count(Last(ts), cs)
  {
    hide Count;
    if |ts| > 1 {
      CountTextsLast(ts[1..], cs);
      assert Front(ts)[1..] == Front(ts[1..]);
    }
  }

  lemma {:induction false} SegmentsCount(t: string, seg: string, cs: set<char>)
    requires Rare(cs)
    ensures CountTexts(Segments(t, seg), cs) == Count(t, cs) + Count(seg, cs)
    decreases |t|
  {
    if t == "" {
      assert [seg][1..] == [];
    } else if t[0] == '.' {
      SegmentsCount(t[1..], "", cs);
      assert ([seg] + Segments(t[1..], ""))[1..] == Segments(t[1..], "");
    } else {
      SegmentsCount(t[1..], seg + [t[0]], cs);
      CountConcat(seg, [t[0]], cs);
      assert [t[0]][1..] == "";
    }
  }

  lemma {:induction false} ChainCount(segs: seq<string>, cs: set<char>)
    requires Rare(cs) && segs != []
    ensures Near(CountOf(ReadChain(segs), cs), CountTexts(segs, cs), cs)
  {
    hide Count;
    if |segs| == 1 {
      AtomCount(segs[0], cs);
      assert segs[1..] == [];
    } else {
      ChainCount(Front(segs), cs);
      CountTextsLast(segs, cs);
      QuotedCount(Last(segs), cs);
      CountTwo(ReadChain(Front(segs)), Atom(Quoted(Last(segs))), cs);
    }
  }

  lemma AttrCount(t: string, cs: set<char>)
    requires Rare(cs) && AttrSegments(t) != []
    ensures |AttrSegments(t)| >= 2 && CountTexts(AttrSegments(t), cs) == Count(t, cs)
  {
    hide IsAttr;
    SegmentsCount(t, "", cs);
  }

  lemma {:induction false} DesugarCount(f: Form, cs: set<char>)
    requires Rare(cs)
    ensures Near(CountOf(Desugar(f), cs), CountOf(f, cs), cs)
    decreases f, 1
  {
    hide Count;
    match f
    case Atom(t) =>
      if AttrSegments(t) != [] {
        AttrCount(t, cs);
        ChainCount(AttrSegments(t), cs);
      }
    case List(kids) => DesugarCounts(f, 0, cs);
  }

  lemma {:induction false} DesugarCounts(f: Form, k: nat, cs: set<char>)
    requires Rare(cs) && f.List? && k <= |f.kids|
    ensures Near(CountAll(Desugar(f).kids[k..], cs), CountAll(f.kids[k..], cs), cs)
    decreases f, 0, |f.kids| - k
  {
    hide CountOf;
    var ds := Desugar(f).kids;
    if k < |f.kids| {
      DesugarCount(f.kids[k], cs);
      DesugarCounts(f, k + 1, cs);
      assert ds[k..][0] == Desugar(f.kids[k]) && ds[k..][1..] == ds[k + 1..];
      assert f.kids[k..][0] == f.kids[k] && f.kids[k..][1..] == f.kids[k + 1..];
    } else {
      assert ds[k..] == [] && f.kids[k..] == [];
    }
    if k == 0 {
      assert ds[0..] == ds && f.kids[0..] == f.kids;
    }
  }

  // ---- the reader ----

  lemma {:induction false} SkipCount(s: string, comma: bool, cs: set<char>)
    ensures Near(Count(SkipBlanks(s, comma), cs), Count(s, cs), cs)
  {
    if s != "" && (IsBlank(s[0]) || (comma && s[0] == ',')) {
      SkipCount(s[1..], comma, cs);
    }
  }

  /** What was read and what is left have no more than the text had, and as many line feeds. */
  ghost predicate Within(f: Form, rest: string, s: string, cs: set<char>) {
    Near(CountOf(f, cs) + Count(rest, cs), Count(s, cs), cs)
  }

  /** A part that the reader skips. */
  lemma SkippedCount(s: string, i: nat, cs: set<char>)
    requires i <= |s| && OneLine(s[..i])
    ensures Near(Count(s[i..], cs), Count(s, cs), cs)
  {
    CountSplit(s, i, cs);
    if cs == {'\n'} {
      CountNone(s[..i], cs);
    }
  }

  lemma HeadWithin(head: string, fs: seq<Form>, cs: set<char>)
    requires Count(head, cs) == 0
    ensures CountOf(List([Atom(head)] + fs), cs) == CountAll(fs, cs)
  {
    hide Count;
    CountCons(Atom(head), fs, cs);
  }

  lemma WrapWithin(head: string, f: Form, cs: set<char>)
    requires Count(head, cs) == 0
    ensures CountOf(List([Atom(head), f]), cs) == CountOf(f, cs)
  {
    hide Count;
    CountTwo(Atom(head), f, cs);
  }

  lemma FnWithin(fs: seq<Form>, cs: set<char>)
    requires Rare(cs)
    ensures CountOf(List([Atom("fn"), List([Atom("_")]), List(fs)]), cs) == CountAll(fs, cs)
  {
    hide Count;
    NameCount("fn", cs);
    NameCount("_", cs);
    var arg, body := List([Atom("_")]), List(fs);
    CountOne(Atom("_"), cs);
    CountTwo(arg, body, cs);
    CountCons(Atom("fn"), [arg, body], cs);
    assert [Atom("fn")] + [arg, body] == [Atom("fn"), arg, body];
  }

  lemma {:induction false} OneWithin(s: string, cs: set<char>)
    requires Rare(cs)
    ensures Within(ReadOne(s).0, ReadOne(s).1, s, cs)
    decreases |s|, 0, 2
  {
    hide Count, CountOf, Opener, OpenerHead, StrEnd, TokEnd, SkipBlanks, ReadForms, IsDelim;
    EmptyCount(cs);
    if s == "" {
    } else if s[0] in "{([" {
      BracketWithin(s, cs);
    } else if s[0] == '"' {
      LiteralWithin(s, 0, 1 + StrEnd(s[1..]), cs);
    } else if s[0] in "'`," {
      var skip := if s[0] == ',' && |s| >= 2 && s[1] == '@' then 2 else 1;
      SkippedCount(s, skip, cs);
      SkipCount(s[skip..], false, cs);
      OneWithin(SkipBlanks(s[skip..], false), cs);
      PrefixWithin(ReadOne(SkipBlanks(s[skip..], false)).0, cs);
    } else {
      SymbolWithin(s, cs);
    }
  }

  lemma {:induction false} SymbolWithin(s: string, cs: set<char>)
    requires Rare(cs) && s != "" && s[0] !in "{([\"'`,"
    ensures Within(ReadOne(s).0, ReadOne(s).1, s, cs)
    decreases |s|, 0, 1
  {
    hide Count, CountOf, Opener, OpenerHead, StrEnd, TokEnd, SkipBlanks, ReadForms, IsDelim;
    if |s| >= 3 && s[0] == '#' && s[1] == '\\' {
      LiteralWithin(s, 0, 3, cs);
    } else if Opener(s) > 0 {
      BracketWithin(s, cs);
    } else if |s| >= 3 && s[0] == '#' && s[1] == 'b' && s[2] == '"' {
      var n := 3 + StrEnd(s[3..]);
      LiteralWithin(s, 2, n, cs);
      HeadCount("string->blob", cs);
      WrapWithin("string->blob", AtomOf(s[2..n]), cs);
    } else {
      LiteralWithin(s, 0, if TokEnd(s) == 0 then 1 else TokEnd(s), cs);
    }
  }

  lemma EmptyCount(cs: set<char>)
    ensures Count("", cs) == 0 && CountOf(Atom(""), cs) == 0
  {
  }

  lemma LiteralWithin(s: string, i: nat, n: nat, cs: set<char>)
    requires Rare(cs) && i <= n <= |s| && OneLine(s[..i])
    ensures Near(CountOf(AtomOf(s[i..n]), cs) + Count(s[n..], cs), Count(s, cs), cs)
    ensures i == 0 ==> s[0..n] == s[..n]
  {
    hide Count;
    AtomCount(s[i..n], cs);
    CountPart(s, i, n, cs);
    if cs == {'\n'} {
      CountNone(s[..i], cs);
    }
  }

  lemma PrefixWithin(f: Form, cs: set<char>)
    requires Rare(cs)
    ensures CountOf(List([Atom("quote"), f]), cs) == CountOf(List([Atom("quasiquote"), f]), cs) == CountOf(f, cs)
    ensures CountOf(List([Atom("unquote"), f]), cs) == CountOf(List([Atom("unquote-splicing"), f]), cs)
        == CountOf(f, cs)
  {
    hide Count, CountOf;
    NameCount("quote", cs);
    NameCount("quasiquote", cs);
    NameCount("unquote", cs);
    NameCount("unquote-splicing", cs);
    WrapWithin("quote", f, cs);
    WrapWithin("quasiquote", f, cs);
    WrapWithin("unquote", f, cs);
    WrapWithin("unquote-splicing", f, cs);
  }

  /** Where a bracket form's elements start, and what closes it. */
  function Skip(s: string): (n: nat)
    requires s != ""
    ensures n <= |s|
  {
    if s[0] in "{([" then 1 else Opener(s)
  }

  function Closer(s: string): string
    requires s != "" && (s[0] in "{([" || Opener(s) > 0)
  {
    if s[0] == '{' then "}" else if s[0] == '(' then ")" else if s[0] == '[' then "]"
    else [if s[Opener(s) - 1] == '[' then ']' else '}']
  }

  predicate Bracketed(s: string) {
    s != "" && (s[0] in "{([" || (s[0] !in "\"'`," && !(|s| >= 3 && s[0] == '#' && s[1] == '\\') && Opener(s) > 0))
  }

  lemma BracketReads(s: string)
    requires Bracketed(s)
    ensures var r, one := ReadForms(s[Skip(s)..], Closer(s), []), ReadOne(s);
            && one.1 == r.1
            && one.0 == if s[0] == '{' then List([Atom("hash-map")] + r.0) else if s[0] == '(' then List(r.0)
                        else if s[0] == '[' then List([Atom("fn"), List([Atom("_")]), List(r.0)])
                        else List([Atom(OpenerHead(s))] + r.0)
  {
    hide ReadForms, Opener, OpenerHead;
  }

  lemma SkipLine(s: string)
    requires Bracketed(s)
    ensures OneLine(s[..Skip(s)]) && OneLine(Closer(s))
  {
  }

  lemma OpenerCount(s: string, cs: set<char>)
    requires Opener(s) > 0 && Rare(cs)
    ensures Count(OpenerHead(s), cs) == 0
  {
    hide Count;
    HeadCount(OpenerHead(s), cs);
  }

  lemma {:induction false} BracketWithin(s: string, cs: set<char>)
    requires Rare(cs) && Bracketed(s)
    ensures Within(ReadOne(s).0, ReadOne(s).1, s, cs)
    decreases |s|, 0, 0
  {
    hide Opener, OpenerHead, ReadForms, ReadOne, Count, CountOf, CountAll;
    BracketReads(s);
    SkipLine(s);
    SkippedCount(s, Skip(s), cs);
    FormsWithin(s[Skip(s)..], Closer(s), [], cs);
    NoneCount(cs);
    var fs := ReadForms(s[Skip(s)..], Closer(s), []).0;
    HeadCount("hash-map", cs);
    HeadWithin("hash-map", fs, cs);
    FnWithin(fs, cs);
    ListCount(fs, cs);
    if s[0] !in "{([" {
      OpenerCount(s, cs);
      HeadWithin(OpenerHead(s), fs, cs);
    }
  }

  lemma NoneCount(cs: set<char>)
    ensures CountAll([], cs) == 0
  {
  }

  lemma ListCount(fs: seq<Form>, cs: set<char>)
    ensures CountOf(List(fs), cs) == CountAll(fs, cs)
  {
  }

  ghost predicate AllWithin(fs: seq<Form>, rest: string, out: seq<Form>, s: string, cs: set<char>) {
    Near(CountAll(fs, cs) + Count(rest, cs), CountAll(out, cs) + Count(s, cs), cs)
  }

  lemma CountMore(out: seq<Form>, f: Form, cs: set<char>)
    ensures CountAll(out + [f], cs) == CountAll(out, cs) + CountOf(f, cs)
  {
    hide CountOf;
    CountAllConcat(out, [f], cs);
    CountOne(f, cs);
  }

  lemma {:induction false} FormsWithin(s: string, term: string, out: seq<Form>, cs: set<char>)
    requires Rare(cs) && |term| <= 1 && OneLine(term)
    ensures AllWithin(ReadForms(s, term, out).0, ReadForms(s, term, out).1, out, s, cs)
    decreases |s|, 1
  {
    hide SkipBlanks, ReadOne, Count, CountOf, CountAll, AttrSegments, Binder, SelfBinder, ReadCalls;
    var t := SkipBlanks(s, term == "}");
    SkipCount(s, term == "}", cs);
    EmptyCount(cs);
    if t != "" && term != [t[0]] {
      OneWithin(t, cs);
      var one := ReadOne(t);
      if one.0.Atom? && one.1 != "" && one.1[0] == '(' {
        ArgsWithin(s, term, out, one.0, one.1, t, cs);
      } else {
        CountMore(out, one.0, cs);
        FormsWithin(one.1, term, out + [one.0], cs);
      }
    } else if t != "" {
      CountFirst(t, cs);
    }
  }

  lemma CalledCount(f: Form, args: seq<Form>, cs: set<char>)
    requires Rare(cs) && f.Atom?
    ensures var segs := AttrSegments(f.text);
            && (segs != [] ==> |segs| >= 2)
            && Near(CountOf(if segs != [] then List([AtomOf(Last(segs)), ReadChain(Front(segs))] + args)
                else List([f] + args), cs), CountOf(f, cs) + CountAll(args, cs), cs)
  {
    hide AttrSegments, Count;
    var segs := AttrSegments(f.text);
    if segs != [] {
      AttrCount(f.text, cs);
      ChainCount(Front(segs), cs);
      AtomCount(Last(segs), cs);
      CountTextsLast(segs, cs);
      CountTwo(AtomOf(Last(segs)), ReadChain(Front(segs)), cs);
      CountAllConcat([AtomOf(Last(segs)), ReadChain(Front(segs))], args, cs);
    } else {
      CountCons(f, args, cs);
    }
  }

  /** A token that is glued to an argument group, and what follows. */
  lemma {:induction false} ArgsWithin(s: string, term: string, out: seq<Form>, f: Form, rest: string, t: string,
      cs: set<char>)
    requires Rare(cs) && |term| <= 1 && OneLine(term) && t == SkipBlanks(s, term == "}") && t != "" && term != [t[0]]
    requires ReadOne(t) == (f, rest) && f.Atom? && rest != "" && rest[0] == '(' && Within(f, rest, s, cs)
    ensures AllWithin(ReadForms(s, term, out).0, ReadForms(s, term, out).1, out, s, cs)
    decreases |s|, 0, 1
  {
    hide SkipBlanks, ReadOne, Count, CountOf, CountAll, AttrSegments, Binder, SelfBinder, ReadCalls;
    CountFirst(rest, cs);
    NoneCount(cs);
    FormsWithin(rest[1..], ")", [], cs);
    var args := ReadForms(rest[1..], ")", []);
    var segs := AttrSegments(f.text);
    if segs == [] && ((out != [] && Binder(Last(out))) || SelfBinder(f)) {
      ListCount(args.0, cs);
      CountTwo(f, List(args.0), cs);
      CountAllConcat(out, [f, List(args.0)], cs);
      FormsWithin(args.1, term, out + [f, List(args.0)], cs);
    } else {
      CalledCount(f, args.0, cs);
      var call := if segs != [] then List([AtomOf(Last(segs)), ReadChain(Front(segs))] + args.0)
          else List([f] + args.0);
      CallsWithin(call, args.1, cs);
      var more := ReadCalls(call, args.1);
      CountMore(out, more.0, cs);
      FormsWithin(more.1, term, out + [more.0], cs);
    }
  }

  lemma {:induction false} CallsWithin(call: Form, s: string, cs: set<char>)
    requires Rare(cs)
    ensures Near(CountOf(ReadCalls(call, s).0, cs) + Count(ReadCalls(call, s).1, cs),
                 CountOf(call, cs) + Count(s, cs), cs)
    decreases |s|, 0
  {
    hide ReadForms, Count, CountOf, CountAll;
    if s != "" && s[0] == '(' {
      CountFirst(s, cs);
      NoneCount(cs);
      FormsWithin(s[1..], ")", [], cs);
      var more := ReadForms(s[1..], ")", []);
      CountCons(call, more.0, cs);
      ListCount([call] + more.0, cs);
      CallsWithin(List([call] + more.0), more.1, cs);
    }
  }

  // ---- a line ----

  lemma NodeCount(fs: seq<Form>, cs: set<char>)
    requires Rare(cs)
    ensures Near(CountOf(NodeOf(fs), cs), CountAll(fs, cs), cs)
  {
    hide Desugar, Assignment, CountOf, CountAll;
    ListCount(fs, cs);
    if |fs| == 1 {
      CountOne(fs[0], cs);
      assert fs == [fs[0]];
      DesugarCount(fs[0], cs);
    } else if Infix(fs) {
      AssignmentCount(fs, cs);
      DesugarCount(Assignment(fs), cs);
    } else {
      DesugarCount(List(fs), cs);
    }
  }

  lemma EqualsCount(cs: set<char>)
    requires Rare(cs)
    ensures CountOf(Atom("="), cs) == 0
  {
    CountNone("=", cs);
  }

  lemma AssignmentCount(fs: seq<Form>, cs: set<char>)
    requires Rare(cs) && Infix(fs)
    ensures Near(CountOf(Assignment(fs), cs), CountAll(fs, cs), cs)
  {
    hide AttrSegments, Count, CountOf, CountAll;
    var rhs := if |fs| == 3 then fs[2] else List(fs[2..]);
    assert fs == [fs[0], fs[1]] + fs[2..];
    CountAllConcat([fs[0], fs[1]], fs[2..], cs);
    CountTwo(fs[0], fs[1], cs);
    ListCount(fs[2..], cs);
    if |fs| == 3 {
      CountOne(fs[2], cs);
      assert fs[2..] == [fs[2]];
    }
    var segs := if fs[0].Atom? then AttrSegments(fs[0].text) else [];
    if segs != [] {
      EqualsCount(cs);
      AttrWrite(fs[0].text, rhs, cs);
    } else {
      CountTwo(fs[0], rhs, cs);
      CountCons(fs[1], [fs[0], rhs], cs);
      ListCount([fs[1], fs[0], rhs], cs);
      assert [fs[1]] + [fs[0], rhs] == [fs[1], fs[0], rhs];
    }
  }

  lemma AttrWrite(t: string, rhs: Form, cs: set<char>)
    requires Rare(cs) && AttrSegments(t) != []
    ensures var segs := AttrSegments(t);
            && |segs| >= 2
            && Near(CountOf(List([Atom("assoc!"), ReadChain(Front(segs)), Atom(Quoted(Last(segs))), rhs]), cs),
                    CountOf(Atom(t), cs) + CountOf(rhs, cs), cs)
  {
    hide AttrSegments, Count, CountAll;
    var segs := AttrSegments(t);
    AttrCount(t, cs);
    ChainCount(Front(segs), cs);
    CountTextsLast(segs, cs);
    QuotedCount(Last(segs), cs);
    NameCount("assoc!", cs);
    var a, b, d := Atom("assoc!"), ReadChain(Front(segs)), Atom(Quoted(Last(segs)));
    CountTwo(a, b, cs);
    CountTwo(d, rhs, cs);
    CountAllConcat([a, b], [d, rhs], cs);
    assert [a, b] + [d, rhs] == [a, b, d, rhs];
  }

  /** A line is read to its end. */
  lemma {:induction false} ReadsAll(s: string, out: seq<Form>)
    ensures ReadForms(s, "", out).1 == ""
    decreases |s|
  {
    hide SkipBlanks, ReadOne, ReadCalls, AttrSegments, Binder, SelfBinder;
    var t := SkipBlanks(s, false);
    if t != "" {
      var one := ReadOne(t);
      if one.0.Atom? && one.1 != "" && one.1[0] == '(' {
        var args := ReadForms(one.1[1..], ")", []);
        var segs := AttrSegments(one.0.text);
        if segs == [] && ((out != [] && Binder(Last(out))) || SelfBinder(one.0)) {
          ReadsAll(args.1, out + [one.0, List(args.0)]);
        } else {
          SegsMany(one.0.text);
          var call := if segs != [] then List([AtomOf(Last(segs)), ReadChain(Front(segs))] + args.0)
              else List([one.0] + args.0);
          var more := ReadCalls(call, args.1);
          ReadsAll(more.1, out + [more.0]);
        }
      } else {
        ReadsAll(one.1, out + [one.0]);
      }
    }
  }

  lemma SegsMany(t: string)
    ensures AttrSegments(t) != [] ==> |AttrSegments(t)| >= 2
  {
  }

  lemma LineCount(text: string, cs: set<char>)
    requires Rare(cs)
    ensures Near(CountOf(ReadLine(text), cs), Count(text, cs), cs)
  {
    hide ReadForms, Count, CountOf, CountAll, NodeOf;
    ReadsAll(text, []);
    EmptyCount(cs);
    FormsWithin(text, "", [], cs);
    NoneCount(cs);
    NodeCount(ReadForms(text, "", []).0, cs);
  }

  function CountWhat(w: What, cs: set<char>): nat {
    match w
    case Else => 0
    case Elif(c) => CountOf(c, cs)
    case Stmt(f, _) => CountOf(f, cs)
  }

  lemma ColonCount(t: string, at: nat, cs: set<char>)
    requires Rare(cs) && at < |t|
    ensures var head := ReadLine(t[..at]);
            var tail := ReadLine(SkipBlanks(t[at + 1..], false));
            Near(CountOf(List((if head.List? then head.kids else [head]) + [tail]), cs)
                 + (if t[at] in cs then 1 else 0), Count(t, cs), cs)
  {
    hide ReadLine, SkipBlanks, Count, CountOf, CountAll;
    CountSplit(t, at, cs);
    CountFirst(t[at..], cs);
    assert t[at..][1..] == t[at + 1..];
    SkipCount(t[at + 1..], false, cs);
    LineCount(t[..at], cs);
    LineCount(SkipBlanks(t[at + 1..], false), cs);
    var head, tail := ReadLine(t[..at]), ReadLine(SkipBlanks(t[at + 1..], false));
    var fs := if head.List? then head.kids else [head];
    CountOne(head, cs);
    if head.List? {
      ListCount(head.kids, cs);
      assert head == List(head.kids);
    }
    CountMore(fs, tail, cs);
    ListCount(fs + [tail], cs);
  }

  lemma PrefixCount(s: string, t: string, cs: set<char>)
    requires s <= t
    ensures Count(s, cs) <= Count(t, cs)
  {
    CountSplit(t, |s|, cs);
  }

  lemma {:induction false} TrimCount(s: string, cr: bool, cs: set<char>)
    ensures Near(Count(TrimRight(s, cr), cs), Count(s, cs), cs)
    decreases |s|
  {
    if s != "" && (IsBlank(Last(s)) || (cr && Last(s) == '\r')) {
      TrimCount(Front(s), cr, cs);
      LastCount(s, cs);
    }
  }

  lemma LastCount(s: string, cs: set<char>)
    requires s != ""
    ensures Count(s, cs) == Count(Front(s), cs) + if Last(s) in cs then 1 else 0
  {
    CountConcat(Front(s), [Last(s)], cs);
    assert s == Front(s) + [Last(s)] && [Last(s)][1..] == "";
  }

  lemma OpensCount(body: string, cs: set<char>)
    ensures Near(Count(OpensBlock(body).0, cs), Count(body, cs), cs)
  {
    hide Count, InStrAfter;
    if body != "" {
      LastCount(body, cs);
      TrimCount(Front(body), false, cs);
    }
  }

  lemma {:induction false} ColonAt(s: string, inStr: bool)
    ensures InlineColon(s, inStr).Some? ==> s[InlineColon(s, inStr).value] == ':'
    decreases |s|
  {
    if s != "" {
      ColonAt(s[1..], if inStr then s[0] != '"' else s[0] == '"');
      if |s| >= 2 {
        ColonAt(s[2..], true);
      }
    }
  }

  /** Reading a line's text. */
  lemma BodyCount(body: string, cs: set<char>)
    requires Rare(cs)
    ensures Near(CountWhat(ReadBody(body), cs), Count(body, cs), cs)
  {
    hide ReadLine, InStrAfter, SkipBlanks, TrimRight, Count, CountOf;
    var open := OpensBlock(body);
    var t := open.0;
    OpensCount(body, cs);
    if open.1 && t == "else" {
      if cs == {'\n'} {
        CountNone("else", cs);
      }
    } else if open.1 && StartsWith(t, "elif") {
      assert t[..4] == "elif";
      SkippedCount(t, 4, cs);
      SkipCount(t[4..], false, cs);
      LineCount(SkipBlanks(t[4..], false), cs);
    } else {
      var colon := if open.1 then None else InlineColon(t, false);
      if colon.Some? {
        ColonAt(t, false);
        ColonCount(t, colon.value, cs);
      } else {
        LineCount(t, cs);
      }
    }
  }

  lemma RemapCount(f: Form, block: bool, cs: set<char>)
    requires Rare(cs)
    ensures CountOf(LineNode(f, block), cs) == CountOf(f, cs)
  {
    hide Count;
    CountOne(f, cs);
    var g := if block && f.Atom? then List([f]) else f;
    if g.List? && g.kids != [] && g.kids[0] == Atom("macro") {
      HeadCount("macro", cs);
      HeadCount("defmacro", cs);
      HeadWithin("defmacro", g.kids[1..], cs);
      HeadWithin("macro", g.kids[1..], cs);
      assert g.kids == [Atom("macro")] + g.kids[1..];
    }
  }

  /** Cutting comments out. */
  lemma {:induction false} StripCount(s: string, inStr: bool)
    ensures Strip(s, inStr) <= s
    ensures |Strip(s, inStr)| < |s| ==> s[|Strip(s, inStr)|] in "#;"
    decreases |s|
  {
    if s == "" {
    } else if inStr && s[0] == '\\' && |s| >= 2 {
      StripCount(s[2..], true);
      Regroup(s, 2, Strip(s[2..], true));
    } else if !inStr && s[0] == '#' && |s| >= 2 && s[1] == '\\' {
      if |s| >= 3 {
        StripCount(s[3..], false);
        Regroup(s, 3, Strip(s[3..], false));
      }
    } else {
      var in' := if inStr then s[0] != '"' else s[0] == '"';
      StripCount(s[1..], in');
      Regroup(s, 1, Strip(s[1..], in'));
      assert s[..1] == [s[0]];
    }
  }

  lemma Regroup(s: string, n: nat, v: string)
    requires n <= |s| && v <= s[n..]
    ensures s[..n] + v <= s && (|v| < |s[n..]| ==> s[|s[..n] + v|] == s[n..][|v|])
  {
    assert s == s[..n] + s[n..];
  }
}
