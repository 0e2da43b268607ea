/**
 The inline surface syntax that the printer never writes: attribute paths, method calls, glued calls and
 parameter lists, the quoting marks, and the brackets with a name.  A line written in it is read as the tree
 that it is short for.
 */
module AdderSugar {
  import opened AdderForms
  import opened AdderReader
  import opened AdderInline
  import opened AdderCounts
  import P = AdderPrinter

  // ---- the surface ----

  datatype Sign = Quote | Back | Comma | Splice

  datatype Bracket = Round | Square | Brace | Vector | HashSet | ListFor | GenFor | SetFor | DictFor

  /** `Word` is a symbol or a literal, `Path` is `a.b.c`, `Bytes` is `#b` and a string literal; a `Call` has one or
      more argument groups glued to its head. */
  datatype Term =
    | Word(text: string)
    | Path(names: seq<string>)
    | Bytes(text: string)
    | Mark(sign: Sign, item: Term)
    | Group(bracket: Bracket, items: Terms)
    | Call(head: Term, args: Terms, more: Groups)

  datatype Groups = Done | Again(args: Terms, more: Groups)

  /** Terms, each with the gap after it; `Bind` is a name with a glued parameter list. */
  datatype Terms =
    | Nil
    | Cons(first: Term, gap: string, rest: Terms)
    | Bind(name: string, params: Terms, gap: string, rest: Terms)

  function SignText(m: Sign): string {
    match m
    case Quote => "'"
    case Back => "`"
    case Comma => ","
    case Splice => ",@"
  }

  function OpenText(b: Bracket): string {
    match b
    case Round => "("
    case Square => "["
    case Brace => "{"
    case Vector => "#["
    case HashSet => "#{"
    case ListFor => "#l["
    case GenFor => "#g["
    case SetFor => "#s{"
    case DictFor => "#d{"
  }

  function CloseChar(b: Bracket): char {
    match b
    case Round => ')'
    case Square | Vector | ListFor | GenFor => ']'
    case Brace | HashSet | SetFor | DictFor => '}'
  }

  function Dots(names: seq<string>): string {
    if names == [] then "" else if |names| == 1 then names[0] else names[0] + "." + Dots(names[1..])
  }

  function Show(x: Term): string {
    match x
    case Word(t) => t
    case Path(names) => Dots(names)
    case Bytes(t) => "#b" + t
    case Mark(m, y) => SignText(m) + Show(y)
    case Group(b, xs) => OpenText(b) + ShowAll(xs) + [CloseChar(b)]
    case Call(h, args, more) => Show(h) + ("(" + ShowAll(args) + ")") + ShowGroups(more)
  }

  function ShowGroups(gs: Groups): string {
    match gs
    case Done => ""
    case Again(args, more) => ("(" + ShowAll(args) + ")") + ShowGroups(more)
  }

  function ShowAll(xs: Terms): string {
    match xs
    case Nil => ""
    case Cons(x, gap, rest) => Show(x) + gap + ShowAll(rest)
    case Bind(name, params, gap, rest) => name + ("(" + ShowAll(params) + ")") + gap + ShowAll(rest)
  }

  // ---- what it is short for ----

  function Name(t: string): Form {
    Atom(if t == "true" then "t" else if t == "false" then "nil" else t)
  }

  /** `a.b.c` asks `a` for "b", and the answer for "c". */
  function Chain(names: seq<string>): Form {
    if names == [] then Atom("") else if |names| == 1 then Name(names[0])
    else List([Chain(Front(names)), Atom("\"" + Last(names) + "\"")])
  }

  function Bracketing(b: Bracket, fs: seq<Form>): Form {
    match b
    case Round => List(fs)
    case Square => List([Atom("fn"), List([Atom("_")]), List(fs)])
    case Brace => List([Atom("hash-map")] + fs)
    case Vector => List([Atom("vector")] + fs)
    case HashSet => List([Atom("hash-set")] + fs)
    case ListFor => List([Atom("lfor")] + fs)
    case GenFor => List([Atom("gfor")] + fs)
    case SetFor => List([Atom("sfor")] + fs)
    case DictFor => List([Atom("dfor")] + fs)
  }

  function Marking(m: Sign, f: Form): Form {
    List([Atom(match m
               case Quote => "quote"
               case Back => "quasiquote"
               case Comma => "unquote"
               case Splice => "unquote-splicing"), f])
  }

  /** The tree of a term; `chains` says whether its paths are expanded. */
  function Tree(x: Term, chains: bool): Form {
    match x
    case Word(t) => Name(t)
    case Path(names) => if chains then Chain(names) else Atom(Dots(names))
    case Bytes(t) => List([Atom("string->blob"), Atom(t)])
    case Mark(m, y) => Marking(m, Tree(y, chains))
    case Group(b, xs) => Bracketing(b, Trees(xs, chains))
    case Call(h, args, more) =>
      var heads := if h.Path? && h.names != [] then [Name(Last(h.names)), Chain(Front(h.names))] else [Tree(h, chains)];
      Applied(List(heads + Trees(args, chains)), more, chains)
  }

  /** Each further group calls what was there before. */
  function Applied(f: Form, gs: Groups, chains: bool): Form
    decreases gs
  {
    match gs
    case Done => f
    case Again(args, more) => Applied(List([f] + Trees(args, chains)), more, chains)
  }

  function Trees(xs: Terms, chains: bool): seq<Form> {
    match xs
    case Nil => []
    case Cons(x, _, rest) => [Tree(x, chains)] + Trees(rest, chains)
    case Bind(name, params, _, rest) => [Name(name), List(Trees(params, chains))] + Trees(rest, chains)
  }

  /** The tree of a line: a lone term stands for itself, `=` in second place makes an assignment, and an
      assignment to `a.b` changes the entry "b" of `a`. */
  function LineTree(xs: Terms): Form {
    var fs := Trees(xs, true);
    if |fs| == 1 then fs[0]
    else if |fs| >= 3 && fs[1] == Atom("=") then
      var rhs := if |fs| == 3 then fs[2] else List(fs[2..]);
      if xs.Cons? && xs.first.Path? && xs.first.names != [] then
        var names := xs.first.names;
        List([Atom("assoc!"), Chain(Front(names)), Atom("\"" + Last(names) + "\""), rhs])
      else List([Atom("="), fs[0], rhs])
    else List(fs)
  }

  // ---- which surface is meant ----

  /** A token that is a path: it has up to 63 dots, each between two characters that are neither dots nor digits,
      and starts with no digit, colon, quote or hash sign. */
  predicate Attribute(t: string) {
    && t != "" && t[0] !in "0123456789:\"#" && '.' in t && Count(t, {'.'}) <= 63
    && forall k | 0 <= k < |t| && t[k] == '.' ::
         0 < k < |t| - 1 && t[k - 1] !in ".0123456789" && t[k + 1] !in ".0123456789"
  }

  predicate WordOk(t: string) {
    Token(t) && !Attribute(t)
  }

  predicate PathOk(names: seq<string>) {
    && Token(Dots(names)) && Attribute(Dots(names))
    && forall i | 0 <= i < |names| :: '.' !in names[i]
  }

  /** Blanks; inside braces, commas as well. */
  predicate GapOk(gap: string, commas: bool) {
    forall c | c in gap :: c in " \t" || (commas && c == ',')
  }

  /** After one of these a name with a glued list is a name and its parameters. */
  predicate Binds(x: Term) {
    x.Word? && x.text in ["def", "defn", "defc", "defmacro", "macro", "fn", "lambda"]
  }

  predicate Fine(x: Term) {
    match x
    case Word(t) => WordOk(t)
    case Path(names) => PathOk(names)
    case Bytes(t) => StrOk(t)
    case Mark(m, y) => Fine(y) && !y.Call? && (m.Comma? ==> Show(y) != "" && Show(y)[0] != '@')
    case Group(b, xs) => FineAll(xs, CloseChar(b) == '}', false)
    case Call(h, args, more) =>
      && ((h.Word? && h.text !in ["fn", "lambda"]) || h.Path?)
      && Fine(h) && FineAll(args, false, false) && FineGroups(more)
  }

  predicate FineGroups(gs: Groups) {
    match gs
    case Done => true
    case Again(args, more) => FineAll(args, false, false) && FineGroups(more)
  }

  /** `binder`: what stands before is a binder. */
  predicate FineAll(xs: Terms, commas: bool, binder: bool) {
    match xs
    case Nil => true
    case Cons(x, gap, rest) =>
      && Fine(x) && GapOk(gap, commas) && (gap == "" ==> rest.Nil?) && FineAll(rest, commas, Binds(x))
      && !(commas && x.Mark? && (x.sign.Comma? || x.sign.Splice?))
      && !(binder && x.Call? && x.head.Word?)
    case Bind(name, params, gap, rest) =>
      && WordOk(name) && (binder || name in ["fn", "lambda"]) && FineAll(params, false, false)
      && GapOk(gap, commas) && (gap == "" ==> rest.Nil?) && FineAll(rest, commas, false)
  }

  // ---- attribute tokens ----

  lemma {:induction false} SegmentsCount(t: string, seg: string)
    ensures |Segments(t, seg)| == Count(t, {'.'}) + 1
    decreases |t|
  {
    if t != "" {
      SegmentsCount(t[1..], if t[0] == '.' then "" else seg + [t[0]]);
    }
  }

  lemma {:induction false} DotCounted(t: string)
    ensures Count(t, {'.'}) > 0 <==> '.' in t
  {
    if t != "" {
      DotCounted(t[1..]);
      assert t == [t[0]] + t[1..];
    }
  }

  predicate DotAt(t: string, k: nat)
    requires 1 <= k < |t| - 1
  {
    t[k] == '.' ==> t[k - 1] !in ".0123456789" && t[k + 1] !in ".0123456789"
  }

  lemma DigitExact(c: char)
    ensures c in ".0123456789" <==> c == '.' || IsDigit(c)
  {
  }

  lemma {:induction false} DotsExact(t: string, k: nat)
    requires 1 <= k <= |t|
    ensures DotsOk(t, k) <==> forall i | k <= i < |t| - 1 :: DotAt(t, i)
    decreases |t| - k
  {
    if k + 1 < |t| {
      DotsExact(t, k + 1);
      DigitExact(t[k - 1]);
      DigitExact(t[k + 1]);
      assert DotsOk(t, k) <==> DotAt(t, k) && DotsOk(t, k + 1);
      hide DotAt;
    }
  }

  /** The tokens that the reader takes apart are exactly the paths. */
  lemma AttributeExact(t: string)
    ensures AttrSegments(t) != [] <==> Attribute(t)
    ensures AttrSegments(t) != [] ==> AttrSegments(t) == Segments(t, "")
  {
    hide Segments, Count;
    SegmentsCount(t, "");
    DotCounted(t);
    if |t| >= 1 {
      DotsExact(t, 1);
    }
    if Attribute(t) {
      var k :| 0 <= k < |t| && t[k] == '.';
      forall i | 1 <= i < |t| - 1 ensures DotAt(t, i) {
      }
      assert t[|t| - 1] != '.';
    }
    if IsAttr(t) {
      forall k | 0 <= k < |t| && t[k] == '.'
        ensures 0 < k < |t| - 1 && t[k - 1] !in ".0123456789" && t[k + 1] !in ".0123456789" {
        assert DotAt(t, k);
      }
    }
  }

  lemma {:induction false} SegmentsPass(a: string, rest: string, seg: string)
    requires '.' !in a
    ensures Segments(a + rest, seg) == Segments(rest, seg + a)
    decreases |a|
  {
    if a == "" {
      assert a + rest == rest && seg + a == seg;
    } else {
      SegmentsPass(a[1..], rest, seg + [a[0]]);
      assert (a + rest)[0] == a[0] && (a + rest)[1..] == a[1..] + rest;
      assert seg + [a[0]] + a[1..] == seg + a;
    }
  }

  lemma {:induction false} DotsSegments(names: seq<string>)
    requires names != [] && forall i | 0 <= i < |names| :: '.' !in names[i]
    ensures Segments(Dots(names), "") == names
  {
    var a := names[0];
    if |names| == 1 {
      SegmentsPass(a, "", "");
      assert a + "" == a && "" + a == a;
    } else {
      DotsSegments(names[1..]);
      var rest := "." + Dots(names[1..]);
      SegmentsPass(a, rest, "");
      assert Dots(names) == a + rest && rest[1..] == Dots(names[1..]) && "" + a == a;
    }
  }

  lemma PathSegments(names: seq<string>)
    requires PathOk(names)
    ensures names != [] && AttrSegments(Dots(names)) == names && |names| >= 2
    ensures SymToken(Dots(names)) && Name(Dots(names)) == Atom(Dots(names))
  {
    hide Token, Attribute, Dots, Segments;
    AttributeExact(Dots(names));
    PathToken(Dots(names));
    DotsNone();
    DotsSegments(names);
    AdderCounts.SegsMany(Dots(names));
  }

  lemma DotsNone()
    ensures !Attribute(Dots([]))
  {
  }

  lemma PathToken(t: string)
    requires Token(t) && Attribute(t)
    ensures SymToken(t) && Name(t) == Atom(t)
  {
    hide SymText, StrBody, Count;
    assert '.' !in "true" && '.' !in "false";
  }

  // ---- the chain of a path ----

  lemma {:induction false} ChainReads(names: seq<string>)
    requires names != []
    ensures ReadChain(names) == Chain(names)
  {
    if |names| > 1 {
      ChainReads(Front(names));
    }
  }

  predicate NoDots(names: seq<string>) {
    forall i | 0 <= i < |names| :: '.' !in names[i]
  }

  /** What has no path in it stays. */
  lemma NamePlain(t: string)
    requires !Attribute(t)
    ensures Desugar(Name(t)) == Name(t) && AttrSegments(Name(t).text) == []
  {
    AttributeExact(t);
    AttributeExact("t");
    AttributeExact("nil");
  }

  lemma LiteralPlain(t: string)
    requires t == "" || t[0] == '"' || t[0] == '#'
    ensures Desugar(Atom(t)) == Atom(t)
  {
    AttributeExact(t);
  }

  lemma UndottedPlain(t: string)
    requires '.' !in t
    ensures Desugar(Atom(t)) == Atom(t)
  {
    AttributeExact(t);
  }

  lemma UndottedWord(t: string)
    requires '.' !in t
    ensures !Attribute(t)
  {
  }

  /** Trees, one by one, expanded. */
  predicate Spells(raw: seq<Form>, meant: seq<Form>) {
    |raw| == |meant| && forall i | 0 <= i < |raw| :: Desugar(raw[i]) == meant[i]
  }

  lemma ListSpells(raw: seq<Form>, meant: seq<Form>)
    requires Spells(raw, meant)
    ensures Desugar(List(raw)) == List(meant)
  {
    assert Desugar(List(raw)).kids == meant;
  }

  lemma SpellsMore(a: seq<Form>, a': seq<Form>, b: seq<Form>, b': seq<Form>)
    requires Spells(a, a') && Spells(b, b')
    ensures Spells(a + b, a' + b')
  {
    hide Desugar;
  }

  lemma SpellsOne(f: Form)
    ensures Spells([f], [Desugar(f)])
  {
  }

  lemma HeadSpells(head: string, raw: seq<Form>, meant: seq<Form>)
    requires Spells(raw, meant) && '.' !in head
    ensures Spells([Atom(head)] + raw, [Atom(head)] + meant)
    ensures Desugar(List([Atom(head)] + raw)) == List([Atom(head)] + meant)
  {
    hide Desugar, Spells;
    UndottedPlain(head);
    SpellsOne(Atom(head));
    SpellsMore([Atom(head)], [Atom(head)], raw, meant);
    ListSpells([Atom(head)] + raw, [Atom(head)] + meant);
  }

  lemma {:induction false} ChainStays(names: seq<string>)
    requires NoDots(names)
    ensures Desugar(Chain(names)) == Chain(names)
  {
    if names == [] {
      LiteralPlain("");
    } else if |names| == 1 {
      NamePlain(names[0]);
    } else {
      ChainStays(Front(names));
      var q := "\"" + Last(names) + "\"";
      assert q[0] == '"';
      LiteralPlain(q);
      var all := [Chain(Front(names)), Atom(q)];
      ListSpells(all, all);
    }
  }

  lemma MarkSpells(m: Sign, f: Form)
    ensures Desugar(Marking(m, f)) == Marking(m, Desugar(f))
  {
    hide Desugar, Spells;
    SpellsOne(f);
    var head := Marking(m, f).kids[0].text;
    HeadSpells(head, [f], [Desugar(f)]);
    assert [Atom(head)] + [f] == [Atom(head), f] && [Atom(head)] + [Desugar(f)] == [Atom(head), Desugar(f)];
  }

  lemma FnSpells(raw: seq<Form>, meant: seq<Form>)
    requires Spells(raw, meant)
    ensures Desugar(Bracketing(Square, raw)) == Bracketing(Square, meant)
  {
    hide Desugar, Spells;
    ListSpells(raw, meant);
    UndottedPlain("_");
    UndottedPlain("fn");
    SpellsOne(Atom("_"));
    ListSpells([Atom("_")], [Atom("_")]);
    ThreeSpells(Atom("fn"), List([Atom("_")]), List(raw));
  }

  lemma ThreeSpells(f: Form, g: Form, h: Form)
    ensures Desugar(List([f, g, h])) == List([Desugar(f), Desugar(g), Desugar(h)])
  {
    ListSpells([f, g, h], [Desugar(f), Desugar(g), Desugar(h)]);
  }

  lemma BracketSpells(b: Bracket, raw: seq<Form>, meant: seq<Form>)
    requires Spells(raw, meant)
    ensures Desugar(Bracketing(b, raw)) == Bracketing(b, meant)
  {
    hide Desugar, Spells;
    match b
    case Round => ListSpells(raw, meant);
    case Square => FnSpells(raw, meant);
    case Brace => HeadSpells("hash-map", raw, meant);
    case Vector => HeadSpells("vector", raw, meant);
    case HashSet => HeadSpells("hash-set", raw, meant);
    case ListFor => HeadSpells("lfor", raw, meant);
    case GenFor => HeadSpells("gfor", raw, meant);
    case SetFor => HeadSpells("sfor", raw, meant);
    case DictFor => HeadSpells("dfor", raw, meant);
  }

  /** Expanding what was read gives the tree with its paths expanded. */
  lemma {:induction false} TermSpells(x: Term)
    requires Fine(x)
    ensures Desugar(Tree(x, false)) == Tree(x, true)
  {
    hide Desugar, Spells, Token, Attribute;
    match x
    case Word(t) => NamePlain(t);
    case Path(names) => PathSpells(names);
    case Bytes(t) =>
      LiteralPlain(t);
      SpellsOne(Atom(t));
      HeadSpells("string->blob", [Atom(t)], [Atom(t)]);
      assert [Atom("string->blob")] + [Atom(t)] == [Atom("string->blob"), Atom(t)];
    case Mark(m, y) =>
      TermSpells(y);
      MarkSpells(m, Tree(y, false));
    case Group(b, xs) =>
      TermsSpell(xs, CloseChar(b) == '}', false);
      BracketSpells(b, Trees(xs, false), Trees(xs, true));
    case Call(h, args, more) =>
      TermsSpell(args, false, false);
      TermSpells(h);
      HeadsSpell(h);
      SpellsMore(Heads(h, false), Heads(h, true), Trees(args, false), Trees(args, true));
      ListSpells(Heads(h, false) + Trees(args, false), Heads(h, true) + Trees(args, true));
      AppliedSpells(List(Heads(h, false) + Trees(args, false)), more);
  }

  /** What a call puts first. */
  function Heads(h: Term, chains: bool): seq<Form> {
    if h.Path? && h.names != [] then [Name(Last(h.names)), Chain(Front(h.names))] else [Tree(h, chains)]
  }

  lemma PathSpells(names: seq<string>)
    requires PathOk(names)
    ensures Desugar(Atom(Dots(names))) == Chain(names)
  {
    hide Token, Attribute, Dots;
    PathSegments(names);
    ChainReads(names);
  }

  lemma HeadsSpell(h: Term)
    requires Fine(h) && Desugar(Tree(h, false)) == Tree(h, true)
    ensures Spells(Heads(h, false), Heads(h, true))
  {
    hide Desugar, Token, Attribute, Chain;
    if h.Path? {
      PathSegments(h.names);
      var last := Last(h.names);
      UndottedWord(last);
      NamePlain(last);
      ChainStays(Front(h.names));
    } else {
      SpellsOne(Tree(h, false));
    }
  }

  lemma {:induction false} AppliedSpells(f: Form, gs: Groups)
    requires FineGroups(gs)
    ensures Desugar(Applied(f, gs, false)) == Applied(Desugar(f), gs, true)
    decreases gs
  {
    hide Desugar, Spells;
    match gs
    case Done =>
    case Again(args, more) =>
      TermsSpell(args, false, false);
      SpellsOne(f);
      SpellsMore([f], [Desugar(f)], Trees(args, false), Trees(args, true));
      ListSpells([f] + Trees(args, false), [Desugar(f)] + Trees(args, true));
      AppliedSpells(List([f] + Trees(args, false)), more);
  }

  lemma {:induction false} TermsSpell(xs: Terms, commas: bool, binder: bool)
    requires FineAll(xs, commas, binder)
    ensures Spells(Trees(xs, false), Trees(xs, true))
  {
    hide Desugar, Spells, Tree;
    match xs
    case Nil => SpellsNone();
    case Cons(x, _, rest) =>
      TermSpells(x);
      SpellsOne(Tree(x, false));
      TermsSpell(rest, commas, Binds(x));
      SpellsMore([Tree(x, false)], [Tree(x, true)], Trees(rest, false), Trees(rest, true));
    case Bind(name, params, _, rest) =>
      NamePlain(name);
      TermsSpell(params, false, false);
      ListSpells(Trees(params, false), Trees(params, true));
      var f, g := Name(name), List(Trees(params, false));
      TwoSpell(f, g);
      TermsSpell(rest, commas, false);
      SpellsMore([f, g], [Desugar(f), Desugar(g)], Trees(rest, false), Trees(rest, true));
  }

  lemma SpellsNone()
    ensures Spells([], [])
  {
  }

  lemma TwoSpell(f: Form, g: Form)
    ensures Spells([f, g], [Desugar(f), Desugar(g)])
  {
  }
}
