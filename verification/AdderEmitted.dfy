/** The generated text, read: parentheses, one blank between elements, tokens, a line feed after each form. */
module AdderEmitted {
  import opened Wrappers
  import opened AdderForms
  import opened AdderInline
  import opened AdderLayout
  import opened AdderOutput
  import opened AdderRoundTrip
  import opened AdderSource
  import opened AdderText
  import P = AdderPrinter

  // ---- a reader of its own ----

  /** A string literal's characters behind its opening quote; 0 if it does not end. */
  function StringLength(s: string): (n: nat)
    ensures n <= |s|
  {
    if s == "" then 0
    else if s[0] == '"' then 1
    else
      var k := if s[0] == '\\' then 2 else 1;
      if |s| < k then 0 else
      var n := StringLength(s[k..]);
      if n == 0 then 0 else k + n
  }

  function SymbolLength(s: string): (n: nat)
    ensures n <= |s|
  {
    if s == "" || s[0] in " \t\n\r()\"" then 0 else 1 + SymbolLength(s[1..])
  }

  /** A string literal, a character literal or a symbol; 0 if there is none. */
  function TokenLength(s: string): (n: nat)
    ensures n <= |s|
  {
    if s == "" then 0
    else if s[0] == '"' then var n := StringLength(s[1..]); if n == 0 then 0 else 1 + n
    else if |s| >= 3 && s[0] == '#' && s[1] == '\\' then 3
    else SymbolLength(s)
  }

  /** One form at the start of the text, and what follows it. */
  function ReadForm(s: string): (r: Option<(Form, string)>)
    ensures r.Some? ==> |r.value.1| < |s|
    decreases |s|, 0
  {
    if s == "" then None
    else if s[0] == '(' then
      if |s| >= 2 && s[1] == ')' then Some((List([]), s[2..])) else
      match ReadElements(s[1..])
      case None => None
      case Some(l) => Some((List(l.0), l.1))
    else
      var n := TokenLength(s);
      if n == 0 then None else Some((Atom(s[..n]), s[n..]))
  }

  /** The elements up to the closing parenthesis, with one blank between them. */
  function ReadElements(s: string): (r: Option<(seq<Form>, string)>)
    ensures r.Some? ==> |r.value.1| < |s|
    decreases |s|, 1
  {
    match ReadForm(s)
    case None => None
    case Some(one) =>
      if one.1 == "" || one.1[0] !in " )" then None
      else if one.1[0] == ')' then Some(([one.0], one.1[1..]))
      else
        match ReadElements(one.1[1..])
        case None => None
        case Some(more) => Some(([one.0] + more.0, more.1))
  }

  /** Forms, each with a line feed after it. */
  function ReadFile(s: string): Option<seq<Form>>
    decreases |s|
  {
    if s == "" then Some([]) else
    match ReadForm(s)
    case None => None
    case Some(one) =>
      if one.1 == "" || one.1[0] != '\n' then None else
      match ReadFile(one.1[1..])
      case None => None
      case Some(more) => Some([one.0] + more)
  }

  // ---- forms of single tokens ----

  /** A string literal, a character literal, or a symbol without blanks, parentheses and quotes. */
  predicate Solo(t: string) {
    || StrOk(t) || IsCharLit(t)
    || (t != "" && !(|t| >= 2 && t[0] == '#' && t[1] == '\\') && forall c | c in t :: c !in " \t\n\r()\"")
  }

  predicate Solos(f: Form) {
    match f
    case Atom(t) => Solo(t)
    case List(kids) => forall i | 0 <= i < |kids| :: Solos(kids[i])
  }

  predicate AllSolo(fs: seq<Form>) {
    forall i | 0 <= i < |fs| :: Solos(fs[i])
  }

  /** What stands behind a form in the generated text. */
  predicate Ends(rest: string) {
    rest == "" || rest[0] in " )\n"
  }

  lemma {:induction false} StringEnds(b: string, rest: string)
    requires StrBody(b)
    ensures StringLength(b + "\"" + rest) == |b| + 1
    decreases |b|
  {
    var s := b + "\"" + rest;
    if b == "" {
      assert s[0] == '"';
    } else if b[0] == '\\' {
      StringEnds(b[2..], rest);
      assert s[2..] == b[2..] + "\"" + rest;
    } else {
      StringEnds(b[1..], rest);
      assert s[1..] == b[1..] + "\"" + rest;
    }
  }

  lemma {:induction false} SymbolEnds(t: string, rest: string)
    requires (forall c | c in t :: c !in " \t\n\r()\"") && Ends(rest)
    ensures SymbolLength(t + rest) == |t|
  {
    if t == "" {
      assert t + rest == rest;
    } else {
      assert t[0] in t && (t + rest)[0] == t[0] && (t + rest)[1..] == t[1..] + rest;
      assert forall c | c in t[1..] :: c in t;
      SymbolEnds(t[1..], rest);
    }
  }

  lemma TokenEnds(t: string, rest: string)
    requires Solo(t) && Ends(rest)
    ensures t != "" && t[0] != '(' && TokenLength(t + rest) == |t|
  {
    hide StrBody, SymbolLength, StringLength;
    var s := t + rest;
    if StrOk(t) {
      var b := t[1..|t| - 1];
      StringEnds(b, rest);
      assert s[0] == '"' && s[1..] == b + "\"" + rest;
    } else if IsCharLit(t) {
      assert s[0] == '#' && s[1] == '\\';
    } else {
      SymbolEnds(t, rest);
      assert s[0] == t[0] && t[0] in t;
      if |t| == 1 && rest != "" {
        assert s[1] == rest[0];
      } else if |t| >= 2 {
        assert s[1] == t[1];
      }
    }
  }

  // ---- what is written is read ----

  lemma AtomReads(t: string, rest: string)
    requires Solo(t) && Ends(rest)
    ensures ReadForm(t + rest) == Some((Atom(t), rest))
  {
    hide TokenLength, Solo;
    TokenEnds(t, rest);
    var s := t + rest;
    assert s[0] == t[0] && s[..|t|] == t && s[|t|..] == rest;
  }

  /** Elements' texts with one blank between them. */
  function Spaced(fs: seq<Form>): string
    requires fs != []
  {
    if |fs| == 1 then EmitText(fs[0]) else EmitText(fs[0]) + " " + Spaced(fs[1..])
  }

  lemma {:induction false} KidsSpaced(f: Form, k: nat)
    requires f.List? && k < |f.kids|
    ensures EmitKids(f, k) == (if k > 0 then " " else "") + Spaced(f.kids[k..])
    decreases |f.kids| - k
  {
    hide EmitText;
    var t, x := if k > 0 then " " else "", EmitText(f.kids[k]);
    assert f.kids[k..][0] == f.kids[k] && f.kids[k..][1..] == f.kids[k + 1..];
    if k + 1 == |f.kids| {
      assert EmitKids(f, k) == t + x + "" && t + x + "" == t + x;
    } else {
      KidsSpaced(f, k + 1);
      var more := Spaced(f.kids[k + 1..]);
      assert t + x + (" " + more) == t + (x + " " + more);
    }
  }

  lemma AtomText(t: string)
    ensures EmitText(Atom(t)) == t
  {
  }

  lemma ListText(kids: seq<Form>)
    ensures EmitText(List(kids)) == if kids == [] then "()" else "(" + Spaced(kids) + ")"
  {
    hide Spaced;
    if kids != [] {
      KidsSpaced(List(kids), 0);
      assert kids[0..] == kids && "" + Spaced(kids) == Spaced(kids);
    }
  }

  lemma {:induction false} TextReads(f: Form, rest: string)
    requires Solos(f) && Ends(rest)
    ensures ReadForm(EmitText(f) + rest) == Some((f, rest))
    decreases f, 1
  {
    hide ReadElements, TokenLength, Spaced, Solo, EmitText, ReadForm;
    match f
    case Atom(t) =>
      AtomReads(t, rest);
      AtomText(t);
    case List(kids) =>
      ListText(kids);
      if kids == [] {
        NilReads(rest);
      } else {
        ElementsRead(kids, rest);
        SpacedFirst(kids);
        ListReads(Spaced(kids), rest, kids);
      }
  }

  lemma NilReads(rest: string)
    ensures ReadForm("()" + rest) == Some((List([]), rest))
  {
    assert ("()" + rest)[2..] == rest;
  }

  lemma ListReads(inner: string, rest: string, kids: seq<Form>)
    requires inner != "" && inner[0] != ')' && ReadElements(inner + ")" + rest) == Some((kids, rest))
    ensures ReadForm("(" + inner + ")" + rest) == Some((List(kids), rest))
  {
    hide ReadElements;
    var s := "(" + inner + ")" + rest;
    assert s[1..] == inner + ")" + rest && s[1] == inner[0];
  }

  /** Elements do not start with a closing parenthesis. */
  lemma SpacedFirst(kids: seq<Form>)
    requires kids != [] && Solos(List(kids))
    ensures Spaced(kids) != "" && Spaced(kids)[0] != ')'
  {
    assert Solos(kids[0]);
    FirstChar(kids[0]);
  }

  lemma FirstChar(f: Form)
    requires Solos(f)
    ensures EmitText(f) != "" && EmitText(f)[0] != ')'
  {
    hide StrBody;
    if f.Atom? {
      TokenEnds(f.text, "");
      assert f.text[0] in f.text;
    }
  }

  lemma {:induction false} ElementsRead(kids: seq<Form>, rest: string)
    requires kids != [] && forall i | 0 <= i < |kids| :: Solos(kids[i])
    ensures ReadElements(Spaced(kids) + ")" + rest) == Some((kids, rest))
    decreases kids, 0
  {
    hide ReadForm, EmitText, Solos;
    var t := EmitText(kids[0]);
    assert kids == [kids[0]] + kids[1..];
    if |kids| == 1 {
      var more := ")" + rest;
      assert kids == [kids[0]];
      TextReads(kids[0], more);
      assert Spaced(kids) + ")" + rest == t + more && more[1..] == rest;
    } else {
      var more := Spaced(kids[1..]) + ")" + rest;
      TextReads(kids[0], " " + more);
      ElementsRead(kids[1..], rest);
      assert Spaced(kids) + ")" + rest == t + (" " + more) && (" " + more)[1..] == more;
    }
  }

  lemma FileStep(t: string, f: Form, more: string, fs: seq<Form>)
    requires ReadForm(t + ("\n" + more)) == Some((f, "\n" + more)) && ReadFile(more) == Some(fs)
    ensures ReadFile(t + ("\n" + more)) == Some([f] + fs)
  {
    hide ReadForm;
    assert ("\n" + more)[1..] == more;
  }

  lemma {:induction false} FileRead(fs: seq<Form>)
    requires AllSolo(fs)
    ensures ReadFile(EmitAll(fs)) == Some(fs)
  {
    hide ReadForm, EmitText, Solos, ReadFile;
    if fs == [] {
      NoForms();
    } else {
      var t, more := EmitText(fs[0]), EmitAll(fs[1..]);
      assert EmitAll(fs) == t + ("\n" + more);
      TextReads(fs[0], "\n" + more);
      FileRead(fs[1..]);
      FileStep(t, fs[0], more, fs[1..]);
      assert [fs[0]] + fs[1..] == fs;
    }
  }

  lemma NoForms()
    ensures ReadFile(EmitAll([])) == Some([])
  {
  }

  // ---- what is read is what was written ----

  lemma {:induction false} FormWritten(s: string)
    ensures ReadForm(s).Some? ==> s == EmitText(ReadForm(s).value.0) + ReadForm(s).value.1
    decreases |s|, 0
  {
    hide TokenLength, ReadElements, EmitText, EmitKids;
    var r := ReadForm(s);
    if r.Some? && s[0] == '(' {
      if s[1] == ')' {
        ListText([]);
        assert s == "()" + s[2..];
      } else {
        ElementsWritten(s[1..]);
        var l := ReadElements(s[1..]).value;
        ListText(l.0);
        assert s == "(" + s[1..] && s == "(" + Spaced(l.0) + ")" + l.1;
      }
    } else if r.Some? {
      var n := TokenLength(s);
      assert s == s[..n] + s[n..];
      AtomText(s[..n]);
    }
  }

  lemma {:induction false} ElementsWritten(s: string)
    ensures var r := ReadElements(s); r.Some? ==> r.value.0 != [] && s == Spaced(r.value.0) + (")" + r.value.1)
    decreases |s|, 1
  {
    hide ReadForm, EmitText;
    FormWritten(s);
    var r := ReadElements(s);
    if r.Some? {
      var one := ReadForm(s).value;
      assert one.1 == [one.1[0]] + one.1[1..];
      if one.1[0] == ' ' {
        ElementsWritten(one.1[1..]);
        var more := ReadElements(one.1[1..]).value;
        assert r.value.0[1..] == more.0;
        assert s == EmitText(one.0) + " " + Spaced(more.0) + (")" + more.1);
      }
    }
  }

  lemma {:induction false} FileWritten(s: string)
    ensures ReadFile(s).Some? ==> s == EmitAll(ReadFile(s).value)
    decreases |s|
  {
    hide ReadForm, EmitText;
    var r := ReadFile(s);
    if s != "" && r.Some? {
      FormWritten(s);
      var one := ReadForm(s).value;
      assert one.1 == "\n" + one.1[1..];
      FileWritten(one.1[1..]);
      assert r.value[1..] == ReadFile(one.1[1..]).value;
      assert s == EmitText(one.0) + "\n" + EmitAll(r.value[1..]);
    }
  }

  /** A text is what is written for forms of single tokens exactly if it is read as them. */
  lemma EmitExactly(fs: seq<Form>, s: string)
    requires AllSolo(fs)
    ensures s == EmitAll(fs) <==> ReadFile(s) == Some(fs)
  {
    hide ReadFile, EmitAll;
    FileRead(fs);
    FileWritten(s);
  }

  // ---- the round trip of text ----

  lemma TokenSolo(t: string)
    requires Token(t)
    ensures Solo(P.Canon(Atom(t)).text)
  {
    hide StrBody;
    if StrOk(t) {
      TokStr(t);
    } else if SymToken(t) {
      SymHead(t, "");
      SymbolChars(t);
    }
  }

  lemma {:induction false} SymbolChars(t: string)
    requires SymText(t)
    ensures forall c | c in t :: c !in " \t\n\r()\""
  {
    if t != "" {
      SymbolChars(t[1..]);
      assert t == [t[0]] + t[1..];
    }
  }

  lemma {:induction false} CanonSolo(f: Form)
    requires Tokens(f)
    ensures Solos(P.Canon(f))
  {
    hide Solo, Token;
    match f
    case Atom(t) => TokenSolo(t);
    case List(kids) =>
      forall i | 0 <= i < |kids| ensures Solos(P.Canons(f)[i]) {
        CanonSolo(kids[i]);
        SetfSolo();
      }
      assert P.Canon(f) == List(P.Canons(f));
  }

  lemma SetfSolo()
    ensures Solos(Atom("setf"))
  {
    assert Solo("setf");
  }

  /** What a file's lines hold are tokens. */
  lemma CanonsSolo(fs: seq<Form>)
    requires forall f | f in fs :: Tokens(f)
    ensures AllSolo(CanonAll(fs))
  {
    hide Tokens, Solos;
    forall i | 0 <= i < |fs| ensures Solos(CanonAll(fs)[i]) {
      CanonSolo(fs[i]);
    }
  }

  /** The generated text of any source whose forms are of single tokens is read as those forms, and as no others. */
  lemma GeneratedReads(src: string)
    requires AllSolo(Transpile(src).forms)
    ensures ReadFile(Generate(src).text) == Some(Transpile(src).forms)
  {
    hide Transpile, ReadFile, EmitAll;
    FileRead(Transpile(src).forms);
  }

  /** Printable trees that are printed, transpiled, written out and read are the trees again. */
  lemma GeneratedTrip(fs: seq<Form>)
    requires (forall f | f in fs :: Printable(f)) && Shallow(fs)
    ensures ReadFile(Generate(P.Convert(fs)).text) == Some(CanonAll(fs))
  {
    hide Transpile, ReadFile, EmitAll, P.Convert, Printable, Tokens, Shallow;
    RoundTrip(fs);
    forall f | f in fs ensures Tokens(f) {
      PrintableAtoms(f);
      AtomsLegible(f);
      LegibleTokens(f);
    }
    CanonsSolo(fs);
    GeneratedReads(P.Convert(fs));
  }
}
