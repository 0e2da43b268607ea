/**
 How many blanks stand between two tokens: where the reader stands when a text ends and a blank follows, and what a
 wider gap there does to the forms.
 */
module AdderBlanks {
  import opened Wrappers
  import opened AdderForms
  import opened AdderCounts
  import opened AdderReader

  predicate Blanks(s: string) {
    forall c | c in s :: IsBlank(c)
  }

  predicate Gap(p: string) {
    p != "" && Blanks(p)
  }

  /** The text goes on with a blank. */
  predicate Led(u: string) {
    u != "" && IsBlank(u[0])
  }

  // ---- where the reader stands ----

  datatype Place =
    | Free                 // outside literals
    | InText               // in a string literal, which the blanks become part of
    | Waiting(bare: bool)  // after `#\`, whose character the first blank is; not bare behind a quote
    | AtChar(glues: bool)  // the same among other forms: does the literal head a call when `(` stands next to it?

  /** Does the string literal that `s` continues end in `s`? */
  predicate Closes(s: string) {
    if s == "" then false
    else if s[0] == '\\' then |s| >= 2 && Closes(s[2..])
    else s[0] == '"' || Closes(s[1..])
  }

  predicate AfterBinder(out: seq<Form>) {
    out != [] && Binder(Last(out))
  }

  /** Reading one form of `v`: where the reader stands at the end of `v`, or none if the form is complete there. */
  function OnePlace(v: string): Option<Place>
    decreases |v|, 0
  {
    if v == "" then Some(Free)
    else if v[0] in "{([" then FormsPlace(v[1..], Closer(v), [])
    else if v[0] == '"' then (if Closes(v[1..]) then None else Some(InText))
    else if v[0] in "'`," then
      match OnePlace(SkipBlanks(v[PrefixLength(v)..], false))
      case Some(Waiting(_)) => Some(Waiting(false))
      case at => at
    else if |v| >= 2 && v[0] == '#' && v[1] == '\\' then (if |v| == 2 then Some(Waiting(true)) else None)
    else if Opener(v) > 0 then FormsPlace(v[Opener(v)..], Closer(v), [])
    else if |v| >= 3 && v[0] == '#' && v[1] == 'b' && v[2] == '"' then (if Closes(v[3..]) then None else Some(InText))
    else None
  }

  /** Reading forms of `v` up to the closing character, after `out`. */
  function FormsPlace(v: string, term: string, out: seq<Form>): (r: Option<Place>)
    requires |term| <= 1
    ensures r.Some? ==> !r.value.Waiting?
    decreases |v|, 2
  {
    var t := SkipBlanks(v, term == "}");
    if t == "" then Some(Free)
    else if term == [t[0]] then None
    else
      match OnePlace(t)
      case Some(Waiting(bare)) => Some(AtChar(bare && !AfterBinder(out)))
      case Some(at) => Some(at)
      case None => RestPlace(ReadOne(t).0, ReadOne(t).1, term, out)
  }

  /** What is read after form `f`, `r` being the text behind it. */
  function RestPlace(f: Form, r: string, term: string, out: seq<Form>): (p: Option<Place>)
    requires |term| <= 1
    ensures p.Some? ==> !p.value.Waiting?
    decreases |r|, 3
  {
    if f.Atom? && r != "" && r[0] == '(' then
      var at := FormsPlace(r[1..], ")", []);
      if at.Some? then at else
      ArgsPlace(f, ReadForms(r[1..], ")", []).0, ReadForms(r[1..], ")", []).1, term, out)
    else FormsPlace(r, term, out + [f])
  }

  /** The same after its arguments, `r` being the text behind them. */
  function ArgsPlace(f: Form, args: seq<Form>, r: string, term: string, out: seq<Form>): (p: Option<Place>)
    requires |term| <= 1 && f.Atom?
    ensures p.Some? ==> !p.value.Waiting?
    decreases |r|, 3
  {
    if TakesList(f, out) then FormsPlace(r, term, out + [f, List(args)])
    else
      var at := CallsPlace(r);
      if at.Some? then at else
      var more := ReadCalls(CallOf(f, args), r);
      FormsPlace(more.1, term, out + [more.0])
  }

  function CallsPlace(v: string): (r: Option<Place>)
    ensures r.Some? ==> !r.value.Waiting?
    decreases |v|, 0
  {
    if v != "" && v[0] == '(' then
      var at := FormsPlace(v[1..], ")", []);
      if at.Some? then at else CallsPlace(ReadForms(v[1..], ")", []).1)
    else None
  }

  function PrefixLength(v: string): (n: nat)
    requires v != ""
    ensures 0 < n <= |v|
  {
    if v[0] == ',' && |v| >= 2 && v[1] == '@' then 2 else 1
  }

  /** Is `(` right after this token a list of its own? */
  predicate TakesList(f: Form, out: seq<Form>)
    requires f.Atom?
  {
    AttrSegments(f.text) == [] && (AfterBinder(out) || SelfBinder(f))
  }

  function CallOf(f: Form, args: seq<Form>): (r: Form)
    requires f.Atom?
    ensures r.List?
  {
    var segs := AttrSegments(f.text);
    if segs == [] then List([f] + args) else
    SegsMany(f.text);
    List([AtomOf(Last(segs)), ReadChain(Front(segs))] + args)
  }

  /** Where the reader of a line stands at the end of `v`. */
  function LinePlace(v: string): Place {
    var at := FormsPlace(v, "", []);
    if at.Some? then at.value else Free
  }

  // ---- the reader, one form at a time ----

  /** What `ReadForms` does after form `f`. */
  function Go(f: Form, r: string, term: string, out: seq<Form>): (seq<Form>, string)
    requires |term| <= 1
  {
    if f.Atom? && r != "" && r[0] == '(' then
      AfterArgs(f, ReadForms(r[1..], ")", []).0, ReadForms(r[1..], ")", []).1, term, out)
    else ReadForms(r, term, out + [f])
  }

  /** What it does after form `f` and its arguments. */
  function AfterArgs(f: Form, args: seq<Form>, r: string, term: string, out: seq<Form>): (seq<Form>, string)
    requires |term| <= 1 && f.Atom?
  {
    if TakesList(f, out) then ReadForms(r, term, out + [f, List(args)])
    else
      var more := ReadCalls(CallOf(f, args), r);
      ReadForms(more.1, term, out + [more.0])
  }

  lemma FormsGo(s: string, term: string, out: seq<Form>)
    requires |term| <= 1
    ensures var t := SkipBlanks(s, term == "}");
            ReadForms(s, term, out)
            == if t == "" then (out, "") else if term == [t[0]] then (out, t[1..])
               else Go(ReadOne(t).0, ReadOne(t).1, term, out)
  {
    hide SkipBlanks, ReadOne, ReadCalls, Binder, SelfBinder, AttrSegments;
  }

  lemma OneString(t: string)
    requires t != ""
    ensures t[0] == '"' ==> var n := 1 + StrEnd(t[1..]); ReadOne(t) == (AtomOf(t[..n]), t[n..])
  {
  }

  predicate BlobLit(t: string) {
    |t| >= 3 && t[0] == '#' && t[1] == 'b' && t[2] == '"'
  }

  lemma OneBlob(t: string)
    ensures BlobLit(t) ==> var n := 3 + StrEnd(t[3..]);
        ReadOne(t) == (List([Atom("string->blob"), AtomOf(t[2..n])]), t[n..])
  {
  }

  lemma CallsStep(call: Form, s: string)
    ensures ReadCalls(call, s)
            == if s != "" && s[0] == '(' then
                 ReadCalls(List([call] + ReadForms(s[1..], ")", []).0), ReadForms(s[1..], ")", []).1)
               else (call, s)
  {
    hide ReadForms;
  }

  lemma {:induction false} SkipGap(p: string, z: string, comma: bool)
    requires Blanks(p)
    ensures SkipBlanks(p + z, comma) == SkipBlanks(z, comma)
  {
    if p == "" {
      assert p + z == z;
    } else {
      assert p[0] in p && (p + z)[1..] == p[1..] + z;
      SkipGap(p[1..], z, comma);
    }
  }

  /** Reading forms looks only at the text without its leading blanks. */
  lemma {:induction false} SkipTwice(s: string, comma: bool)
    ensures SkipBlanks(SkipBlanks(s, comma), comma) == SkipBlanks(s, comma)
  {
    if s != "" && (IsBlank(s[0]) || (comma && s[0] == ',')) {
      SkipTwice(s[1..], comma);
    }
  }

  lemma FormsSkip(s: string, t: string, term: string, out: seq<Form>)
    requires |term| <= 1 && SkipBlanks(s, term == "}") == SkipBlanks(t, term == "}")
    ensures ReadForms(s, term, out) == ReadForms(t, term, out)
  {
    hide SkipBlanks, ReadForms, Go;
    FormsGo(s, term, out);
    FormsGo(t, term, out);
  }

  /** A text with more than blanks keeps what follows. */
  lemma {:induction false} SkipMore(v: string, u: string, comma: bool)
    requires SkipBlanks(v, comma) != ""
    ensures SkipBlanks(v + u, comma) == SkipBlanks(v, comma) + u
  {
    if IsBlank(v[0]) || (comma && v[0] == ',') {
      SkipMore(v[1..], u, comma);
      assert (v + u)[1..] == v[1..] + u;
    }
  }

  lemma {:induction false} SkipNothing(v: string, u: string, comma: bool)
    requires SkipBlanks(v, comma) == ""
    ensures SkipBlanks(v + u, comma) == SkipBlanks(u, comma)
  {
    if v == "" {
      assert v + u == u;
    } else {
      SkipNothing(v[1..], u, comma);
      assert (v + u)[1..] == v[1..] + u;
    }
  }

  lemma Ahead(v: string, u: string, i: nat)
    requires i <= |v|
    ensures (v + u)[i..] == v[i..] + u && (v + u)[..i] == v[..i]
    ensures forall j | 0 <= j < |v| :: (v + u)[j] == v[j]
  {
  }

  lemma {:induction false} StrEndCloses(v: string, u: string)
    requires Closes(v)
    ensures StrEnd(v + u) == StrEnd(v) <= |v|
    decreases |v|
  {
    if v[0] == '\\' {
      StrEndCloses(v[2..], u);
      assert (v + u)[2..] == v[2..] + u;
    } else if v[0] != '"' {
      StrEndCloses(v[1..], u);
      assert (v + u)[1..] == v[1..] + u;
    }
  }

  lemma {:induction false} TokEndLed(v: string, u: string)
    requires Led(u)
    ensures TokEnd(v + u) == TokEnd(v)
  {
    if v == "" {
      assert v + u == u;
    } else if !IsDelim(v[0]) {
      assert (v + u)[1..] == v[1..] + u;
      TokEndLed(v[1..], u);
    }
  }

  /** A token's first characters look the same before a blank as on their own. */
  lemma SymbolStart(v: string, u: string)
    requires v != "" && Led(u)
    ensures var s := v + u;
            && (|v| != 2 ==> (|s| >= 3 && s[0] == '#' && s[1] == '\\' <==> |v| >= 3 && v[0] == '#' && v[1] == '\\'))
            && (|v| == 2 ==> (|s| >= 3 && s[0] == '#' && s[1] == '\\' <==> v[0] == '#' && v[1] == '\\'))
            && Opener(s) == Opener(v) <= |v|
            && (|s| >= 3 && s[0] == '#' && s[1] == 'b' && s[2] == '"'
              <==> |v| >= 3 && v[0] == '#' && v[1] == 'b' && v[2] == '"')
            && (Opener(v) > 0 ==> OpenerHead(s) == OpenerHead(v) && s[Opener(s) - 1] == v[Opener(v) - 1])
            && PrefixLength(s) == PrefixLength(v)
  {
    var s := v + u;
    assert s[0] == v[0];
    assert |v| == 1 ==> s[1] == u[0];
    assert |v| == 2 ==> s[1] == v[1] && s[2] == u[0];
    assert |v| >= 3 ==> s[1] == v[1] && s[2] == v[2];
  }

  // ---- forms that are complete before the gap ----

  lemma {:induction false} OneWhole(v: string, u: string)
    requires OnePlace(v).None? && Led(u)
    ensures ReadOne(v + u) == (ReadOne(v).0, ReadOne(v).1 + u)
    decreases |v|, 0
  {
    hide Opener, StrEnd, Closes, TokEnd, SkipBlanks, ReadForms, OpenerHead, FormsPlace;
    SymbolStart(v, u);
    Ahead(v, u, 0);
    if v[0] in "{([" {
      BracketWhole(v, u);
    } else if v[0] == '"' {
      StringWhole(v, u);
    } else if v[0] in "'`," {
      PrefixWhole(v, u);
    } else if |v| >= 2 && v[0] == '#' && v[1] == '\\' {
      Ahead(v, u, 3);
    } else if Opener(v) > 0 {
      BracketWhole(v, u);
    } else if |v| >= 3 && v[0] == '#' && v[1] == 'b' && v[2] == '"' {
      BlobWhole(v, u);
    } else {
      TokenWhole(v, u);
    }
  }

  lemma StringWhole(v: string, u: string)
    requires v != "" && v[0] == '"' && Closes(v[1..])
    ensures ReadOne(v + u) == (ReadOne(v).0, ReadOne(v).1 + u)
  {
    hide StrEnd, Closes, ReadOne, AtomOf;
    StrEndCloses(v[1..], u);
    Ahead(v, u, 0);
    Ahead(v, u, 1);
    Ahead(v, u, 1 + StrEnd(v[1..]));
    OneString(v);
    OneString(v + u);
  }

  lemma BlobWhole(v: string, u: string)
    requires BlobLit(v) && Closes(v[3..])
    ensures ReadOne(v + u) == (ReadOne(v).0, ReadOne(v).1 + u)
  {
    hide StrEnd, Closes, ReadOne, AtomOf;
    StrEndCloses(v[3..], u);
    Ahead(v, u, 0);
    Ahead(v, u, 3);
    Ahead(v, u, 3 + StrEnd(v[3..]));
    OneBlob(v);
    OneBlob(v + u);
    assert (v + u)[2..3 + StrEnd(v[3..])] == v[2..3 + StrEnd(v[3..])];
  }

  lemma TokenWhole(v: string, u: string)
    requires v != "" && Led(u) && v[0] !in "{([\"'`," && !(|v| >= 2 && v[0] == '#' && v[1] == '\\')
    requires Opener(v) == 0 && !(|v| >= 3 && v[0] == '#' && v[1] == 'b' && v[2] == '"')
    ensures ReadOne(v + u) == (ReadOne(v).0, ReadOne(v).1 + u)
  {
    hide Opener, TokEnd, ReadForms;
    SymbolStart(v, u);
    TokEndLed(v, u);
    Ahead(v, u, 0);
    Ahead(v, u, if TokEnd(v) == 0 then 1 else TokEnd(v));
  }

  lemma {:induction false} PrefixWhole(v: string, u: string)
    requires v != "" && v[0] in "'`," && OnePlace(v).None? && Led(u)
    ensures ReadOne(v + u) == (ReadOne(v).0, ReadOne(v).1 + u)
    decreases |v|, 0, 0
  {
    hide SkipBlanks, ReadForms, FormsPlace;
    SymbolStart(v, u);
    var n := PrefixLength(v);
    Ahead(v, u, n);
    Ahead(v, u, 0);
    var s := SkipBlanks(v[n..], false);
    SkipMore(v[n..], u, false);
    OneWhole(s, u);
  }

  lemma {:induction false} BracketWhole(v: string, u: string)
    requires Bracketed(v) && OnePlace(v).None? && Led(u)
    ensures ReadOne(v + u) == (ReadOne(v).0, ReadOne(v).1 + u)
    decreases |v|, 0, 0
  {
    hide ReadForms, ReadOne, FormsPlace, OnePlace;
    SymbolStart(v, u);
    BracketPlace(v);
    assert (v + u)[0] == v[0];
    BracketSame(v, u);
    BracketReads(v);
    BracketReads(v + u);
    Ahead(v, u, Skip(v));
    FormsWhole(v[Skip(v)..], u, Closer(v), []);
  }

  lemma BracketPlace(v: string)
    requires Bracketed(v)
    ensures 0 < Skip(v) <= |v| && OnePlace(v) == FormsPlace(v[Skip(v)..], Closer(v), [])
    ensures |Closer(v)| == 1 && Closer(v)[0] in ")]}"
  {
    hide FormsPlace;
  }

  lemma BracketSame(v: string, u: string)
    requires Bracketed(v) && Led(u)
    ensures Bracketed(v + u) && Skip(v + u) == Skip(v) && Closer(v + u) == Closer(v)
    ensures v[0] !in "{([" ==> OpenerHead(v + u) == OpenerHead(v)
  {
    SymbolStart(v, u);
    assert (v + u)[0] == v[0];
  }

  lemma {:induction false} FormsWhole(v: string, u: string, term: string, out: seq<Form>)
    requires |term| <= 1 && FormsPlace(v, term, out).None? && Led(u)
    ensures ReadForms(v + u, term, out) == (ReadForms(v, term, out).0, ReadForms(v, term, out).1 + u)
    decreases |v|, 2
  {
    hide SkipBlanks, ReadOne, OnePlace, RestPlace, Go, ReadForms, Binder;
    var comma := term == "}";
    var t := SkipBlanks(v, comma);
    FormsGo(v, term, out);
    FormsGo(v + u, term, out);
    SkipMore(v, u, comma);
    Ahead(t, u, 1);
    if term != [t[0]] {
      OneWhole(t, u);
      RestWhole(ReadOne(t).0, ReadOne(t).1, u, term, out);
    }
  }

  lemma {:induction false} RestWhole(f: Form, r: string, u: string, term: string, out: seq<Form>)
    requires |term| <= 1 && RestPlace(f, r, term, out).None? && Led(u)
    ensures Go(f, r + u, term, out) == (Go(f, r, term, out).0, Go(f, r, term, out).1 + u)
    decreases |r|, 3
  {
    hide ReadForms, FormsPlace, ArgsPlace, AfterArgs;
    assert r == "" ==> (r + u)[0] == u[0];
    if f.Atom? && r != "" && r[0] == '(' {
      Ahead(r, u, 1);
      FormsWhole(r[1..], u, ")", []);
      ArgsWhole(f, ReadForms(r[1..], ")", []).0, ReadForms(r[1..], ")", []).1, u, term, out);
    } else {
      assert r != "" ==> (r + u)[0] == r[0];
      FormsWhole(r, u, term, out + [f]);
    }
  }

  lemma {:induction false} ArgsWhole(f: Form, args: seq<Form>, r: string, u: string, term: string, out: seq<Form>)
    requires |term| <= 1 && f.Atom? && ArgsPlace(f, args, r, term, out).None? && Led(u)
    ensures AfterArgs(f, args, r + u, term, out)
            == (AfterArgs(f, args, r, term, out).0, AfterArgs(f, args, r, term, out).1 + u)
    decreases |r|, 3
  {
    hide ReadForms, ReadCalls, FormsPlace, CallsPlace, TakesList, CallOf;
    if TakesList(f, out) {
      FormsWhole(r, u, term, out + [f, List(args)]);
    } else {
      CallsWhole(CallOf(f, args), r, u);
      var more := ReadCalls(CallOf(f, args), r);
      FormsWhole(more.1, u, term, out + [more.0]);
    }
  }

  lemma {:induction false} CallsWhole(call: Form, v: string, u: string)
    requires CallsPlace(v).None? && Led(u)
    ensures ReadCalls(call, v + u) == (ReadCalls(call, v).0, ReadCalls(call, v).1 + u)
    decreases |v|, 0
  {
    hide ReadForms, FormsPlace;
    CallsStep(call, v);
    CallsStep(call, v + u);
    assert v == "" ==> (v + u)[0] == u[0];
    if v != "" && v[0] == '(' {
      Ahead(v, u, 1);
      FormsWhole(v[1..], u, ")", []);
      var args := ReadForms(v[1..], ")", []);
      CallsWhole(List([call] + args.0), args.1, u);
    } else {
      assert v != "" ==> (v + u)[0] == v[0];
    }
  }
}
