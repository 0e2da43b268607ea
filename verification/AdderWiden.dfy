/** What the width of a gap does to the forms of a line, and when it does nothing. */
module AdderWiden {
  import opened Wrappers
  import opened AdderForms
  import opened AdderBlanks
  import opened AdderCounts
  import opened AdderReader

  /** Do gaps `p` and `q` before `z` read the same, the reader standing at `at`? */
  predicate Alike(at: Place, p: string, q: string, z: string) {
    match at
    case Free => true
    case InText => p == q
    case Waiting(_) => true
    case AtChar(glues) => !glues || z == "" || z[0] != '(' || (|p| == 1 <==> |q| == 1)
  }

  // ---- forms that stay different ----

  /** A literal, or a list: no symbol. */
  predicate Solid(f: Form) {
    f.Atom? ==> f.text != "" && f.text[0] in "\"#"
  }

  /** The first form is no name that a line's head is known by. */
  predicate NoKeyword(f: Form) {
    f.Atom? ==> f.text !in ["if", "when", "unless", "macro", "defmacro"]
  }

  predicate HeadsAgree(a: seq<Form>, b: seq<Form>) {
    a != [] && b != [] && (a[0] == b[0] || (NoKeyword(a[0]) && NoKeyword(b[0])))
  }

  /** Two different forms of one kind, with the same head or heads that mean nothing to a line. */
  predicate Unlike(f: Form, g: Form) {
    && f != g && f.List? == g.List?
    && (if f.Atom? then Solid(f) && Solid(g) else HeadsAgree(f.kids, g.kids))
  }

  /** Two forms that desugar to different ones. */
  predicate Far(f: Form, g: Form) {
    Solid(f) && Solid(g) && f.List? == g.List? && Unlike(Desugar(f), Desugar(g))
  }

  /** The forms are the same but for one. */
  ghost predicate Twins(a: seq<Form>, b: seq<Form>) {
    |a| == |b| && exists i: nat {:trigger TwinsAt(a, b, i)} :: TwinsAt(a, b, i)
  }

  predicate TwinsAt(a: seq<Form>, b: seq<Form>, i: nat)
    requires |a| == |b|
  {
    i < |a| && Far(a[i], b[i]) && forall j | 0 <= j < |a| && j != i :: a[j] == b[j]
  }

  /** A literal, and lists next to it that are its argument groups. */
  function Called(c: Form, ls: seq<Form>): (r: Form)
    requires ls != [] && forall l | l in ls :: l.List?
    ensures r.List?
  {
    if |ls| == 1 then List([c] + ls[0].kids) else List([Called(c, Front(ls))] + Last(ls).kids)
  }

  /** In `a` the lists after the literal stand on their own, in `b` the literal is called with them. */
  predicate SplitAt(a: seq<Form>, b: seq<Form>, o: seq<Form>, c: Form, ls: seq<Form>, m: seq<Form>) {
    && c.Atom? && Solid(c) && ls != [] && (forall l | l in ls :: l.List?)
    && a == o + [c] + ls + m && b == o + [Called(c, ls)] + m
  }

  ghost predicate Split(a: seq<Form>, b: seq<Form>) {
    exists o, c, ls, m :: SplitAt(a, b, o, c, ls, m)
  }

  ghost predicate FarAll(a: seq<Form>, b: seq<Form>) {
    Twins(a, b) || Split(a, b) || Split(b, a)
  }

  lemma UnlikeSym(f: Form, g: Form)
    requires Unlike(f, g)
    ensures Unlike(g, f)
  {
  }

  lemma FarSym(f: Form, g: Form)
    requires Far(f, g)
    ensures Far(g, f)
  {
    UnlikeSym(Desugar(f), Desugar(g));
  }

  lemma DesugarSolid(f: Form)
    requires Solid(f)
    ensures Solid(Desugar(f)) && Desugar(f).List? == f.List? && NoKeyword(Desugar(f)) && NoKeyword(f)
    ensures f.Atom? ==> Desugar(f) == f && AttrSegments(f.text) == []
  {
  }

  lemma DesugarList(fs: seq<Form>)
    ensures Desugar(List(fs)).List? && |Desugar(List(fs)).kids| == |fs|
    ensures forall i | 0 <= i < |fs| :: Desugar(List(fs)).kids[i] == Desugar(fs[i])
  {
  }

  lemma FarKids(a: seq<Form>, b: seq<Form>)
    requires FarAll(a, b)
    ensures Far(List(a), List(b))
  {
    hide Desugar, Far, Called;
    DesugarList(a);
    DesugarList(b);
    if Twins(a, b) {
      TwinKids(a, b);
    } else if Split(a, b) {
      SplitKids(a, b);
    } else {
      SplitKids(b, a);
      FarSym(List(b), List(a));
    }
  }

  lemma TwinKids(a: seq<Form>, b: seq<Form>)
    requires Twins(a, b)
    ensures Far(List(a), List(b))
  {
    hide Desugar, NoKeyword;
    var i: nat :| TwinsAt(a, b, i);
    DesugarList(a);
    DesugarList(b);
    DesugarSolid(a[i]);
    DesugarSolid(b[i]);
    assert Desugar(List(a)).kids[i] != Desugar(List(b)).kids[i];
    if i > 0 {
      assert a[0] == b[0];
    }
  }

  lemma SplitKids(a: seq<Form>, b: seq<Form>)
    requires Split(a, b)
    ensures Far(List(a), List(b))
  {
    hide Desugar, NoKeyword, Called;
    var o, c, ls, m :| SplitAt(a, b, o, c, ls, m);
    DesugarList(a);
    DesugarList(b);
    assert |a| == |b| + |ls|;
    if o == [] {
      assert a[0] == c && b[0] == Called(c, ls);
      DesugarSolid(a[0]);
      DesugarSolid(b[0]);
    } else {
      assert a[0] == o[0] && b[0] == o[0];
    }
  }

  /** Forms around two that differ. */
  lemma FarIn(pre: seq<Form>, f: Form, g: Form, post: seq<Form>)
    requires Far(f, g)
    ensures FarAll(pre + [f] + post, pre + [g] + post)
  {
    hide Far;
    assert TwinsAt(pre + [f] + post, pre + [g] + post, |pre|);
  }

  lemma FarAfter(pre: seq<Form>, a: seq<Form>, b: seq<Form>)
    requires FarAll(a, b)
    ensures FarAll(pre + a, pre + b)
  {
    hide Far, Called;
    if Twins(a, b) {
      var i: nat :| TwinsAt(a, b, i);
      assert TwinsAt(pre + a, pre + b, |pre| + i);
    } else if Split(a, b) {
      SplitAfter(pre, a, b);
    } else {
      SplitAfter(pre, b, a);
    }
  }

  lemma SplitAfter(pre: seq<Form>, a: seq<Form>, b: seq<Form>)
    requires Split(a, b)
    ensures Split(pre + a, pre + b)
  {
    hide Called;
    var o, c, ls, m :| SplitAt(a, b, o, c, ls, m);
    assert SplitAt(pre + a, pre + b, pre + o, c, ls, m);
  }

  // ---- what is read after forms that differ ----

  /** What follows depends on what came before only through a binder. */
  lemma {:induction false} TailSame(s: string, term: string, o1: seq<Form>, o2: seq<Form>) returns (m: seq<Form>)
    requires |term| <= 1 && AfterBinder(o1) == AfterBinder(o2)
    ensures ReadForms(s, term, o1).0 == o1 + m && ReadForms(s, term, o2).0 == o2 + m
    ensures ReadForms(s, term, o1).1 == ReadForms(s, term, o2).1
    decreases |s|, 0
  {
    hide SkipBlanks, ReadOne, ReadForms, ReadCalls, Go, CallOf, SelfBinder, Binder, AttrSegments;
    FormsGo(s, term, o1);
    FormsGo(s, term, o2);
    var t := SkipBlanks(s, term == "}");
    m := [];
    if t != "" && term != [t[0]] {
      m := GoSame(ReadOne(t).0, ReadOne(t).1, term, o1, o2);
    }
  }

  lemma {:induction false} GoSame(f: Form, r: string, term: string, o1: seq<Form>, o2: seq<Form>)
      returns (m: seq<Form>)
    requires |term| <= 1 && AfterBinder(o1) == AfterBinder(o2)
    ensures Go(f, r, term, o1).0 == o1 + m && Go(f, r, term, o2).0 == o2 + m
    ensures Go(f, r, term, o1).1 == Go(f, r, term, o2).1
    decreases |r|, 1
  {
    hide ReadForms, ReadCalls, CallOf, SelfBinder, Binder, AttrSegments;
    if f.Atom? && r != "" && r[0] == '(' {
      var args := ReadForms(r[1..], ")", []);
      if TakesList(f, o1) {
        m := TailSame(args.1, term, o1 + [f, List(args.0)], o2 + [f, List(args.0)]);
        m := [f, List(args.0)] + m;
      } else {
        var more := ReadCalls(CallOf(f, args.0), args.1);
        m := TailSame(more.1, term, o1 + [more.0], o2 + [more.0]);
        m := [more.0] + m;
      }
    } else {
      m := TailSame(r, term, o1 + [f], o2 + [f]);
      m := [f] + m;
    }
  }

  lemma FarFirst(c1: Form, c2: Form, args: seq<Form>)
    requires Far(c1, c2)
    ensures Far(List([c1] + args), List([c2] + args))
  {
    hide Far;
    FarIn([], c1, c2, args);
    assert [] + [c1] + args == [c1] + args && [] + [c2] + args == [c2] + args;
    FarKids([c1] + args, [c2] + args);
  }

  lemma {:induction false} CallsFar(c1: Form, c2: Form, s: string)
    requires Far(c1, c2) && c1.List? && c2.List?
    ensures Far(ReadCalls(c1, s).0, ReadCalls(c2, s).0) && ReadCalls(c1, s).1 == ReadCalls(c2, s).1
    ensures ReadCalls(c1, s).0.List? && ReadCalls(c2, s).0.List?
    decreases |s|
  {
    hide ReadForms, Far;
    CallsStep(c1, s);
    CallsStep(c2, s);
    if s != "" && s[0] == '(' {
      var args := ReadForms(s[1..], ")", []);
      FarFirst(c1, c2, args.0);
      CallsFar(List([c1] + args.0), List([c2] + args.0), args.1);
    }
  }

  /** No literal and no list is a binder. */
  lemma SolidBinds(out: seq<Form>, f: Form)
    requires Solid(f)
    ensures !AfterBinder(out + [f]) && (f.Atom? ==> !SelfBinder(f))
  {
    assert Last(out + [f]) == f;
  }

  /** Two forms that differ, and the same text after them. */
  lemma TailFar(f: Form, g: Form, r: string, term: string, out: seq<Form>)
    requires |term| <= 1 && Far(f, g)
    ensures var a, b := ReadForms(r, term, out + [f]), ReadForms(r, term, out + [g]);
            FarAll(a.0, b.0) && a.1 == b.1
  {
    SolidBinds(out, f);
    SolidBinds(out, g);
    hide ReadForms, Far, AfterBinder;
    var m := TailSame(r, term, out + [f], out + [g]);
    FarIn(out, f, g, m);
  }

  lemma GoFar(f: Form, g: Form, r: string, term: string, out: seq<Form>)
    requires |term| <= 1 && Far(f, g)
    ensures FarAll(Go(f, r, term, out).0, Go(g, r, term, out).0) && Go(f, r, term, out).1 == Go(g, r, term, out).1
  {
    hide ReadForms, ReadCalls, Unlike, Desugar, AttrSegments, SelfBinder, FarAll;
    DesugarSolid(f);
    DesugarSolid(g);
    SolidBinds(out, f);
    SolidBinds(out, g);
    if f.Atom? && r != "" && r[0] == '(' {
      var args := ReadForms(r[1..], ")", []);
      if AfterBinder(out) {
        ListBinds(out + [f], List(args.0));
        ListBinds(out + [g], List(args.0));
        var m := TailSame(args.1, term, out + [f, List(args.0)], out + [g, List(args.0)]);
        FarIn(out, f, g, [List(args.0)] + m);
        assert out + [f] + ([List(args.0)] + m) == out + [f, List(args.0)] + m;
        assert out + [g] + ([List(args.0)] + m) == out + [g, List(args.0)] + m;
      } else {
        FarFirst(f, g, args.0);
        CallsFar(List([f] + args.0), List([g] + args.0), args.1);
        var more := ReadCalls(List([f] + args.0), args.1);
        TailFar(more.0, ReadCalls(List([g] + args.0), args.1).0, more.1, term, out);
      }
    } else {
      TailFar(f, g, r, term, out);
    }
  }

  lemma ListBinds(out: seq<Form>, f: Form)
    requires f.List?
    ensures !AfterBinder(out + [f]) && forall g :: AfterBinder(out + [g, f]) == false
  {
    assert forall g :: Last(out + [g, f]) == f;
  }

  // ---- a literal next to `(`, and one apart from it ----

  lemma CallEnd(c: Form, ls: seq<Form>, l: Form)
    requires l.List? && forall k | k in ls :: k.List?
    ensures Called(c, ls + [l]) == if ls == [] then List([c] + l.kids) else List([Called(c, ls)] + l.kids)
  {
    assert Front(ls + [l]) == ls && Last(ls + [l]) == l;
  }

  /** The argument groups that a call takes, read as lists instead. */
  lemma {:induction false} GroupsApart(c: Form, ls: seq<Form>, s: string, term: string, out: seq<Form>)
      returns (ls': seq<Form>)
    requires |term| <= 1 && (term != "" ==> term[0] in ")]}") && ls != [] && forall l | l in ls :: l.List?
    ensures ls' != [] && forall l | l in ls' :: l.List?
    ensures var more := ReadCalls(Called(c, ls), s);
            more.0 == Called(c, ls') && ReadForms(s, term, out + ls) == ReadForms(more.1, term, out + ls')
    decreases |s|
  {
    hide ReadForms, Called, SkipBlanks;
    CallsStep(Called(c, ls), s);
    ls' := ls;
    if s != "" && s[0] == '(' {
      var args := ReadForms(s[1..], ")", []);
      OpenList(s, term, out + ls);
      CallEnd(c, ls, List(args.0));
      assert out + ls + [List(args.0)] == out + (ls + [List(args.0)]);
      ls' := GroupsApart(c, ls + [List(args.0)], args.1, term, out);
    }
  }

  /** A list that stands on its own. */
  lemma OpenList(s: string, term: string, out: seq<Form>)
    requires |term| <= 1 && (term != "" ==> term[0] in ")]}") && s != "" && s[0] == '('
    ensures var args := ReadForms(s[1..], ")", []);
            ReadForms(s, term, out) == ReadForms(args.1, term, out + [List(args.0)])
  {
    hide ReadForms;
    FormsGo(s, term, out);
    assert SkipBlanks(s, term == "}") == s;
    var args := ReadForms(s[1..], ")", []);
    assert ReadOne(s) == (List(args.0), args.1);
  }

  lemma GluedApart(c: Form, z: string, term: string, out: seq<Form>)
    requires |term| <= 1 && (term != "" ==> term[0] in ")]}") && z != "" && z[0] == '(' && c.Atom? && Solid(c)
    ensures var a, b := ReadForms(z, term, out + [c]), Go(c, z, term, out);
            a.1 == b.1 && (if AfterBinder(out) then a.0 == b.0 else FarAll(a.0, b.0))
  {
    hide ReadForms, Called, Desugar, AttrSegments, SelfBinder, FarAll;
    DesugarSolid(c);
    SolidBinds(out, c);
    OpenList(z, term, out + [c]);
    var args := ReadForms(z[1..], ")", []);
    var l := List(args.0);
    assert out + [c] + [l] == out + [c, l];
    if !AfterBinder(out) {
      CallEnd(c, [], l);
      assert [] + [l] == [l];
      var ls := GroupsApart(c, [l], args.1, term, out + [c]);
      var more := ReadCalls(Called(c, [l]), args.1);
      ListsBind(out + [c], ls);
      ListBinds(out, more.0);
      var m := TailSame(more.1, term, out + [c] + ls, out + [more.0]);
      SplitFar(out, c, ls, m);
    }
  }

  lemma ListsBind(out: seq<Form>, ls: seq<Form>)
    requires ls != [] && forall l | l in ls :: l.List?
    ensures !AfterBinder(out + ls)
  {
    assert Last(out + ls) == Last(ls) && Last(ls) in ls;
  }

  lemma SplitFar(o: seq<Form>, c: Form, ls: seq<Form>, m: seq<Form>)
    requires c.Atom? && Solid(c) && ls != [] && forall l | l in ls :: l.List?
    ensures FarAll(o + [c] + ls + m, o + [Called(c, ls)] + m)
  {
    assert SplitAt(o + [c] + ls + m, o + [Called(c, ls)] + m, o, c, ls, m);
  }

  // ---- reading through the gap ----

  predicate Gaps(p: string, q: string) {
    Gap(p) && Gap(q) && p[0] == q[0]
  }

  lemma GapLed(p: string, z: string)
    requires Gap(p)
    ensures Led(p + z)
  {
    assert p[0] in p && (p + z)[0] == p[0];
  }

  /** One form, read through either gap. */
  ghost predicate OneGoes(f: Form, g: Form, same: bool) {
    if same then f == g else Far(f, g)
  }

  ghost predicate AllGo(a: seq<Form>, b: seq<Form>, same: bool) {
    if same then a == b else FarAll(a, b)
  }

  lemma {:induction false} OneGap(v: string, p: string, q: string, z: string, at: Place)
    requires v != "" && Gaps(p, q) && OnePlace(v) == Some(at) && !at.Waiting?
    ensures var r, t := ReadOne(v + (p + z)), ReadOne(v + (q + z));
            OneGoes(r.0, t.0, Alike(at, p, q, z)) && r.1 == t.1
    decreases |v|, 0
  {
    hide OnePlace, FormsPlace, ReadOne, ReadForms, SkipBlanks, Opener, Closes, StrEnd, Far, Alike;
    OnePlaceIs(v);
    FreeAlike(p, q, z);
    if Bracketed(v) {
      BracketGap(v, p, q, z, at);
    } else if v[0] in "'`," {
      PrefixGap(v, p, q, z, at);
    } else if v[0] == '"' {
      LiteralGap(v, p, q, z);
    } else {
      BlobGap(v, p, q, z);
    }
  }

  /** A form that is not complete is a list, a quoted form, or a literal. */
  lemma OnePlaceIs(v: string)
    requires v != "" && OnePlace(v).Some? && !OnePlace(v).value.Waiting?
    ensures Bracketed(v) || v[0] in "'`,"
        || (v[0] == '"' && !Closes(v[1..]) && OnePlace(v) == Some(InText))
        || (v[0] !in "{([\"'`," && |v| >= 3 && v[0] == '#' && v[1] == 'b' && v[2] == '"' && Opener(v) == 0
            && !Closes(v[3..]) && OnePlace(v) == Some(InText))
  {
    hide FormsPlace, Closes;
  }

  lemma {:induction false} StrEndOpen(v: string, p: string, z: string)
    requires !Closes(v) && Gap(p)
    ensures StrEnd(v + (p + z)) == |v| + |p| + StrEnd(z)
    decreases |v|
  {
    var s := v + (p + z);
    if v == "" {
      assert s == p + z;
      StrEndBlanks(p, z);
    } else if v[0] == '\\' {
      if |v| == 1 {
        assert s[2..] == p[1..] + z;
        assert p[1..] != "" ==> forall c | c in p[1..] :: c in p;
        StrEndBlanks(p[1..], z);
      } else {
        assert s[2..] == v[2..] + (p + z);
        StrEndOpen(v[2..], p, z);
      }
    } else {
      assert s[1..] == v[1..] + (p + z);
      StrEndOpen(v[1..], p, z);
    }
  }

  lemma {:induction false} StrEndBlanks(p: string, z: string)
    requires Blanks(p)
    ensures StrEnd(p + z) == |p| + StrEnd(z)
  {
    if p == "" {
      assert p + z == z;
    } else {
      assert p[0] in p && (p + z)[1..] == p[1..] + z;
      StrEndBlanks(p[1..], z);
    }
  }

  /** Texts that differ in blanks in their middle only if the blanks differ. */
  lemma MiddleSame(v: string, p: string, q: string, y: string)
    ensures v + p + y == v + q + y <==> p == q
  {
    if v + p + y == v + q + y {
      var s := v + p + y;
      assert |p| == |q|;
      assert s[|v|..|v| + |p|] == p && (v + q + y)[|v|..|v| + |q|] == q;
    }
  }

  lemma LiteralText(t: string)
    requires t != "" && t[0] == '"'
    ensures AtomOf(t) == Atom(t) && Solid(Atom(t)) && Desugar(Atom(t)) == Atom(t)
  {
  }

  lemma LiteralGap(v: string, p: string, q: string, z: string)
    requires v != "" && v[0] == '"' && !Closes(v[1..]) && Gaps(p, q)
    ensures var r, t := ReadOne(v + (p + z)), ReadOne(v + (q + z));
            OneGoes(r.0, t.0, p == q) && r.1 == t.1
  {
    hide StrEnd, Closes;
    LiteralReads(v, p, z);
    LiteralReads(v, q, z);
    MiddleSame(v, p, q, z[..StrEnd(z)]);
    LiteralText(v + p + z[..StrEnd(z)]);
    LiteralText(v + q + z[..StrEnd(z)]);
  }

  /** A part of the text from before the gap to behind it, and what is left. */
  lemma Across(v: string, p: string, z: string, i: nat, m: nat)
    requires i <= |v| && m <= |z|
    ensures var s, n := v + (p + z), |v| + |p| + m; s[i..n] == v[i..] + p + z[..m] && s[n..] == z[m..]
    ensures i == 0 ==> (v + (p + z))[..|v| + |p| + m] == v + p + z[..m]
  {
  }

  lemma LiteralReads(v: string, p: string, z: string)
    requires v != "" && v[0] == '"' && !Closes(v[1..]) && Gap(p)
    ensures ReadOne(v + (p + z)) == (AtomOf(v + p + z[..StrEnd(z)]), z[StrEnd(z)..])
  {
    hide StrEnd, Closes, ReadOne, AtomOf;
    var s := v + (p + z);
    StrEndOpen(v[1..], p, z);
    Ahead(v, p + z, 0);
    Ahead(v, p + z, 1);
    OneString(s);
    Across(v, p, z, 0, StrEnd(z));
  }

  lemma BlobGap(v: string, p: string, q: string, z: string)
    requires |v| >= 3 && v[0] == '#' && v[1] == 'b' && v[2] == '"' && !Closes(v[3..]) && Opener(v) == 0 && Gaps(p, q)
    ensures var r, t := ReadOne(v + (p + z)), ReadOne(v + (q + z));
            OneGoes(r.0, t.0, p == q) && r.1 == t.1
  {
    hide StrEnd, Closes, Desugar;
    BlobReads(v, p, z);
    BlobReads(v, q, z);
    MiddleSame(v[2..], p, q, z[..StrEnd(z)]);
    var t, u := v[2..] + p + z[..StrEnd(z)], v[2..] + q + z[..StrEnd(z)];
    LiteralText(t);
    LiteralText(u);
    if p != q {
      var head := Atom("string->blob");
      FarIn([head], Atom(t), Atom(u), []);
      assert [head] + [Atom(t)] + [] == [head, Atom(t)] && [head] + [Atom(u)] + [] == [head, Atom(u)];
      FarKids([head, Atom(t)], [head, Atom(u)]);
    }
  }

  lemma BlobReads(v: string, p: string, z: string)
    requires |v| >= 3 && v[0] == '#' && v[1] == 'b' && v[2] == '"' && !Closes(v[3..]) && Opener(v) == 0 && Gap(p)
    ensures ReadOne(v + (p + z))
            == (List([Atom("string->blob"), AtomOf(v[2..] + p + z[..StrEnd(z)])]), z[StrEnd(z)..])
  {
    hide StrEnd, Closes, ReadOne, AtomOf;
    var s := v + (p + z);
    StrEndOpen(v[3..], p, z);
    Ahead(v, p + z, 0);
    Ahead(v, p + z, 3);
    OneBlob(s);
    Across(v, p, z, 2, StrEnd(z));
  }

  lemma {:induction false} PrefixGap(v: string, p: string, q: string, z: string, at: Place)
    requires v != "" && v[0] in "'`," && Gaps(p, q) && OnePlace(v) == Some(at) && !at.Waiting?
    ensures var r, t := ReadOne(v + (p + z)), ReadOne(v + (q + z));
            OneGoes(r.0, t.0, Alike(at, p, q, z)) && r.1 == t.1
    decreases |v|, 0, 0
  {
    hide SkipBlanks, ReadForms, FormsPlace, Far, Alike;
    PrefixReads(v, p, z);
    PrefixReads(v, q, z);
    var s := SkipBlanks(v[PrefixLength(v)..], false);
    if s == "" {
      SkipGap(p, z, false);
      SkipGap(q, z, false);
      FreeAlike(p, q, z);
    } else {
      OneGap(s, p, q, z, at);
      if !Alike(at, p, q, z) {
        FarQuoted(PrefixHead(v), ReadOne(s + (p + z)).0, ReadOne(s + (q + z)).0);
      }
    }
  }

  lemma FreeAlike(p: string, q: string, z: string)
    ensures Alike(Free, p, q, z) && (Alike(InText, p, q, z) <==> p == q)
  {
  }

  lemma FarQuoted(head: Form, f: Form, g: Form)
    requires Far(f, g)
    ensures Far(List([head, f]), List([head, g]))
  {
    hide Far;
    FarIn([head], f, g, []);
    assert [head] + [f] + [] == [head, f] && [head] + [g] + [] == [head, g];
    FarKids([head, f], [head, g]);
  }

  function PrefixHead(v: string): Form
    requires v != "" && v[0] in "'`,"
  {
    Atom(if v[0] == '\'' then "quote" else if v[0] == '`' then "quasiquote"
         else if PrefixLength(v) == 2 then "unquote-splicing" else "unquote")
  }

  /** A quoted form, the text going on with blanks. */
  lemma PrefixReads(v: string, p: string, z: string)
    requires v != "" && v[0] in "'`," && Gap(p)
    ensures var s := SkipBlanks(v[PrefixLength(v)..], false);
            var one := ReadOne(if s == "" then SkipBlanks(p + z, false) else s + (p + z));
            ReadOne(v + (p + z)) == (List([PrefixHead(v), one.0]), one.1)
  {
    hide SkipBlanks, ReadForms;
    GapLed(p, z);
    SymbolStart(v, p + z);
    var n := PrefixLength(v);
    Ahead(v, p + z, n);
    Ahead(v, p + z, 0);
    if SkipBlanks(v[n..], false) == "" {
      SkipNothing(v[n..], p + z, false);
    } else {
      SkipMore(v[n..], p + z, false);
    }
  }

  /** A character literal that takes the first blank, perhaps behind quotes. */
  lemma {:induction false} OneWaits(v: string, p: string, q: string, z: string, bare: bool) returns (f: Form)
    requires v != "" && Gaps(p, q) && OnePlace(v) == Some(Waiting(bare))
    ensures ReadOne(v + (p + z)) == (f, p[1..] + z) && ReadOne(v + (q + z)) == (f, q[1..] + z)
    ensures if bare then f == Atom("#\\" + [p[0]]) else f.List?
    decreases |v|
  {
    hide SkipBlanks, ReadForms, ReadOne, Opener, Closes, FormsPlace;
    WaitingIs(v, bare);
    if bare {
      LiteralWaits(p, z);
      LiteralWaits(q, z);
      f := Atom("#\\" + [p[0]]);
    } else {
      PrefixReads(v, p, z);
      PrefixReads(v, q, z);
      var g := OneWaits(SkipBlanks(v[PrefixLength(v)..], false), p, q, z, OnePlace(SkipBlanks(v[PrefixLength(v)..],
          false)).value.bare);
      f := List([PrefixHead(v), g]);
    }
  }

  lemma WaitingIs(v: string, bare: bool)
    requires v != "" && OnePlace(v) == Some(Waiting(bare))
    ensures bare ==> v == "#\\"
    ensures !bare ==> v[0] in "'`," && var s := SkipBlanks(v[PrefixLength(v)..], false);
              s != "" && OnePlace(s).Some? && OnePlace(s).value.Waiting?
  {
    hide SkipBlanks, FormsPlace, Closes;
  }

  lemma LiteralWaits(p: string, z: string)
    requires Gap(p)
    ensures ReadOne("#\\" + (p + z)) == (Atom("#\\" + [p[0]]), p[1..] + z)
  {
    var s := "#\\" + (p + z);
    assert s[0] == '#' && s[1] == '\\' && s[2] == p[0];
    assert s[..3] == "#\\" + [p[0]] && s[3..] == p[1..] + z;
  }

  lemma {:induction false} BracketGap(v: string, p: string, q: string, z: string, at: Place)
    requires Bracketed(v) && Gaps(p, q) && OnePlace(v) == Some(at) && !at.Waiting?
    ensures var r, t := ReadOne(v + (p + z)), ReadOne(v + (q + z));
            OneGoes(r.0, t.0, Alike(at, p, q, z)) && r.1 == t.1
    decreases |v|, 0, 0
  {
    hide ReadForms, ReadOne, FormsPlace, OnePlace, Far, FarAll, Alike;
    GapLed(p, z);
    GapLed(q, z);
    BracketPlace(v);
    BracketSame(v, p + z);
    BracketSame(v, q + z);
    BracketReads(v + (p + z));
    BracketReads(v + (q + z));
    Ahead(v, p + z, Skip(v));
    Ahead(v, q + z, Skip(v));
    assert (v + (p + z))[0] == v[0] && (v + (q + z))[0] == v[0];
    FormsGap(v[Skip(v)..], p, q, z, Closer(v), [], at);
    if !Alike(at, p, q, z) {
      var a := ReadForms(v[Skip(v)..] + (p + z), Closer(v), []).0;
      var b := ReadForms(v[Skip(v)..] + (q + z), Closer(v), []).0;
      FarKids(a, b);
      FarAfter([Atom(if v[0] in "{([" then "hash-map" else OpenerHead(v))], a, b);
      FarKids([Atom(if v[0] in "{([" then "hash-map" else OpenerHead(v))] + a,
              [Atom(if v[0] in "{([" then "hash-map" else OpenerHead(v))] + b);
      FarFn(a, b);
    }
  }

  lemma FarFn(a: seq<Form>, b: seq<Form>)
    requires Far(List(a), List(b))
    ensures Far(List([Atom("fn"), List([Atom("_")]), List(a)]), List([Atom("fn"), List([Atom("_")]), List(b)]))
  {
    hide Far;
    var pre := [Atom("fn"), List([Atom("_")])];
    FarIn(pre, List(a), List(b), []);
    assert pre + [List(a)] + [] == [Atom("fn"), List([Atom("_")]), List(a)];
    assert pre + [List(b)] + [] == [Atom("fn"), List([Atom("_")]), List(b)];
    FarKids(pre + [List(a)] + [], pre + [List(b)] + []);
  }

  lemma {:induction false} FormsGap(v: string, p: string, q: string, z: string, term: string, out: seq<Form>,
      at: Place)
    requires |term| <= 1 && (term != "" ==> term[0] in ")]}") && Gaps(p, q) && FormsPlace(v, term, out) == Some(at)
    ensures var a, b := ReadForms(v + (p + z), term, out), ReadForms(v + (q + z), term, out);
            AllGo(a.0, b.0, Alike(at, p, q, z)) && a.1 == b.1
    decreases |v|, 2
  {
    hide SkipBlanks, ReadForms, ReadOne, OnePlace, RestPlace, Go, AfterBinder, Far, FarAll, Alike;
    var comma := term == "}";
    var t := SkipBlanks(v, comma);
    if t == "" {
      SkipNothing(v, p + z, comma);
      SkipNothing(v, q + z, comma);
      SkipGap(p, z, comma);
      SkipGap(q, z, comma);
      FormsSkip(v + (p + z), v + (q + z), term, out);
      FreeAlike(p, q, z);
    } else {
      SkipMore(v, p + z, comma);
      SkipMore(v, q + z, comma);
      FormsGo(v + (p + z), term, out);
      FormsGo(v + (q + z), term, out);
      Ahead(t, p + z, 0);
      Ahead(t, q + z, 0);
      FormsOn(v, t, p, q, z, term, out, at);
    }
  }

  /** Once the leading blanks are skipped. */
  lemma {:induction false} FormsOn(v: string, t: string, p: string, q: string, z: string, term: string,
      out: seq<Form>, at: Place)
    requires |term| <= 1 && (term != "" ==> term[0] in ")]}") && Gaps(p, q) && FormsPlace(v, term, out) == Some(at)
    requires t == SkipBlanks(v, term == "}") && t != ""
    ensures var r, u := ReadOne(t + (p + z)), ReadOne(t + (q + z));
            var a, b := Go(r.0, r.1, term, out), Go(u.0, u.1, term, out);
            AllGo(a.0, b.0, Alike(at, p, q, z)) && a.1 == b.1
    decreases |v|, 1
  {
    hide SkipBlanks, ReadForms, ReadOne, OnePlace, RestPlace, Go, AfterBinder, Far, FarAll, Alike;
    match OnePlace(t)
    case Some(Waiting(bare)) =>
      var f := OneWaits(t, p, q, z, bare);
      WaitGap(f, p[0], p[1..], q[1..], z, term, out, bare);
      CharAlike(p, q, z, bare && !AfterBinder(out));
    case Some(spot) =>
      OneGap(t, p, q, z, spot);
      if !Alike(at, p, q, z) {
        GoFar(ReadOne(t + (p + z)).0, ReadOne(t + (q + z)).0, ReadOne(t + (p + z)).1, term, out);
      }
    case None =>
      GapLed(p, z);
      GapLed(q, z);
      OneWhole(t, p + z);
      OneWhole(t, q + z);
      GoGap(ReadOne(t).0, ReadOne(t).1, p, q, z, term, out, at);
  }

  lemma CharAlike(p: string, q: string, z: string, glues: bool)
    requires Gaps(p, q)
    ensures Alike(AtChar(glues), p, q, z) <==> !glues || z == "" || z[0] != '(' || (p[1..] == "" <==> q[1..] == "")
  {
  }

  /** What follows a character literal that took the first blank: more blanks, or none. */
  lemma WaitGap(f: Form, c: char, p: string, q: string, z: string, term: string, out: seq<Form>, bare: bool)
    requires |term| <= 1 && (term != "" ==> term[0] in ")]}") && Blanks(p) && Blanks(q)
    requires if bare then f == Atom("#\\" + [c]) else f.List?
    ensures var a, b := Go(f, p + z, term, out), Go(f, q + z, term, out);
            a.1 == b.1
            && AllGo(a.0, b.0, !(bare && !AfterBinder(out)) || z == "" || z[0] != '(' || (p == "" <==> q == ""))
  {
    hide Go, AfterBinder, FarAll;
    GoBlanks(f, p, z, term, out);
    GoBlanks(f, q, z, term, out);
    assert "" + z == z;
    if bare && z != "" && z[0] == '(' {
      GluedApart(f, z, term, out);
      FarAllSym(ReadForms(z, term, out + [f]).0, Go(f, z, term, out).0);
    }
  }

  lemma FarAllSym(a: seq<Form>, b: seq<Form>)
    ensures FarAll(a, b) ==> FarAll(b, a)
  {
    hide Far, Split;
    if Twins(a, b) {
      var i: nat :| TwinsAt(a, b, i);
      FarSym(a[i], b[i]);
      assert TwinsAt(b, a, i);
    }
  }

  lemma GoBlanks(f: Form, p: string, z: string, term: string, out: seq<Form>)
    requires |term| <= 1 && Blanks(p)
    ensures p != "" || z == "" || z[0] != '(' || f.List? ==> Go(f, p + z, term, out) == ReadForms(z, term, out + [f])
  {
    hide ReadForms;
    if p == "" {
      assert p + z == z;
    } else {
      assert p[0] in p && (p + z)[0] == p[0];
      SkipGap(p, z, term == "}");
      FormsSkip(p + z, z, term, out + [f]);
    }
    if f.List? {
      SkipGap(p, z, term == "}");
      FormsSkip(p + z, z, term, out + [f]);
    }
  }

  /** After a form that is complete, with the gap somewhere behind it. */
  lemma {:induction false} GoGap(f: Form, r: string, p: string, q: string, z: string, term: string, out: seq<Form>,
      at: Place)
    requires |term| <= 1 && (term != "" ==> term[0] in ")]}") && Gaps(p, q) && RestPlace(f, r, term, out) == Some(at)
    ensures var a, b := Go(f, r + (p + z), term, out), Go(f, r + (q + z), term, out);
            AllGo(a.0, b.0, Alike(at, p, q, z)) && a.1 == b.1
    decreases |r|, 3
  {
    hide ReadForms, FormsPlace, ArgsPlace, AfterArgs, Far, FarAll, Alike;
    GapLed(p, z);
    GapLed(q, z);
    assert r == "" ==> (r + (p + z))[0] == (p + z)[0] && (r + (q + z))[0] == (q + z)[0];
    Ahead(r, p + z, 0);
    Ahead(r, q + z, 0);
    if f.Atom? && r != "" && r[0] == '(' {
      Ahead(r, p + z, 1);
      Ahead(r, q + z, 1);
      if FormsPlace(r[1..], ")", []).Some? {
        FormsGap(r[1..], p, q, z, ")", [], at);
        var a, b := ReadForms(r[1..] + (p + z), ")", []), ReadForms(r[1..] + (q + z), ")", []);
        if !Alike(at, p, q, z) {
          ArgsFar(f, a.0, b.0, a.1, term, out);
        }
      } else {
        FormsWhole(r[1..], p + z, ")", []);
        FormsWhole(r[1..], q + z, ")", []);
        ArgsGap(f, ReadForms(r[1..], ")", []).0, ReadForms(r[1..], ")", []).1, p, q, z, term, out, at);
      }
    } else {
      FormsGap(r, p, q, z, term, out + [f], at);
    }
  }

  lemma CallHead(f: Form, a: seq<Form>, b: seq<Form>)
    requires f.Atom? && FarAll(a, b)
    ensures Far(CallOf(f, a), CallOf(f, b))
  {
    hide AttrSegments, Far, FarAll;
    var segs := AttrSegments(f.text);
    SegsMany(f.text);
    var pre := if segs != [] then [AtomOf(Last(segs)), ReadChain(Front(segs))] else [f];
    FarAfter(pre, a, b);
    FarKids(pre + a, pre + b);
  }

  /** Arguments that differ, and the same text after them. */
  lemma ArgsFar(f: Form, a: seq<Form>, b: seq<Form>, r: string, term: string, out: seq<Form>)
    requires |term| <= 1 && f.Atom? && FarAll(a, b)
    ensures var x, y := AfterArgs(f, a, r, term, out), AfterArgs(f, b, r, term, out);
            FarAll(x.0, y.0) && x.1 == y.1
  {
    hide ReadForms, ReadCalls, TakesList, CallOf, Far, FarAll;
    if TakesList(f, out) {
      FarKids(a, b);
      TailFar(List(a), List(b), r, term, out + [f]);
      assert out + [f] + [List(a)] == out + [f, List(a)] && out + [f] + [List(b)] == out + [f, List(b)];
    } else {
      CallHead(f, a, b);
      CallsFar(CallOf(f, a), CallOf(f, b), r);
      var more := ReadCalls(CallOf(f, a), r);
      TailFar(more.0, ReadCalls(CallOf(f, b), r).0, more.1, term, out);
    }
  }

  /** Arguments that are complete, with the gap somewhere behind them. */
  lemma {:induction false} ArgsGap(f: Form, args: seq<Form>, r: string, p: string, q: string, z: string, term: string,
      out: seq<Form>, at: Place)
    requires |term| <= 1 && (term != "" ==> term[0] in ")]}") && Gaps(p, q) && f.Atom?
    requires ArgsPlace(f, args, r, term, out) == Some(at)
    ensures var a, b := AfterArgs(f, args, r + (p + z), term, out), AfterArgs(f, args, r + (q + z), term, out);
            AllGo(a.0, b.0, Alike(at, p, q, z)) && a.1 == b.1
    decreases |r|, 3
  {
    hide ReadForms, ReadCalls, FormsPlace, CallsPlace, TakesList, CallOf, Far, FarAll, Alike;
    if TakesList(f, out) {
      FormsGap(r, p, q, z, term, out + [f, List(args)], at);
    } else if CallsPlace(r).Some? {
      CallsGap(CallOf(f, args), r, p, q, z, at);
      var x, y := ReadCalls(CallOf(f, args), r + (p + z)), ReadCalls(CallOf(f, args), r + (q + z));
      if !Alike(at, p, q, z) {
        TailFar(x.0, y.0, x.1, term, out);
      }
    } else {
      GapLed(p, z);
      GapLed(q, z);
      CallsWhole(CallOf(f, args), r, p + z);
      CallsWhole(CallOf(f, args), r, q + z);
      var more := ReadCalls(CallOf(f, args), r);
      FormsGap(more.1, p, q, z, term, out + [more.0], at);
    }
  }

  lemma {:induction false} CallsGap(call: Form, v: string, p: string, q: string, z: string, at: Place)
    requires Gaps(p, q) && CallsPlace(v) == Some(at) && call.List?
    ensures var x, y := ReadCalls(call, v + (p + z)), ReadCalls(call, v + (q + z));
            OneGoes(x.0, y.0, Alike(at, p, q, z)) && x.1 == y.1
    decreases |v|, 0
  {
    hide ReadForms, FormsPlace, Far, FarAll, Alike;
    CallsStep(call, v + (p + z));
    CallsStep(call, v + (q + z));
    Ahead(v, p + z, 0);
    Ahead(v, q + z, 0);
    Ahead(v, p + z, 1);
    Ahead(v, q + z, 1);
    if FormsPlace(v[1..], ")", []).Some? {
      FormsGap(v[1..], p, q, z, ")", [], at);
      var a, b := ReadForms(v[1..] + (p + z), ")", []), ReadForms(v[1..] + (q + z), ")", []);
      if !Alike(at, p, q, z) {
        FarAfter([call], a.0, b.0);
        FarKids([call] + a.0, [call] + b.0);
        CallsFar(List([call] + a.0), List([call] + b.0), a.1);
      }
    } else {
      GapLed(p, z);
      GapLed(q, z);
      FormsWhole(v[1..], p + z, ")", []);
      FormsWhole(v[1..], q + z, ")", []);
      var args := ReadForms(v[1..], ")", []);
      CallsGap(List([call] + args.0), args.1, p, q, z, at);
    }
  }

  // ---- a line ----

  /** Node of a line from forms that differ. */
  lemma NodeFar(a: seq<Form>, b: seq<Form>)
    requires FarAll(a, b)
    ensures Unlike(NodeOf(a), NodeOf(b))
  {
    hide NodeOf, Unlike, Far;
    if Twins(a, b) {
      NodeTwins(a, b);
    } else if Split(a, b) {
      NodeSplit(a, b);
    } else {
      NodeSplit(b, a);
      UnlikeSym(NodeOf(b), NodeOf(a));
    }
  }

  lemma FarUnlike(f: Form, g: Form)
    requires Far(f, g)
    ensures Unlike(Desugar(f), Desugar(g))
  {
  }

  lemma NodeTwins(a: seq<Form>, b: seq<Form>)
    requires Twins(a, b)
    ensures Unlike(NodeOf(a), NodeOf(b))
  {
    hide Desugar, Far, Unlike, Assignment;
    var i: nat :| TwinsAt(a, b, i);
    if |a| == 1 {
      FarUnlike(a[0], b[0]);
    } else {
      FarSolid(a[i], b[i]);
      assert Infix(a) <==> Infix(b);
      if Infix(a) {
        AssignTwins(a, b, i);
        FarUnlike(Assignment(a), Assignment(b));
      } else {
        FarKids(a, b);
        FarUnlike(List(a), List(b));
      }
    }
  }

  lemma FarSolid(f: Form, g: Form)
    requires Far(f, g)
    ensures Solid(f) && Solid(g) && f.List? == g.List?
  {
  }

  lemma AssignTwins(a: seq<Form>, b: seq<Form>, i: nat)
    requires |a| == |b| && TwinsAt(a, b, i) && Infix(a) && Infix(b)
    ensures Far(Assignment(a), Assignment(b))
  {
    hide Far, AttrSegments;
    FarSolid(a[i], b[i]);
    if i == 0 {
      if a[0].Atom? {
        DesugarSolid(a[0]);
        DesugarSolid(b[0]);
      }
      var rhs := if |a| == 3 then a[2] else List(a[2..]);
      assert a[2..] == b[2..];
      FarIn([a[1]], a[0], b[0], [rhs]);
      assert [a[1]] + [a[0]] + [rhs] == [a[1], a[0], rhs] && [a[1]] + [b[0]] + [rhs] == [a[1], b[0], rhs];
      FarKids([a[1], a[0], rhs], [a[1], b[0], rhs]);
    } else {
      if |a| > 3 {
        assert TwinsAt(a[2..], b[2..], i - 2);
        FarKids(a[2..], b[2..]);
      }
      AssignRight(a, b);
    }
  }

  /** Two assignments to the same place. */
  lemma AssignRight(a: seq<Form>, b: seq<Form>)
    requires Infix(a) && Infix(b) && a[..2] == b[..2]
    requires Far(if |a| == 3 then a[2] else List(a[2..]), if |b| == 3 then b[2] else List(b[2..]))
    ensures Far(Assignment(a), Assignment(b))
  {
    hide Far, AttrSegments;
    assert a[0] == a[..2][0] == b[0] && a[1] == a[..2][1] == b[1];
    var x := if |a| == 3 then a[2] else List(a[2..]);
    var y := if |b| == 3 then b[2] else List(b[2..]);
    var segs := if a[0].Atom? then AttrSegments(a[0].text) else [];
    if a[0].Atom? {
      SegsMany(a[0].text);
    }
    var pre := if segs != [] then [Atom("assoc!"), ReadChain(Front(segs)), Atom(Quoted(Last(segs)))] else [a[1], a[0]];
    FarIn(pre, x, y, []);
    assert pre + [x] + [] == pre + [x] && pre + [y] + [] == pre + [y];
    FarKids(pre + [x], pre + [y]);
    AssignIs(a, pre, x);
    AssignIs(b, pre, y);
  }

  lemma AssignIs(a: seq<Form>, pre: seq<Form>, x: Form)
    requires Infix(a) && x == if |a| == 3 then a[2] else List(a[2..])
    requires var segs := if a[0].Atom? then AttrSegments(a[0].text) else [];
             (segs != [] ==> |segs| >= 2)
             && pre == if segs != [] then [Atom("assoc!"), ReadChain(Front(segs)), Atom(Quoted(Last(segs)))]
                       else [a[1], a[0]]
    ensures Assignment(a) == List(pre + [x])
  {
    hide AttrSegments, ReadChain;
  }

  /** A call is not the list of its parts. */
  lemma CalledFar(c: Form, ls: seq<Form>)
    requires c.Atom? && Solid(c) && ls != [] && forall l | l in ls :: l.List?
    ensures Far(List([c] + ls), Called(c, ls))
  {
    hide NoKeyword, Solid;
    var call := Called(c, ls);
    DesugarList([c] + ls);
    DesugarList(call.kids);
    assert call == List(call.kids) && ([c] + ls)[0] == c;
    DesugarSolid(c);
    if |ls| == 1 {
      var k := ls[0].kids;
      assert ls[0] == List(k) && call.kids == [c] + k;
      if |k| == 1 {
        DesugarList(k);
        assert Desugar(call).kids[1] == Desugar(k[0]) && Desugar(List([c] + ls)).kids[1] == Desugar(ls[0]);
        assert Desugar(ls[0]).kids[0] == Desugar(k[0]);
        NotItself(Desugar(ls[0]));
      }
    } else {
      DesugarSolid(call.kids[0]);
    }
    ListSolid(call, List([c] + ls));
  }

  lemma ListSolid(f: Form, g: Form)
    requires f.List? && g.List?
    ensures Solid(f) && Solid(g)
  {
  }

  lemma NotItself(f: Form)
    requires f.List? && f.kids != []
    ensures f.kids[0] != f
  {
    assert f.kids[0] < f;
  }

  lemma NodeSplit(a: seq<Form>, b: seq<Form>)
    requires Split(a, b)
    ensures Unlike(NodeOf(a), NodeOf(b))
  {
    hide Desugar, Far, Unlike, Assignment, Called, NoKeyword;
    var o, c, ls, m :| SplitAt(a, b, o, c, ls, m);
    var call := Called(c, ls);
    assert |a| == |o| + 1 + |ls| + |m| && |b| == |o| + 1 + |m|;
    assert a[|o|] == c && a[|o| + 1] == ls[0] && b[|o|] == call && forall i | 0 <= i < |o| :: a[i] == b[i] == o[i];
    assert ls[0] in ls;
    if |b| == 1 {
      assert a == [c] + ls && b == [call];
      assert !Infix(a);
      CalledFar(c, ls);
      FarUnlike(List(a), call);
    } else if Infix(b) {
      SplitAssign(a, b, o, c, ls, m);
    } else {
      assert |o| >= 2 ==> a[1] == b[1];
      assert |o| == 1 ==> a[1] == c;
      assert !Infix(a);
      FarKids(a, b);
      FarUnlike(List(a), List(b));
    }
  }

  lemma SplitAssign(a: seq<Form>, b: seq<Form>, o: seq<Form>, c: Form, ls: seq<Form>, m: seq<Form>)
    requires SplitAt(a, b, o, c, ls, m) && Infix(b) && |a| >= 2
    ensures Unlike(NodeOf(a), NodeOf(b))
  {
    hide Desugar, Far, Unlike, Called, NoKeyword, AttrSegments;
    var call := Called(c, ls);
    assert a[|o|] == c && a[|o| + 1] == ls[0] && b[|o|] == call && forall i | 0 <= i < |o| :: a[i] == b[i] == o[i];
    assert ls[0] in ls;
    if |o| == 0 {
      assert !Infix(a);
      EqualsFirst(a, call, if |b| == 3 then b[2] else List(b[2..]));
      assert Assignment(b) == List([b[1], call, if |b| == 3 then b[2] else List(b[2..])]);
    } else {
      assert |o| >= 2;
      assert Infix(a) && a[..2] == o[..2] == b[..2];
      assert a[2..] == o[2..] + [c] + ls + m && b[2..] == o[2..] + [call] + m;
      if |b| == 3 {
        assert o[2..] == [] && m == [];
        assert a[2..] == [c] + ls && b[2] == call;
        CalledFar(c, ls);
      } else {
        assert SplitAt(a[2..], b[2..], o[2..], c, ls, m);
        FarKids(a[2..], b[2..]);
      }
      AssignRight(a, b);
      FarUnlike(Assignment(a), Assignment(b));
    }
  }

  lemma EqualsFirst(a: seq<Form>, call: Form, rhs: Form)
    requires |a| >= 2 && a[0].Atom? && Solid(a[0])
    ensures Unlike(Desugar(List(a)), Desugar(List([Atom("="), call, rhs])))
  {
    DesugarList(a);
    var b := [Atom("="), call, rhs];
    DesugarList(b);
    DesugarSolid(a[0]);
    assert AttrSegments("=") == [];
    assert Desugar(List(b)).kids[0] == Atom("=");
  }

  /** At the top of a line nothing closes. */
  lemma {:induction false} TopOpen(v: string, out: seq<Form>)
    ensures FormsPlace(v, "", out).Some?
    decreases |v|, 0
  {
    hide SkipBlanks, ReadOne, OnePlace, RestPlace, Binder;
    var t := SkipBlanks(v, false);
    if t != "" && OnePlace(t).None? {
      TopRest(ReadOne(t).0, ReadOne(t).1, out);
    }
  }

  lemma {:induction false} TopRest(f: Form, r: string, out: seq<Form>)
    ensures RestPlace(f, r, "", out).Some?
    decreases |r|, 1
  {
    hide ReadForms, ReadCalls, FormsPlace, CallsPlace, TakesList, CallOf;
    if f.Atom? && r != "" && r[0] == '(' {
      var args := ReadForms(r[1..], ")", []);
      if TakesList(f, out) {
        TopOpen(args.1, out + [f, List(args.0)]);
      } else {
        var more := ReadCalls(CallOf(f, args.0), args.1);
        TopOpen(more.1, out + [more.0]);
      }
    } else {
      TopOpen(r, out + [f]);
    }
  }

  /** A line's text reads the same with a gap of another width exactly where the gap's place allows it. */
  lemma LineGap(v: string, p: string, q: string, z: string)
    requires Gaps(p, q)
    ensures if Alike(LinePlace(v), p, q, z) then ReadLine(v + (p + z)) == ReadLine(v + (q + z))
            else Unlike(ReadLine(v + (p + z)), ReadLine(v + (q + z)))
  {
    hide ReadForms, NodeOf, FormsPlace, FarAll, Alike, Unlike;
    TopOpen(v, []);
    FormsGap(v, p, q, z, "", [], LinePlace(v));
    if !Alike(LinePlace(v), p, q, z) {
      NodeFar(ReadForms(v + (p + z), "", []).0, ReadForms(v + (q + z), "", []).0);
    }
  }
}
