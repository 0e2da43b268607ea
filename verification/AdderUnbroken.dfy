/** Line feeds get into a form from a literal that spans physical lines, and from nothing else. */
module AdderUnbroken {
  import opened Wrappers
  import opened AdderForms
  import opened AdderBlocks
  import opened AdderComments
  import opened AdderCounts
  import opened AdderHung
  import opened AdderReader
  import opened AdderSource
  import opened AdderOutput

  predicate AllUnbroken(fs: seq<Form>) {
    forall i | 0 <= i < |fs| :: Unbroken(fs[i])
  }

  lemma Listed(fs: seq<Form>)
    requires AllUnbroken(fs)
    ensures Unbroken(List(fs))
  {
  }

  // ---- a logical line ----

  lemma {:induction false} UnbrokenCount(f: Form)
    ensures Unbroken(f) <==> CountOf(f, {'\n'}) == 0
    decreases f, 1
  {
    match f
    case Atom(t) => FeedsNone(t);
    case List(kids) =>
      AllUnbrokenCount(kids);
      assert Unbroken(f) <==> AllUnbroken(kids);
  }

  lemma {:induction false} AllUnbrokenCount(fs: seq<Form>)
    ensures AllUnbroken(fs) <==> CountAll(fs, {'\n'}) == 0
    decreases fs, 0
  {
    hide Unbroken, CountOf;
    if fs != [] {
      UnbrokenCount(fs[0]);
      AllUnbrokenCount(fs[1..]);
      assert AllUnbroken(fs) <==> Unbroken(fs[0]) && AllUnbroken(fs[1..]) by {
        assert fs == [fs[0]] + fs[1..];
      }
    }
  }

  predicate WhatUnbroken(w: What) {
    match w
    case Else => true
    case Elif(c) => Unbroken(c)
    case Stmt(f, _) => Unbroken(f)
  }

  lemma BodyUnbroken(body: string)
    requires OneLine(body)
    ensures WhatUnbroken(ReadBody(body))
  {
    hide ReadBody, Unbroken, OneLine, CountOf;
    FeedsNone(body);
    BodyCount(body, {'\n'});
    match ReadBody(body)
    case Else =>
    case Elif(c) => UnbrokenCount(c);
    case Stmt(f, _) => UnbrokenCount(f);
  }

  // ---- the engine ----

  predicate ItemUnbroken(it: Item) {
    it.Val? ==> Unbroken(it.form)
  }

  predicate ItemsUnbroken(items: seq<Item>) {
    forall i | 0 <= i < |items| :: ItemUnbroken(items[i])
  }

  predicate EngineUnbroken(e: Engine) {
    ItemsUnbroken(e.roots) && forall p {:trigger e.arena[p]} | 0 <= p < |e.arena| :: ItemsUnbroken(e.arena[p].items)
  }

  lemma {:induction false} DecimalOneLine(n: nat)
    ensures OneLine(Decimal(n))
  {
    if n >= 10 {
      DecimalOneLine(n / 10);
    }
  }

  lemma FailUnbroken(e: Engine, line: nat, what: string)
    requires EngineUnbroken(e) && OneLine(what)
    ensures EngineUnbroken(Fail(e, line, what))
  {
    DecimalOneLine(line);
    var msg := "adder line " + Decimal(line) + ": " + what;
    var parts := [Atom("raise"), Atom("'syntax-error"), Atom("\"" + msg + "\"")];
    assert OneLine("\"" + msg + "\"");
    assert Unbroken(parts[0]) && Unbroken(parts[1]) && Unbroken(parts[2]);
    assert AllUnbroken(parts);
    Listed(parts);
    assert ItemUnbroken(Val(List(parts)));
  }

  lemma AddItemsUnbroken(e: Engine, id: nat, items: seq<Item>)
    requires EngineUnbroken(e) && id < |e.arena| && ItemsUnbroken(items)
    ensures EngineUnbroken(e.(arena := AddItems(e.arena, id, items)))
  {
    hide ItemUnbroken;
  }

  lemma NewUnbroken(e: Engine, node: Node)
    requires EngineUnbroken(e) && ItemsUnbroken(node.items)
    ensures EngineUnbroken(NewNode(e, node))
  {
    hide ItemsUnbroken;
  }

  lemma ValsUnbroken(fs: seq<Form>)
    requires AllUnbroken(fs)
    ensures ItemsUnbroken(Vals(fs))
  {
    hide Unbroken;
  }

  lemma AttachUnbroken(e: Engine, item: Item, line: nat)
    requires EngineUnbroken(e) && ItemUnbroken(item) && (e.stack != [] ==> Last(e.stack).node < |e.arena|)
    ensures EngineUnbroken(Attach(e, item, line))
  {
    hide ItemUnbroken;
    if e.stack != [] {
      assert ItemsUnbroken([item]);
      AddItemsUnbroken(e, Last(e.stack).node, [item]);
    }
  }

  lemma ArmUnbroken()
    ensures ItemsUnbroken(DO_ARM.items)
  {
    assert Unbroken(Atom("do"));
  }

  lemma AddArmUnbroken(e: Engine, n: nat, d: nat)
    requires EngineUnbroken(e) && n < |e.arena|
    ensures EngineUnbroken(AddArm(e, n, d))
  {
    assert ItemsUnbroken([Ref(d)]);
    AddItemsUnbroken(e, n, [Ref(d)]);
  }

  lemma StepArmUnbroken(e: Engine, indent: nat, number: nat, cond: Option<Form>)
    requires Good(e) && EngineUnbroken(e) && (cond.Some? ==> Unbroken(cond.value))
    ensures EngineUnbroken(StepArm(e, indent, number, cond))
  {
    hide Unbroken, ItemsUnbroken, OneLine, Fail, Upward, WrapOk, StackOk, Distinct;
    var e1 := e.(stack := Pop(e.stack, indent));
    var c := Column(indent);
    assert IfOk(e.arena, e.ifs[c]);
    if e.ifs[c].Some? {
      var n, d := e.ifs[c].value, |e.arena|;
      var e2 := if cond.Some? then e1.(arena := AddItems(e.arena, n, [Val(cond.value)])) else e1;
      if cond.Some? {
        ValUnbroken(cond.value);
        AddItemsUnbroken(e1, n, [Val(cond.value)]);
      }
      ArmUnbroken();
      NewUnbroken(e2, DO_ARM);
      AddArmUnbroken(NewNode(e2, DO_ARM), n, d);
    } else {
      MessagesOneLine();
      FailUnbroken(e1, number, "`" + (if cond.None? then "else"
          else "elif") + ":` has no matching `if` at this indentation");
    }
  }

  lemma ValUnbroken(f: Form)
    requires Unbroken(f)
    ensures ItemsUnbroken([Val(f)]) && ItemUnbroken(Val(f))
  {
  }

  lemma ElseOneLine()
    ensures OneLine("`" + "else" + ":` has no matching `if` at this indentation")
  {
  }

  lemma ElifOneLine()
    ensures OneLine("`" + "elif" + ":` has no matching `if` at this indentation")
  {
  }

  lemma MixOneLine()
    ensures OneLine("indentation mixes tabs and spaces; pick one")
  {
  }

  lemma StringOneLine()
    ensures OneLine("unterminated string literal - reached end of input")
  {
    var a, b := "unterminated string literal", " - reached end of input";
    assert OneLine(a) && OneLine(b);
    assert a + b == "unterminated string literal - reached end of input";
  }

  lemma BracketOneLine()
    ensures OneLine("unterminated ( [ or { - reached end of input")
  {
  }

  lemma CloserOneLine()
    ensures OneLine("unexpected ) ] or } with no matching opener")
  {
  }

  lemma MessagesOneLine()
    ensures OneLine("`" + "else" + ":` has no matching `if` at this indentation")
    ensures OneLine("`" + "elif" + ":` has no matching `if` at this indentation")
    ensures OneLine("indentation mixes tabs and spaces; pick one")
    ensures OneLine("unterminated string literal - reached end of input")
    ensures OneLine("unterminated ( [ or { - reached end of input")
    ensures OneLine("unexpected ) ] or } with no matching opener")
  {
    hide OneLine;
    ElseOneLine();
    ElifOneLine();
    MixOneLine();
    StringOneLine();
    BracketOneLine();
    CloserOneLine();
  }

  lemma RefUnbroken(id: nat)
    ensures ItemUnbroken(Ref(id))
  {
  }

  lemma StepBlockUnbroken(e: Engine, indent: nat, number: nat, kids: seq<Form>)
    requires Good(e) && EngineUnbroken(e) && AllUnbroken(kids)
    ensures EngineUnbroken(StepBlock(e, indent, number, kids))
  {
    hide Good, Unbroken, AllUnbroken, ItemUnbroken, ItemsUnbroken;
    var n := |e.arena|;
    var e3 := Opened(e, indent, kids);
    OpenedGood(e, indent, kids);
    ValsUnbroken(kids);
    ArmUnbroken();
    var e1 := NewNode(e, Node(false, Vals(kids)));
    NewUnbroken(e, Node(false, Vals(kids)));
    var tracked := Headed(kids, "if") || Headed(kids, "when") || Headed(kids, "unless");
    StackTop(e);
    var e2 := e1.(ifs := e.ifs[Column(indent) := if tracked then Some(n) else None]);
    if Headed(kids, "if") {
      NewUnbroken(e2, DO_ARM);
      AddArmUnbroken(NewNode(e2, DO_ARM), n, n + 1);
    }
    StackTop(e3);
    RefUnbroken(n);
    AttachUnbroken(e3, Ref(n), number);
  }

  lemma RemapUnbroken(f: Form, block: bool)
    requires Unbroken(f)
    ensures Unbroken(LineNode(f, block))
  {
    hide Unbroken, LineNode, CountOf;
    UnbrokenCount(f);
    RemapCount(f, block, {'\n'});
    UnbrokenCount(LineNode(f, block));
  }

  lemma StepUnbroken(e: Engine, l: Line)
    requires Good(e) && EngineUnbroken(e) && WhatUnbroken(l.what)
    ensures EngineUnbroken(Step(e, l))
  {
    hide Good, Unbroken, StepArm, StepBlock, ItemsUnbroken;
    match l.what
    case Else => StepArmUnbroken(e, l.indent, l.number, None);
    case Elif(c) => StepArmUnbroken(e, l.indent, l.number, Some(c));
    case Stmt(node, block) =>
      PopGood(e, l.indent);
      RemapUnbroken(node, block);
      var e1 := e.(stack := Pop(e.stack, l.indent));
      var f := LineNode(node, block);
      StackTop(e1);
      if block {
        KidsAllUnbroken(f);
        StepBlockUnbroken(e1, l.indent, l.number, f.kids);
      } else {
        ValUnbroken(f);
        AttachUnbroken(e1.(ifs := e.ifs[Column(l.indent) := None]), Val(f), l.number);
      }
  }

  lemma KidsAllUnbroken(f: Form)
    requires f.List? && Unbroken(f)
    ensures AllUnbroken(f.kids)
  {
  }

  lemma {:induction false} TreeUnbroken(e: Engine, it: Item)
    requires Good(e) && EngineUnbroken(e) && ItemUnbroken(it) && (it.Ref? ==> it.id < |e.arena|)
    ensures Unbroken(Tree(e.arena, it))
    decreases if it.Ref? then |e.arena| - it.id else 0
  {
    if it.Ref? {
      var id := it.id;
      var items := e.arena[id].items;
      assert NodeOk(e.arena, id) && ItemsUnbroken(items);
      forall i | 0 <= i < |items| ensures ItemOk(e.arena, id, e.arena[id].arm, items[i])
          && Unbroken(Tree(e.arena, items[i])) {
        assert ItemOk(e.arena, id, e.arena[id].arm, items[i]);
        TreeUnbroken(e, items[i]);
      }
    }
  }

  // ---- the whole source ----

  lemma LogicalUnbroken(st: Source, raw: string, number: nat)
    requires Good(st.engine) && EngineUnbroken(st.engine) && OneLine(raw)
    ensures EngineUnbroken(Logical(st, raw, number).engine)
  {
    hide Good, Fail, Step, Depth, Strip, ReadBody, Indent, TrimRight, CheckIndent, EngineUnbroken, OneLine;
    MessagesOneLine();
    var d := Depth(Strip(raw, false), false);
    if d.1 {
      FailUnbroken(st.engine, number, "unterminated string literal - reached end of input");
    } else if d.0 > 0 {
      FailUnbroken(st.engine, number, "unterminated ( [ or { - reached end of input");
    } else if d.0 < 0 {
      FailUnbroken(st.engine, number, "unexpected ) ] or } with no matching opener");
    } else {
      var text := Strip(raw, false);
      StripCount(raw, false);
      PrefixPart(raw, 0, text);
      assert raw[0..] == raw;
      var n := Indent(text);
      var body := TrimRight(text[n..], true);
      if body != "" {
        var what := "indentation mixes tabs and spaces; pick one";
        FailUnbroken(st.engine, number, what);
        StyleFails(st, text[..n], number, what);
        PrefixPart(text, n, body);
        BodyUnbroken(body);
        StepUnbroken(CheckIndent(st, text[..n], number).engine, Line(n, number, ReadBody(body)));
      }
    }
  }

  lemma PrefixPart(text: string, n: nat, body: string)
    requires OneLine(text) && n <= |text| && body <= text[n..]
    ensures OneLine(body)
  {
  }

  lemma {:induction false} FeedUnbroken(st: Source, spans: seq<Span>)
    requires Good(st.engine) && EngineUnbroken(st.engine) && forall i | 0 <= i < |spans| :: OneLine(spans[i].raw)
    ensures EngineUnbroken(Feed(st, spans).engine)
    decreases |spans|
  {
    hide Good, Logical, EngineUnbroken, OneLine;
    if spans != [] {
      LogicalUnbroken(st, spans[0].raw, spans[0].number);
      FeedUnbroken(Logical(st, spans[0].raw, spans[0].number), spans[1..]);
    }
  }

  lemma StartUnbroken()
    ensures EngineUnbroken(Start())
  {
  }

  lemma NoFeedUnbroken(src: string)
    requires forall i | 0 <= i < |SpansOf(src)| :: OneLine(SpansOf(src)[i].raw)
    ensures forall f | f in Transpile(src).forms :: Unbroken(f)
  {
    hide Good, Feed, Spans, ReadLines, SplitLines, Start, Finish, EngineUnbroken, OneLine, Unbroken;
    AdderSource.StartGood();
    StartUnbroken();
    var st := Source(Start(), None, false);
    ReadLinesFeed(st, SplitLines(src, ""), 1);
    FeedUnbroken(st, SpansOf(src));
    FinishUnbroken(Feed(st, SpansOf(src)).engine);
  }

  lemma FinishUnbroken(e: Engine)
    requires Good(e) && EngineUnbroken(e)
    ensures forall f | f in Finish(e) :: Unbroken(f)
  {
    hide Finish, Unbroken, Good;
    FinishTrees(e);
    GoodRoots(e);
    forall k: nat | k < |Finish(e)| ensures Unbroken(Finish(e)[k]) {
      assert ItemUnbroken(e.roots[k]);
      assert RootOk(e.arena, e.roots[k]);
      TreeUnbroken(e, e.roots[k]);
    }
  }

  lemma GoodRoots(e: Engine)
    requires Good(e)
    ensures forall k {:trigger e.roots[k]} | 0 <= k < |e.roots| :: RootOk(e.arena, e.roots[k])
  {
  }

  // ---- no line feed of a source without diagnoses is lost ----

  /** The comment scanner takes no line feed away. */
  predicate FeedsKept(raw: string) {
    Feeds(Strip(raw, false)) == Feeds(raw)
  }

  lemma LineKept(raw: string)
    requires OneLine(raw)
    ensures FeedsKept(raw)
  {
    StripCount(raw, false);
    PrefixPart(raw, 0, Strip(raw, false));
    FeedsNone(raw);
    FeedsNone(Strip(raw, false));
  }

  lemma ExtendKept(raw: string, l: string)
    requires FeedsKept(raw) && OneLine(l)
    ensures Depth(Strip(raw, false), false).1 ==> FeedsKept(raw + "\n" + l)
    ensures FeedsKept(raw + " " + SkipBlanks(l, false))
  {
    hide Strip, Depth;
    if Depth(Strip(raw, false), false).1 {
      InsideMeans(raw, false);
      StripInString(raw, false, l);
      StripCount(l, true);
      PrefixPart(l, 0, Strip(l, true));
      FeedsNone(l);
      FeedsNone(Strip(l, true));
      CountConcat(raw + "\n", l, {'\n'});
      CountConcat(raw + "\n", Strip(l, true), {'\n'});
    }
    var u := " " + SkipBlanks(l, false);
    FeedsNone(l);
    SkipCount(l, false, {'\n'});
    CountConcat(" ", SkipBlanks(l, false), {'\n'});
    CountConcat(raw, u, {'\n'});
    BlankFeeds();
    assert raw + u == raw + " " + SkipBlanks(l, false);
    StripPrefix(raw, false, u);
    StripCount(raw + u, false);
    PrefixFeeds(Strip(raw, false), Strip(raw + u, false));
    PrefixFeeds(Strip(raw + u, false), raw + u);
  }

  lemma BlankFeeds()
    ensures Count(" ", {'\n'}) == 0
  {
    assert " "[1..] == "";
  }

  lemma PrefixFeeds(s: string, t: string)
    requires s <= t
    ensures Feeds(s) <= Feeds(t)
  {
    assert t[..|s|] == s;
    CountSplit(t, |s|, {'\n'});
  }

  lemma {:induction false} JoinKept(raw: string, rest: seq<string>)
    requires FeedsKept(raw) && forall l | l in rest :: OneLine(l)
    ensures FeedsKept(Join(raw, rest).0)
    decreases |rest|
  {
    hide Strip, Depth, FeedsKept, OneLine;
    var d := Depth(Strip(raw, false), false);
    if rest != [] && (d.1 || d.0 > 0) {
      ExtendKept(raw, rest[0]);
      assert forall l | l in rest[1..] :: l in rest;
      JoinKept(if d.1 then raw + "\n" + rest[0] else raw + " " + SkipBlanks(rest[0], false), rest[1..]);
    }
  }

  lemma {:induction false} SpansKept(lines: seq<string>, number: nat)
    requires forall l | l in lines :: OneLine(l)
    ensures forall i | 0 <= i < |Spans(lines, number)| :: FeedsKept(Spans(lines, number)[i].raw)
    decreases |lines|
  {
    hide Join, FeedsKept, OneLine;
    if lines != [] {
      var j := Join(lines[0], lines[1..]);
      LineKept(lines[0]);
      assert forall l | l in lines[1..] :: l in lines;
      assert forall l | l in lines[1 + j.1..] :: l in lines;
      JoinKept(lines[0], lines[1..]);
      SpansKept(lines[1 + j.1..], number + 1 + j.1);
    }
  }

  lemma {:induction false} LinesOneLine(src: string, line: string)
    requires OneLine(line)
    ensures forall l | l in SplitLines(src, line) :: OneLine(l)
    decreases |src|
  {
    if src != "" {
      LinesOneLine(src[1..], if src[0] == '\n' then "" else line + [src[0]]);
    }
  }

  // ---- what a logical line with a line feed brings ----

  lemma {:induction false} SomeBroken(fs: seq<Form>)
    requires CountAll(fs, {'\n'}) > 0
    ensures exists f :: f in fs && !Unbroken(f)
  {
    hide CountAll, Unbroken;
    AllUnbrokenCount(fs);
    var i :| 0 <= i < |fs| && !Unbroken(fs[i]);
    assert fs[i] in fs;
  }

  lemma BringsFeed(w: What)
    requires CountWhat(w, {'\n'}) > 0
    ensures exists f :: f in Brought(w) && !Unbroken(f)
  {
    hide CountOf, CountAll, Unbroken, LineNode;
    match w
    case Else =>
    case Elif(c) =>
      UnbrokenCount(c);
      assert c in Brought(w);
    case Stmt(node, block) =>
      RemapCount(node, block, {'\n'});
      var f := LineNode(node, block);
      UnbrokenCount(f);
      if block {
        ListCount(f.kids, {'\n'});
        assert f == List(f.kids);
        SomeBroken(f.kids);
      } else {
        assert f in Brought(w);
      }
  }

  /** Some form with a line feed is among the roots or the items. */
  ghost predicate HoldsFeed(e: Engine) {
    exists f: Form {:trigger Holds(e, Val(f))} :: !Unbroken(f) && Holds(e, Val(f))
  }

  lemma FeedStays(e: Engine, e': Engine)
    requires HoldsFeed(e) && Grows(e, e')
    ensures HoldsFeed(e')
  {
    hide Holds, Grows, Unbroken;
    var f: Form :| !Unbroken(f) && Holds(e, Val(f));
    HoldsGrown(e, e', Val(f));
  }

  lemma EmptyLine()
    ensures OneLine("")
  {
  }

  lemma {:induction false} IndentOneLine(s: string)
    ensures OneLine(s[..Indent(s)])
  {
    if s != "" && IsBlank(s[0]) {
      IndentOneLine(s[1..]);
      assert s[..Indent(s)] == [s[0]] + s[1..][..Indent(s[1..])];
    }
  }

  lemma BodyFeeds(text: string)
    ensures Feeds(TrimRight(text[Indent(text)..], true)) == Feeds(text)
  {
    IndentOneLine(text);
    SkippedCount(text, Indent(text), {'\n'});
    TrimCount(text[Indent(text)..], true, {'\n'});
  }

  lemma LogicalFeeds(st: Source, raw: string, number: nat)
    requires Good(st.engine) && Hung(st.engine) && Logical(st, raw, number).engine.err.None?
    requires FeedsKept(raw) && !OneLine(raw)
    ensures HoldsFeed(Logical(st, raw, number).engine)
  {
    hide Good, Hung, Grows, Strip, Logical, ReadBody, Brought, Holds, Indent, TrimRight, OneLine, Unbroken;
    LogicalHung(st, raw, number);
    FeedsNone(raw);
    BodyFeeds(Strip(raw, false));
    FeedsNone("");
    EmptyLine();
    BodyCount(BodyOf(raw), {'\n'});
    BringsFeed(ReadBody(BodyOf(raw)));
    var f :| f in Brought(ReadBody(BodyOf(raw))) && !Unbroken(f);
    assert Holds(Logical(st, raw, number).engine, Val(f));
  }

  lemma {:induction false} FeedHung(st: Source, spans: seq<Span>)
    requires Good(st.engine) && Hung(st.engine) && forall i | 0 <= i < |spans| :: FeedsKept(spans[i].raw)
    requires Feed(st, spans).engine.err.None?
    ensures st.engine.err.None? && Hung(Feed(st, spans).engine)
    ensures HoldsFeed(st.engine) || (exists i :: 0 <= i < |spans| && !OneLine(spans[i].raw))
            ==> HoldsFeed(Feed(st, spans).engine)
    decreases |spans|
  {
    hide Good, Hung, Grows, Logical, HoldsFeed, OneLine, FeedsKept;
    if spans != [] {
      var st1 := Logical(st, spans[0].raw, spans[0].number);
      LogicalHung(st, spans[0].raw, spans[0].number);
      FeedHung(st1, spans[1..]);
      if st.engine.err.Some? {
        LogicalErr(st, spans[0].raw, spans[0].number);
      }
      if !OneLine(spans[0].raw) {
        LogicalFeeds(st, spans[0].raw, spans[0].number);
      }
      if HoldsFeed(st.engine) {
        FeedStays(st.engine, st1.engine);
      }
    }
  }

  // ---- what hangs under a root is written out ----

  /** A node with a line feed in its tree hangs under a root with one. */
  lemma {:induction false} FeedClimbs(e: Engine, n: nat) returns (k: nat)
    requires Good(e) && Hung(e) && n < |e.arena| && !Unbroken(Tree(e.arena, Ref(n)))
    ensures k < |e.roots| && RootOk(e.arena, e.roots[k]) && !Unbroken(Tree(e.arena, e.roots[k]))
    decreases n
  {
    hide WrapOk, Distinct, StackOk, IfOk;
    assert HungAt(e, n);
    if Ref(n) in e.roots {
      k :| 0 <= k < |e.roots| && e.roots[k] == Ref(n);
      assert RootOk(e.arena, e.roots[k]);
    } else {
      var p: nat :| p < n && Ref(n) in e.arena[p].items;
      var i :| 0 <= i < |e.arena[p].items| && e.arena[p].items[i] == Ref(n);
      assert HungAt(e, p);
      FeedAbove(e.arena, p, i);
      k := FeedClimbs(e, p);
    }
  }

  /** A tree holds what its items hold. */
  lemma FeedAbove(a: seq<Node>, p: nat, i: nat)
    requires Upward(a) && p < |a| && i < |a[p].items|
    requires a[p].arm ==> a[p].items[0] == Val(Atom("do"))
    requires a[p].items[i].Ref? ==> a[p].items[i].id < |a|
    requires !Unbroken(Tree(a, a[p].items[i]))
    ensures !Unbroken(Tree(a, Ref(p)))
  {
    var items := a[p].items;
    assert NodeOk(a, p);
    assert forall j | 0 <= j < |items| :: ItemOk(a, p, a[p].arm, items[j]);
    if a[p].arm && |items| == 2 {
      assert i == 1;
    } else {
      var kids := seq(|items|, j requires 0 <= j < |items| => Tree(a, items[j]));
      assert Tree(a, Ref(p)) == List(kids);
      assert kids[i] == Tree(a, items[i]);
    }
  }

  lemma FeedWritten(e: Engine)
    requires Good(e) && Hung(e) && HoldsFeed(e)
    ensures exists f :: f in Finish(e) && !Unbroken(f)
  {
    hide Good, Unbroken, Finish;
    FinishTrees(e);
    GoodUpward(e);
    var f: Form :| !Unbroken(f) && Holds(e, Val(f));
    if Val(f) in e.roots {
      var k :| 0 <= k < |e.roots| && e.roots[k] == Val(f);
      assert Finish(e)[k] == Tree(e.arena, e.roots[k]) == f;
    } else {
      var p: nat :| p < |e.arena| && Val(f) in e.arena[p].items;
      var i :| 0 <= i < |e.arena[p].items| && e.arena[p].items[i] == Val(f);
      assert HungAt(e, p);
      FeedAbove(e.arena, p, i);
      var k := FeedClimbs(e, p);
      assert Finish(e)[k] == Tree(e.arena, e.roots[k]);
    }
  }

  /** In a source without diagnoses, some form holds a line feed exactly when some string literal spans physical
      lines: then, and only then, the lines of the generated text are no longer one for each form. */
  lemma SourceUnbroken(src: string)
    requires Transpile(src).err.None?
    ensures (exists i :: 0 <= i < |SpansOf(src)| && !OneLine(SpansOf(src)[i].raw))
            <==> exists f :: f in Transpile(src).forms && !Unbroken(f)
  {
    hide Good, Feed, Spans, ReadLines, SplitLines, Start, Finish, Hung, HoldsFeed, OneLine, Unbroken, FeedsKept;
    if exists i :: 0 <= i < |SpansOf(src)| && !OneLine(SpansOf(src)[i].raw) {
      AdderSource.StartGood();
      StartHung();
      EmptyLine();
      var st := Source(Start(), None, false);
      ReadLinesFeed(st, SplitLines(src, ""), 1);
      LinesOneLine(src, "");
      SpansKept(SplitLines(src, ""), 1);
      FeedHung(st, SpansOf(src));
      FeedWritten(Feed(st, SpansOf(src)).engine);
    } else {
      NoFeedUnbroken(src);
    }
  }

  /** So the generated text of such a source has one line for each form exactly when no literal spans lines. */
  lemma LinesForForms(src: string)
    requires Transpile(src).err.None?
    ensures |SplitLines(Generate(src).text, "")| == |Transpile(src).forms| + 1
            <==> forall i | 0 <= i < |SpansOf(src)| :: OneLine(SpansOf(src)[i].raw)
  {
    hide Transpile, SplitLines, EmitText, EmitAll, Unbroken, OneLine, SpansOf, InnerFeeds;
    var fs := Transpile(src).forms;
    SourceUnbroken(src);
    OneLineEach(fs);
    InnerFeedsNone(fs);
    forall i | 0 <= i < |fs| ensures fs[i] in fs && (OneLine(EmitText(fs[i])) <==> Unbroken(fs[i])) {
      TextUnbroken(fs[i]);
    }
    assert forall f :: f in fs ==> exists i :: 0 <= i < |fs| && fs[i] == f;
  }

  // ---- a literal that spans two lines ----

  /** The string literal of a double quote, a line feed and a double quote. */
  const BROKEN: string := "\"\n\""

  lemma BrokenJoins(rest: seq<string>)
    ensures Join("\"", ["\""] + rest) == (BROKEN, 1)
    ensures Strip(BROKEN, false) == BROKEN && Depth(BROKEN, false) == (0, false)
  {
    assert "\""[1..] == "" && Strip("\"", false) == "\"" && Depth("\"", false) == (0, true);
    assert BROKEN[1..] == "\n\"" && BROKEN[1..][1..] == "\"" && BROKEN[1..][1..][1..] == "";
    assert Strip("\"", true) == "\"" && Strip("\n\"", true) == "\n\"";
    assert Depth("\"", true) == (0, false) && Depth("\n\"", true) == (0, false);
    assert "\"" + "\n" + "\"" == BROKEN;
    assert (["\""] + rest)[0] == "\"";
  }

  lemma BrokenReads()
    ensures ReadBody(BROKEN) == Stmt(Atom(BROKEN), false)
  {
    assert BROKEN[1..] == "\n\"" && BROKEN[1..][1..] == "\"" && BROKEN[1..][1..][1..] == "";
    assert InlineColon("\"", true).None? && InlineColon("\n\"", true).None?;
    assert StrEnd("\"") == 1 && StrEnd("\n\"") == 2;
    assert BROKEN[..3] == BROKEN && BROKEN[3..] == "";
    assert ReadOne(BROKEN) == (Atom(BROKEN), "");
    assert ReadForms("", "", [Atom(BROKEN)]) == ([Atom(BROKEN)], "");
    assert AttrSegments(BROKEN) == [];
  }

  lemma BrokenStep(st: Source, number: nat)
    requires Good(st.engine) && st.engine.stack == []
    ensures var r := Logical(st, BROKEN, number).engine;
            r.roots == st.engine.roots + [Val(Atom(BROKEN))] && r.map_ == st.engine.map_ + [number] && r.stack == []
  {
    hide Strip, Depth, ReadBody, Good;
    BrokenJoins([]);
    BrokenReads();
    assert Indent(BROKEN) == 0 && BROKEN[0..] == BROKEN && BROKEN[..0] == "";
    assert TrimRight(BROKEN, true) == BROKEN;
  }

  lemma PlainStep(st: Source, number: nat)
    requires Good(st.engine) && st.engine.stack == []
    ensures Join("g", []) == ("g", 0)
    ensures var r := Logical(st, "g", number).engine;
            r.roots == st.engine.roots + [Val(Atom("g"))] && r.map_ == st.engine.map_ + [number] && r.stack == []
  {
    hide Good;
    assert "g"[1..] == "" && Strip("g", false) == "g" && Depth("g", false) == (0, false);
    assert Indent("g") == 0 && "g"[0..] == "g" && "g"[..0] == "" && TrimRight("g", true) == "g";
    assert OpensBlock("g") == ("g", false) && InlineColon("g", false).None?;
    assert TokEnd("g") == 1 && "g"[..1] == "g";
    assert ReadOne("g") == (Atom("g"), "");
    assert ReadForms("", "", [Atom("g")]) == ([Atom("g")], "");
    assert AttrSegments("g") == [];
  }

  /** The source of that literal and then `g`: the literal's text takes two lines of the output, so `g` is written
      on line 3 of the text, where the map has nothing, and line 2, the literal's, is mapped to the line of `g`. */
  lemma LiteralShifts()
    ensures var src := BROKEN + "\ng";
            var out := Generate(src);
            && Transpile(src).forms == [Atom(BROKEN), Atom("g")] && out.map_ == [1, 3]
            && SplitLines(out.text, "") == ["\"", "\"", "g", ""]
            && Lookup(out.map_, 2) == 3 && Lookup(out.map_, 3) == 0
  {
    hide Logical, Join, Good, Start, SplitLines, EmitAll, Transpile;
    var src := BROKEN + "\ng";
    LiteralForms(src);
    LiteralText();
    BrokenSplits();
  }

  lemma LiteralText()
    ensures EmitAll([Atom(BROKEN), Atom("g")]) == "\"" + "\n" + ("\"" + "\n" + ("g" + "\n" + ""))
  {
    var fs := [Atom(BROKEN), Atom("g")];
    assert fs[1..] == [Atom("g")] && fs[1..][1..] == [];
    assert EmitAll(fs[1..]) == "g" + "\n" + "";
    assert EmitAll(fs) == BROKEN + "\n" + ("g" + "\n" + "");
  }

  lemma LiteralForms(src: string)
    requires src == BROKEN + "\ng"
    ensures Transpile(src).forms == [Atom(BROKEN), Atom("g")] && Transpile(src).map_ == [1, 3]
  {
    hide Logical, Join, Good, Start, SplitLines, ReadLines, Finish;
    assert src == "\"" + "\n" + ("\"" + "\n" + "g");
    BrokenSplits();
    AdderSource.StartGood();
    var st := Source(Start(), None, false);
    StartEmpty();
    BrokenJoins(["g"]);
    BrokenStep(st, 1);
    var st1 := Logical(st, BROKEN, 1);
    PlainStep(st1, 3);
    var lines := ["\"", "\"", "g"];
    assert lines[1..] == ["\""] + ["g"] && lines[2..] == ["g"] && ["g"][1..] == [];
    ReadTwo(st, lines);
    var st2 := Logical(st1, "g", 3);
    FinishTrees(st2.engine);
    assert RootOk(st2.engine.arena, st2.engine.roots[0]) && RootOk(st2.engine.arena, st2.engine.roots[1]);
    assert Finish(st2.engine) == [Atom(BROKEN), Atom("g")];
  }

  lemma StartEmpty()
    ensures Start().stack == [] && Start().roots == [] && Start().map_ == []
  {
  }

  lemma BrokenSplits()
    ensures SplitLines("\"" + "\n" + ("\"" + "\n" + "g"), "") == ["\"", "\"", "g"]
    ensures SplitLines("\"" + "\n" + ("\"" + "\n" + ("g" + "\n" + "")), "") == ["\"", "\"", "g", ""]
  {
    hide SplitLines;
    assert OneLine("\"") && OneLine("g") && OneLine("");
    SplitOne("g", "", "");
    SplitOne("\"", "", "g");
    SplitOne("\"", "", "\"" + "\n" + "g");
    SplitOne("\"", "", "g" + "\n" + "");
    SplitOne("\"", "", "\"" + "\n" + ("g" + "\n" + ""));
    SplitOne("", "", "");
    assert "" + "" == "";
    assert "" + "\"" == "\"" && "" + "g" == "g";
    assert ["\""] + (["\""] + ["g"]) == ["\"", "\"", "g"];
    assert ["\""] + (["\""] + (["g"] + [""])) == ["\"", "\"", "g", ""];
  }

  lemma ReadTwo(st: Source, lines: seq<string>)
    requires Good(st.engine) && lines == ["\"", "\"", "g"] && Join("\"", lines[1..]) == (BROKEN, 1)
        && Join("g", []) == ("g", 0)
    ensures ReadLines(st, lines, 1) == Logical(Logical(st, BROKEN, 1), "g", 3)
  {
    hide Join, Logical, Good;
    assert lines[1 + 1..] == ["g"] && ["g"][1..] == [];
    assert ReadLines(Logical(st, BROKEN, 1), ["g"], 3) == ReadLines(Logical(Logical(st, BROKEN, 1), "g", 3), [], 4);
  }
}
