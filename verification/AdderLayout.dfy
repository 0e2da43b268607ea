/**
 The block engine undoes the printer's layout: the lines that a form is printed as, read as the
 printer means them, add exactly that form to whatever block is open at their column.
 */
module AdderLayout {
  import opened Wrappers
  import opened AdderForms
  import opened AdderBlocks
  import P = AdderPrinter

  /** What the printer means by a piece. */
  function Meant(p: P.Piece): What
    requires p.Header? ==> p.form.List? && 1 <= p.hi <= |p.form.kids|
  {
    match p
    case Whole(f) => Stmt(P.Canon(f), false)
    case Call(h) => Stmt(List([P.CanonHead(h)]), false)
    case Header(f, hi) => Stmt(if hi == 1 then P.CanonHead(f.kids[0]) else List(P.Canons(f)[..hi]), true)
    case Flat(f) => Stmt(P.Canon(f), false)
    case If(c) => Stmt(List([Atom("if"), P.Canon(c)]), true)
    case Elif(c) => Elif(P.Canon(c))
    case Else => Else
  }

  /** The printed piece is well formed, its column is in range, and `als_head_remap` leaves it alone. */
  predicate LineFits(o: P.Out) {
    && o.indent < MAXD
    && (o.piece.Header? ==> o.piece.form.List? && 1 <= o.piece.hi <= |o.piece.form.kids|)
    && (o.piece.Header? && o.piece.hi == 1 ==> o.piece.form.kids[0].Atom?)
    && var w := Meant(o.piece);
       (w.Stmt? ==> LineNode(w.node, w.block) == if w.block && w.node.Atom? then List([w.node]) else w.node)
  }

  predicate Fits(outs: seq<P.Out>) {
    forall k | 0 <= k < |outs| :: LineFits(outs[k])
  }

  /** The logical lines that the printed lines are, numbered from `number`. */
  function Lines(outs: seq<P.Out>, number: nat): seq<Line>
    requires Fits(outs)
  {
    seq(|outs|, k requires 0 <= k < |outs| => assert LineFits(outs[k]);
        Line(outs[k].indent, number + k, Meant(outs[k].piece)))
  }

  lemma LinesConcat(a: seq<P.Out>, b: seq<P.Out>, number: nat)
    requires Fits(a + b)
    ensures Fits(a) && Fits(b) && Lines(a + b, number) == Lines(a, number) + Lines(b, number + |a|)
  {
    forall k | 0 <= k < |a| ensures LineFits(a[k]) {
      assert (a + b)[k] == a[k];
    }
    forall k | 0 <= k < |b| ensures LineFits(b[k]) {
      assert (a + b)[|a| + k] == b[k];
    }
  }

  lemma RunOne(e: Engine, l: Line)
    requires Good(e)
    ensures Good(Step(e, l)) && Run(e, [l]) == Step(e, l)
  {
    StepGood(e, l);
    assert Run(e, [l]) == Run(Step(e, l), [l][1..]);
  }

  /** Run the lines of two consecutive pieces of output. */
  lemma RunSplit(e: Engine, a: seq<P.Out>, b: seq<P.Out>, number: nat)
    requires Good(e) && Fits(a + b)
    ensures Fits(a) && Fits(b)
    ensures Run(e, Lines(a + b, number)) == Run(Run(e, Lines(a, number)), Lines(b, number + |a|))
  {
    LinesConcat(a, b, number);
    RunConcat(e, Lines(a, number), Lines(b, number + |a|));
  }

  lemma HeadLine(e: Engine, o: P.Out, rest: seq<P.Out>, number: nat)
    requires Good(e) && Fits([o] + rest)
    ensures LineFits(o) && Fits(rest)
    ensures var l := Line(o.indent, number, Meant(o.piece));
            Good(Step(e, l)) && Run(e, Lines([o] + rest, number)) == Run(Step(e, l), Lines(rest, number + 1))
  {
    hide Run, Good;
    assert ([o] + rest)[0] == o;
    RunSplit(e, [o], rest, number);
    var l := Line(o.indent, number, Meant(o.piece));
    assert Lines([o], number) == [l];
    RunOne(e, l);
  }

  /** A printed form adds its canonical tree to the block it stands in. */
  lemma {:induction false} StmtRun(e: Engine, f: Form, indent: nat, number: nat)
    requires Good(e) && Fits(P.Stmt(f, indent))
    ensures Extended(e, Run(e, Lines(P.Stmt(f, indent), number)), indent, Parent(e.stack, indent), [P.Canon(f)])
    decreases f, 2
  {
    if f.Atom? || f.kids == [] || P.IsQuote(f) {
      LeafRun(e, P.Out(indent, P.Whole(f)), number);
    } else if |f.kids| == 1 && P.IsSym(f.kids[0]) {
      LeafRun(e, P.Out(indent, P.Call(f.kids[0])), number);
      assert P.Canons(f) == [P.CanonHead(f.kids[0])];
    } else if P.Named(f.kids[0], "if") && |f.kids| > 2 {
      IfRun(e, f, indent, number);
    } else {
      var k := P.HeaderSize(f, indent);
      if k == 0 {
        LeafRun(e, P.Out(indent, P.Flat(f)), number);
      } else {
        HeaderRun(e, f, k, indent, number);
      }
    }
  }

  lemma LeafRun(e: Engine, o: P.Out, number: nat)
    requires Good(e) && Fits([o]) && !o.piece.Header? && Meant(o.piece).Stmt? && !Meant(o.piece).block
    ensures Extended(e, Run(e, Lines([o], number)), o.indent, Parent(e.stack, o.indent), [Meant(o.piece).node])
  {
    assert [o][0] == o && LineFits(o);
    var l := Line(o.indent, number, Meant(o.piece));
    assert Lines([o], number) == [l];
    RunOne(e, l);
    PlainLine(e, l);
  }

  lemma {:induction false} HeaderRun(e: Engine, f: Form, k: nat, indent: nat, number: nat)
    requires f.List? && 1 <= k < |f.kids| && !P.Named(f.kids[0], "if")
    requires Good(e) && Fits([P.Out(indent, P.Header(f, k))] + P.Stmts(f, k, indent + 2))
    ensures Extended(e, Run(e, Lines([P.Out(indent, P.Header(f, k))] + P.Stmts(f, k, indent + 2), number)),
                     indent, Parent(e.stack, indent), [P.Canon(f)])
    decreases f, 1
  {
    hide Good, Extended, Run, Step, P.Stmts, Fits, Lines;
    var o := P.Out(indent, P.Header(f, k));
    HeadLine(e, o, P.Stmts(f, k, indent + 2), number);
    var l := Line(indent, number, Meant(o.piece));
    var head := P.Canons(f)[..k];
    HeadCanon(f);
    assert head[0] == P.CanonHead(f.kids[0]);
    assert [o][0] == o;
    assert k == 1 ==> head == [P.CanonHead(f.kids[0])];
    assert LineNode(l.what.node, true) == List(head);
    BlockLine(e, l, head);
    var e1 := Step(e, l);
    InnerParent(e1.stack, Pop(e.stack, indent), Open(indent, |e.arena|), indent + 2);
    StmtsRun(e1, f, k, indent + 2, number + 1);
    BlockClose(e, l, head, Run(e1, Lines(P.Stmts(f, k, indent + 2), number + 1)), indent + 2, P.Canons(f)[k..]);
    assert head + P.Canons(f)[k..] == P.Canons(f);
  }

  lemma HeadCanon(f: Form)
    requires f.List? && f.kids != []
    ensures P.Canons(f)[0] == P.CanonHead(f.kids[0])
    ensures P.Canons(f)[0] == Atom("if") <==> f.kids[0] == Atom("if")
    ensures forall i | 1 <= i < |f.kids| :: P.Canons(f)[i] == P.Canon(f.kids[i])
  {
    if f.kids[0].Atom? && P.IsStr(f.kids[0].text) {
      assert P.Escaped(f.kids[0].text)[0] == '"';
    }
  }

  lemma RunNone(e: Engine, number: nat)
    requires Good(e)
    ensures Fits([]) && Run(e, Lines([], number)) == e
  {
  }

  lemma InnerParent(stack: seq<Open>, outer: seq<Open>, o: Open, inner: nat)
    requires stack == outer + [o] && o.ind < inner
    ensures Pop(stack, inner) == stack && Parent(stack, inner) == Some(o.node)
  {
  }

  lemma {:induction false} StmtsRun(e: Engine, f: Form, k: nat, indent: nat, number: nat)
    requires f.List? && 1 <= k <= |f.kids| && Good(e) && Fits(P.Stmts(f, k, indent))
    requires Parent(e.stack, indent).Some?
    ensures Extended(e, Run(e, Lines(P.Stmts(f, k, indent), number)), indent, Parent(e.stack, indent), P.Canons(f)[k..])
    decreases f, 0, |f.kids| - k
  {
    hide Good, Extended, Run, Fits, Lines, P.Stmt;
    ParentOk(e, indent);
    if k == |f.kids| {
      ExtendedRefl(e, indent, Parent(e.stack, indent));
      RunNone(e, number);
      assert P.Canons(f)[k..] == [];
    } else {
      var a, b := P.Stmt(f.kids[k], indent), P.Stmts(f, k + 1, indent);
      RunSplit(e, a, b, number);
      StmtRun(e, f.kids[k], indent, number);
      var e1 := Run(e, Lines(a, number));
      StmtsRun(e1, f, k + 1, indent, number + |a|);
      ExtendedTrans(e, e1, Run(e1, Lines(b, number + |a|)), indent, Parent(e.stack, indent), [P.Canon(f.kids[k])],
          P.Canons(f)[k + 1..]);
      assert P.Canons(f)[k..] == [P.Canon(f.kids[k])] + P.Canons(f)[k + 1..];
    }
  }

  lemma {:induction false} IfRun(e: Engine, f: Form, indent: nat, number: nat)
    requires f.List? && |f.kids| > 2 && P.Named(f.kids[0], "if")
    requires Good(e) && Fits([P.Out(indent, P.If(f.kids[1]))] + P.Stmt(f.kids[2], indent + 2) + P.Ladder(f, 3, indent))
    ensures Extended(e, Run(e, Lines([P.Out(indent, P.If(f.kids[1]))] + P.Stmt(f.kids[2], indent + 2)
        + P.Ladder(f, 3, indent), number)),
                     indent, Parent(e.stack, indent), [P.Canon(f)])
    decreases f, 1
  {
    hide Good, Extended, Run, Step, Fits, Lines, P.Stmt, P.Ladder, P.Canon, P.Canons, Pop, P.Named;
    var o, arm, ladder := P.Out(indent, P.If(f.kids[1])), P.Stmt(f.kids[2], indent + 2), P.Ladder(f, 3, indent);
    assert [o] + arm + ladder == [o] + (arm + ladder);
    HeadLine(e, o, arm + ladder, number);
    var l := Line(indent, number, Meant(o.piece));
    var kids := [Atom("if"), P.Canon(f.kids[1])];
    assert LineNode(l.what.node, true) == List(kids);
    BlockLine(e, l, kids);
    var e1 := Step(e, l);
    InnerParent(e1.stack, Pop(e.stack, indent), Open(indent, |e.arena| + 1), indent + 2);
    RunSplit(e1, arm, ladder, number + 1);
    StmtRun(e1, f.kids[2], indent + 2, number + 1);
    var e2 := Run(e1, Lines(arm, number + 1));
    IfStays(e, l, kids, e2, indent + 2, P.Canon(f.kids[2]));
    LadderRun(e2, f, 3, indent, number + 1 + |arm|, |e.arena|);
    var e3 := Run(e2, Lines(ladder, number + 1 + |arm|));
    IfCanons(f);
    IfClose(e, l, kids, e2, e3, indent + 2, P.Canon(f.kids[2]), P.Canons(f)[3..]);
  }

  lemma IfCanons(f: Form)
    requires f.List? && |f.kids| > 2 && P.Named(f.kids[0], "if")
    ensures |P.Canons(f)| == |f.kids| && P.Canon(f) == List(P.Canons(f))
    ensures P.Canons(f) == [Atom("if"), P.Canon(f.kids[1])] + [P.Canon(f.kids[2])] + P.Canons(f)[3..]
  {
    HeadCanon(f);
  }

  lemma {:induction false} LadderRun(e: Engine, f: Form, k: nat, indent: nat, number: nat, n: nat)
    requires f.List? && 3 <= k && Good(e) && Fits(P.Ladder(f, k, indent))
    requires indent < MAXD && e.ifs[indent] == Some(n) && k <= |f.kids|
    ensures Extended(e, Run(e, Lines(P.Ladder(f, k, indent), number)), indent, Some(n), P.Canons(f)[k..])
    decreases f, 0, |f.kids| - k
  {
    hide Extended, Run, Fits, Lines, P.Stmt;
    assert IfOk(e.arena, e.ifs[indent]);
    if k == |f.kids| {
      ExtendedRefl(e, indent, Some(n));
      RunNone(e, number);
      assert P.Canons(f)[k..] == [];
    } else if k + 1 == |f.kids| {
      ArmRun(e, f, k, None, indent, number, n);
      assert P.Canons(f)[k..] == CondItems(None) + [P.Canon(f.kids[k])];
    } else {
      var ladder := P.Ladder(f, k + 2, indent);
      var first := [P.Out(indent, P.Elif(f.kids[k]))] + P.Stmt(f.kids[k + 1], indent + 2);
      assert P.Ladder(f, k, indent) == first + ladder;
      RunSplit(e, first, ladder, number);
      ArmRun(e, f, k + 1, Some(f.kids[k]), indent, number, n);
      var e2 := Run(e, Lines(first, number));
      LadderRun(e2, f, k + 2, indent, number + |first|, n);
      var gs := [P.Canon(f.kids[k])] + [P.Canon(f.kids[k + 1])];
      ExtendedTrans(e, e2, Run(e2, Lines(ladder, number + |first|)), indent, Some(n), gs, P.Canons(f)[k + 2..]);
      assert P.Canons(f)[k..] == gs + P.Canons(f)[k + 2..];
    }
  }

  function ArmOut(cond: Option<Form>, indent: nat): P.Out {
    P.Out(indent, if cond.Some? then P.Elif(cond.value) else P.Else)
  }

  lemma {:induction false} ArmRun(e: Engine, f: Form, m: nat, cond: Option<Form>, indent: nat, number: nat, n: nat)
    requires f.List? && m < |f.kids| && Good(e) && indent < MAXD && e.ifs[indent] == Some(n)
    requires Fits([ArmOut(cond, indent)] + P.Stmt(f.kids[m], indent + 2))
    ensures var e2 := Run(e, Lines([ArmOut(cond, indent)] + P.Stmt(f.kids[m], indent + 2), number));
            && Extended(e, e2, indent, Some(n),
              (if cond.Some? then [P.Canon(cond.value)] else []) + [P.Canon(f.kids[m])])
            && (cond.Some? ==> e2.ifs[indent] == Some(n))
    decreases f, 0, 0
  {
    hide Extended, Run, Fits, Lines, P.Stmt;
    var o, arm := ArmOut(cond, indent), P.Stmt(f.kids[m], indent + 2);
    HeadLine(e, o, arm, number);
    assert IfOk(e.arena, e.ifs[indent]);
    var c: Option<Form> := if cond.Some? then Some(P.Canon(cond.value)) else None;
    ArmLine(e, indent, number, c, n);
    var e1 := StepArm(e, indent, number, c);
    assert Step(e, Line(indent, number, Meant(o.piece))) == e1;
    InnerParent(e1.stack, Pop(e.stack, indent), Open(indent, |e.arena|), indent + 2);
    StmtRun(e1, f.kids[m], indent + 2, number + 1);
    ArmClose(e, e1, Run(e1, Lines(arm, number + 1)), indent, c, n, indent + 2, P.Canon(f.kids[m]));
  }

  // ---- whole files ----

  /** The printed lines of a file: each form at column 0, with a blank line after it. */
  function FileLines(fs: seq<Form>, number: nat): seq<Line>
    requires forall f | f in fs :: Fits(P.Stmt(f, 0))
  {
    if fs == [] then []
    else Lines(P.Stmt(fs[0], 0), number) + FileLines(fs[1..], number + |P.Stmt(fs[0], 0)| + 1)
  }

  /** The line that each form starts on. */
  function StartLines(fs: seq<Form>, number: nat): seq<nat> {
    if fs == [] then [] else [number] + StartLines(fs[1..], number + |P.Stmt(fs[0], 0)| + 1)
  }

  function CanonAll(fs: seq<Form>): (r: seq<Form>)
    ensures |r| == |fs| && forall k | 0 <= k < |fs| :: r[k] == P.Canon(fs[k])
  {
    if fs == [] then [] else [P.Canon(fs[0])] + CanonAll(fs[1..])
  }

  lemma {:induction false} PopAll(stack: seq<Open>)
    ensures Pop(stack, 0) == [] && Parent(stack, 0) == None
    decreases |stack|
  {
    if stack != [] {
      PopAll(Front(stack));
    }
  }

  /** Roots and map grow together and never change where they already were. */
  lemma StepMap(e: Engine, l: Line)
    requires Good(e)
    ensures Good(Step(e, l)) && e.map_ <= Step(e, l).map_ && e.roots <= Step(e, l).roots
    ensures l.indent == 0 && l.what.Stmt? ==> Step(e, l).map_ == e.map_ + [l.number]
  {
    StepGood(e, l);
    PopAll(e.stack);
    PopOk(e.stack, l.indent, |e.arena|);
  }

  lemma {:induction false} RunMap(e: Engine, lines: seq<Line>)
    requires Good(e)
    ensures e.map_ <= Run(e, lines).map_ && e.roots <= Run(e, lines).roots
    decreases |lines|
  {
    if lines != [] {
      StepMap(e, lines[0]);
      RunMap(Step(e, lines[0]), lines[1..]);
    }
  }

  /** A file's form becomes one more root, mapped to the line it starts on. */
  lemma RootRun(e: Engine, f: Form, number: nat)
    requires Good(e) && Fits(P.Stmt(f, 0))
    ensures var e1 := Run(e, Lines(P.Stmt(f, 0), number));
            Extended(e, e1, 0, None, [P.Canon(f)]) && e1.map_ == e.map_ + [number]
  {
    hide Run, Lines, Fits, P.Stmt, Meant, Step, Good, Extended;
    var outs := P.Stmt(f, 0);
    RootHead(f);
    PopAll(e.stack);
    StmtRun(e, f, 0, number);
    assert outs == [outs[0]] + outs[1..];
    HeadLine(e, outs[0], outs[1..], number);
    var l := Line(outs[0].indent, number, Meant(outs[0].piece));
    StepMap(e, l);
    RunMap(Step(e, l), Lines(outs[1..], number + 1));
    OneRoot(e, Run(e, Lines(outs, number)), P.Canon(f));
  }

  /** A file's form starts with a line at column 0 that is no arm. */
  lemma RootHead(f: Form)
    requires Fits(P.Stmt(f, 0))
    ensures P.Stmt(f, 0) != [] && P.Stmt(f, 0)[0].indent == 0 && Meant(P.Stmt(f, 0)[0].piece).Stmt?
  {
    hide Fits;
  }

  lemma OneRoot(e: Engine, e': Engine, g: Form)
    requires Good(e) && Good(e') && Extended(e, e', 0, None, [g])
    ensures |e'.map_| == |e.map_| + 1
  {
  }

  /** One form of a file, then the rest. */
  lemma FileSplit(e: Engine, fs: seq<Form>, number: nat)
    requires Good(e) && fs != [] && forall f | f in fs :: Fits(P.Stmt(f, 0))
    ensures var outs := P.Stmt(fs[0], 0);
            Fits(outs) && Run(e, FileLines(fs, number))
                == Run(Run(e, Lines(outs, number)), FileLines(fs[1..], number + |outs| + 1))
  {
    hide Lines, P.Stmt, Good, Run, Fits;
    assert fs[0] in fs;
    var outs := P.Stmt(fs[0], 0);
    RunConcat(e, Lines(outs, number), FileLines(fs[1..], number + |outs| + 1));
  }

  lemma StartNone(number: nat)
    ensures StartLines([], number) == []
  {
  }

  lemma StartFirst(fs: seq<Form>, number: nat)
    requires fs != []
    ensures StartLines(fs, number) == [number] + StartLines(fs[1..], number + |P.Stmt(fs[0], 0)| + 1)
    ensures CanonAll(fs) == [P.Canon(fs[0])] + CanonAll(fs[1..])
  {
    hide P.Stmt;
  }

  lemma {:induction false} FileRun(e: Engine, fs: seq<Form>, number: nat)
    requires Good(e) && forall f | f in fs :: Fits(P.Stmt(f, 0))
    ensures Extended(e, Run(e, FileLines(fs, number)), 0, None, CanonAll(fs))
    ensures Run(e, FileLines(fs, number)).map_ == e.map_ + StartLines(fs, number)
    decreases |fs|
  {
    hide Extended, Lines, P.Stmt, Good, Run, Fits, FileLines, P.Canon, Step, StartLines;
    if fs == [] {
      FileNone(e, number);
      StartNone(number);
    } else {
      FileSplit(e, fs, number);
      RootRun(e, fs[0], number);
      var n := |P.Stmt(fs[0], 0)|;
      var e1 := Run(e, Lines(P.Stmt(fs[0], 0), number));
      FileRun(e1, fs[1..], number + n + 1);
      ExtendedTrans(e, e1, Run(e1, FileLines(fs[1..], number + n + 1)), 0, None, [P.Canon(fs[0])], CanonAll(fs[1..]));
      StartFirst(fs, number);
      assert e.map_ + ([number] + StartLines(fs[1..], number + n + 1)) == e.map_ + [number]
          + StartLines(fs[1..], number + n + 1);
    }
  }

  lemma FileNone(e: Engine, number: nat)
    requires Good(e)
    ensures Extended(e, Run(e, FileLines([], number)), 0, None, [])
    ensures Run(e, FileLines([], number)) == e
  {
    ExtendedRefl(e, 0, None);
  }

  lemma StartGood()
    ensures Good(Start()) && Start().roots == [] && Start().map_ == []
  {
  }

  /** The block engine gives back every printed file, and maps each root to the line it starts on. */
  lemma LayoutRoundTrip(fs: seq<Form>)
    requires forall f | f in fs :: Fits(P.Stmt(f, 0))
    ensures Good(Start())
    ensures Finish(Run(Start(), FileLines(fs, 1))) == CanonAll(fs)
    ensures Run(Start(), FileLines(fs, 1)).map_ == StartLines(fs, 1)
  {
    hide Run, FileLines, Fits, Finish;
    StartGood();
    FileRun(Start(), fs, 1);
    var e := Run(Start(), FileLines(fs, 1));
    FinishTrees(e);
    forall k: nat | k < |fs| ensures Finish(e)[k] == CanonAll(fs)[k] {
      assert RootOk(e.arena, e.roots[k]);
      assert Built(e.arena, 0, ItemsOf(e, None)[0 + k], CanonAll(fs)[k]);
    }
  }
}
