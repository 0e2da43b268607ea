/**
 Which `if` an `elif` or `else` line extends.  The table of `if`s is by column and is not cleared when a block
 closes, so an arm can reach an `if` of a block that is closed.
 */
module AdderArms {
  import opened Wrappers
  import opened AdderForms
  import opened AdderBlocks

  /** The `if` at the line's column is an element of the block that the line itself stands in. */
  predicate OfOpenBlock(e: Engine, indent: nat)
    requires Good(e)
  {
    ParentOk(e, indent);
    var n := e.ifs[Column(indent)];
    n.Some? && Ref(n.value) in ItemsOf(e, Parent(e.stack, indent))
  }

  /** The line leaves the table's entry for the column as it is. */
  predicate LeavesEntry(l: Line, c: nat) {
    Column(l.indent) != c || l.what.Elif?
  }

  lemma EntryStays(e: Engine, l: Line, c: nat)
    requires Good(e) && c < MAXD && LeavesEntry(l, c)
    ensures Good(Step(e, l)) && Step(e, l).ifs[c] == e.ifs[c]
  {
    StepGood(e, l);
    StackTop(e);
  }

  // ---- where a node is an element ----

  /** From `e` to `e'`, node `n` became an element of nothing new. */
  ghost predicate RefsSame(e: Engine, e': Engine, n: nat) {
    && |e.arena| <= |e'.arena|
    && (forall q: nat {:trigger e'.arena[q]} | q < |e'.arena| ::
          Ref(n) in e'.arena[q].items <==> q < |e.arena| && Ref(n) in e.arena[q].items)
    && (Ref(n) in e'.roots <==> Ref(n) in e.roots)
  }

  lemma AddRefs(e: Engine, id: nat, items: seq<Item>, n: nat)
    requires id < |e.arena| && Ref(n) !in items
    ensures RefsSame(e, e.(arena := AddItems(e.arena, id, items)), n)
  {
  }

  lemma NewRefs(e: Engine, node: Node, n: nat)
    requires Ref(n) !in node.items
    ensures RefsSame(e, NewNode(e, node), n)
  {
  }

  lemma RefsTrans(e: Engine, e1: Engine, e2: Engine, n: nat)
    requires RefsSame(e, e1, n) && RefsSame(e1, e2, n)
    ensures RefsSame(e, e2, n)
  {
    forall q: nat | q < |e2.arena|
      ensures Ref(n) in e2.arena[q].items <==> q < |e.arena| && Ref(n) in e.arena[q].items
    {
      assert q < |e1.arena| ==> (Ref(n) in e1.arena[q].items <==> q < |e.arena| && Ref(n) in e.arena[q].items);
    }
  }

  lemma AttachRefs(e: Engine, it: Item, number: nat, n: nat)
    requires it != Ref(n) && (e.stack != [] ==> Last(e.stack).node < |e.arena|)
    ensures RefsSame(e, Attach(e, it, number), n)
  {
  }

  lemma ArmRefs(e: Engine, m: nat, d: nat, n: nat)
    requires m < |e.arena| && d != n
    ensures RefsSame(e, AddArm(e, m, d), n)
  {
  }

  lemma StepArmRefs(e: Engine, indent: nat, number: nat, cond: Option<Form>, n: nat)
    requires Good(e) && n < |e.arena|
    ensures RefsSame(e, StepArm(e, indent, number, cond), n)
  {
    StackTop(e);
    var c := Column(indent);
    assert IfOk(e.arena, e.ifs[c]);
    hide Good;
    if e.ifs[c].Some? {
      var m, d := e.ifs[c].value, |e.arena|;
      var e1 := e.(stack := Pop(e.stack, indent));
      var e2 := if cond.Some? then e1.(arena := AddItems(e.arena, m, [Val(cond.value)])) else e1;
      if cond.Some? {
        AddRefs(e1, m, [Val(cond.value)], n);
      }
      NewRefs(e2, DO_ARM, n);
      ArmRefs(NewNode(e2, DO_ARM), m, d, n);
      RefsTrans(e, e2, NewNode(e2, DO_ARM), n);
      RefsTrans(e, NewNode(e2, DO_ARM), AddArm(NewNode(e2, DO_ARM), m, d), n);
    }
  }

  lemma ValsRefs(fs: seq<Form>, n: nat)
    ensures Ref(n) !in Vals(fs)
  {
  }

  lemma OpenedRefs(e: Engine, indent: nat, kids: seq<Form>, n: nat)
    requires Good(e) && n < |e.arena|
    ensures RefsSame(e, Opened(e, indent, kids), n)
  {
    StackTop(e);
    hide Good;
    ValsRefs(kids, n);
    var e1 := NewNode(e, Node(false, Vals(kids)));
    NewRefs(e, Node(false, Vals(kids)), n);
    var tracked := Headed(kids, "if") || Headed(kids, "when") || Headed(kids, "unless");
    var e2 := e1.(ifs := e.ifs[Column(indent) := if tracked then Some(|e.arena|) else None]);
    if Headed(kids, "if") {
      NewRefs(e2, DO_ARM, n);
      ArmRefs(NewNode(e2, DO_ARM), |e.arena|, |e.arena| + 1, n);
      RefsTrans(e, e2, NewNode(e2, DO_ARM), n);
      RefsTrans(e, NewNode(e2, DO_ARM), AddArm(NewNode(e2, DO_ARM), |e.arena|, |e.arena| + 1), n);
    }
  }

  lemma StepBlockRefs(e: Engine, indent: nat, number: nat, kids: seq<Form>, n: nat)
    requires Good(e) && n < |e.arena|
    ensures RefsSame(e, StepBlock(e, indent, number, kids), n)
  {
    OpenedGood(e, indent, kids);
    var o := Opened(e, indent, kids);
    StackTop(o);
    OpenedRefs(e, indent, kids, n);
    hide Good;
    AttachRefs(o, Ref(|e.arena|), number, n);
    RefsTrans(e, o, Attach(o, Ref(|e.arena|), number), n);
  }

  lemma StepRefs(e: Engine, l: Line, n: nat)
    requires Good(e) && n < |e.arena|
    ensures RefsSame(e, Step(e, l), n)
  {
    PopGood(e, l.indent);
    var e1 := e.(stack := Pop(e.stack, l.indent));
    StackTop(e1);
    match l.what
    case Else => StepArmRefs(e, l.indent, l.number, None, n);
    case Elif(c) => StepArmRefs(e, l.indent, l.number, Some(c), n);
    case Stmt(node, block) =>
      if block {
        StepBlockRefs(e1, l.indent, l.number, LineNode(node, block).kids, n);
      } else {
        hide Good;
        AttachRefs(e1.(ifs := e.ifs[Column(l.indent) := None]), Val(LineNode(node, block)), l.number, n);
      }
  }

  /** Node `n` is an element of the block `parent` and of nothing else. */
  ghost predicate OnlyIn(e: Engine, n: nat, parent: Option<nat>) {
    && (forall q: nat {:trigger e.arena[q]} | q < |e.arena| :: Ref(n) in e.arena[q].items <==> parent == Some(q))
    && (Ref(n) in e.roots <==> parent == None)
  }

  lemma OnlyInStays(e: Engine, e': Engine, n: nat, parent: Option<nat>)
    requires OnlyIn(e, n, parent) && RefsSame(e, e', n) && (parent.Some? ==> parent.value < |e.arena|)
    ensures OnlyIn(e', n, parent)
  {
    forall q: nat | q < |e'.arena| ensures Ref(n) in e'.arena[q].items <==> parent == Some(q) {
      assert q < |e.arena| ==> (Ref(n) in e.arena[q].items <==> parent == Some(q));
    }
  }

  // ---- the block line of an `if` ----

  predicate Tracked(f: Form) {
    f.List? && (Headed(f.kids, "if") || Headed(f.kids, "when") || Headed(f.kids, "unless"))
  }

  /** The line puts its node in the table, and makes it an element of the block that the line stands in. */
  lemma IfLine(e: Engine, l: Line)
    requires Good(e) && l.indent < MAXD && l.what.Stmt? && l.what.block && Tracked(LineNode(l.what.node, true))
    ensures var e1, n := Step(e, l), |e.arena|;
            && Good(e1) && n < |e1.arena| && e1.ifs[l.indent] == Some(n) && OnlyIn(e1, n, Parent(e.stack, l.indent))
            && (Parent(e.stack, l.indent).Some? ==> Parent(e.stack, l.indent).value < n)
  {
    StepGood(e, l);
    ParentOk(e, l.indent);
    PopGood(e, l.indent);
    var e0, kids, n := e.(stack := Pop(e.stack, l.indent)), LineNode(l.what.node, true).kids, |e.arena|;
    var o := Opened(e0, l.indent, kids);
    OpenedGood(e0, l.indent, kids);
    StackTop(o);
    StackTop(e0);
    NoRefs(e0, n);
    OpenedNoRefs(e0, l.indent, kids);
    hide Good;
    AttachOnly(o, n, l.number);
  }

  /** Nothing refers to a node that is not there yet. */
  lemma NoRefs(e: Engine, n: nat)
    requires Good(e) && |e.arena| <= n
    ensures Ref(n) !in e.roots && forall q: nat {:trigger e.arena[q]} | q < |e.arena| :: Ref(n) !in e.arena[q].items
  {
    forall k | 0 <= k < |e.roots| ensures e.roots[k] != Ref(n) {
      assert RootOk(e.arena, e.roots[k]);
    }
    forall q: nat | q < |e.arena| ensures Ref(n) !in e.arena[q].items {
      assert NodeOk(e.arena, q);
      forall i | 0 <= i < |e.arena[q].items| ensures e.arena[q].items[i] != Ref(n) {
        assert ItemOk(e.arena, q, e.arena[q].arm, e.arena[q].items[i]);
      }
    }
  }

  lemma OpenedNoRefs(e: Engine, indent: nat, kids: seq<Form>)
    requires Good(e)
    ensures var o, n := Opened(e, indent, kids), |e.arena|;
            && n < |o.arena| && o.roots == e.roots && o.stack == e.stack && |e.ifs| == |o.ifs| == MAXD
            && (Headed(kids, "if") || Headed(kids, "when") || Headed(kids, "unless")
              ==> o.ifs[Column(indent)] == Some(n))
            && Ref(n) !in o.roots && forall q: nat {:trigger o.arena[q]} | q < |o.arena| :: Ref(n) !in o.arena[q].items
  {
    StackTop(e);
    NoRefs(e, |e.arena|);
    hide Good;
    ValsRefs(kids, |e.arena|);
  }

  lemma AttachOnly(o: Engine, n: nat, number: nat)
    requires o.stack != [] ==> Last(o.stack).node < |o.arena|
    requires Ref(n) !in o.roots && forall q: nat {:trigger o.arena[q]} | q < |o.arena| :: Ref(n) !in o.arena[q].items
    ensures OnlyIn(Attach(o, Ref(n), number), n, if o.stack == [] then None else Some(Last(o.stack).node))
  {
    var e := Attach(o, Ref(n), number);
    if o.stack == [] {
      assert e.roots[|o.roots|] == Ref(n);
    } else {
      var p := Last(o.stack).node;
      assert e.arena[p].items[|o.arena[p].items|] == Ref(n);
    }
  }

  // ---- later arms ----

  /** After lines that leave the column's entry alone, the entry is still that `if`, which is still an element of the
      same block. */
  lemma {:induction false} EntryRun(e: Engine, lines: seq<Line>, c: nat, n: nat, parent: Option<nat>)
    requires Good(e) && c < MAXD && e.ifs[c] == Some(n) && n < |e.arena| && OnlyIn(e, n, parent)
    requires parent.Some? ==> parent.value < n
    requires forall i | 0 <= i < |lines| :: LeavesEntry(lines[i], c)
    ensures Run(e, lines).ifs[c] == Some(n) && OnlyIn(Run(e, lines), n, parent) && |e.arena| <= |Run(e, lines).arena|
    decreases |lines|
  {
    StackTop(Run(e, lines));
    hide Good, Step, OnlyIn, RefsSame;
    if lines != [] {
      EntryStays(e, lines[0], c);
      StepRefs(e, lines[0], n);
      OnlyInStays(e, Step(e, lines[0]), n, parent);
      RefsGrow(e, Step(e, lines[0]), n);
      EntryRun(Step(e, lines[0]), lines[1..], c, n, parent);
    }
  }

  lemma RefsGrow(e: Engine, e': Engine, n: nat)
    requires RefsSame(e, e', n)
    ensures |e.arena| <= |e'.arena|
  {
  }

  lemma InBlock(e: Engine, indent: nat, n: nat, parent: Option<nat>)
    requires Good(e) && indent < MAXD && e.ifs[indent] == Some(n) && OnlyIn(e, n, parent)
    ensures OfOpenBlock(e, indent) <==> Parent(e.stack, indent) == parent
  {
    ParentOk(e, indent);
    hide Good;
    var q := Parent(e.stack, indent);
    if q.Some? {
      assert Ref(n) in e.arena[q.value].items <==> parent == q;
    }
  }

  /** An arm at the column of an `if` line, with lines in between that leave the table alone, extends that `if`.  It
      is an `if` of the block that the arm stands in exactly when that block is the one the `if` line stood in. */
  lemma ArmExact(e: Engine, l: Line, lines: seq<Line>)
    requires Good(e) && l.indent < MAXD && l.what.Stmt? && l.what.block && Tracked(LineNode(l.what.node, true))
    requires forall i | 0 <= i < |lines| :: LeavesEntry(lines[i], l.indent)
    ensures Good(Step(e, l))
    ensures var e2 := Run(Step(e, l), lines);
            && e2.ifs[l.indent] == Some(|e.arena|)
            && (OfOpenBlock(e2, l.indent) <==> Parent(e2.stack, l.indent) == Parent(e.stack, l.indent))
  {
    hide Step, Run, OnlyIn, OfOpenBlock, LeavesEntry, Tracked;
    IfLine(e, l);
    var n, parent := |e.arena|, Parent(e.stack, l.indent);
    EntryRun(Step(e, l), lines, l.indent, n, parent);
    InBlock(Run(Step(e, l), lines), l.indent, n, parent);
  }

  /** A line at the column or to its right leaves the blocks to the left of it open. */
  lemma StepRight(e: Engine, l: Line, c: nat)
    requires Good(e) && c <= l.indent
    ensures Good(Step(e, l)) && Pop(Step(e, l).stack, c) == Pop(e.stack, c)
  {
    StepGood(e, l);
    PopPop(e.stack, c, l.indent);
    PopGood(e, l.indent);
    StackTop(e);
    var s := Pop(e.stack, l.indent);
    PushRight(s, l.indent, c);
    match l.what
    case Stmt(node, block) =>
      var e1 := e.(stack := s);
      if block {
        OpenedGood(e1, l.indent, LineNode(node, block).kids);
        StackTop(Opened(e1, l.indent, LineNode(node, block).kids));
      } else {
        StackTop(e1);
      }
    case _ => assert IfOk(e.arena, e.ifs[Column(l.indent)]);
  }

  lemma PushRight(s: seq<Open>, indent: nat, c: nat)
    requires c <= indent
    ensures forall d: nat {:trigger Push(s, Open(indent, d))} :: Pop(Push(s, Open(indent, d)), c) == Pop(s, c)
  {
    forall d: nat ensures Pop(Push(s, Open(indent, d)), c) == Pop(s, c) {
      if |s| < MAXD {
        PopLast(s, Open(indent, d), c);
      }
    }
  }

  lemma {:induction false} RunRight(e: Engine, lines: seq<Line>, c: nat)
    requires Good(e) && forall i | 0 <= i < |lines| :: c <= lines[i].indent
    ensures Pop(Run(e, lines).stack, c) == Pop(e.stack, c)
    decreases |lines|
  {
    hide Good, Step;
    if lines != [] {
      StepRight(e, lines[0], c);
      RunRight(Step(e, lines[0]), lines[1..], c);
    }
  }

  /** As long as no line stands to the left of the `if`, an arm at its column extends an `if` of the block it stands
      in. */
  lemma ArmOpen(e: Engine, l: Line, lines: seq<Line>)
    requires Good(e) && l.indent < MAXD && l.what.Stmt? && l.what.block && Tracked(LineNode(l.what.node, true))
    requires forall i | 0 <= i < |lines| :: LeavesEntry(lines[i], l.indent) && l.indent <= lines[i].indent
    ensures Good(Step(e, l)) && OfOpenBlock(Run(Step(e, l), lines), l.indent)
  {
    ArmExact(e, l, lines);
    StepRight(e, l, l.indent);
    RunRight(Step(e, l), lines, l.indent);
  }

  // ---- an arm that goes astray ----

  function Def(name: string): Form {
    List([Atom("def"), Atom(name)])
  }

  /** Two functions; the first holds an `if` at column 4, the second an `else` at column 4 and no `if`. */
  const STRAY: seq<Line> :=
    [Line(0, 1, Stmt(Def("f"), true)), Line(4, 2, Stmt(List([Atom("if"), Atom("a")]), true)),
        Line(8, 3, Stmt(Atom("b"), false)),
     Line(0, 4, Stmt(Def("g"), true)), Line(4, 5, Else), Line(8, 6, Stmt(Atom("c"), false))]

  lemma RunStep(e: Engine, l: Line, lines: seq<Line>)
    requires Good(e)
    ensures Good(Step(e, l)) && Run(e, [l] + lines) == Run(Step(e, l), lines)
  {
    StepGood(e, l);
    assert ([l] + lines)[0] == l && ([l] + lines)[1..] == lines;
  }

  const F_NODE: Node := Node(false, [Val(Atom("def")), Val(Atom("f")), Ref(1)])
  const G_NODE: Node := Node(false, [Val(Atom("def")), Val(Atom("g"))])

  /** The function `f`, and its `if` with one arm, are closed; `g` is open. */
  ghost predicate InG(e: Engine) {
    && Good(e) && e.err == None && e.roots == [Ref(0), Ref(3)]
    && e.arena == [F_NODE, Node(false, [Val(Atom("if")), Val(Atom("a")), Ref(2)]),
      Node(true, [Val(Atom("do")), Val(Atom("b"))]), G_NODE]
    && e.stack == [Open(0, 3)] && e.ifs[4] == Some(1)
  }

  /** A function's line at the left margin. */
  lemma DefStep(e: Engine, number: nat, name: string)
    requires Good(e)
    ensures var r := Step(e, Line(0, number, Stmt(Def(name), true)));
            && r.arena == e.arena + [Node(false, [Val(Atom("def")), Val(Atom(name))])]
              && r.stack == [Open(0, |e.arena|)]
            && r.roots == e.roots + [Ref(|e.arena|)] && r.err == e.err && |e.ifs| == MAXD && r.ifs == e.ifs[0 := None]
  {
    StackTop(e);
    PopOk(e.stack, 0, |e.arena|);
    PopGood(e, 0);
    hide Good;
    assert Vals(Def(name).kids) == [Val(Atom("def")), Val(Atom(name))];
  }

  /** The line of an `if` inside a block. */
  lemma IfStep(e: Engine, number: nat)
    requires Good(e) && e.stack == [Open(0, 0)] && |e.arena| == 1
    ensures var r := Step(e, Line(4, number, Stmt(List([Atom("if"), Atom("a")]), true)));
            && r.arena == [e.arena[0].(items := e.arena[0].items + [Ref(1)]),
              Node(false, [Val(Atom("if")), Val(Atom("a")), Ref(2)]), DO_ARM]
            && r.stack == [Open(0, 0), Open(4, 2)] && r.roots == e.roots && r.err == e.err
            && |e.ifs| == MAXD && r.ifs == e.ifs[4 := Some(1)]
  {
    StackTop(e);
    PopGood(e, 4);
    hide Good;
    var kids := [Atom("if"), Atom("a")];
    assert Vals(kids) == [Val(Atom("if")), Val(Atom("a"))];
    assert Pop(e.stack, 4) == e.stack;
    var o := Opened(e, 4, kids);
    assert o.arena == [e.arena[0], Node(false, Vals(kids) + [Ref(2)]), DO_ARM];
    assert Vals(kids) + [Ref(2)] == [Val(Atom("if")), Val(Atom("a")), Ref(2)];
    assert o.stack == e.stack && o.ifs == e.ifs[4 := Some(1)];
    assert Attach(o, Ref(1), number).arena == [e.arena[0].(items := e.arena[0].items + [Ref(1)]), o.arena[1], DO_ARM];
  }

  /** A plain line inside the innermost block. */
  lemma PlainStep(e: Engine, l: Line, t: string)
    requires Good(e) && e.stack != [] && Last(e.stack).ind < l.indent && l.what == Stmt(Atom(t), false)
    ensures Last(e.stack).node < |e.arena| && |e.ifs| == MAXD
    ensures Step(e, l) == e.(arena := AddItems(e.arena, Last(e.stack).node, [Val(Atom(t))]),
        ifs := e.ifs[Column(l.indent) := None])
  {
    StackTop(e);
    PopGood(e, l.indent);
    hide Good;
    assert Pop(e.stack, l.indent) == e.stack;
  }

  /** An `else` at a column that has an entry. */
  lemma ElseStep(e: Engine, number: nat, n: nat)
    requires Good(e) && e.stack == [Open(0, 3)] && e.ifs[4] == Some(n)
    ensures var r, d := Step(e, Line(4, number, Else)), |e.arena|;
            && n < |e.arena| && r.arena == AddItems(e.arena, n, [Ref(d)]) + [DO_ARM]
            && r.stack == [Open(0, 3), Open(4, d)] && r.roots == e.roots && r.err == e.err
  {
    StackTop(e);
    assert IfOk(e.arena, e.ifs[4]);
    hide Good;
    assert Pop(e.stack, 4) == e.stack;
  }

  lemma StartIs()
    ensures Good(Start())
    ensures Start().arena == []
    ensures Start().stack == []
    ensures Start().roots == []
    ensures Start().err == None
  {
  }

  lemma ReachG() returns (e: Engine)
    ensures Good(Start()) && InG(e) && Run(Start(), STRAY) == Run(e, STRAY[4..])
  {
    StartIs();
    hide Good, Step, Run, Start;
    var s0 := Start();
    DefStep(s0, 1, "f");
    RunStep(s0, STRAY[0], STRAY[1..]);
    assert STRAY == [STRAY[0]] + STRAY[1..];
    var s1 := Step(s0, STRAY[0]);
    IfStep(s1, 2);
    RunStep(s1, STRAY[1], STRAY[2..]);
    assert STRAY[1..] == [STRAY[1]] + STRAY[2..];
    var s2 := Step(s1, STRAY[1]);
    PlainStep(s2, STRAY[2], "b");
    RunStep(s2, STRAY[2], STRAY[3..]);
    assert STRAY[2..] == [STRAY[2]] + STRAY[3..];
    var s3 := Step(s2, STRAY[2]);
    DefStep(s3, 4, "g");
    RunStep(s3, STRAY[3], STRAY[4..]);
    assert STRAY[3..] == [STRAY[3]] + STRAY[4..];
    e := Step(s3, STRAY[3]);
    var ifNode := Node(false, [Val(Atom("if")), Val(Atom("a")), Ref(2)]);
    assert [Val(Atom("def")), Val(Atom("f"))] + [Ref(1)] == [Val(Atom("def")), Val(Atom("f")), Ref(1)];
    assert s2.arena == [F_NODE, ifNode, DO_ARM];
    assert [Val(Atom("do"))] + [Val(Atom("b"))] == [Val(Atom("do")), Val(Atom("b"))];
    assert s3.arena == [F_NODE, ifNode, Node(true, [Val(Atom("do")), Val(Atom("b"))])];
    assert e.arena == s3.arena + [G_NODE];
    assert e.ifs[4] == s2.ifs[4];
    assert [Ref(0)] + [Ref(3)] == [Ref(0), Ref(3)];
  }

  /** The arm of `g` is given to the `if` of `f`, and nothing is reported. */
  lemma StrayArm()
    ensures Good(Start())
    ensures var e := Run(Start(), STRAY);
            && e.err == None
            && Finish(e) == [List([Atom("def"), Atom("f"), List([Atom("if"), Atom("a"), Atom("b"), Atom("c")])]),
              Def("g")]
  {
    var e := ReachG();
    hide Good, Step, Start, Finish;
    ElseStep(e, 5, 1);
    RunStep(e, STRAY[4], STRAY[5..]);
    assert STRAY[4..] == [STRAY[4]] + STRAY[5..];
    var e1 := Step(e, STRAY[4]);
    PlainStep(e1, STRAY[5], "c");
    RunStep(e1, STRAY[5], []);
    assert STRAY[5..] == [STRAY[5]] + [];
    StrayTrees(Step(e1, STRAY[5]));
  }

  lemma StrayTrees(e: Engine)
    requires Good(e) && e.roots == [Ref(0), Ref(3)] && |e.arena| == 5
    requires e.arena[0] == F_NODE && e.arena[3] == G_NODE
    requires e.arena[1] == Node(false, [Val(Atom("if")), Val(Atom("a")), Ref(2), Ref(4)])
    requires e.arena[2] == Node(true, [Val(Atom("do")), Val(Atom("b"))])
        && e.arena[4] == Node(true, [Val(Atom("do")), Val(Atom("c"))])
    ensures Finish(e) == [List([Atom("def"), Atom("f"), List([Atom("if"), Atom("a"), Atom("b"), Atom("c")])]), Def("g")]
  {
    FinishTrees(e);
    assert RootOk(e.arena, e.roots[0]) && RootOk(e.arena, e.roots[1]);
    hide Good, Finish, Tree;
    var a := e.arena;
    GoodUpward(e);
    ArmAlone(a, 2, Atom("b"));
    ArmAlone(a, 4, Atom("c"));
    NodeKids(a, 1, [Atom("if"), Atom("a"), Atom("b"), Atom("c")]);
    NodeKids(a, 0, [Atom("def"), Atom("f"), List([Atom("if"), Atom("a"), Atom("b"), Atom("c")])]);
    NodeKids(a, 3, [Atom("def"), Atom("g")]);
  }

  lemma GoodUpward(e: Engine)
    requires Good(e)
    ensures Upward(e.arena)
  {
  }

  lemma ArmAlone(a: seq<Node>, id: nat, f: Form)
    requires Upward(a) && id < |a| && a[id] == Node(true, [Val(Atom("do")), Val(f)])
    ensures Tree(a, Ref(id)) == f
  {
    assert NodeOk(a, id);
  }

  ghost predicate KidIs(a: seq<Node>, it: Item, f: Form)
    requires Upward(a)
  {
    if it.Val? then it.form == f else it.id < |a| && Tree(a, it) == f
  }

  /** The tree of a node whose items' trees are known. */
  lemma NodeKids(a: seq<Node>, id: nat, kids: seq<Form>)
    requires Upward(a) && id < |a| && !a[id].arm && |a[id].items| == |kids|
    requires forall i {:trigger a[id].items[i]} | 0 <= i < |kids| :: KidIs(a, a[id].items[i], kids[i])
    ensures Tree(a, Ref(id)) == List(kids)
  {
    assert NodeOk(a, id);
    var items := a[id].items;
    forall i | 0 <= i < |items| ensures ItemOk(a, id, false, items[i]) && Tree(a, items[i]) == kids[i] {
      assert ItemOk(a, id, a[id].arm, items[i]);
    }
    var ts := match Tree(a, Ref(id)) case List(ts) => ts case _ => [];
    assert ts == kids;
  }

  // ---- the table, told from the lines ----

  const ARM_HEADS: seq<Form> := [Atom("if"), Atom("when"), Atom("unless")]

  /** A header that arms can follow. */
  predicate OpensArms(l: Line) {
    && l.what.Stmt? && l.what.block
    && (l.what.node in ARM_HEADS || (l.what.node.List? && l.what.node.kids != [] && l.what.node.kids[0] in ARM_HEADS))
  }

  /** Of the lines at a column, `elif` lines aside, the last is such a header. */
  predicate Tracking(lines: seq<Line>, c: nat) {
    lines != []
    && if Column(Last(lines).indent) == c && !Last(lines).what.Elif? then OpensArms(Last(lines))
       else Tracking(Front(lines), c)
  }

  /** One line's effect on the table. */
  lemma EntryNext(e: Engine, l: Line, c: nat)
    requires Good(e) && c < MAXD
    ensures |e.ifs| == |Step(e, l).ifs| == MAXD
    ensures Step(e, l).ifs[c].Some? <==>
              if Column(l.indent) == c && !l.what.Elif? then OpensArms(l) else e.ifs[c].Some?
  {
    StackTop(e);
    if l.what.Stmt? && l.what.block {
      HeadedArms(l);
    }
  }

  lemma HeadedArms(l: Line)
    requires l.what.Stmt? && l.what.block
    ensures var kids := LineNode(l.what.node, true).kids;
            OpensArms(l) <==> Headed(kids, "if") || Headed(kids, "when") || Headed(kids, "unless")
  {
  }

  lemma {:induction false} TrackingExact(lines: seq<Line>, c: nat)
    requires c < MAXD
    ensures Good(Start())
    ensures var e := Run(Start(), lines); |e.ifs| == MAXD && (e.ifs[c].Some? <==> Tracking(lines, c))
  {
    StartIs();
    hide Step, OpensArms;
    if lines == [] {
      StartTable();
    } else {
      TrackingExact(Front(lines), c);
      hide Good, Start;
      assert lines == Front(lines) + [Last(lines)];
      RunConcat(Start(), Front(lines), [Last(lines)]);
      RunOnly(Run(Start(), Front(lines)), Last(lines));
      EntryNext(Run(Start(), Front(lines)), Last(lines), c);
    }
  }

  lemma StartTable()
    ensures |Start().ifs| == MAXD && forall c | 0 <= c < MAXD :: Start().ifs[c].None?
  {
  }

  lemma RunOnly(e: Engine, l: Line)
    requires Good(e)
    ensures Run(e, [l]) == Step(e, l)
  {
    StepGood(e, l);
    hide Good, Step;
    assert [l][1..] == [];
  }

  function Stray(l: Line): string {
    "adder line " + Decimal(l.number) + ": "
    + ("`" + (if l.what.Else? then "else" else "elif") + ":` has no matching `if` at this indentation")
  }

  /** An arm is reported, at its own line, exactly when the last line at its column that is no `elif` is no header
      that arms can follow. */
  lemma ArmReported(lines: seq<Line>, l: Line)
    requires !l.what.Stmt?
    ensures Good(Start())
    ensures var e := Run(Start(), lines);
            var r := Step(e, l);
            if Tracking(lines, Column(l.indent)) then r.err == e.err && r.roots == e.roots
            else
              && |r.roots| == |e.roots| + 1 && r.map_ == e.map_ + [l.number] && r.err.Some?
              && (e.err.Some? ==> r.err == e.err)
              && (e.err.None? ==> r.err.value == Diagnosis(l.number, Stray(l)))
  {
    StartIs();
    TrackingExact(lines, Column(l.indent));
    hide Start, Run, Tracking, Good, Decimal;
  }
}
