/** Two sources that differ in what one line says: the forms that are written out differ too. */
module AdderTwins {
  import opened Wrappers
  import opened AdderForms
  import opened AdderBlocks
  import opened AdderGaps
  import opened AdderHung
  import opened AdderWiden

  /** Where two engines differ: in the first items of a node, or in one root. */
  datatype Spot = InNode(n: nat, a: seq<Item>, b: seq<Item>) | InRoots(k: nat)

  /** Two different beginnings of a node's items; an arm's are of one length and start with its `do`. */
  predicate Beginnings(a: seq<Item>, b: seq<Item>, arm: bool) {
    && a != b && (|a| == |b| ==> exists i :: 0 <= i < |a| && a[i].Val? && b[i].Val? && a[i] != b[i])
    && (arm ==> |a| == |b| >= 2 && a[0] == b[0] == Val(Atom("do")))
  }

  predicate NodesDiffer(x: Node, y: Node, a: seq<Item>, b: seq<Item>) {
    && x.arm == y.arm && Beginnings(a, b, x.arm)
    && a <= x.items && b <= y.items && x.items[|a|..] == y.items[|b|..]
  }

  /** The same engine but at this spot, line numbers and noted arms aside, with nothing diagnosed. */
  ghost predicate TwinAt(e: Engine, f: Engine, s: Spot) {
    && e.stack == f.stack && e.ifs == f.ifs && e.err.None? && f.err.None?
    && |e.arena| == |f.arena| && |e.roots| == |f.roots|
    && match s
       case InNode(n, a, b) =>
         && e.roots == f.roots && n < |e.arena| && NodesDiffer(e.arena[n], f.arena[n], a, b)
         && forall m: nat {:trigger e.arena[m]} {:trigger f.arena[m]} | m < |e.arena| && m != n ::
              e.arena[m] == f.arena[m]
       case InRoots(k) =>
         && e.arena == f.arena && k < |e.roots|
         && e.roots[k].Val? && f.roots[k].Val? && e.roots[k] != f.roots[k]
         && forall j {:trigger e.roots[j]} {:trigger f.roots[j]} | 0 <= j < |e.roots| && j != k ::
              e.roots[j] == f.roots[j]
  }

  // ---- the same line in both ----

  lemma AddTwin(e: Engine, f: Engine, s: Spot, id: nat, items: seq<Item>)
    requires TwinAt(e, f, s) && id < |e.arena|
    ensures TwinAt(e.(arena := AddItems(e.arena, id, items)), f.(arena := AddItems(f.arena, id, items)), s)
  {
    if s.InNode? && id == s.n {
      var x, y := e.arena[id].items, f.arena[id].items;
      assert (x + items)[|s.a|..] == x[|s.a|..] + items && (y + items)[|s.b|..] == y[|s.b|..] + items;
    }
  }

  lemma NewTwin(e: Engine, f: Engine, s: Spot, node: Node)
    requires TwinAt(e, f, s)
    ensures TwinAt(NewNode(e, node), NewNode(f, node), s)
  {
  }

  lemma AddArmTwin(e: Engine, f: Engine, s: Spot, n: nat, d: nat)
    requires TwinAt(e, f, s) && n < |e.arena|
    ensures TwinAt(AddArm(e, n, d), AddArm(f, n, d), s)
  {
    AddTwin(e, f, s, n, [Ref(d)]);
    ShapeTwin(e.(arena := AddItems(e.arena, n, [Ref(d)])), f.(arena := AddItems(f.arena, n, [Ref(d)])), s,
        AddArm(e, n, d), AddArm(f, n, d));
  }

  lemma ShapeTwin(e: Engine, f: Engine, s: Spot, e': Engine, f': Engine)
    requires TwinAt(e, f, s) && e'.arena == e.arena && f'.arena == f.arena && e'.roots == e.roots && f'.roots == f.roots
    requires e'.stack == f'.stack && e'.ifs == f'.ifs && e'.err == e.err && f'.err == f.err
    ensures TwinAt(e', f', s)
  {
  }

  lemma AttachTwin(e: Engine, f: Engine, s: Spot, it: Item, n: nat, m: nat)
    requires TwinAt(e, f, s) && (e.stack != [] ==> Last(e.stack).node < |e.arena|)
    ensures TwinAt(Attach(e, it, n), Attach(f, it, m), s)
  {
    if e.stack != [] {
      AddTwin(e, f, s, Last(e.stack).node, [it]);
    }
  }

  lemma StepArmTwin(e: Engine, f: Engine, s: Spot, indent: nat, n: nat, m: nat, cond: Option<Form>)
    requires Good(e) && Good(f) && TwinAt(e, f, s) && StepArm(e, indent, n, cond).err.None?
    ensures TwinAt(StepArm(e, indent, n, cond), StepArm(f, indent, m, cond), s)
  {
    hide TwinAt;
    TwinFrame(e, f, s);
    var c := Column(indent);
    IfsOk(e, c);
    if e.ifs[c].Some? {
      var k, d := e.ifs[c].value, |e.arena|;
      hide Good;
      var e2 := if cond.Some? then e.(arena := AddItems(e.arena, k, [Val(cond.value)])) else e;
      var f2 := if cond.Some? then f.(arena := AddItems(f.arena, k, [Val(cond.value)])) else f;
      if cond.Some? {
        AddTwin(e, f, s, k, [Val(cond.value)]);
      }
      NewTwin(e2, f2, s, DO_ARM);
      AddArmTwin(NewNode(e2, DO_ARM), NewNode(f2, DO_ARM), s, k, d);
      ShapeTwin(AddArm(NewNode(e2, DO_ARM), k, d), AddArm(NewNode(f2, DO_ARM), k, d), s,
          StepArm(e, indent, n, cond), StepArm(f, indent, m, cond));
    }
  }

  lemma TwinFrame(e: Engine, f: Engine, s: Spot)
    requires TwinAt(e, f, s)
    ensures e.stack == f.stack && e.ifs == f.ifs && e.err.None? && f.err.None? && |e.arena| == |f.arena|
  {
  }

  lemma StepBlockTwin(e: Engine, f: Engine, s: Spot, indent: nat, n: nat, m: nat, kids: seq<Form>)
    requires Good(e) && Good(f) && TwinAt(e, f, s)
    ensures TwinAt(StepBlock(e, indent, n, kids), StepBlock(f, indent, m, kids), s)
  {
    hide TwinAt, Headed;
    TwinFrame(e, f, s);
    StackTop(e);
    OpenedTwin(e, f, s, indent, kids);
    OpenedGood(e, indent, kids);
    OpenedGood(f, indent, kids);
    hide Good, Opened;
    var k := |e.arena|;
    AttachTwin(Opened(e, indent, kids), Opened(f, indent, kids), s, Ref(k), n, m);
    BlockShape(e, indent, n, kids);
    BlockShape(f, indent, m, kids);
    ShapeTwin(Attach(Opened(e, indent, kids), Ref(k), n), Attach(Opened(f, indent, kids), Ref(k), m), s,
        StepBlock(e, indent, n, kids), StepBlock(f, indent, m, kids));
  }

  lemma BlockShape(e: Engine, indent: nat, n: nat, kids: seq<Form>)
    requires Good(e)
    ensures var r, e3 := StepBlock(e, indent, n, kids), Opened(e, indent, kids);
            && e3.stack == e.stack && (e3.stack != [] ==> Last(e3.stack).node < |e3.arena|)
            && r == Attach(e3, Ref(|e.arena|), n).(stack :=
              Push(e.stack, Open(indent, if Headed(kids, "if") then |e.arena| + 1 else |e.arena|)))
  {
    StackTop(e);
    OpenedGood(e, indent, kids);
    hide Good;
  }

  lemma OpenedTwin(e: Engine, f: Engine, s: Spot, indent: nat, kids: seq<Form>)
    requires Good(e) && Good(f) && TwinAt(e, f, s)
    ensures TwinAt(Opened(e, indent, kids), Opened(f, indent, kids), s)
  {
    hide TwinAt, Good, Headed;
    TwinFrame(e, f, s);
    var n := |e.arena|;
    var e1, f1 := NewNode(e, Node(false, Vals(kids))), NewNode(f, Node(false, Vals(kids)));
    NewTwin(e, f, s, Node(false, Vals(kids)));
    if Headed(kids, "if") {
      NewTwin(e1, f1, s, DO_ARM);
      AddArmTwin(NewNode(e1, DO_ARM), NewNode(f1, DO_ARM), s, n, n + 1);
      ShapeTwin(AddArm(NewNode(e1, DO_ARM), n, n + 1), AddArm(NewNode(f1, DO_ARM), n, n + 1), s,
          Opened(e, indent, kids), Opened(f, indent, kids));
    } else {
      ShapeTwin(e1, f1, s, Opened(e, indent, kids), Opened(f, indent, kids));
    }
  }

  /** The same line keeps the difference where it is. */
  lemma StepTwin(e: Engine, f: Engine, s: Spot, indent: nat, n: nat, m: nat, what: What)
    requires Good(e) && Good(f) && TwinAt(e, f, s) && Step(e, Line(indent, n, what)).err.None?
    ensures TwinAt(Step(e, Line(indent, n, what)), Step(f, Line(indent, m, what)), s)
  {
    hide TwinAt, StepArm, StepBlock, LineNode;
    TwinFrame(e, f, s);
    match what
    case Else => StepArmTwin(e, f, s, indent, n, m, None);
    case Elif(c) => StepArmTwin(e, f, s, indent, n, m, Some(c));
    case Stmt(node, block) =>
      PopGood(e, indent);
      PopGood(f, indent);
      var e1, f1 := e.(stack := Pop(e.stack, indent)), f.(stack := Pop(f.stack, indent));
      ShapeTwin(e, f, s, e1, f1);
      if block {
        StepBlockTwin(e1, f1, s, indent, n, m, LineNode(node, block).kids);
      } else {
        StackTop(e1);
        hide Good;
        var c := Column(indent);
        var e2, f2 := e1.(ifs := e.ifs[c := None]), f1.(ifs := f.ifs[c := None]);
        ShapeTwin(e1, f1, s, e2, f2);
        AttachTwin(e2, f2, s, Val(LineNode(node, block)), n, m);
      }
  }

  // ---- the line that differs ----

  lemma RemapUnlike(f: Form, g: Form, block: bool)
    requires Unlike(f, g)
    ensures LineNode(f, block) != LineNode(g, block)
    ensures block ==> forall w | w in ["if", "when", "unless"] ::
              Headed(LineNode(f, block).kids, w) == Headed(LineNode(g, block).kids, w)
  {
    var x, y := if block && f.Atom? then List([f]) else f, if block && g.Atom? then List([g]) else g;
    assert f.Atom? ==> NoKeyword(f) && NoKeyword(g);
    if x.List? {
      assert x.kids != y.kids;
      if x.kids[0] == y.kids[0] {
        assert x.kids == [x.kids[0]] + x.kids[1..] && y.kids == [y.kids[0]] + y.kids[1..];
        assert ([Atom("defmacro")] + x.kids[1..])[1..] == x.kids[1..];
        assert ([Atom("defmacro")] + y.kids[1..])[1..] == y.kids[1..];
      }
    }
  }

  /** The same engine, line numbers aside, with nothing diagnosed. */
  predicate SameEngine(e: Engine, f: Engine) {
    e.(map_ := []) == f.(map_ := []) && |e.map_| == |f.map_| && e.err.None?
  }

  lemma AttachDiffers(e: Engine, f: Engine, x: Form, y: Form, n: nat, m: nat) returns (s: Spot)
    requires SameEngine(e, f) && Hung(e) && x != y && (e.stack != [] ==> Last(e.stack).node < |e.arena|)
    ensures TwinAt(Attach(e, Val(x), n), Attach(f, Val(y), m), s)
  {
    if e.stack == [] {
      s := InRoots(|e.roots|);
    } else {
      var k := Last(e.stack).node;
      s := AddDiffers(e, f, k, x, y);
    }
  }

  /** A form at the end of a node's items, in two versions. */
  lemma AddDiffers(e: Engine, f: Engine, k: nat, x: Form, y: Form) returns (s: Spot)
    requires SameEngine(e, f) && Hung(e) && x != y && k < |e.arena|
    ensures TwinAt(e.(arena := AddItems(e.arena, k, [Val(x)])), f.(arena := AddItems(f.arena, k, [Val(y)])), s)
  {
    assert HungAt(e, k);
    var old_ := e.arena[k].items;
    var a, b := old_ + [Val(x)], old_ + [Val(y)];
    assert a[|old_|] == Val(x) && b[|old_|] == Val(y);
    s := InNode(k, a, b);
  }

  lemma ElifDiffers(e: Engine, f: Engine, indent: nat, n: nat, m: nat, x: Form, y: Form) returns (s: Spot)
    requires Good(e) && Good(f) && Hung(e) && SameEngine(e, f) && x != y && StepArm(e, indent, n, Some(x)).err.None?
    ensures TwinAt(StepArm(e, indent, n, Some(x)), StepArm(f, indent, m, Some(y)), s)
  {
    hide TwinAt, Hung;
    var c := Column(indent);
    IfsOk(e, c);
    if e.ifs[c].Some? {
      hide Good;
      var k, d := e.ifs[c].value, |e.arena|;
      var e2, f2 := e.(arena := AddItems(e.arena, k, [Val(x)])), f.(arena := AddItems(f.arena, k, [Val(y)]));
      s := AddDiffers(e, f, k, x, y);
      NewTwin(e2, f2, s, DO_ARM);
      AddArmTwin(NewNode(e2, DO_ARM), NewNode(f2, DO_ARM), s, k, d);
      ShapeTwin(AddArm(NewNode(e2, DO_ARM), k, d), AddArm(NewNode(f2, DO_ARM), k, d), s,
          StepArm(e, indent, n, Some(x)), StepArm(f, indent, m, Some(y)));
    } else {
      assert false;
    }
  }

  lemma NewDiffers(e: Engine, f: Engine, x: seq<Form>, y: seq<Form>) returns (s: Spot)
    requires SameEngine(e, f) && x != y
    ensures TwinAt(NewNode(e, Node(false, Vals(x))), NewNode(f, Node(false, Vals(y))), s)
  {
    var a, b := Vals(x), Vals(y);
    if |x| == |y| {
      var i :| 0 <= i < |x| && x[i] != y[i];
      assert a[i] == Val(x[i]) && b[i] == Val(y[i]);
    }
    s := InNode(|e.arena|, a, b);
  }

  lemma BlockDiffers(e: Engine, f: Engine, indent: nat, n: nat, m: nat, x: seq<Form>, y: seq<Form>) returns (s: Spot)
    requires Good(e) && Good(f) && SameEngine(e, f) && x != y
    requires forall w | w in ["if", "when", "unless"] :: Headed(x, w) == Headed(y, w)
    ensures TwinAt(StepBlock(e, indent, n, x), StepBlock(f, indent, m, y), s)
  {
    hide TwinAt, Headed;
    BlockShape(e, indent, n, x);
    BlockShape(f, indent, m, y);
    hide Good;
    var k := |e.arena|;
    var e1, f1 := NewNode(e, Node(false, Vals(x))), NewNode(f, Node(false, Vals(y)));
    s := NewDiffers(e, f, x, y);
    if Headed(x, "if") {
      NewTwin(e1, f1, s, DO_ARM);
      AddArmTwin(NewNode(e1, DO_ARM), NewNode(f1, DO_ARM), s, k, k + 1);
      ShapeTwin(AddArm(NewNode(e1, DO_ARM), k, k + 1), AddArm(NewNode(f1, DO_ARM), k, k + 1), s,
          Opened(e, indent, x), Opened(f, indent, y));
    } else {
      ShapeTwin(e1, f1, s, Opened(e, indent, x), Opened(f, indent, y));
    }
    AttachTwin(Opened(e, indent, x), Opened(f, indent, y), s, Ref(k), n, m);
    ShapeTwin(Attach(Opened(e, indent, x), Ref(k), n), Attach(Opened(f, indent, y), Ref(k), m), s,
        StepBlock(e, indent, n, x), StepBlock(f, indent, m, y));
  }

  /** A line in two versions leaves a difference. */
  lemma StepDiffers(e: Engine, f: Engine, indent: nat, n: nat, m: nat, w: What, v: What) returns (s: Spot)
    requires Good(e) && Good(f) && Hung(e) && SameEngine(e, f) && WhatUnlike(w, v)
    requires Step(e, Line(indent, n, w)).err.None?
    ensures TwinAt(Step(e, Line(indent, n, w)), Step(f, Line(indent, m, v)), s)
  {
    hide TwinAt, StepArm, StepBlock, LineNode, Unlike, Hung;
    match w
    case Else =>
    case Elif(c) => s := ElifDiffers(e, f, indent, n, m, c, v.cond);
    case Stmt(node, block) =>
      PopGood(e, indent);
      PopGood(f, indent);
      var e1, f1 := e.(stack := Pop(e.stack, indent)), f.(stack := Pop(f.stack, indent));
      RemapUnlike(node, v.node, block);
      if block {
        s := BlockDiffers(e1, f1, indent, n, m, LineNode(node, block).kids, LineNode(v.node, block).kids);
      } else {
        StackTop(e1);
        hide Good;
        var c := Column(indent);
        var e2, f2 := e1.(ifs := e.ifs[c := None]), f1.(ifs := f.ifs[c := None]);
        HungShape(e, e2);
        s := AttachDiffers(e2, f2, LineNode(node, block), LineNode(v.node, block), n, m);
      }
  }

  // ---- what is written out ----

  lemma NodeTree(a: seq<Node>, n: nat)
    requires Upward(a) && n < |a|
    ensures forall i | 0 <= i < |a[n].items| :: a[n].items[i].Ref? ==> n < a[n].items[i].id < |a|
    ensures Tree(a, Ref(n)) == if a[n].arm && |a[n].items| == 2 then Tree(a, a[n].items[1])
        else List(seq(|a[n].items|, i requires 0 <= i < |a[n].items| => Tree(a, a[n].items[i])))
  {
    assert NodeOk(a, n);
    assert forall i | 0 <= i < |a[n].items| :: ItemOk(a, n, a[n].arm, a[n].items[i]);
  }

  /** The node that differs has another tree. */
  lemma NodeTreeDiffers(e: Engine, f: Engine, n: nat, a: seq<Item>, b: seq<Item>)
    requires Upward(e.arena) && Upward(f.arena) && TwinAt(e, f, InNode(n, a, b))
    ensures Tree(e.arena, Ref(n)) != Tree(f.arena, Ref(n))
  {
    var x, y := e.arena[n], f.arena[n];
    NodeTree(e.arena, n);
    NodeTree(f.arena, n);
    if |a| == |b| {
      var i :| 0 <= i < |a| && a[i].Val? && b[i].Val? && a[i] != b[i];
      assert |x.items| == |a| + |x.items[|a|..]| && |y.items| == |b| + |y.items[|b|..]|;
      assert x.items[i] == a[i] && y.items[i] == b[i];
      if !(x.arm && |x.items| == 2) {
        assert Tree(e.arena, Ref(n)).kids[i] == a[i].form && Tree(f.arena, Ref(n)).kids[i] == b[i].form;
      }
    } else {
      assert |x.items| == |a| + |x.items[|a|..]| && |y.items| == |b| + |y.items[|b|..]|;
      assert |Tree(e.arena, Ref(n)).kids| != |Tree(f.arena, Ref(n)).kids|;
    }
  }

  /** So has every node above it, and a root. */
  lemma {:induction false} TwinClimbs(e: Engine, f: Engine, n: nat, a: seq<Item>, b: seq<Item>, m: nat) returns (k: nat)
    requires Upward(e.arena) && Upward(f.arena) && Hung(e) && TwinAt(e, f, InNode(n, a, b)) && m <= n
    requires Tree(e.arena, Ref(m)) != Tree(f.arena, Ref(m))
    ensures k < |e.roots| && e.roots[k].Ref? && e.roots[k].id <= n
    ensures Tree(e.arena, e.roots[k]) != Tree(f.arena, e.roots[k])
    decreases m
  {
    assert HungAt(e, m);
    if Ref(m) in e.roots {
      k :| 0 <= k < |e.roots| && e.roots[k] == Ref(m);
    } else {
      var p: nat :| p < m && Ref(m) in e.arena[p].items;
      assert e.arena[p] == f.arena[p];
      var items := e.arena[p].items;
      var i :| 0 <= i < |items| && items[i] == Ref(m);
      NodeTree(e.arena, p);
      NodeTree(f.arena, p);
      assert HungAt(e, p);
      if !(e.arena[p].arm && |items| == 2) {
        assert Tree(e.arena, Ref(p)).kids[i] != Tree(f.arena, Ref(p)).kids[i];
      }
      k := TwinClimbs(e, f, n, a, b, p);
    }
  }

  /** Engines that differ at a spot write out different forms. */
  lemma TwinsFinish(e: Engine, f: Engine, s: Spot)
    requires Good(e) && Good(f) && Hung(e) && TwinAt(e, f, s)
    ensures Finish(e) != Finish(f)
  {
    FinishTrees(e);
    FinishTrees(f);
    GoodUpward(e);
    GoodUpward(f);
    hide Good, Finish, Hung;
    match s
    case InRoots(k) =>
      assert Finish(e)[k] == Tree(e.arena, e.roots[k]) && Finish(f)[k] == Tree(f.arena, f.roots[k]);
    case InNode(n, a, b) =>
      NodeTreeDiffers(e, f, n, a, b);
      var k := TwinClimbs(e, f, n, a, b, n);
      assert Finish(e)[k] == Tree(e.arena, e.roots[k]) && Finish(f)[k] == Tree(f.arena, f.roots[k]);
  }
}
