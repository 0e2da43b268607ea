/** Nothing that a line brings is lost: every node of the arena hangs under a root, and what it holds is written out. */
module AdderHung {
  import opened Wrappers
  import opened AdderForms
  import opened AdderBlocks
  import opened AdderComments
  import opened AdderOutput
  import opened AdderSource

  /** Node `n` is a root, or an item of a node before it; a synthesized arm starts with its `do`. */
  ghost predicate HungAt(e: Engine, n: nat) {
    n < |e.arena| ==>
      && (Ref(n) in e.roots || exists p: nat :: p < n && Ref(n) in e.arena[p].items)
      && (e.arena[n].arm ==> e.arena[n].items != [] && e.arena[n].items[0] == Val(Atom("do")))
  }

  ghost predicate Hung(e: Engine) {
    forall n: nat {:trigger HungAt(e, n)} :: HungAt(e, n)
  }

  /** Items are only ever added, at the end. */
  predicate GrownNode(a: seq<Node>, b: seq<Node>, n: nat) {
    n < |a| <= |b| ==> b[n].arm == a[n].arm && a[n].items <= b[n].items
  }

  ghost predicate Grows(e: Engine, e': Engine) {
    && |e.arena| <= |e'.arena| && e.roots <= e'.roots
    && forall n: nat {:trigger GrownNode(e.arena, e'.arena, n)} :: GrownNode(e.arena, e'.arena, n)
  }

  lemma GrowsRefl(e: Engine, e': Engine)
    requires e'.arena == e.arena && e.roots <= e'.roots
    ensures Grows(e, e')
  {
  }

  lemma GrowsTrans(e: Engine, e1: Engine, e2: Engine)
    requires Grows(e, e1) && Grows(e1, e2)
    ensures Grows(e, e2)
  {
    forall n: nat ensures GrownNode(e.arena, e2.arena, n) {
      assert GrownNode(e.arena, e1.arena, n) && GrownNode(e1.arena, e2.arena, n);
    }
  }

  lemma InGrown<T>(a: seq<T>, b: seq<T>, x: T)
    requires a <= b && x in a
    ensures x in b
  {
    var i :| 0 <= i < |a| && a[i] == x;
    assert b[i] == x;
  }

  lemma HungGrown(e: Engine, e': Engine, n: nat)
    requires Grows(e, e') && HungAt(e, n) && n < |e.arena|
    ensures HungAt(e', n)
  {
    assert GrownNode(e.arena, e'.arena, n);
    if Ref(n) in e.roots {
      InGrown(e.roots, e'.roots, Ref(n));
    } else {
      var p: nat :| p < n && Ref(n) in e.arena[p].items;
      assert GrownNode(e.arena, e'.arena, p);
      InGrown(e.arena[p].items, e'.arena[p].items, Ref(n));
    }
  }

  // ---- every step ----

  lemma AddItemsGrows(e: Engine, id: nat, items: seq<Item>)
    requires id < |e.arena|
    ensures Grows(e, e.(arena := AddItems(e.arena, id, items)))
    ensures forall it | it in items :: it in AddItems(e.arena, id, items)[id].items
  {
  }

  lemma NewNodeGrows(e: Engine, node: Node)
    ensures Grows(e, NewNode(e, node))
  {
  }

  /** The item goes to the roots, or to the innermost open block. */
  lemma AttachGrows(e: Engine, it: Item, line: nat)
    requires e.stack != [] ==> Last(e.stack).node < |e.arena|
    ensures Grows(e, Attach(e, it, line))
    ensures it in if e.stack == [] then Attach(e, it, line).roots
                  else Attach(e, it, line).arena[Last(e.stack).node].items
  {
    if e.stack == [] {
      GrowsRefl(e, Attach(e, it, line));
    } else {
      AddItemsGrows(e, Last(e.stack).node, [it]);
    }
  }

  /** A step that makes no node. */
  lemma HungSame(e: Engine, e': Engine)
    requires Hung(e) && Grows(e, e') && |e.arena| == |e'.arena|
    ensures Hung(e')
  {
    forall n: nat ensures HungAt(e', n) {
      assert HungAt(e, n);
      if n < |e.arena| {
        HungGrown(e, e', n);
      }
    }
  }

  lemma StepArmHung(e: Engine, indent: nat, number: nat, cond: Option<Form>)
    requires Good(e) && Hung(e)
    ensures Hung(StepArm(e, indent, number, cond)) && Grows(e, StepArm(e, indent, number, cond))
    ensures StepArm(e, indent, number, cond).err.None? && cond.Some? ==>
              exists n :: 0 <= n < |StepArm(e, indent, number, cond).arena|
                && Val(cond.value) in StepArm(e, indent, number, cond).arena[n].items
  {
    hide Good, Hung, Grows, Fail;
    var e1 := e.(stack := Pop(e.stack, indent));
    var c := Column(indent);
    IfsOk(e, c);
    if e.ifs[c].Some? {
      var n := e.ifs[c].value;
      ArmParts(e, indent, number, cond);
      var e2 := if cond.Some? then e.(arena := AddItems(e.arena, n, [Val(cond.value)])) else e;
      if cond.Some? {
        AddItemsGrows(e, n, [Val(cond.value)]);
      } else {
        GrowsRefl(e, e2);
      }
      HungSame(e, e2);
      ArmHung(e2, n);
      var e3 := AddArm(NewNode(e2, DO_ARM), n, |e.arena|);
      GrowsTrans(e, e2, e3);
      HungShape(e3, StepArm(e, indent, number, cond));
      if cond.Some? {
        ItemStays(e2, e3, n, Val(cond.value));
      }
    } else {
      var what := "`" + (if cond.None? then "else" else "elif") + ":` has no matching `if` at this indentation";
      FailHung(e, e1, number, what);
    }
  }

  lemma IfsOk(e: Engine, c: nat)
    requires Good(e) && c < MAXD
    ensures c < |e.ifs| && (e.ifs[c].Some? ==> e.ifs[c].value < |e.arena|)
  {
    assert IfOk(e.arena, e.ifs[c]);
  }

  lemma FailHung(e: Engine, e1: Engine, number: nat, what: string)
    requires Hung(e) && e1.arena == e.arena && e1.roots == e.roots
    ensures Hung(Fail(e1, number, what)) && Grows(e, Fail(e1, number, what)) && Fail(e1, number, what).err.Some?
  {
    HungSame(e, Fail(e1, number, what));
  }

  /** Only arena and roots matter. */
  lemma HungShape(e: Engine, e': Engine)
    requires Hung(e) && e'.arena == e.arena && e'.roots == e.roots
    ensures Hung(e')
    ensures forall d :: Grows(d, e) ==> Grows(d, e')
  {
    HungSame(e, e');
  }

  lemma ItemStays(e: Engine, e': Engine, n: nat, it: Item)
    requires Grows(e, e') && n < |e.arena| && it in e.arena[n].items
    ensures n < |e'.arena| && it in e'.arena[n].items
  {
    assert GrownNode(e.arena, e'.arena, n);
    InGrown(e.arena[n].items, e'.arena[n].items, it);
  }

  lemma ArmParts(e: Engine, indent: nat, number: nat, cond: Option<Form>)
    requires Good(e) && Column(indent) < |e.ifs| && e.ifs[Column(indent)].Some?
    ensures var n := e.ifs[Column(indent)].value;
            && n < |e.arena|
            && var e2 := if cond.Some? then e.(arena := AddItems(e.arena, n, [Val(cond.value)])) else e;
               var e3, r := AddArm(NewNode(e2, DO_ARM), n, |e.arena|), StepArm(e, indent, number, cond);
               r.arena == e3.arena && r.roots == e3.roots && r.err == e.err
  {
    IfsOk(e, Column(indent));
    hide Good;
  }

  /** A new arm hangs under its `if`. */
  lemma ArmHung(e: Engine, n: nat)
    requires Hung(e) && n < |e.arena|
    ensures var e' := AddArm(NewNode(e, DO_ARM), n, |e.arena|); Hung(e') && Grows(e, e')
  {
    var d := |e.arena|;
    var e1 := NewNode(e, DO_ARM);
    var e' := AddArm(e1, n, d);
    NewNodeGrows(e, DO_ARM);
    AddItemsGrows(e1, n, [Ref(d)]);
    GrowsTrans(e, e1, e');
    forall m: nat ensures HungAt(e', m) {
      assert HungAt(e, m);
      if m < d {
        HungGrown(e, e', m);
      } else if m == d {
        assert Ref(d) in e'.arena[n].items;
        assert e'.arena[d] == DO_ARM;
      }
    }
  }

  /** All but node `n`, which is still to be attached. */
  ghost predicate HungBut(e: Engine, n: nat) {
    n < |e.arena| && !e.arena[n].arm && forall m: nat {:trigger HungAt(e, m)} :: m != n ==> HungAt(e, m)
  }

  lemma OpenedHung(e: Engine, indent: nat, kids: seq<Form>)
    requires Good(e) && Hung(e)
    ensures HungBut(Opened(e, indent, kids), |e.arena|) && Grows(e, Opened(e, indent, kids))
    ensures forall k | k in kids :: Val(k) in Opened(e, indent, kids).arena[|e.arena|].items
  {
    hide Good;
    var n := |e.arena|;
    var e1 := NewNode(e, Node(false, Vals(kids)));
    var e3 := Opened(e, indent, kids);
    NewNodeGrows(e, Node(false, Vals(kids)));
    forall k | k in kids ensures Val(k) in e1.arena[n].items {
      var i :| 0 <= i < |kids| && kids[i] == k;
      assert Vals(kids)[i] == Val(k);
    }
    forall m: nat | m != n ensures HungAt(e1, m) {
      assert HungAt(e, m);
      if m < n {
        HungGrown(e, e1, m);
      }
    }
    if Headed(kids, "if") {
      OpenedArm(e1, n);
      var e2 := AddArm(NewNode(e1, DO_ARM), n, n + 1);
      GrowsTrans(e, e1, e2);
      ButShape(e, e2, e3, n);
    } else {
      ButShape(e, e1, e3, n);
    }
  }

  lemma ButShape(d: Engine, e: Engine, e': Engine, n: nat)
    requires HungBut(e, n) && Grows(d, e) && e'.arena == e.arena && e'.roots == e.roots
    ensures HungBut(e', n) && Grows(d, e')
  {
    forall m: nat | m != n ensures HungAt(e', m) {
      assert HungAt(e, m);
    }
  }

  lemma OpenedArm(e: Engine, n: nat)
    requires n + 1 == |e.arena| && HungBut(e, n)
    ensures var e' := AddArm(NewNode(e, DO_ARM), n, n + 1);
            HungBut(e', n) && Grows(e, e') && forall it | it in e.arena[n].items :: it in e'.arena[n].items
  {
    var d := n + 1;
    var e1 := NewNode(e, DO_ARM);
    var e' := AddArm(e1, n, d);
    NewNodeGrows(e, DO_ARM);
    AddItemsGrows(e1, n, [Ref(d)]);
    GrowsTrans(e, e1, e');
    forall m: nat | m != n ensures HungAt(e', m) {
      if m < n {
        assert HungAt(e, m);
        HungGrown(e, e', m);
      } else if m == d {
        assert Ref(d) in e'.arena[n].items;
        assert e'.arena[d] == DO_ARM;
      }
    }
  }

  lemma AttachHung(e: Engine, n: nat, number: nat)
    requires HungBut(e, n) && (e.stack != [] ==> Last(e.stack).node < n)
    ensures Hung(Attach(e, Ref(n), number))
  {
    var e' := Attach(e, Ref(n), number);
    AttachGrows(e, Ref(n), number);
    forall m: nat ensures HungAt(e', m) {
      assert GrownNode(e.arena, e'.arena, m);
      if m < |e.arena| && m != n {
        assert HungAt(e, m);
        HungGrown(e, e', m);
      }
    }
  }

  lemma StepBlockHung(e: Engine, indent: nat, number: nat, kids: seq<Form>)
    requires Good(e) && Hung(e)
    ensures Hung(StepBlock(e, indent, number, kids)) && Grows(e, StepBlock(e, indent, number, kids))
    ensures var e' := StepBlock(e, indent, number, kids);
            |e.arena| < |e'.arena| && forall k | k in kids :: Val(k) in e'.arena[|e.arena|].items
  {
    var e3, n, e' := Opened(e, indent, kids), |e.arena|, StepBlock(e, indent, number, kids);
    StackTop(e);
    OpenedGood(e, indent, kids);
    hide Good, Hung, HungBut, Grows;
    OpenedHung(e, indent, kids);
    BlockParts(e, indent, number, kids);
    var e4 := Attach(e3, Ref(n), number);
    AttachHung(e3, n, number);
    AttachGrows(e3, Ref(n), number);
    GrowsTrans(e, e3, e4);
    HungShape(e4, e');
    forall k | k in kids ensures n < |e'.arena| && Val(k) in e'.arena[n].items {
      ItemStays(e3, e4, n, Val(k));
    }
    GrowsSize(e3, e4);
  }

  lemma GrowsSize(e: Engine, e': Engine)
    requires Grows(e, e')
    ensures |e.arena| <= |e'.arena|
  {
  }

  lemma BlockParts(e: Engine, indent: nat, number: nat, kids: seq<Form>)
    requires Good(e)
    ensures var e3, n := Opened(e, indent, kids), |e.arena|;
            && n < |e3.arena| && e3.stack == e.stack && (e3.stack != [] ==> Last(e3.stack).node < n)
            && var r, e4 := StepBlock(e, indent, number, kids), Attach(e3, Ref(n), number);
               r.arena == e4.arena && r.roots == e4.roots
  {
    StackTop(e);
    OpenedGood(e, indent, kids);
    hide Good;
  }

  /** Where the form of a line goes: among the roots, or to a node. */
  ghost predicate Holds(e: Engine, it: Item) {
    it in e.roots || exists n: nat :: n < |e.arena| && it in e.arena[n].items
  }

  /** What a line brings, form by form. */
  function Brought(w: What): seq<Form> {
    match w
    case Else => []
    case Elif(c) => [c]
    case Stmt(node, block) => if block then LineNode(node, block).kids else [LineNode(node, block)]
  }

  /** Every line keeps everything hung, takes nothing away, and puts down what it brings. */
  lemma StepHung(e: Engine, l: Line)
    requires Good(e) && Hung(e)
    ensures Hung(Step(e, l)) && Grows(e, Step(e, l))
    ensures Step(e, l).err.None? ==> forall f | f in Brought(l.what) :: Holds(Step(e, l), Val(f))
  {
    hide Good, Hung, Grows, StepArm, StepBlock, Attach, LineNode;
    match l.what
    case Else => StepArmHung(e, l.indent, l.number, None);
    case Elif(c) => StepArmHung(e, l.indent, l.number, Some(c));
    case Stmt(node, block) =>
      PopGood(e, l.indent);
      var e1 := e.(stack := Pop(e.stack, l.indent));
      HungShape(e, e1);
      GrowsRefl(e, e1);
      StackTop(e1);
      if block {
        StepBlockHung(e1, l.indent, l.number, LineNode(node, block).kids);
        GrowsTrans(e, e1, Step(e, l));
      } else {
        PlainHung(e, e1.(ifs := e.ifs[Column(l.indent) := None]), Val(LineNode(node, block)), l.number);
      }
  }

  lemma PlainHung(e: Engine, e1: Engine, it: Item, number: nat)
    requires Hung(e) && e1.arena == e.arena && e1.roots == e.roots
    requires e1.stack != [] ==> Last(e1.stack).node < |e1.arena|
    ensures Hung(Attach(e1, it, number)) && Grows(e, Attach(e1, it, number)) && Holds(Attach(e1, it, number), it)
  {
    AttachGrows(e1, it, number);
    HungSame(e, Attach(e1, it, number));
  }

  lemma HoldsGrown(e: Engine, e': Engine, it: Item)
    requires Grows(e, e') && Holds(e, it)
    ensures Holds(e', it)
  {
    if it in e.roots {
      InGrown(e.roots, e'.roots, it);
    } else {
      var n: nat :| n < |e.arena| && it in e.arena[n].items;
      ItemStays(e, e', n, it);
    }
  }

  // ---- a whole source ----

  lemma ProcessHung(st: Source, raw: string, number: nat)
    requires Good(st.engine) && Hung(st.engine)
    ensures Hung(Process(st, raw, number).engine) && Grows(st.engine, Process(st, raw, number).engine)
    ensures Process(st, raw, number).engine.err.None? && BodyOf(raw) != ""
            ==> forall f | f in Brought(ReadBody(BodyOf(raw))) :: Holds(Process(st, raw, number).engine, Val(f))
  {
    hide Good, Hung, Grows, Strip, ReadBody, CheckIndent, Step, Fail, Brought, Holds, Indent, TrimRight;
    var text := Strip(raw, false);
    var n := Indent(text);
    GrowsRefl(st.engine, st.engine);
    if BodyOf(raw) != "" {
      var st1 := CheckIndent(st, text[..n], number);
      var what := "indentation mixes tabs and spaces; pick one";
      StyleFails(st, text[..n], number, what);
      FailHung(st.engine, st.engine, number, what);
      var l := Line(n, number, ReadBody(BodyOf(raw)));
      StepHung(st1.engine, l);
      GrowsTrans(st.engine, st1.engine, Step(st1.engine, l));
    }
  }

  lemma LogicalHung(st: Source, raw: string, number: nat)
    requires Good(st.engine) && Hung(st.engine)
    ensures Hung(Logical(st, raw, number).engine) && Grows(st.engine, Logical(st, raw, number).engine)
    ensures Logical(st, raw, number).engine.err.None? && BodyOf(raw) != ""
            ==> forall f | f in Brought(ReadBody(BodyOf(raw))) :: Holds(Logical(st, raw, number).engine, Val(f))
  {
    hide Good, Hung, Grows, Strip, Depth, Fail, Process, ReadBody, Brought, Holds, BodyOf;
    var d := Depth(Strip(raw, false), false);
    if d.1 {
      FailHung(st.engine, st.engine, number, "unterminated string literal - reached end of input");
    } else if d.0 > 0 {
      FailHung(st.engine, st.engine, number, "unterminated ( [ or { - reached end of input");
    } else if d.0 < 0 {
      FailHung(st.engine, st.engine, number, "unexpected ) ] or } with no matching opener");
    } else {
      ProcessHung(st, raw, number);
    }
  }

  lemma GoodUpward(e: Engine)
    requires Good(e)
    ensures Upward(e.arena)
  {
  }

  lemma StartHung()
    ensures Hung(Start())
  {
  }
}
