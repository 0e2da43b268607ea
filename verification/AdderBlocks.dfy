/**
 The block engine of the indentation transpiler (`als_to_sexpr_mapped`): an indentation stack of
 open blocks, a table of the `if` opened at each column, synthesized `(do ...)` arms, and a late pass
 that collapses one-statement arms.

 Line nodes that later lines may still extend live in an arena and are referred to by index; a line
 that opens no block is never touched again and is kept as a value.
 */
module AdderBlocks {
  import opened Wrappers
  import opened AdderForms

  const MAXD: nat := 256

  datatype Item = Val(form: Form) | Ref(id: nat)

  /** An arena node; `arm` marks the `(do ...)` wrappers that the engine synthesizes. */
  datatype Node = Node(arm: bool, items: seq<Item>)

  datatype Open = Open(ind: nat, node: nat)
  datatype Wrap = Wrap(parent: nat, idx: nat)
  datatype Diagnosis = Diagnosis(line: nat, what: string)

  datatype Engine = Engine(
    arena: seq<Node>,
    stack: seq<Open>,
    ifs: seq<Option<nat>>,
    roots: seq<Item>,
    map_: seq<nat>,
    err: Option<Diagnosis>,
    wraps: seq<Wrap>)

  /** What one logical line says, once its text has been read. */
  datatype What = Else | Elif(cond: Form) | Stmt(node: Form, block: bool)

  datatype Line = Line(indent: nat, number: nat, what: What)

  function Start(): Engine {
    Engine([], [], seq(MAXD, _ => None), [], [], None, [])
  }

  /** `if_stack` is indexed by column, clamped. */
  function Column(indent: nat): nat {
    if indent < MAXD then indent else MAXD - 1
  }

  /** Close the blocks that a line at `indent` ends. */
  function Pop(stack: seq<Open>, indent: nat): seq<Open> {
    if stack != [] && indent <= Last(stack).ind then Pop(Front(stack), indent) else stack
  }

  function Push(stack: seq<Open>, o: Open): seq<Open> {
    if |stack| < MAXD then stack + [o] else stack
  }

  function Vals(fs: seq<Form>): seq<Item> {
    seq(|fs|, i requires 0 <= i < |fs| => Val(fs[i]))
  }

  function AddItems(arena: seq<Node>, id: nat, items: seq<Item>): seq<Node>
    requires id < |arena|
  {
    arena[id := arena[id].(items := arena[id].items + items)]
  }

  /** Decimal digits of a line number. */
  function Decimal(n: nat): string {
    if n < 10 then [('0' as int + n) as char] else Decimal(n / 10) + [('0' as int + n % 10) as char]
  }

  /** `als_syntax_error`: a root that raises, and the first diagnosis. */
  function Fail(e: Engine, line: nat, what: string): Engine {
    var msg := "adder line " + Decimal(line) + ": " + what;
    var form := List([Atom("raise"), Atom("'syntax-error"), Atom("\"" + msg + "\"")]);
    e.(roots := e.roots + [Val(form)], map_ := e.map_ + [line],
       err := if e.err.None? then Some(Diagnosis(line, msg)) else e.err)
  }

  /** Append a line's node to the innermost open block, or to the roots. */
  function Attach(e: Engine, item: Item, line: nat): Engine
    requires e.stack != [] ==> Last(e.stack).node < |e.arena|
  {
    if e.stack == [] then e.(roots := e.roots + [item], map_ := e.map_ + [line])
    else e.(arena := AddItems(e.arena, Last(e.stack).node, [item]))
  }

  /** `als_head_remap`. */
  function Remap(f: Form): Form {
    if f.List? && f.kids != [] && f.kids[0] == Atom("macro") then List([Atom("defmacro")] + f.kids[1..]) else f
  }

  function LineNode(node: Form, block: bool): (f: Form)
    ensures block ==> f.List?
  {
    Remap(if block && node.Atom? then List([node]) else node)
  }

  predicate Headed(kids: seq<Form>, head: string) {
    kids != [] && kids[0] == Atom(head)
  }

  /** Give node `n` the synthesized arm `d`, and note it for the late pass. */
  function AddArm(e: Engine, n: nat, d: nat): Engine
    requires n < |e.arena|
  {
    e.(arena := AddItems(e.arena, n, [Ref(d)]), wraps := e.wraps + [Wrap(n, |e.arena[n].items|)])
  }

  function NewNode(e: Engine, node: Node): Engine {
    e.(arena := e.arena + [node])
  }

  const DO_ARM := Node(true, [Val(Atom("do"))])

  /** An arm of the `if` that stands at this column. */
  function StepArm(e: Engine, indent: nat, number: nat, cond: Option<Form>): Engine
    requires Good(e)
  {
    var e1 := e.(stack := Pop(e.stack, indent));
    var c := Column(indent);
    match e.ifs[c]
    case Some(n) =>
      var d := |e.arena|;
      var e2 := if cond.Some? then e1.(arena := AddItems(e.arena, n, [Val(cond.value)])) else e1;
      var e3 := AddArm(NewNode(e2, DO_ARM), n, d);
      e3.(stack := Push(e3.stack, Open(indent, d)), ifs := if cond.None? then e.ifs[c := None] else e.ifs)
    case None =>
      Fail(e1, number, "`" + (if cond.None? then "else" else "elif") + ":` has no matching `if` at this indentation")
  }

  /** A line that opens a block: an `if` gets a synthesized arm to hold its statements. */
  function StepBlock(e: Engine, indent: nat, number: nat, kids: seq<Form>): Engine
    requires Good(e)
  {
    var n := |e.arena|;
    var tracked := Headed(kids, "if") || Headed(kids, "when") || Headed(kids, "unless");
    var e1 := NewNode(e, Node(false, Vals(kids)));
    var e2 := e1.(ifs := e.ifs[Column(indent) := if tracked then Some(n) else None]);
    if Headed(kids, "if") then
      var e3 := Attach(AddArm(NewNode(e2, DO_ARM), n, n + 1), Ref(n), number);
      e3.(stack := Push(e3.stack, Open(indent, n + 1)))
    else
      var e3 := Attach(e2, Ref(n), number);
      e3.(stack := Push(e3.stack, Open(indent, n)))
  }

  function Step(e: Engine, l: Line): Engine
    requires Good(e)
  {
    match l.what
    case Else => StepArm(e, l.indent, l.number, None)
    case Elif(c) => StepArm(e, l.indent, l.number, Some(c))
    case Stmt(node, block) =>
      PopGood(e, l.indent);
      var e1 := e.(stack := Pop(e.stack, l.indent));
      var f := LineNode(node, block);
      if block then StepBlock(e1, l.indent, l.number, f.kids)
      else Attach(e1.(ifs := e.ifs[Column(l.indent) := None]), Val(f), l.number)
  }

  // ---- what every step keeps ----

  /** References go up, and an arm holds no arm. */
  predicate ItemOk(a: seq<Node>, id: nat, arm: bool, it: Item) {
    it.Ref? ==> id < it.id < |a| && (arm ==> !a[it.id].arm)
  }

  predicate NodeOk(a: seq<Node>, id: nat)
    requires id < |a|
  {
    forall i {:trigger a[id].items[i]} | 0 <= i < |a[id].items| :: ItemOk(a, id, a[id].arm, a[id].items[i])
  }

  predicate Upward(a: seq<Node>) {
    forall id: nat {:trigger NodeOk(a, id)} | id < |a| :: NodeOk(a, id)
  }

  /** Position `i` of node `p` holds a synthesized arm. */
  predicate ArmAt(a: seq<Node>, p: nat, i: nat) {
    p < |a| && i < |a[p].items| && a[p].items[i].Ref? && a[p].items[i].id < |a| && a[a[p].items[i].id].arm
  }

  predicate WrapOk(a: seq<Node>, wraps: seq<Wrap>, p: nat, i: nat) {
    ArmAt(a, p, i) <==> Wrap(p, i) in wraps
  }

  predicate RootOk(a: seq<Node>, it: Item) {
    it.Ref? ==> it.id < |a| && !a[it.id].arm
  }

  predicate StackOk(stack: seq<Open>, n: nat) {
    && |stack| <= MAXD
    && (forall k {:trigger stack[k]} | 0 <= k < |stack| :: stack[k].node < n)
    && (forall k, m | 0 <= k < m < |stack| :: stack[k].ind < stack[m].ind)
  }

  predicate IfOk(a: seq<Node>, o: Option<nat>) {
    o.Some? ==> o.value < |a| && !a[o.value].arm
  }

  ghost predicate Good(e: Engine) {
    && |e.ifs| == MAXD && |e.map_| == |e.roots|
    && Upward(e.arena)
    && StackOk(e.stack, |e.arena|)
    && (forall c {:trigger e.ifs[c]} | 0 <= c < MAXD :: IfOk(e.arena, e.ifs[c]))
    && (forall k {:trigger e.roots[k]} | 0 <= k < |e.roots| :: RootOk(e.arena, e.roots[k]))
    && (forall p: nat, i: nat {:trigger WrapOk(e.arena, e.wraps, p, i)} :: WrapOk(e.arena, e.wraps, p, i))
    && Distinct(e.wraps)
  }

  predicate Distinct(wraps: seq<Wrap>) {
    forall j, k | 0 <= j < k < |wraps| :: wraps[j] != wraps[k]
  }

  lemma {:induction false} PopOk(stack: seq<Open>, indent: nat, n: nat)
    requires StackOk(stack, n)
    ensures StackOk(Pop(stack, indent), n) && Pop(stack, indent) <= stack
    ensures Pop(stack, indent) == [] || Last(Pop(stack, indent)).ind < indent
    ensures Pop(Pop(stack, indent), indent) == Pop(stack, indent)
    decreases |stack|
  {
    if stack != [] && indent <= Last(stack).ind {
      PopOk(Front(stack), indent, n);
    }
  }

  lemma PopGood(e: Engine, indent: nat)
    requires Good(e)
    ensures Good(e.(stack := Pop(e.stack, indent)))
    ensures Pop(Pop(e.stack, indent), indent) == Pop(e.stack, indent)
  {
    PopOk(e.stack, indent, |e.arena|);
    var e' := e.(stack := Pop(e.stack, indent));
    assert forall p: nat, i: nat {:trigger WrapOk(e'.arena, e'.wraps, p, i)} ::
        WrapOk(e.arena, e.wraps, p, i) ==> WrapOk(e'.arena, e'.wraps, p, i);
  }

  lemma AddItemsAt(a: seq<Node>, id: nat, items: seq<Item>)
    requires id < |a|
    ensures var b := AddItems(a, id, items);
            && |b| == |a| && b[id].arm == a[id].arm && b[id].items == a[id].items + items
            && (forall k: nat | k < |a| && k != id :: b[k] == a[k])
            && (forall k: nat | k < |a| :: b[k].arm == a[k].arm)
  {
  }

  /** Adding items that are no arms keeps everything. */
  lemma AddValGood(e: Engine, id: nat, it: Item)
    requires Good(e) && id < |e.arena| && ItemOk(e.arena, id, true, it)
    ensures Good(e.(arena := AddItems(e.arena, id, [it])))
  {
    var a, b := e.arena, AddItems(e.arena, id, [it]);
    AddItemsAt(a, id, [it]);
    forall k: nat | k < |b| ensures NodeOk(b, k) {
      assert NodeOk(a, k);
    }
    forall p: nat, i: nat ensures WrapOk(b, e.wraps, p, i) {
      assert WrapOk(a, e.wraps, p, i);
      if p == id && i == |a[id].items| {
        assert !ArmAt(b, p, i) && !ArmAt(a, p, i);
      }
    }
    forall c | 0 <= c < MAXD ensures IfOk(b, e.ifs[c]) {
      assert IfOk(a, e.ifs[c]);
    }
    forall k | 0 <= k < |e.roots| ensures RootOk(b, e.roots[k]) {
      assert RootOk(a, e.roots[k]);
    }
  }

  lemma StackTop(e: Engine)
    requires Good(e)
    ensures |e.ifs| == MAXD && (e.stack != [] ==> Last(e.stack).node < |e.arena|)
  {
  }

  lemma AttachGood(e: Engine, it: Item, number: nat)
    requires Good(e) && RootOk(e.arena, it)
    requires it.Ref? ==> forall k {:trigger e.stack[k]} | 0 <= k < |e.stack| :: e.stack[k].node < it.id
    ensures Good(Attach(e, it, number))
  {
    if e.stack == [] {
      var e' := Attach(e, it, number);
      forall p: nat, i: nat ensures WrapOk(e'.arena, e'.wraps, p, i) {
        assert WrapOk(e.arena, e.wraps, p, i);
      }
    } else {
      AddValGood(e, Last(e.stack).node, it);
    }
  }

  lemma PushGood(e: Engine, o: Open)
    requires Good(e) && o.node < |e.arena| && (e.stack == [] || Last(e.stack).ind < o.ind)
    ensures Good(e.(stack := Push(e.stack, o)))
  {
    var e' := e.(stack := Push(e.stack, o));
    forall p: nat, i: nat ensures WrapOk(e'.arena, e'.wraps, p, i) {
      assert WrapOk(e.arena, e.wraps, p, i);
    }
  }

  lemma SetIfGood(e: Engine, c: nat, o: Option<nat>)
    requires Good(e) && c < MAXD && IfOk(e.arena, o)
    ensures Good(e.(ifs := e.ifs[c := o]))
  {
    var e' := e.(ifs := e.ifs[c := o]);
    forall p: nat, i: nat ensures WrapOk(e'.arena, e'.wraps, p, i) {
      assert WrapOk(e.arena, e.wraps, p, i);
    }
  }

  /** A new node that nothing refers to yet. */
  lemma NewNodeGood(e: Engine, node: Node)
    requires Good(e) && forall i | 0 <= i < |node.items| :: node.items[i].Val?
    ensures Good(NewNode(e, node))
  {
    var a, b := e.arena, e.arena + [node];
    forall k: nat | k < |b| ensures NodeOk(b, k) {
      assert k < |a| ==> NodeOk(a, k) && b[k] == a[k];
    }
    forall p: nat, i: nat ensures WrapOk(b, e.wraps, p, i) {
      assert WrapOk(a, e.wraps, p, i);
      assert p < |a| ==> NodeOk(a, p) && b[p] == a[p];
    }
    forall c | 0 <= c < MAXD ensures IfOk(b, e.ifs[c]) {
      assert IfOk(a, e.ifs[c]);
    }
    forall k | 0 <= k < |e.roots| ensures RootOk(b, e.roots[k]) {
      assert RootOk(a, e.roots[k]);
    }
  }

  lemma AddArmGood(e: Engine, n: nat, d: nat)
    requires Good(e) && n < d < |e.arena| && !e.arena[n].arm && e.arena[d].arm
    ensures Good(AddArm(e, n, d))
  {
    var a, e' := e.arena, AddArm(e, n, d);
    var b := e'.arena;
    AddItemsAt(a, n, [Ref(d)]);
    assert WrapOk(a, e.wraps, n, |a[n].items|);
    forall k: nat | k < |b| ensures NodeOk(b, k) {
      assert NodeOk(a, k);
    }
    forall p: nat, i: nat ensures WrapOk(b, e'.wraps, p, i) {
      assert WrapOk(a, e.wraps, p, i);
      if p == n && i == |a[n].items| {
        assert e'.wraps[|e.wraps|] == Wrap(p, i);
        assert ArmAt(b, p, i);
      } else {
        assert ArmAt(b, p, i) <==> ArmAt(a, p, i);
      }
    }
    forall c | 0 <= c < MAXD ensures IfOk(b, e'.ifs[c]) {
      assert IfOk(a, e.ifs[c]);
    }
    forall k | 0 <= k < |e.roots| ensures RootOk(b, e'.roots[k]) {
      assert RootOk(a, e.roots[k]);
    }
  }

  lemma StepArmGood(e: Engine, indent: nat, number: nat, cond: Option<Form>)
    requires Good(e)
    ensures Good(StepArm(e, indent, number, cond))
  {
    PopGood(e, indent);
    PopOk(e.stack, indent, |e.arena|);
    var e1 := e.(stack := Pop(e.stack, indent));
    var c := Column(indent);
    assert IfOk(e.arena, e.ifs[c]);
    if e.ifs[c].Some? {
      var n, d := e.ifs[c].value, |e.arena|;
      var e2 := if cond.Some? then e1.(arena := AddItems(e.arena, n, [Val(cond.value)])) else e1;
      if cond.Some? {
        AddValGood(e1, n, Val(cond.value));
        AddItemsAt(e.arena, n, [Val(cond.value)]);
      }
      NewNodeGood(e2, DO_ARM);
      AddArmGood(NewNode(e2, DO_ARM), n, d);
      var e3 := AddArm(NewNode(e2, DO_ARM), n, d);
      PushGood(e3, Open(indent, d));
      var e4 := e3.(stack := Push(e3.stack, Open(indent, d)));
      SetIfGood(e4, c, None);
    } else {
      FailGood(e1, number,
               "`" + (if cond.None? then "else" else "elif") + ":` has no matching `if` at this indentation");
    }
  }

  lemma FailGood(e: Engine, line: nat, what: string)
    requires Good(e)
    ensures Good(Fail(e, line, what))
  {
    var e' := Fail(e, line, what);
    forall p: nat, i: nat ensures WrapOk(e'.arena, e'.wraps, p, i) {
      assert WrapOk(e.arena, e.wraps, p, i);
    }
  }

  /** The state of `StepBlock` just before the line's node is attached. */
  function Opened(e: Engine, indent: nat, kids: seq<Form>): Engine
    requires Good(e)
  {
    var n := |e.arena|;
    var tracked := Headed(kids, "if") || Headed(kids, "when") || Headed(kids, "unless");
    var e1 := NewNode(e, Node(false, Vals(kids)));
    var e2 := e1.(ifs := e.ifs[Column(indent) := if tracked then Some(n) else None]);
    if Headed(kids, "if") then AddArm(NewNode(e2, DO_ARM), n, n + 1) else e2
  }

  lemma OpenedGood(e: Engine, indent: nat, kids: seq<Form>)
    requires Good(e)
    ensures Good(Opened(e, indent, kids)) && Opened(e, indent, kids).stack == e.stack
    ensures |e.arena| < |Opened(e, indent, kids).arena| && !Opened(e, indent, kids).arena[|e.arena|].arm
  {
    var n := |e.arena|;
    var tracked := Headed(kids, "if") || Headed(kids, "when") || Headed(kids, "unless");
    NewNodeGood(e, Node(false, Vals(kids)));
    var e1 := NewNode(e, Node(false, Vals(kids)));
    SetIfGood(e1, Column(indent), if tracked then Some(n) else None);
    var e2 := e1.(ifs := e.ifs[Column(indent) := if tracked then Some(n) else None]);
    if Headed(kids, "if") {
      NewNodeGood(e2, DO_ARM);
      AddArmGood(NewNode(e2, DO_ARM), n, n + 1);
    }
  }

  lemma StepBlockGood(e: Engine, indent: nat, number: nat, kids: seq<Form>)
    requires Good(e) && (e.stack == [] || Last(e.stack).ind < indent)
    ensures Good(StepBlock(e, indent, number, kids))
  {
    var n := |e.arena|;
    OpenedGood(e, indent, kids);
    var e3 := Opened(e, indent, kids);
    AttachGood(e3, Ref(n), number);
    var e4 := Attach(e3, Ref(n), number);
    PushGood(e4, Open(indent, if Headed(kids, "if") then n + 1 else n));
  }

  /** Every line, well formed or not, keeps the engine's invariant. */
  lemma StepGood(e: Engine, l: Line)
    requires Good(e)
    ensures Good(Step(e, l))
  {
    match l.what
    case Else => StepArmGood(e, l.indent, l.number, None);
    case Elif(c) => StepArmGood(e, l.indent, l.number, Some(c));
    case Stmt(node, block) =>
      PopGood(e, l.indent);
      PopOk(e.stack, l.indent, |e.arena|);
      var e1 := e.(stack := Pop(e.stack, l.indent));
      var f := LineNode(node, block);
      if block {
        StepBlockGood(e1, l.indent, l.number, f.kids);
      } else {
        SetIfGood(e1, Column(l.indent), None);
        AttachGood(e1.(ifs := e.ifs[Column(l.indent) := None]), Val(f), l.number);
      }
  }

  /** A diagnosis stays. */
  lemma StepErr(e: Engine, l: Line)
    requires Good(e) && e.err.Some?
    ensures Step(e, l).err.Some?
  {
    StackTop(e);
    PopOk(e.stack, l.indent, |e.arena|);
    assert IfOk(e.arena, e.ifs[Column(l.indent)]);
  }

  function Run(e: Engine, lines: seq<Line>): (r: Engine)
    requires Good(e)
    ensures Good(r)
    decreases |lines|
  {
    if lines == [] then e else
    StepGood(e, lines[0]);
    Run(Step(e, lines[0]), lines[1..])
  }

  lemma {:induction false} RunConcat(e: Engine, a: seq<Line>, b: seq<Line>)
    requires Good(e)
    ensures Run(e, a + b) == Run(Run(e, a), b)
    decreases |a|
  {
    if a == [] {
      assert a + b == b;
    } else {
      StepGood(e, a[0]);
      var e1 := Step(e, a[0]);
      assert (a + b)[0] == a[0] && (a + b)[1..] == a[1..] + b;
      assert Run(e, a + b) == Run(e1, a[1..] + b);
      assert Run(e, a) == Run(e1, a[1..]);
      RunConcat(e1, a[1..], b);
    }
  }

  // ---- the trees that come out ----

  /** The tree of an item once one-statement arms have been collapsed. */
  function Tree(a: seq<Node>, it: Item): Form
    requires Upward(a) && (it.Ref? ==> it.id < |a|)
    decreases if it.Ref? then |a| - it.id else 0
  {
    match it
    case Val(f) => f
    case Ref(id) =>
      assert NodeOk(a, id);
      var items := a[id].items;
      assert forall i | 0 <= i < |items| :: ItemOk(a, id, a[id].arm, items[i]);
      if a[id].arm && |items| == 2 then Tree(a, items[1])
      else List(seq(|items|, i requires 0 <= i < |items| => Tree(a, items[i])))
  }

  /** The tree that is written out once the late pass is over. */
  function Emit(a: seq<Node>, it: Item): Form
    requires Upward(a) && (it.Ref? ==> it.id < |a|)
    decreases if it.Ref? then |a| - it.id else 0
  {
    match it
    case Val(f) => f
    case Ref(id) =>
      assert NodeOk(a, id);
      var items := a[id].items;
      assert forall i | 0 <= i < |items| :: ItemOk(a, id, a[id].arm, items[i]);
      List(seq(|items|, i requires 0 <= i < |items| => Emit(a, items[i])))
  }

  /** A tree depends only on the nodes at and above its root. */
  lemma {:induction false} TreeFrame(a: seq<Node>, b: seq<Node>, it: Item)
    requires Upward(a) && Upward(b) && |a| <= |b| && (it.Ref? ==> it.id < |a|)
    requires it.Ref? ==> forall k: nat | it.id <= k < |a| :: a[k] == b[k]
    ensures Tree(b, it) == Tree(a, it)
    decreases if it.Ref? then |a| - it.id else 0
  {
    if it.Ref? {
      var id := it.id;
      var items := a[id].items;
      assert NodeOk(a, id) && NodeOk(b, id);
      forall i | 0 <= i < |items| ensures ItemOk(a, id, a[id].arm, items[i]) && Tree(b, items[i]) == Tree(a, items[i]) {
        assert ItemOk(a, id, a[id].arm, items[i]);
        TreeFrame(a, b, items[i]);
      }
    }
  }

  // ---- the late pass ----

  function CollapseOne(a: seq<Node>, w: Wrap): seq<Node> {
    if w.parent >= |a| || w.idx >= |a[w.parent].items| then a else
    var p := a[w.parent];
    match p.items[w.idx]
    case Ref(d) => if d < |a| && |a[d].items| == 2 then a[w.parent := p.(items := p.items[w.idx := a[d].items[1]])]
        else a
    case Val(f) => if f.List? && |f.kids| == 2 then a[w.parent := p.(items := p.items[w.idx := Val(f.kids[1])])] else a
  }

  function Collapse(a: seq<Node>, wraps: seq<Wrap>): seq<Node>
    decreases |wraps|
  {
    if wraps == [] then a else Collapse(CollapseOne(a, wraps[0]), wraps[1..])
  }

  /** What the late pass leaves at a position that it has visited. */
  function Collapsed(a: seq<Node>, p: nat, i: nat): Item
    requires p < |a| && i < |a[p].items|
  {
    if ArmAt(a, p, i) && |a[a[p].items[i].id].items| == 2 then a[a[p].items[i].id].items[1] else a[p].items[i]
  }

  predicate NodeDone(a: seq<Node>, b: seq<Node>, done: seq<Wrap>, p: nat)
    requires p < |a| && |a| == |b|
  {
    && b[p].arm == a[p].arm && |b[p].items| == |a[p].items|
    && forall i: nat {:trigger b[p].items[i]} | i < |a[p].items| ::
         b[p].items[i] == if Wrap(p, i) in done then Collapsed(a, p, i) else a[p].items[i]
  }

  /** `b` is `a` with the arms in `done` collapsed. */
  ghost predicate Done(a: seq<Node>, b: seq<Node>, done: seq<Wrap>) {
    |a| == |b| && forall p: nat {:trigger NodeDone(a, b, done, p)} | p < |a| :: NodeDone(a, b, done, p)
  }

  lemma CollapseOneDone(a: seq<Node>, b: seq<Node>, done: seq<Wrap>, w: Wrap)
    requires Upward(a) && Done(a, b, done) && ArmAt(a, w.parent, w.idx) && w !in done
    requires forall v | v in done :: ArmAt(a, v.parent, v.idx)
    ensures Done(a, CollapseOne(b, w), done + [w])
  {
    var c := CollapseOne(b, w);
    var d := a[w.parent].items[w.idx].id;
    assert NodeDone(a, b, done, w.parent) && NodeDone(a, b, done, d) && NodeOk(a, d) && NodeOk(a, w.parent);
    assert ItemOk(a, w.parent, a[w.parent].arm, a[w.parent].items[w.idx]);
    assert b[w.parent].items[w.idx] == Ref(d);
    if |a[d].items| == 2 {
      assert ItemOk(a, d, true, a[d].items[1]);
      assert !ArmAt(a, d, 1);
      assert b[d].items[1] == a[d].items[1];
    }
    forall p: nat | p < |a| ensures NodeDone(a, c, done + [w], p) {
      assert NodeDone(a, b, done, p);
    }
  }

  lemma {:induction false} CollapseDone(a: seq<Node>, b: seq<Node>, done: seq<Wrap>, rest: seq<Wrap>)
    requires Upward(a) && Done(a, b, done) && Distinct(done + rest)
    requires forall v | v in done + rest :: ArmAt(a, v.parent, v.idx)
    ensures Done(a, Collapse(b, rest), done + rest)
    decreases |rest|
  {
    if rest == [] {
      assert done + rest == done;
    } else {
      var w := rest[0];
      assert (done + rest)[|done|] == w;
      forall j | 0 <= j < |done| ensures done[j] != w {
        assert (done + rest)[j] == done[j];
      }
      CollapseOneDone(a, b, done, w);
      assert done + [w] + rest[1..] == done + rest;
      CollapseDone(a, CollapseOne(b, w), done + [w], rest[1..]);
    }
  }

  lemma DoneUpward(a: seq<Node>, b: seq<Node>, done: seq<Wrap>)
    requires Upward(a) && Done(a, b, done)
    ensures Upward(b)
  {
    forall p: nat | p < |b| ensures NodeOk(b, p) {
      assert NodeDone(a, b, done, p) && NodeOk(a, p);
      forall i: nat | i < |b[p].items| ensures ItemOk(b, p, b[p].arm, b[p].items[i]) {
        CollapsedOk(a, p, i);
        assert ItemOk(a, p, a[p].arm, a[p].items[i]);
        var it := b[p].items[i];
        if it.Ref? {
          assert NodeDone(a, b, done, it.id);
        }
      }
    }
  }

  lemma CollapsedOk(a: seq<Node>, p: nat, i: nat)
    requires Upward(a) && p < |a| && i < |a[p].items|
    ensures ItemOk(a, p, a[p].arm, Collapsed(a, p, i)) && ItemOk(a, p, a[p].arm, a[p].items[i])
    ensures ArmAt(a, p, i) && |a[a[p].items[i].id].items| == 2 ==> RootOk(a, Collapsed(a, p, i))
  {
    assert NodeOk(a, p) && ItemOk(a, p, a[p].arm, a[p].items[i]);
    if ArmAt(a, p, i) && |a[a[p].items[i].id].items| == 2 {
      var d := a[p].items[i].id;
      assert NodeOk(a, d) && ItemOk(a, d, true, a[d].items[1]);
    }
  }

  /** The late pass turns the tree as it stands into the collapsed tree. */
  lemma {:induction false} EmitCollapsed(a: seq<Node>, b: seq<Node>, wraps: seq<Wrap>, it: Item)
    requires Upward(a) && Upward(b) && Done(a, b, wraps)
    requires forall p: nat, i: nat {:trigger WrapOk(a, wraps, p, i)} :: WrapOk(a, wraps, p, i)
    requires it.Ref? ==> it.id < |a| && (a[it.id].arm ==> |a[it.id].items| != 2)
    ensures Emit(b, it) == Tree(a, it)
    decreases if it.Ref? then |a| - it.id else 0
  {
    if it.Ref? {
      var id := it.id;
      assert NodeDone(a, b, wraps, id) && NodeOk(a, id) && NodeOk(b, id);
      forall i: nat | i < |a[id].items|
        ensures ItemOk(a, id, a[id].arm, a[id].items[i]) && ItemOk(b, id, b[id].arm, b[id].items[i])
        ensures Emit(b, b[id].items[i]) == Tree(a, a[id].items[i])
      {
        assert ItemOk(b, id, b[id].arm, b[id].items[i]);
        CollapsedOk(a, id, i);
        assert WrapOk(a, wraps, id, i);
        EmitCollapsed(a, b, wraps, Collapsed(a, id, i));
      }
    }
  }

  /** The forms that the transpiler writes out, one per root. */
  function Finish(e: Engine): seq<Form>
    requires Good(e)
  {
    FinishGood(e);
    var b := Collapse(e.arena, e.wraps);
    seq(|e.roots|, k requires 0 <= k < |e.roots| => assert RootOk(e.arena, e.roots[k]); Emit(b, e.roots[k]))
  }

  lemma FinishGood(e: Engine)
    requires Good(e)
    ensures |Collapse(e.arena, e.wraps)| == |e.arena| && Upward(Collapse(e.arena, e.wraps))
    ensures Done(e.arena, Collapse(e.arena, e.wraps), e.wraps)
  {
    var none: seq<Wrap> := [];
    assert none + e.wraps == e.wraps;
    forall v | v in e.wraps ensures ArmAt(e.arena, v.parent, v.idx) {
      assert WrapOk(e.arena, e.wraps, v.parent, v.idx);
    }
    CollapseDone(e.arena, e.arena, none, e.wraps);
    DoneUpward(e.arena, Collapse(e.arena, e.wraps), e.wraps);
  }

  lemma FinishTrees(e: Engine)
    requires Good(e)
    ensures |Finish(e)| == |e.roots| == |e.map_|
    ensures forall k {:trigger e.roots[k]} | 0 <= k < |e.roots| ::
        RootOk(e.arena, e.roots[k]) && Finish(e)[k] == Tree(e.arena, e.roots[k])
  {
    FinishGood(e);
    forall k | 0 <= k < |e.roots| ensures RootOk(e.arena, e.roots[k]) && Finish(e)[k] == Tree(e.arena, e.roots[k]) {
      assert RootOk(e.arena, e.roots[k]);
      EmitCollapsed(e.arena, Collapse(e.arena, e.wraps), e.wraps, e.roots[k]);
    }
  }

  // ---- what a printed form adds ----

  /** The item sequence that a form goes to: a node's, or the roots. */
  function ItemsOf(e: Engine, parent: Option<nat>): seq<Item>
    requires parent.Some? ==> parent.value < |e.arena|
  {
    if parent.Some? then e.arena[parent.value].items else e.roots
  }

  /** Where a line at this indentation goes. */
  function Parent(stack: seq<Open>, indent: nat): Option<nat> {
    var s := Pop(stack, indent);
    if s == [] then None else Some(Last(s).node)
  }

  /** Item `it` holds tree `g`, built from nodes that are new since the arena had `lo`. */
  ghost predicate Built(a: seq<Node>, lo: nat, it: Item, g: Form) {
    Upward(a) && (it.Ref? ==> lo <= it.id < |a|) && Tree(a, it) == g
  }

  predicate KeptNode(a: seq<Node>, b: seq<Node>, parent: Option<nat>, id: nat) {
    id < |a| && id < |b| ==> b[id].arm == a[id].arm && (parent != Some(id) ==> b[id] == a[id])
  }

  /** From `e` to `e'`, trees `gs` were added to `parent`, and nothing else that a line at `indent` or
      further left could see has changed. */
  ghost predicate Extended(e: Engine, e': Engine, indent: nat, parent: Option<nat>, gs: seq<Form>) {
    && Good(e) && Good(e')
    && Pop(e'.stack, indent) == Pop(e.stack, indent)
    && |e.arena| <= |e'.arena| && e'.err == e.err
    && (parent.Some? ==> parent.value < |e.arena| && e'.roots == e.roots && e'.map_ == e.map_)
    && |ItemsOf(e', parent)| == |ItemsOf(e, parent)| + |gs|
    && ItemsOf(e, parent) <= ItemsOf(e', parent)
    && (forall i: nat {:trigger gs[i]} | i < |gs| ::
      Built(e'.arena, |e.arena|, ItemsOf(e', parent)[|ItemsOf(e, parent)| + i], gs[i]))
    && (forall id: nat {:trigger KeptNode(e.arena, e'.arena, parent, id)} :: KeptNode(e.arena, e'.arena, parent, id))
    && (forall c {:trigger e'.ifs[c]} | 0 <= c < indent && c < MAXD :: e'.ifs[c] == e.ifs[c])
  }

  lemma BuiltFrame(a: seq<Node>, b: seq<Node>, lo: nat, it: Item, g: Form, parent: Option<nat>)
    requires Built(a, lo, it, g) && Upward(b) && |a| <= |b|
    requires parent.Some? ==> parent.value < lo
    requires forall id: nat {:trigger KeptNode(a, b, parent, id)} :: KeptNode(a, b, parent, id)
    ensures Built(b, lo, it, g)
  {
    if it.Ref? {
      forall k: nat | it.id <= k < |a| ensures a[k] == b[k] {
        assert KeptNode(a, b, parent, k);
      }
    }
    TreeFrame(a, b, it);
  }

  lemma ExtendedRefl(e: Engine, indent: nat, parent: Option<nat>)
    requires Good(e) && (parent.Some? ==> parent.value < |e.arena|)
    ensures Extended(e, e, indent, parent, [])
  {
  }

  lemma ExtendedTrans(e: Engine, e1: Engine, e2: Engine, indent: nat, parent: Option<nat>, gs: seq<Form>, hs: seq<Form>)
    requires Extended(e, e1, indent, parent, gs) && Extended(e1, e2, indent, parent, hs)
    ensures Extended(e, e2, indent, parent, gs + hs)
  {
    var n := |ItemsOf(e, parent)|;
    forall i: nat | i < |gs + hs| ensures Built(e2.arena, |e.arena|, ItemsOf(e2, parent)[n + i], (gs + hs)[i]) {
      if i < |gs| {
        assert Built(e1.arena, |e.arena|, ItemsOf(e1, parent)[n + i], gs[i]);
        BuiltFrame(e1.arena, e2.arena, |e.arena|, ItemsOf(e1, parent)[n + i], gs[i], parent);
      } else {
        assert Built(e2.arena, |e1.arena|, ItemsOf(e2, parent)[n + |gs| + (i - |gs|)], hs[i - |gs|]);
      }
    }
    forall id: nat ensures KeptNode(e.arena, e2.arena, parent, id) {
      assert KeptNode(e.arena, e1.arena, parent, id) && KeptNode(e1.arena, e2.arena, parent, id);
    }
    forall c | 0 <= c < indent && c < MAXD ensures e2.ifs[c] == e.ifs[c] {
      assert e1.ifs[c] == e.ifs[c];
    }
  }

  lemma {:induction false} PopPop(stack: seq<Open>, outer: nat, inner: nat)
    requires outer <= inner
    ensures Pop(Pop(stack, inner), outer) == Pop(stack, outer)
    decreases |stack|
  {
    if stack != [] && inner <= Last(stack).ind {
      PopPop(Front(stack), outer, inner);
    }
  }

  lemma ParentOk(e: Engine, indent: nat)
    requires Good(e)
    ensures Parent(e.stack, indent).Some? ==> Parent(e.stack, indent).value < |e.arena|
    ensures Parent(Pop(e.stack, indent), indent) == Parent(e.stack, indent)
  {
    PopOk(e.stack, indent, |e.arena|);
  }

  /** A line that opens no block adds its own form. */
  lemma PlainLine(e: Engine, l: Line)
    requires Good(e) && l.what.Stmt? && !l.what.block && l.indent < MAXD
    ensures Extended(e, Step(e, l), l.indent, Parent(e.stack, l.indent), [Remap(l.what.node)])
  {
    StepGood(e, l);
    ParentOk(e, l.indent);
    PopGood(e, l.indent);
    var e', parent := Step(e, l), Parent(e.stack, l.indent);
    var it := Val(Remap(l.what.node));
    assert ItemsOf(e', parent) == ItemsOf(e, parent) + [it];
    assert Built(e'.arena, |e.arena|, it, Remap(l.what.node));
  }

  /** The node that a block line makes, before it is attached. */
  lemma OpenedNode(e: Engine, indent: nat, kids: seq<Form>)
    requires Good(e) && indent < MAXD
    ensures var e1, n := Opened(e, indent, kids), |e.arena|;
            && |e1.arena| == (if Headed(kids, "if") then n + 2 else n + 1)
            && !e1.arena[n].arm
            && e1.arena[n].items == Vals(kids) + (if Headed(kids, "if") then [Ref(n + 1)] else [])
            && (Headed(kids, "if") ==> e1.arena[n + 1] == DO_ARM && e1.ifs[indent] == Some(n))
            && (forall id: nat | id < n :: e1.arena[id] == e.arena[id])
            && (forall c | 0 <= c < indent :: e1.ifs[c] == e.ifs[c])
            && e1.roots == e.roots && e1.map_ == e.map_
            && |e1.ifs| == MAXD
  {
  }

  ghost predicate BlockEffect(e: Engine, e1: Engine, indent: nat, kids: seq<Form>, parent: Option<nat>)
    requires parent.Some? ==> parent.value < |e.arena|
  {
    var n := |e.arena|;
    var d := if Headed(kids, "if") then n + 1 else n;
    && |e1.arena| == d + 1 && |e1.ifs| == |e.ifs| == MAXD && e1.err == e.err
    && (parent.Some? ==> parent.value < n && e1.roots == e.roots && e1.map_ == e.map_)
    && ItemsOf(e1, parent) == ItemsOf(e, parent) + [Ref(n)]
    && !e1.arena[n].arm
    && e1.arena[n].items == Vals(kids) + (if Headed(kids, "if") then [Ref(n + 1)] else [])
    && (Headed(kids, "if") && indent < MAXD ==> e1.arena[n + 1] == DO_ARM && e1.ifs[indent] == Some(n))
    && (forall id: nat {:trigger KeptNode(e.arena, e1.arena, parent, id)} :: KeptNode(e.arena, e1.arena, parent, id))
    && (forall c {:trigger e1.ifs[c]} | 0 <= c < indent && c < MAXD :: e1.ifs[c] == e.ifs[c])
  }

  lemma AttachEffect(e: Engine, indent: nat, number: nat, kids: seq<Form>)
    requires Good(e) && indent < MAXD && Pop(e.stack, indent) == e.stack
    requires e.stack != [] ==> Last(e.stack).node < |e.arena|
    ensures Parent(e.stack, indent).Some? ==> Parent(e.stack, indent).value < |e.arena|
    ensures var e3 := Opened(e, indent, kids);
            (e3.stack != [] ==> Last(e3.stack).node < |e3.arena|)
            && BlockEffect(e, Attach(e3, Ref(|e.arena|), number), indent, kids, Parent(e.stack, indent))
  {
    OpenedNode(e, indent, kids);
    var e3, n := Opened(e, indent, kids), |e.arena|;
    assert e3.stack == e.stack;
    var e4 := Attach(e3, Ref(n), number);
    forall id: nat ensures KeptNode(e.arena, e4.arena, Parent(e.stack, indent), id) {
      assert id < n ==> e3.arena[id] == e.arena[id];
    }
  }

  /** The stack plays no part in what a block line does to the nodes. */
  lemma BlockMoved(e: Engine, e4: Engine, inner: seq<Open>, outer: seq<Open>, indent: nat, kids: seq<Form>,
      parent: Option<nat>)
    requires parent.Some? ==> parent.value < |e.arena|
    requires BlockEffect(e.(stack := inner), e4, indent, kids, parent)
    ensures BlockEffect(e, e4.(stack := outer), indent, kids, parent)
  {
    var e0, e1 := e.(stack := inner), e4.(stack := outer);
    forall id: nat ensures KeptNode(e.arena, e1.arena, parent, id) {
      assert KeptNode(e0.arena, e4.arena, parent, id);
    }
  }

  /** A line that opens a block, seen from its parent: node `|e.arena|` is new there. */
  lemma BlockLine(e: Engine, l: Line, kids: seq<Form>)
    requires Good(e) && l.indent < MAXD && l.what.Stmt? && l.what.block && LineNode(l.what.node, true) == List(kids)
    ensures Parent(e.stack, l.indent).Some? ==> Parent(e.stack, l.indent).value < |e.arena|
    ensures BlockEffect(e, Step(e, l), l.indent, kids, Parent(e.stack, l.indent))
    ensures Good(Step(e, l)) && |Step(e, l).arena| == (if Headed(kids, "if") then |e.arena| + 2 else |e.arena| + 1)
    ensures Step(e, l).stack == Pop(e.stack, l.indent) + [Open(l.indent, |Step(e, l).arena| - 1)]
  {
    hide Good, BlockEffect, StepBlock, Opened, Attach;
    StepGood(e, l);
    ParentOk(e, l.indent);
    PopGood(e, l.indent);
    StackFits(e, l.indent);
    var e0 := e.(stack := Pop(e.stack, l.indent));
    AttachEffect(e0, l.indent, l.number, kids);
    StepBlockParts(e0, l.indent, l.number, kids);
    var e4 := Attach(Opened(e0, l.indent, kids), Ref(|e.arena|), l.number);
    assert Step(e, l) == StepBlock(e0, l.indent, l.number, kids);
    var d := if Headed(kids, "if") then |e.arena| + 1 else |e.arena|;
    BlockSize(e0, e4, l.indent, kids, Parent(e.stack, l.indent));
    BlockMoved(e, e4, e0.stack, e0.stack + [Open(l.indent, d)], l.indent, kids, Parent(e.stack, l.indent));
  }

  lemma BlockSize(e: Engine, e1: Engine, indent: nat, kids: seq<Form>, parent: Option<nat>)
    requires (parent.Some? ==> parent.value < |e.arena|) && BlockEffect(e, e1, indent, kids, parent)
    ensures |e1.arena| == (if Headed(kids, "if") then |e.arena| + 2 else |e.arena| + 1)
  {
  }

  /** There is room for a block at a column in range. */
  lemma StackFits(e: Engine, indent: nat)
    requires Good(e) && indent < MAXD
    ensures |Pop(e.stack, indent)| < MAXD
    ensures Pop(e.stack, indent) != [] ==> Last(Pop(e.stack, indent)).node < |e.arena|
  {
    PopOk(e.stack, indent, |e.arena|);
    StackRoom(Pop(e.stack, indent), indent, |e.arena|);
  }

  lemma StepBlockParts(e: Engine, indent: nat, number: nat, kids: seq<Form>)
    requires Good(e) && |e.stack| < MAXD && indent < MAXD
    ensures var e3, n := Opened(e, indent, kids), |e.arena|;
            && (e3.stack != [] ==> Last(e3.stack).node < |e3.arena|)
            && var e4 := Attach(e3, Ref(n), number);
               StepBlock(e, indent, number, kids)
               == e4.(stack := e.stack + [Open(indent, if Headed(kids, "if") then n + 1 else n)])
  {
    OpenedNode(e, indent, kids);
    OpenedGood(e, indent, kids);
  }

  /** Increasing columns leave room on the stack. */
  lemma {:induction false} StackRoom(stack: seq<Open>, indent: nat, n: nat)
    requires StackOk(stack, n) && (stack == [] || Last(stack).ind < indent)
    ensures |stack| <= indent
  {
    if stack != [] {
      StackRoom(Front(stack), Last(stack).ind, n);
    }
  }

  /** A block line and everything that was then added under it make one form. */
  lemma BlockClose(e: Engine, l: Line, kids: seq<Form>, e2: Engine, inner: nat, gs: seq<Form>)
    requires Good(e) && l.indent < inner && l.indent < MAXD && l.what.Stmt? && l.what.block
    requires LineNode(l.what.node, true) == List(kids) && !Headed(kids, "if")
    requires Extended(Step(e, l), e2, inner, Some(|e.arena|), gs)
    ensures Extended(e, e2, l.indent, Parent(e.stack, l.indent), [List(kids + gs)])
  {
    BlockLine(e, l, kids);
    BlockDone(e, Step(e, l), e2, l.indent, kids, inner, gs);
  }

  lemma BlockDone(e: Engine, e1: Engine, e2: Engine, indent: nat, kids: seq<Form>, inner: nat, gs: seq<Form>)
    requires Good(e) && Good(e1) && indent < inner && !Headed(kids, "if")
    requires Parent(e.stack, indent).Some? ==> Parent(e.stack, indent).value < |e.arena|
    requires BlockEffect(e, e1, indent, kids, Parent(e.stack, indent))
    requires e1.stack == Pop(e.stack, indent) + [Open(indent, |e.arena|)]
    requires Extended(e1, e2, inner, Some(|e.arena|), gs)
    ensures Extended(e, e2, indent, Parent(e.stack, indent), [List(kids + gs)])
  {
    var n, parent := |e.arena|, Parent(e.stack, indent);
    StackBack(e, e1, e2, indent, inner, n);
    BlockKept(e, e1, e2, indent, kids, parent, inner, gs);
    NodeTree(e1, e2, n, kids, inner, gs);
    OneMore(e, e2, indent, parent, n, List(kids + gs));
  }

  lemma BlockKept(e: Engine, e1: Engine, e2: Engine, indent: nat, kids: seq<Form>, parent: Option<nat>, inner: nat,
      gs: seq<Form>)
    requires Good(e) && indent < inner && !Headed(kids, "if") && (parent.Some? ==> parent.value < |e.arena|)
    requires BlockEffect(e, e1, indent, kids, parent) && Extended(e1, e2, inner, Some(|e.arena|), gs)
    ensures KeptFrom(e, e2, indent, parent) && ItemsOf(e2, parent) == ItemsOf(e1, parent)
    ensures parent.Some? ==> e2.roots == e.roots && e2.map_ == e.map_
  {
    KeptThrough(e, e1, e2, indent, parent, Some(|e.arena|), inner, gs);
  }

  /** After the lines under a block, a line at the block's own column closes it. */
  lemma StackBack(e: Engine, e1: Engine, e2: Engine, indent: nat, inner: nat, d: nat)
    requires Good(e) && indent < inner
    requires e1.stack == Pop(e.stack, indent) + [Open(indent, d)] && Pop(e2.stack, inner) == Pop(e1.stack, inner)
    ensures Pop(e2.stack, indent) == Pop(e.stack, indent)
  {
    PopPop(e2.stack, indent, inner);
    PopPop(e1.stack, indent, inner);
    PopLast(Pop(e.stack, indent), Open(indent, d), indent);
    PopOk(e.stack, indent, |e.arena|);
  }

  lemma PopLast(stack: seq<Open>, o: Open, indent: nat)
    requires indent <= o.ind
    ensures Pop(stack + [o], indent) == Pop(stack, indent)
  {
    assert Front(stack + [o]) == stack;
  }

  /** Old nodes and columns stay put through two stages, when the second only extends a new node. */
  lemma KeptThrough(e: Engine, e1: Engine, e2: Engine, indent: nat, parent: Option<nat>, target: Option<nat>,
      inner: nat, gs: seq<Form>)
    requires Good(e) && |e.arena| <= |e1.arena| && indent <= inner
    requires Extended(e1, e2, inner, target, gs) && target.Some? && |e.arena| <= target.value
    requires parent.Some? ==> parent.value < |e.arena|
    requires forall id: nat {:trigger KeptNode(e.arena, e1.arena, parent, id)} ::
        KeptNode(e.arena, e1.arena, parent, id)
    requires forall c {:trigger e1.ifs[c]} | 0 <= c < indent && c < MAXD :: e1.ifs[c] == e.ifs[c]
    ensures forall id: nat {:trigger KeptNode(e.arena, e2.arena, parent, id)} :: KeptNode(e.arena, e2.arena, parent, id)
    ensures forall c {:trigger e2.ifs[c]} | 0 <= c < indent && c < MAXD :: e2.ifs[c] == e.ifs[c]
    ensures parent.Some? ==> ItemsOf(e2, parent) == ItemsOf(e1, parent)
    ensures e2.roots == e1.roots && e2.map_ == e1.map_
  {
    forall id: nat ensures KeptNode(e.arena, e2.arena, parent, id) {
      assert KeptNode(e.arena, e1.arena, parent, id) && KeptNode(e1.arena, e2.arena, target, id);
    }
    forall c | 0 <= c < indent && c < MAXD ensures e2.ifs[c] == e.ifs[c] {
      assert e1.ifs[c] == e.ifs[c];
    }
    if parent.Some? {
      assert KeptNode(e1.arena, e2.arena, target, parent.value);
    }
  }

  /** The tree of a node that held `kids` and then received `gs`. */
  lemma NodeTree(e1: Engine, e2: Engine, n: nat, kids: seq<Form>, inner: nat, gs: seq<Form>)
    requires Extended(e1, e2, inner, Some(n), gs) && !e1.arena[n].arm && e1.arena[n].items == Vals(kids)
    ensures Tree(e2.arena, Ref(n)) == List(kids + gs)
  {
    assert KeptNode(e1.arena, e2.arena, Some(n), n);
    var items := e2.arena[n].items;
    assert NodeOk(e2.arena, n);
    forall i: nat | i < |items| ensures ItemOk(e2.arena, n, false, items[i])
        && Tree(e2.arena, items[i]) == (kids + gs)[i] {
      assert ItemOk(e2.arena, n, e2.arena[n].arm, items[i]);
      if i < |kids| {
        assert items[i] == Vals(kids)[i];
      } else {
        assert Built(e2.arena, |e1.arena|, items[|kids| + (i - |kids|)], gs[i - |kids|]);
      }
    }
    var ts := match Tree(e2.arena, Ref(n)) case List(ts) => ts case _ => [];
    assert ts == kids + gs;
  }

  /** A synthesized arm that received one form collapses to it. */
  lemma ArmTree(e1: Engine, e2: Engine, d: nat, inner: nat, t: Form)
    requires Extended(e1, e2, inner, Some(d), [t]) && e1.arena[d] == DO_ARM
    ensures Tree(e2.arena, Ref(d)) == t
  {
    assert KeptNode(e1.arena, e2.arena, Some(d), d);
    assert [t][0] == t;
    assert Built(e2.arena, |e1.arena|, e2.arena[d].items[1], t);
    assert NodeOk(e2.arena, d);
  }

  /** The tree of an `if` whose first arm received `t` and which then received `gs`. */
  lemma IfTree(e1: Engine, e2: Engine, e3: Engine, n: nat, kids: seq<Form>, t: Form, indent: nat, inner: nat,
      gs: seq<Form>)
    requires Extended(e1, e2, inner, Some(n + 1), [t]) && Extended(e2, e3, indent, Some(n), gs)
    requires n + 1 < |e1.arena| && !e1.arena[n].arm
    requires e1.arena[n].items == Vals(kids) + [Ref(n + 1)] && e1.arena[n + 1] == DO_ARM
    ensures Tree(e3.arena, Ref(n)) == List(kids + [t] + gs)
  {
    assert KeptNode(e1.arena, e2.arena, Some(n + 1), n) && KeptNode(e2.arena, e3.arena, Some(n), n);
    ArmTree(e1, e2, n + 1, inner, t);
    var items := e3.arena[n].items;
    assert NodeOk(e3.arena, n);
    forall i: nat | i < |items|
      ensures ItemOk(e3.arena, n, false, items[i]) && Tree(e3.arena, items[i]) == (kids + [t] + gs)[i]
    {
      assert ItemOk(e3.arena, n, e3.arena[n].arm, items[i]);
      if i < |kids| {
        assert items[i] == Vals(kids)[i];
      } else if i == |kids| {
        assert items[i] == Ref(n + 1);
        assert Built(e2.arena, n + 1, Ref(n + 1), t);
        BuiltFrame(e2.arena, e3.arena, n + 1, Ref(n + 1), t, Some(n));
      } else {
        assert Built(e3.arena, |e2.arena|, items[|kids| + 1 + (i - |kids| - 1)], gs[i - |kids| - 1]);
      }
    }
    var ts := match Tree(e3.arena, Ref(n)) case List(ts) => ts case _ => [];
    assert ts == kids + [t] + gs;
  }

  /** An `if` line, its first arm, and the rest of its ladder make one form. */
  lemma IfClose(e: Engine, l: Line, kids: seq<Form>, e2: Engine, e3: Engine, inner: nat, t: Form, gs: seq<Form>)
    requires Good(e) && l.indent < inner && l.indent < MAXD && l.what.Stmt? && l.what.block
    requires LineNode(l.what.node, true) == List(kids) && Headed(kids, "if")
    requires Extended(Step(e, l), e2, inner, Some(|e.arena| + 1), [t])
    requires Extended(e2, e3, l.indent, Some(|e.arena|), gs)
    ensures Extended(e, e3, l.indent, Parent(e.stack, l.indent), [List(kids + [t] + gs)])
  {
    BlockLine(e, l, kids);
    IfDone(e, Step(e, l), e2, e3, l.indent, kids, inner, t, gs);
  }

  lemma IfDone(e: Engine, e1: Engine, e2: Engine, e3: Engine, indent: nat, kids: seq<Form>, inner: nat, t: Form,
      gs: seq<Form>)
    requires Good(e) && Good(e1) && indent < inner && indent < MAXD && Headed(kids, "if")
    requires Parent(e.stack, indent).Some? ==> Parent(e.stack, indent).value < |e.arena|
    requires BlockEffect(e, e1, indent, kids, Parent(e.stack, indent))
    requires e1.stack == Pop(e.stack, indent) + [Open(indent, |e.arena| + 1)]
    requires Extended(e1, e2, inner, Some(|e.arena| + 1), [t]) && Extended(e2, e3, indent, Some(|e.arena|), gs)
    ensures Extended(e, e3, indent, Parent(e.stack, indent), [List(kids + [t] + gs)])
  {
    var n, parent := |e.arena|, Parent(e.stack, indent);
    StackBack(e, e1, e2, indent, inner, n + 1);
    IfTree(e1, e2, e3, n, kids, t, indent, inner, gs);
    IfKept(e, e1, e2, e3, indent, kids, parent, inner, t, gs);
    OneMore(e, e3, indent, parent, n, List(kids + [t] + gs));
  }

  lemma IfKept(e: Engine, e1: Engine, e2: Engine, e3: Engine, indent: nat, kids: seq<Form>, parent: Option<nat>,
      inner: nat, t: Form, gs: seq<Form>)
    requires Good(e) && indent < inner && Headed(kids, "if") && (parent.Some? ==> parent.value < |e.arena|)
    requires BlockEffect(e, e1, indent, kids, parent)
    requires Extended(e1, e2, inner, Some(|e.arena| + 1), [t]) && Extended(e2, e3, indent, Some(|e.arena|), gs)
    ensures KeptFrom(e, e3, indent, parent) && ItemsOf(e3, parent) == ItemsOf(e1, parent)
    ensures parent.Some? ==> e3.roots == e.roots && e3.map_ == e.map_
  {
    KeptThrough(e, e1, e2, indent, parent, Some(|e.arena| + 1), inner, [t]);
    KeptThrough(e, e2, e3, indent, parent, Some(|e.arena|), indent, gs);
  }

  ghost predicate KeptFrom(e: Engine, e': Engine, indent: nat, parent: Option<nat>) {
    && |e.ifs| == |e'.ifs| == MAXD && |e.arena| <= |e'.arena| && e'.err == e.err
    && (forall id: nat {:trigger KeptNode(e.arena, e'.arena, parent, id)} :: KeptNode(e.arena, e'.arena, parent, id))
    && (forall c {:trigger e'.ifs[c]} | 0 <= c < indent && c < MAXD :: e'.ifs[c] == e.ifs[c])
  }

  /** One new node was added to `parent`. */
  lemma OneMore(e: Engine, e': Engine, indent: nat, parent: Option<nat>, n: nat, g: Form)
    requires Good(e) && Good(e') && KeptFrom(e, e', indent, parent) && Pop(e'.stack, indent) == Pop(e.stack, indent)
    requires (parent.Some? ==> parent.value < |e.arena| && e'.roots == e.roots && e'.map_ == e.map_)
    requires ItemsOf(e', parent) == ItemsOf(e, parent) + [Ref(n)] && |e.arena| <= n < |e'.arena|
        && Tree(e'.arena, Ref(n)) == g
    ensures Extended(e, e', indent, parent, [g])
  {
    assert Built(e'.arena, |e.arena|, Ref(n), g);
  }

  /** The first arm leaves the `if` in the table of its column. */
  lemma IfStays(e: Engine, l: Line, kids: seq<Form>, e2: Engine, inner: nat, t: Form)
    requires Good(e) && l.indent < inner && l.indent < MAXD && l.what.Stmt? && l.what.block
    requires LineNode(l.what.node, true) == List(kids) && Headed(kids, "if")
    requires Extended(Step(e, l), e2, inner, Some(|e.arena| + 1), [t])
    ensures e2.ifs[l.indent] == Some(|e.arena|)
    ensures Pop(e2.stack, l.indent) == Pop(e.stack, l.indent)
  {
    BlockLine(e, l, kids);
    StackBack(e, Step(e, l), e2, l.indent, inner, |e.arena| + 1);
    assert e2.ifs[l.indent] == Step(e, l).ifs[l.indent];
  }

  function CondItems(cond: Option<Form>): seq<Form> {
    if cond.Some? then [cond.value] else []
  }

  ghost predicate ArmEffect(e: Engine, e1: Engine, indent: nat, cond: Option<Form>, n: nat)
    requires n < |e.arena|
  {
    var d := |e.arena|;
    && |e1.arena| == d + 1 && |e1.ifs| == |e.ifs| == MAXD && e1.roots == e.roots && e1.map_ == e.map_ && e1.err == e.err
    && e1.arena[n].items == e.arena[n].items + Vals(CondItems(cond)) + [Ref(d)]
    && e1.arena[d] == DO_ARM
    && (forall id: nat {:trigger KeptNode(e.arena, e1.arena, Some(n), id)} :: KeptNode(e.arena, e1.arena, Some(n), id))
    && (forall c {:trigger e1.ifs[c]} | 0 <= c < indent && c < MAXD :: e1.ifs[c] == e.ifs[c])
    && (cond.Some? ==> e1.ifs == e.ifs)
  }

  lemma ArmLine(e: Engine, indent: nat, number: nat, cond: Option<Form>, n: nat)
    requires Good(e) && indent < MAXD && e.ifs[indent] == Some(n)
    ensures n < |e.arena| && ArmEffect(e, StepArm(e, indent, number, cond), indent, cond, n)
    ensures Good(StepArm(e, indent, number, cond))
    ensures StepArm(e, indent, number, cond).stack == Pop(e.stack, indent) + [Open(indent, |e.arena|)]
  {
    StepArmGood(e, indent, number, cond);
    PopOk(e.stack, indent, |e.arena|);
    StackRoom(Pop(e.stack, indent), indent, |e.arena|);
    assert IfOk(e.arena, e.ifs[indent]);
  }

  lemma GoodParts(e: Engine)
    requires Good(e)
    ensures Upward(e.arena) && |e.ifs| == MAXD
  {
  }

  /** The arm's condition and its statements are what the `if` gains. */
  lemma ArmItems(e: Engine, e1: Engine, e2: Engine, cond: Option<Form>, n: nat, d: nat, t: Form)
    requires n < |e.arena| == d && d < |e1.arena| <= |e2.arena| && KeptNode(e1.arena, e2.arena, Some(d), n)
    requires e1.arena[n].items == e.arena[n].items + Vals(CondItems(cond)) + [Ref(d)]
    requires Built(e2.arena, d, Ref(d), t) && Upward(e2.arena)
    ensures var gs := CondItems(cond) + [t];
            && |e2.arena[n].items| == |e.arena[n].items| + |gs| && e.arena[n].items <= e2.arena[n].items
            && forall i: nat {:trigger gs[i]} | i < |gs| ::
                 Built(e2.arena, d, e2.arena[n].items[|e.arena[n].items| + i], gs[i])
  {
    var gs := CondItems(cond) + [t];
    var m := |e.arena[n].items|;
    forall i: nat | i < |gs| ensures Built(e2.arena, d, e2.arena[n].items[m + i], gs[i]) {
      if i < |CondItems(cond)| {
        assert e1.arena[n].items[m + i] == Vals(CondItems(cond))[i];
      }
    }
  }

  /** An `elif` or `else` line and the form under it extend the `if` of that column. */
  lemma ArmClose(e: Engine, e1: Engine, e2: Engine, indent: nat, cond: Option<Form>, n: nat, inner: nat, t: Form)
    requires Good(e) && indent < inner && indent < MAXD && n < |e.arena| && !e.arena[n].arm
    requires ArmEffect(e, e1, indent, cond, n) && e1.stack == Pop(e.stack, indent) + [Open(indent, |e.arena|)]
    requires Extended(e1, e2, inner, Some(|e.arena|), [t])
    ensures Extended(e, e2, indent, Some(n), CondItems(cond) + [t])
    ensures cond.Some? && e.ifs[indent] == Some(n) ==> e2.ifs[indent] == Some(n)
  {
    hide Pop, Tree, Upward, StackOk, Good;
    var d := |e.arena|;
    var gs := CondItems(cond) + [t];
    GoodParts(e2);
    StackBack(e, e1, e2, indent, inner, d);
    KeptThrough(e, e1, e2, indent, Some(n), Some(d), inner, [t]);
    ArmTree(e1, e2, d, inner, t);
    assert KeptNode(e1.arena, e2.arena, Some(d), n);
    ArmItems(e, e1, e2, cond, n, d, t);
    if cond.Some? && e.ifs[indent] == Some(n) {
      assert e2.ifs[indent] == e1.ifs[indent];
    }
  }
}
