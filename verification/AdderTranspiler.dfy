/** The transpiler as it runs: the block engine's tables updated in place, line by line. */
module AdderTranspiler {
  import opened Wrappers
  import opened AdderForms
  import opened AdderBlocks
  import opened AdderReader
  import opened AdderOutput
  import opened AdderSource
  import Scan = AdderScanners
  import Cursor = AdderCursor

  class BlockEngine {
    var arena: seq<Node>
    var stack: seq<Open>
    const ifs: array<Option<nat>>
    var roots: seq<Item>
    var map_: seq<nat>
    var err: Option<Diagnosis>
    var wraps: seq<Wrap>

    ghost function State(): Engine
      reads this, ifs
    {
      Engine(arena, stack, ifs[..], roots, map_, err, wraps)
    }

    constructor ()
      ensures fresh(ifs) && State() == Start()
    {
      arena, stack, roots, map_, err, wraps := [], [], [], [], None, [];
      ifs := new Option<nat>[MAXD](_ => None);
      new;
      assert ifs[..] == Start().ifs;
    }

    method PopBlocks(indent: nat)
      modifies this`stack
      ensures stack == Pop(old(stack), indent)
    {
      while stack != [] && indent <= Last(stack).ind
        invariant Pop(stack, indent) == Pop(old(stack), indent)
        decreases |stack|
      {
        stack := Front(stack);
      }
    }

    /** Open a block at `indent`, room permitting. */
    method PushBlock(indent: nat, node: nat)
      modifies this`stack
      ensures stack == Push(old(stack), Open(indent, node))
    {
      if |stack| < MAXD {
        stack := stack + [Open(indent, node)];
      }
    }

    method SyntaxError(line: nat, what: string)
      modifies this`roots, this`map_, this`err
      ensures State() == Fail(old(State()), line, what)
    {
      var msg := "adder line " + Decimal(line) + ": " + what;
      roots := roots + [Val(List([Atom("raise"), Atom("'syntax-error"), Atom("\"" + msg + "\"")]))];
      map_ := map_ + [line];
      if err.None? {
        err := Some(Diagnosis(line, msg));
      }
    }

    /** `als_push` onto a node, and the note of a synthesized arm. */
    method PushArm(n: nat)
      requires n < |arena|
      modifies this`arena, this`wraps
      ensures var d := |old(arena)|; State() == AddArm(NewNode(old(State()), DO_ARM), n, d)
    {
      arena := arena + [DO_ARM];
      wraps := wraps + [Wrap(n, |arena[n].items|)];
      arena := AddItems(arena, n, [Ref(|arena| - 1)]);
    }

    method Arm(indent: nat, number: nat, cond: Option<Form>)
      requires Good(State())
      modifies this, ifs
      ensures State() == StepArm(old(State()), indent, number, cond)
    {
      hide Good;
      ghost var e := State();
      IfTarget(e, Column(indent));
      PopBlocks(indent);
      var target := ifs[Column(indent)];
      if target.Some? {
        var n := target.value;
        if cond.Some? {
          arena := AddItems(arena, n, [Val(cond.value)]);
        }
        PushArm(n);
        PushBlock(indent, |arena| - 1);
        if cond.None? {
          ifs[Column(indent)] := None;
        }
      } else {
        SyntaxError(number, "`" + (if cond.None? then "else"
            else "elif") + ":` has no matching `if` at this indentation");
      }
    }

    lemma IfTarget(e: Engine, c: nat)
      requires Good(e) && c < MAXD
      ensures |e.ifs| == MAXD && (e.ifs[c].Some? ==> e.ifs[c].value < |e.arena|)
    {
      assert IfOk(e.arena, e.ifs[c]);
    }

    method AttachItem(it: Item, line: nat)
      requires stack != [] ==> Last(stack).node < |arena|
      modifies this`arena, this`roots, this`map_
      ensures State() == Attach(old(State()), it, line)
    {
      if stack == [] {
        roots, map_ := roots + [it], map_ + [line];
      } else {
        arena := AddItems(arena, Last(stack).node, [it]);
      }
    }

    method OpenBlock(indent: nat, number: nat, kids: seq<Form>)
      requires Good(State())
      modifies this, ifs
      ensures State() == StepBlock(old(State()), indent, number, kids)
    {
      ghost var e := State();
      StackTop(e);
      OpenedTop(e, indent, kids);
      hide Good, StepBlock;
      var n := |arena|;
      NoteBlock(indent, kids);
      AttachItem(Ref(n), number);
      PushBlock(indent, if Headed(kids, "if") then n + 1 else n);
      StepBlockIs(e, indent, number, kids);
    }

    /** The new node, the `if` table, and the arm that an `if` gets. */
    method NoteBlock(indent: nat, kids: seq<Form>)
      requires Good(State())
      modifies this`arena, this`wraps, ifs
      ensures State() == Opened(old(State()), indent, kids)
    {
      StackTop(State());
      hide Good;
      var n := |arena|;
      arena := arena + [Node(false, Vals(kids))];
      ifs[Column(indent)] := None;
      if Headed(kids, "if") || Headed(kids, "when") || Headed(kids, "unless") {
        ifs[Column(indent)] := Some(n);
      }
      if Headed(kids, "if") {
        PushArm(n);
      }
    }

    /** One logical line. */
    method TakeLine(l: Line)
      requires Good(State())
      modifies this, ifs
      ensures Good(State()) && State() == Step(old(State()), l)
    {
      hide Good, StepArm, StepBlock;
      StepGood(State(), l);
      match l.what
      case Else => Arm(l.indent, l.number, None);
      case Elif(c) => Arm(l.indent, l.number, Some(c));
      case Stmt(node, block) =>
        ghost var e := State();
        PopGood(e, l.indent);
        PopBlocks(l.indent);
        assert State() == e.(stack := Pop(e.stack, l.indent));
        var f := LineNode(node, block);
        if block {
          OpenBlock(l.indent, l.number, f.kids);
        } else {
          StackTop(State());
          ifs[Column(l.indent)] := None;
          AttachItem(Val(f), l.number);
        }
    }

    /** The late pass over the noted arms, in order. */
    method CollapseArms()
      modifies this`arena
      ensures arena == Collapse(old(arena), wraps)
    {
      var k := 0;
      while k < |wraps|
        invariant 0 <= k <= |wraps|
        invariant Collapse(arena, wraps[k..]) == Collapse(old(arena), wraps)
      {
        assert wraps[k..][1..] == wraps[k + 1..];
        arena := CollapseOne(arena, wraps[k]);
        k := k + 1;
      }
      assert wraps[k..] == [];
    }
  }

  lemma OpenedTop(e: Engine, indent: nat, kids: seq<Form>)
    requires Good(e)
    ensures var o := Opened(e, indent, kids); o.stack == e.stack && (o.stack != [] ==> Last(o.stack).node < |o.arena|)
  {
    OpenedGood(e, indent, kids);
    StackTop(Opened(e, indent, kids));
  }

  lemma StepBlockIs(e: Engine, indent: nat, number: nat, kids: seq<Form>)
    requires Good(e)
    ensures var o, n := Opened(e, indent, kids), |e.arena|;
            && (o.stack != [] ==> Last(o.stack).node < |o.arena|)
            && var a := Attach(o, Ref(n), number);
               StepBlock(e, indent, number, kids)
                   == a.(stack := Push(a.stack, Open(indent, if Headed(kids, "if") then n + 1 else n)))
  {
    OpenedTop(e, indent, kids);
  }

  /** `als_line_node`. */
  method LineForm(text: string) returns (f: Form)
    ensures f == ReadLine(text)
  {
    hide ReadForms;
    var r := new Cursor.LineReader(text);
    assert text[0..] == text;
    var fs := r.Forms("");
    f := NodeOf(fs);
  }

  /** What the trimmed text of a logical line says. */
  method BodyOf(body: string) returns (w: What)
    ensures w == ReadBody(body)
  {
    hide ReadLine, OpensBlock, InlineColon;
    var t, opens := Scan.TrimColon(body);
    if opens && t == "else" {
      return Else;
    }
    if opens && StartsWith(t, "elif") {
      var cond := LineForm(SkipBlanks(t[4..], false));
      return Elif(cond);
    }
    var colon := -1;
    if !opens {
      colon := Scan.FindColon(t);
    }
    if colon >= 0 {
      var head := LineForm(t[..colon]);
      var tail := LineForm(SkipBlanks(t[colon + 1..], false));
      return Stmt(List((if head.List? then head.kids else [head]) + [tail]), false);
    }
    var node := LineForm(t);
    return Stmt(node, opens);
  }

  /** Pull in further lines while brackets or a string are open. */
  method JoinLine(lines: seq<string>, i: nat) returns (raw: string, used: nat)
    requires i < |lines|
    ensures (raw, used) == Join(lines[i], lines[i + 1..])
  {
    hide Depth, Strip;
    raw, used := lines[i], 0;
    while true
      invariant i + 1 + used <= |lines|
      invariant var j := Join(raw, lines[i + 1 + used..]); Join(lines[i], lines[i + 1..]) == (j.0, used + j.1)
      decreases |lines| - used
    {
      var text := Scan.StripComment(raw);
      var depth, inStr := Scan.BracketDepth(text, false);
      var rest := lines[i + 1 + used..];
      if rest == [] || (!inStr && depth <= 0) {
        return;
      }
      assert rest[1..] == lines[i + 1 + used + 1..];
      raw := if inStr then raw + "\n" + rest[0] else raw + " " + SkipBlanks(rest[0], false);
      used := used + 1;
    }
  }

  class Transpiler {
    const blocks: BlockEngine
    var style: Option<char>
    var mixed: bool

    ghost function State(): Source
      reads this, blocks, blocks.ifs
    {
      Source(blocks.State(), style, mixed)
    }

    constructor ()
      ensures fresh(blocks) && fresh(blocks.ifs) && State() == Source(Start(), None, false)
    {
      blocks := new BlockEngine();
      style, mixed := None, false;
    }

    method FailLine(number: nat, what: string)
      requires Good(blocks.State())
      modifies blocks
      ensures State() == FailAt(old(State()), number, what)
    {
      blocks.SyntaxError(number, what);
    }

    /** Tabs and spaces must not be mixed; the mix is reported once. */
    method CheckLead(lead: string, number: nat)
      requires Good(blocks.State())
      modifies this, blocks
      ensures Good(blocks.State()) && State() == CheckIndent(old(State()), lead, number)
    {
      hide Good;
      ghost var st := State();
      if lead == "" || mixed {
        return;
      }
      var tab, sp := '\t' in lead, ' ' in lead;
      if style.None? && !(sp && tab) {
        style := Some(if tab then '\t' else ' ');
      }
      if (sp && tab) || (style.Some? && if style.value == ' ' then tab else sp) {
        FailGood(blocks.State(), number, "indentation mixes tabs and spaces; pick one");
        FailLine(number, "indentation mixes tabs and spaces; pick one");
        mixed := true;
      }
    }

    method ProcessLine(raw: string, number: nat)
      requires Good(blocks.State())
      modifies this, blocks, blocks.ifs
      ensures Good(blocks.State()) && State() == Process(old(State()), raw, number)
    {
      hide Good, Strip, ReadBody, CheckIndent, Step;
      var text := Scan.StripComment(raw);
      var n := Indent(text);
      var body := TrimRight(text[n..], true);
      if body == "" {
        return;
      }
      CheckLead(text[..n], number);
      var w := BodyOf(body);
      blocks.TakeLine(Line(n, number, w));
    }

    method LogicalLine(raw: string, number: nat)
      requires Good(blocks.State())
      modifies this, blocks, blocks.ifs
      ensures Good(blocks.State()) && State() == Logical(old(State()), raw, number)
    {
      hide Good, Strip, Depth, Process;
      var text := Scan.StripComment(raw);
      var depth, inStr := Scan.BracketDepth(text, false);
      if inStr {
        FailLine(number, "unterminated string literal - reached end of input");
      } else if depth > 0 {
        FailLine(number, "unterminated ( [ or { - reached end of input");
      } else if depth < 0 {
        FailLine(number, "unexpected ) ] or } with no matching opener");
      } else {
        ProcessLine(raw, number);
      }
    }

    /** The whole source, line by line. */
    method ReadAll(lines: seq<string>)
      requires Good(blocks.State())
      modifies this, blocks, blocks.ifs
      ensures Good(blocks.State()) && State() == ReadLines(old(State()), lines, 1)
    {
      hide Good, Logical, Join;
      var i, number := 0, 1;
      assert lines[0..] == lines;
      while i < |lines|
        invariant 0 <= i <= |lines| && Good(blocks.State())
        invariant ReadLines(State(), lines[i..], number) == ReadLines(old(State()), lines, 1)
        decreases |lines| - i
      {
        ghost var rest := lines[i..];
        var raw, used := JoinLine(lines, i);
        assert rest[0] == lines[i] && rest[1..] == lines[i + 1..];
        JoinUsed(lines[i], lines[i + 1..]);
        assert rest[1 + used..] == lines[i + 1 + used..];
        LogicalLine(raw, number);
        i, number := i + 1 + used, number + 1 + used;
      }
    }

    lemma JoinUsed(raw: string, rest: seq<string>)
      ensures Join(raw, rest).1 <= |rest|
    {
    }
  }

  /** `als_to_sexpr_mapped`: read every line, collapse the arms, write the roots. */
  method TranspileText(src: string) returns (out: Output)
    ensures out == Transpile(src)
  {
    hide Good, ReadLines, Emit;
    AdderSource.StartGood();
    var t := new Transpiler();
    t.ReadAll(SplitLines(src, ""));
    ghost var e := t.blocks.State();
    FinishGood(e);
    t.blocks.CollapseArms();
    var forms := WriteRoots(e, t.blocks.arena, t.blocks.roots);
    out := Output(forms, t.blocks.map_, t.blocks.err);
  }

  method WriteRoots(ghost e: Engine, arena: seq<Node>, roots: seq<Item>) returns (forms: seq<Form>)
    requires Good(e) && arena == Collapse(e.arena, e.wraps) && roots == e.roots
    ensures forms == Finish(e)
  {
    FinishGood(e);
    forms := [];
    var k := 0;
    while k < |roots|
      invariant 0 <= k <= |roots| && |forms| == k
      invariant forms == Finish(e)[..k]
    {
      assert RootOk(e.arena, e.roots[k]);
      forms := forms + [Emit(arena, roots[k])];
      k := k + 1;
    }
  }

  lemma EmitNext(text: string, fs: seq<Form>, k: nat)
    requires k < |fs|
    ensures text + EmitAll(fs[k..]) == text + EmitText(fs[k]) + "\n" + EmitAll(fs[k + 1..])
  {
    hide EmitText;
    var rest := fs[k..];
    assert rest[0] == fs[k] && rest[1..] == fs[k + 1..];
    assert EmitAll(rest) == EmitText(rest[0]) + "\n" + EmitAll(rest[1..]);
  }

  lemma EmitWhole(fs: seq<Form>)
    ensures "" + EmitAll(fs[0..]) == EmitAll(fs) && EmitAll(fs[|fs|..]) == ""
  {
    assert fs[0..] == fs && fs[|fs|..] == [];
  }

  /** `als_to_sexpr_mapped`: the text, one root after the other, each with a line feed. */
  method GenerateText(src: string) returns (out: Generated)
    ensures out == Generate(src)
  {
    hide Transpile, EmitText, EmitAll;
    var trees := TranspileText(src);
    EmitWhole(trees.forms);
    var text, k := "", 0;
    while k < |trees.forms|
      invariant k <= |trees.forms| && text + EmitAll(trees.forms[k..]) == EmitAll(trees.forms)
    {
      EmitNext(text, trees.forms, k);
      text := text + EmitText(trees.forms[k]) + "\n";
      k := k + 1;
    }
    return Generated(text, trees.map_, trees.err);
  }
}
